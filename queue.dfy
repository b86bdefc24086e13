/** The per-queue engine of queue/queue.go.

    The Go engine runs one `dispatch` goroutine per queue that receives three
    kinds of events over channels (a new message, a new waiting reader, an
    expired reader) and applies them one at a time to two linked lists: the
    message backlog and the list of waiting readers. Here the goroutine and
    its channels are replaced by sequential event application.

    The first half of the module is the specification: the engine's state as
    a value (`Snapshot`), one function per event, and the lemmas that state
    what the events promise. The second half is the class `Engine`, whose
    fields the methods update in place as `dispatch` does, each method proved
    to move the state exactly as the corresponding function says. */
module Queue {
  import opened Errors
  import opened Lists

  /** Identifies one waiting `Get` call (a `*getWaitStatus` in the source). */
  type WaiterId = nat

  /** One send `ws.msgCh <- message` performed by `deliverMessages`. */
  datatype Delivery = Delivery(waiter: WaiterId, message: string)

  /** The engine's state: the backlog (front first), the waiting readers
      (oldest first), the identifier the next reader will get, and the log of
      every delivery made so far. */
  datatype Snapshot = Snapshot(
    messages: seq<string>,
    waiters: seq<WaiterId>,
    nextId: WaiterId,
    log: seq<Delivery>)

  const Initial := Snapshot([], [], 0, [])

  /** The messages handed to readers, in delivery order. */
  function Sent(log: seq<Delivery>): (r: seq<string>)
    ensures |r| == |log| && forall i :: 0 <= i < |log| ==> r[i] == log[i].message
  {
    seq(|log|, i requires 0 <= i < |log| => log[i].message)
  }

  /** The readers served, in delivery order. */
  function Served(log: seq<Delivery>): (r: seq<WaiterId>)
    ensures |r| == |log| && forall i :: 0 <= i < |log| ==> r[i] == log[i].waiter
  {
    seq(|log|, i requires 0 <= i < |log| => log[i].waiter)
  }

  /** Every message accepted so far: those delivered, then those still queued. */
  function Stream(s: Snapshot): seq<string>
  {
    Sent(s.log) + s.messages
  }

  /** Every reader that is still registered or was served, in arrival order. */
  function Arrivals(s: Snapshot): seq<WaiterId>
  {
    Served(s.log) + s.waiters
  }

  predicate Increasing(a: seq<WaiterId>)
  {
    forall i, j :: 0 <= i < j < |a| ==> a[i] < a[j]
  }

  /** The engine's invariant: the backlog never exceeds its capacity, and
      readers are registered, served and kept in strictly increasing arrival
      order, so no reader is served twice and none is served out of turn. */
  predicate Inv(s: Snapshot, maxMessageNum: int)
  {
    && (s.messages == [] || |s.messages| <= maxMessageNum)
    && Increasing(Arrivals(s))
    && forall i :: 0 <= i < |Arrivals(s)| ==> Arrivals(s)[i] < s.nextId
  }

  /** After every event a message and a reader never wait side by side. */
  predicate Quiescent(s: Snapshot)
  {
    s.messages == [] || s.waiters == []
  }

  // ---------------------------------------------------------------------
  // deliverMessages (queue/queue.go:184-188)

  /** One iteration of the delivery loop: the oldest reader gets the oldest
      message. */
  function DeliverOne(s: Snapshot): (r: Snapshot)
    requires s.waiters != [] && s.messages != []
  {
    var (w, ws) := Pop(s.waiters);
    var (m, ms) := Pop(s.messages);
    Snapshot(ms, ws, s.nextId, s.log + [Delivery(w, m)])
  }

  /** The delivery loop run until one of the two lists is empty. */
  function Deliver(s: Snapshot): (r: Snapshot)
    ensures Quiescent(r)
    ensures r.nextId == s.nextId
    ensures |r.messages| <= |s.messages| && |r.waiters| <= |s.waiters|
    decreases |s.messages|
  {
    if Empty(s.waiters) || Empty(s.messages) then s else Deliver(DeliverOne(s))
  }

  function Min(a: nat, b: nat): nat
  {
    if a <= b then a else b
  }

  /** Pairs `ws[i]` with `ms[i]`. */
  function Zip(ws: seq<WaiterId>, ms: seq<string>): (r: seq<Delivery>)
    requires |ws| == |ms|
    ensures |r| == |ws|
  {
    if ws == [] then [] else [Delivery(ws[0], ms[0])] + Zip(ws[1..], ms[1..])
  }

  /** The i-th delivery of a pairing joins the i-th reader and the i-th message. */
  lemma {:induction false} ZipAt(ws: seq<WaiterId>, ms: seq<string>, i: nat)
    requires |ws| == |ms| && i < |ws|
    ensures Zip(ws, ms)[i] == Delivery(ws[i], ms[i])
  {
    if i > 0 {
      ZipAt(ws[1..], ms[1..], i - 1);
    }
  }

  lemma LogAppend(a: seq<Delivery>, b: seq<Delivery>)
    ensures Sent(a + b) == Sent(a) + Sent(b)
    ensures Served(a + b) == Served(a) + Served(b)
  {
  }

  /** One delivery moves a reader from the waiting list into the log and a
      message from the backlog into the log, losing and reordering nothing. */
  lemma DeliverOneConserves(s: Snapshot)
    requires s.waiters != [] && s.messages != []
    ensures Arrivals(DeliverOne(s)) == Arrivals(s)
    ensures Stream(DeliverOne(s)) == Stream(s)
    ensures DeliverOne(s).nextId == s.nextId
    ensures |DeliverOne(s).messages| == |s.messages| - 1
  {
    var d := Delivery(s.waiters[0], s.messages[0]);
    LogAppend(s.log, [d]);
    assert Served(s.log + [d]) + s.waiters[1..] == Served(s.log) + s.waiters;
    assert Sent(s.log + [d]) + s.messages[1..] == Sent(s.log) + s.messages;
  }

  /** Delivery runs to a state where a message and a reader never coexist,
      and moves items between the lists and the log without losing,
      duplicating or reordering any. */
  lemma {:induction false} DeliverConserves(s: Snapshot)
    ensures Quiescent(Deliver(s))
    ensures Arrivals(Deliver(s)) == Arrivals(s)
    ensures Stream(Deliver(s)) == Stream(s)
    ensures Deliver(s).nextId == s.nextId
    ensures |Deliver(s).messages| <= |s.messages|
    decreases |s.messages|
  {
    if !(Empty(s.waiters) || Empty(s.messages)) {
      DeliverOneConserves(s);
      DeliverConserves(DeliverOne(s));
    }
  }

  /** Strict FIFO pairing: the i-th oldest reader receives the i-th oldest
      message for every i below the shorter length, and the unmatched
      suffixes stay in their original order. */
  lemma {:induction false} DeliverPairs(s: Snapshot)
    ensures var k := Min(|s.messages|, |s.waiters|);
      Deliver(s) == Snapshot(s.messages[k..], s.waiters[k..], s.nextId,
                             s.log + Zip(s.waiters[..k], s.messages[..k]))
    decreases |s.messages|
  {
    if Empty(s.waiters) || Empty(s.messages) {
      assert Zip([], []) == [];
    } else {
      var t := DeliverOne(s);
      DeliverPairs(t);
      PairsStep(s);
    }
  }

  /** The step of DeliverPairs: the pairing of the state after one delivery,
      with that delivery in front, is the pairing of the state before. */
  lemma PairsStep(s: Snapshot)
    requires s.waiters != [] && s.messages != []
    ensures var t := DeliverOne(s);
      var k := Min(|s.messages|, |s.waiters|);
      var j := Min(|t.messages|, |t.waiters|);
      && j == k - 1
      && t.messages[j..] == s.messages[k..]
      && t.waiters[j..] == s.waiters[k..]
      && t.log + Zip(t.waiters[..j], t.messages[..j])
         == s.log + Zip(s.waiters[..k], s.messages[..k])
  {
    var t := DeliverOne(s);
    var d := Delivery(s.waiters[0], s.messages[0]);
    assert t == Snapshot(s.messages[1..], s.waiters[1..], s.nextId, s.log + [d]);
    var k := Min(|s.messages|, |s.waiters|);
    var ws, ms := s.waiters[..k], s.messages[..k];
    var ws', ms' := t.waiters[..k - 1], t.messages[..k - 1];
    assert ws[1..] == ws' && ms[1..] == ms';
    ZipCons(ws, ms);
    var z' := Zip(ws', ms');
    assert Zip(ws, ms) == [d] + z';
    assert (s.log + [d]) + z' == s.log + ([d] + z');
  }

  lemma ZipCons(ws: seq<WaiterId>, ms: seq<string>)
    requires |ws| == |ms| && ws != []
    ensures Zip(ws, ms) == [Delivery(ws[0], ms[0])] + Zip(ws[1..], ms[1..])
  {
  }

  /** Delivery keeps the engine's invariant. */
  lemma DeliverInv(s: Snapshot, maxMessageNum: int)
    requires Inv(s, maxMessageNum)
    ensures Inv(Deliver(s), maxMessageNum) && Quiescent(Deliver(s))
  {
    DeliverConserves(s);
  }

  /** On a state where nothing can be matched, delivery does nothing. */
  lemma DeliverQuiescent(s: Snapshot)
    requires Quiescent(s)
    ensures Deliver(s) == s
  {
  }

  // ---------------------------------------------------------------------
  // The three events handled by dispatch (queue/queue.go:148-181)

  /** A new message (queue/queue.go:154-166): rejected at the capacity,
      otherwise appended; then delivery runs, after a refusal as well. A
      refusal on a quiescent state, the only kind dispatch reaches, leaves
      it as it was. */
  function OnPut(s: Snapshot, maxMessageNum: int, message: string): (r: (Snapshot, Outcome))
    ensures r.1 == Pass <==> |s.messages| < maxMessageNum
    ensures r.1 != Pass ==> r.1 == Fail(TooManyItems) && (Quiescent(s) ==> r.0 == s)
    ensures Quiescent(r.0) && r.0.nextId == s.nextId
  {
    if Len(s.messages) >= maxMessageNum then (Deliver(s), Fail(TooManyItems))
    else (Deliver(s.(messages := Push(s.messages, message))), Pass)
  }

  /** A new waiting reader (queue/queue.go:167-172): appended with a fresh
      identifier; then delivery runs. */
  function OnRegister(s: Snapshot): (r: (Snapshot, WaiterId))
    ensures r.1 == s.nextId && r.0.nextId == s.nextId + 1
    ensures Quiescent(r.0) && |r.0.messages| <= |s.messages|
  {
    (Deliver(s.(waiters := Push(s.waiters, s.nextId), nextId := s.nextId + 1)), s.nextId)
  }

  /** Removes `w` from the list; `list.Remove` of an element no longer in
      the list leaves the list as it is. */
  function Without(ws: seq<WaiterId>, w: WaiterId): (r: seq<WaiterId>)
    ensures w !in r
    ensures forall x :: x in r ==> x in ws
    ensures |r| <= |ws|
  {
    if ws == [] then []
    else if ws[0] == w then Without(ws[1..], w)
    else [ws[0]] + Without(ws[1..], w)
  }

  /** An expired reader (queue/queue.go:173-178): it is told `NoMessage`
      and removed from the waiting list. */
  function OnExpire(s: Snapshot, w: WaiterId): (r: (Snapshot, Err))
    ensures r.1 == NoMessage
    ensures w !in r.0.waiters
    ensures r.0.messages == s.messages && r.0.log == s.log && r.0.nextId == s.nextId
  {
    (s.(waiters := Without(s.waiters, w)), NoMessage)
  }

  lemma {:induction false} WithoutAbsent(ws: seq<WaiterId>, w: WaiterId)
    requires w !in ws
    ensures Without(ws, w) == ws
  {
    if ws != [] {
      WithoutAbsent(ws[1..], w);
    }
  }

  /** Removing a reader that occurs once takes out that one entry and keeps
      the others in order. */
  lemma {:induction false} WithoutAt(ws: seq<WaiterId>, w: WaiterId, i: nat)
    requires i < |ws| && ws[i] == w
    requires forall j :: 0 <= j < |ws| && j != i ==> ws[j] != w
    ensures Without(ws, w) == ws[..i] + ws[i + 1..]
  {
    if i == 0 {
      assert w !in ws[1..];
      WithoutAbsent(ws[1..], w);
    } else {
      WithoutAt(ws[1..], w, i - 1);
      assert ws[..i] == [ws[0]] + ws[1..][..i - 1];
    }
  }

  /** Dropping one entry of an increasing sequence below a bound keeps it
      increasing and below the bound. */
  lemma IncreasingRemove(a: seq<WaiterId>, k: nat, bound: nat)
    requires Increasing(a) && k < |a|
    requires forall i :: 0 <= i < |a| ==> a[i] < bound
    ensures var b := a[..k] + a[k + 1..];
      Increasing(b) && forall i :: 0 <= i < |b| ==> b[i] < bound
  {
    var b := a[..k] + a[k + 1..];
    forall i | 0 <= i < |b| ensures b[i] == a[if i < k then i else i + 1] {
    }
  }

  /** Put below the capacity is accepted: the message joins the back of
      the backlog, or goes straight to the oldest waiting reader, and the
      invariants hold after delivery. Put at the capacity is refused and
      changes nothing, so the backlog never overshoots its bound. */
  lemma PutSpec(s: Snapshot, maxMessageNum: int, message: string)
    requires Inv(s, maxMessageNum) && Quiescent(s)
    ensures var (t, err) := OnPut(s, maxMessageNum, message);
      && (|s.messages| >= maxMessageNum ==> t == s && err == Fail(TooManyItems))
      && (|s.messages| < maxMessageNum ==>
            && err == Pass
            && Inv(t, maxMessageNum) && Quiescent(t)
            && Stream(t) == Stream(s) + [message]
            && t.nextId == s.nextId
            && (s.waiters == [] ==>
                  t.messages == s.messages + [message] && t.waiters == [] && t.log == s.log)
            && (s.waiters != [] ==>
                  t.messages == [] && t.waiters == s.waiters[1..]
                  && t.log == s.log + [Delivery(s.waiters[0], message)]))
  {
    if |s.messages| < maxMessageNum {
      var p := s.(messages := s.messages + [message]);
      assert Arrivals(p) == Arrivals(s);
      assert Inv(p, maxMessageNum);
      DeliverInv(p, maxMessageNum);
      DeliverConserves(p);
      DeliverPairs(p);
      if s.waiters != [] {
        assert p.messages == [message];
        assert Zip(p.waiters[..1], p.messages[..1]) == [Delivery(s.waiters[0], message)];
      }
    }
  }

  lemma RegisterSpec(s: Snapshot, maxMessageNum: int)
    requires Inv(s, maxMessageNum) && Quiescent(s)
    ensures var (t, w) := OnRegister(s);
      && w == s.nextId && w !in Arrivals(s)
      && t.nextId == s.nextId + 1
      && Inv(t, maxMessageNum) && Quiescent(t)
      && Stream(t) == Stream(s)
      && Arrivals(t) == Arrivals(s) + [w]
      && (s.messages == [] ==>
            t.waiters == s.waiters + [w] && t.messages == [] && t.log == s.log)
      && (s.messages != [] ==>
            t.waiters == [] && t.messages == s.messages[1..]
            && t.log == s.log + [Delivery(w, s.messages[0])])
  {
    var w := s.nextId;
    var p := s.(waiters := s.waiters + [w], nextId := w + 1);
    assert Arrivals(p) == Arrivals(s) + [w];
    assert Inv(p, maxMessageNum);
    DeliverInv(p, maxMessageNum);
    DeliverConserves(p);
    DeliverPairs(p);
    if s.messages != [] {
      assert p.waiters == [w];
      assert Zip(p.waiters[..1], p.messages[..1]) == [Delivery(w, s.messages[0])];
    }
  }

  /** Expiry answers `NoMessage`, leaves the backlog and the log alone, and
      takes out only `w`, keeping the others in order; when `w` was already
      served nothing changes. */
  lemma ExpireSpec(s: Snapshot, maxMessageNum: int, w: WaiterId)
    requires Inv(s, maxMessageNum) && Quiescent(s)
    ensures var (t, e) := OnExpire(s, w);
      && e == NoMessage
      && Inv(t, maxMessageNum) && Quiescent(t)
      && t.messages == s.messages && t.log == s.log && t.nextId == s.nextId
      && (w !in s.waiters ==> t.waiters == s.waiters)
      && forall i :: 0 <= i < |s.waiters| && s.waiters[i] == w ==>
           t.waiters == s.waiters[..i] + s.waiters[i + 1..]
  {
    if w !in s.waiters {
      WithoutAbsent(s.waiters, w);
    } else {
      var i :| 0 <= i < |s.waiters| && s.waiters[i] == w;
      WaitersIncreasing(s, maxMessageNum);
      ExpireAt(s, maxMessageNum, w, i);
    }
  }

  /** The waiting readers alone are in strictly increasing order. */
  lemma WaitersIncreasing(s: Snapshot, maxMessageNum: int)
    requires Inv(s, maxMessageNum)
    ensures Increasing(s.waiters)
  {
    var A := Arrivals(s);
    var n := |Served(s.log)|;
    forall i, j | 0 <= i < j < |s.waiters| ensures s.waiters[i] < s.waiters[j] {
      assert A[n + i] == s.waiters[i] && A[n + j] == s.waiters[j];
    }
  }

  /** Expiry of the reader at position `i` of the list. */
  lemma ExpireAt(s: Snapshot, maxMessageNum: int, w: WaiterId, i: nat)
    requires Inv(s, maxMessageNum) && Increasing(s.waiters)
    requires i < |s.waiters| && s.waiters[i] == w
    ensures var t := OnExpire(s, w).0;
      && Inv(t, maxMessageNum)
      && t.waiters == s.waiters[..i] + s.waiters[i + 1..]
  {
    var t := OnExpire(s, w).0;
    var A := Arrivals(s);
    var n := |Served(s.log)|;
    forall j | 0 <= j < |s.waiters| && j != i ensures s.waiters[j] != w {
      if j < i {
        assert s.waiters[j] < s.waiters[i];
      } else {
        assert s.waiters[i] < s.waiters[j];
      }
    }
    WithoutAt(s.waiters, w, i);
    IncreasingRemove(A, n + i, s.nextId);
    assert A[..n + i] == Served(s.log) + s.waiters[..i];
    assert A[n + i + 1..] == s.waiters[i + 1..];
    assert A[..n + i] + A[n + i + 1..] == Arrivals(t);
  }

  // ---------------------------------------------------------------------
  // The sequential Get (queue/queue.go:114-131 with the timeout abstracted)

  /** The message delivered to `w`, if any: what its `msgCh` holds. */
  function MessageFor(log: seq<Delivery>, w: WaiterId): (r: Option<string>)
  {
    if log == [] then None
    else if log[|log| - 1].waiter == w then Some(log[|log| - 1].message)
    else MessageFor(log[..|log| - 1], w)
  }

  lemma {:induction false} MessageForUnserved(log: seq<Delivery>, w: WaiterId)
    requires w !in Served(log)
    ensures MessageFor(log, w) == None
  {
    if log != [] {
      assert Served(log[..|log| - 1]) == Served(log)[..|log| - 1];
      MessageForUnserved(log[..|log| - 1], w);
    }
  }

  /** A `Get` run alone: register a reader; if delivery served it, return its
      message, otherwise its deadline passes and it expires. */
  function GetNow(s: Snapshot): (r: (Snapshot, string, Outcome))
    ensures r.2 == Pass || r.2 == Fail(NoMessage)
    ensures r.2 == Fail(NoMessage) ==> r.1 == ""
    ensures r.0.nextId == s.nextId + 1
  {
    var (t, w) := OnRegister(s);
    match MessageFor(t.log, w)
    case Some(m) => (t, m, Pass)
    case None => (OnExpire(t, w).0, "", Fail(NoMessage))
  }

  /** A lone `Get` takes the oldest message if there is one; otherwise it
      returns `("", NoMessage)` and leaves the backlog and the readers as
      they were. */
  lemma GetNowSpec(s: Snapshot, maxMessageNum: int)
    requires Inv(s, maxMessageNum) && Quiescent(s)
    ensures var (t, m, err) := GetNow(s);
      && Inv(t, maxMessageNum) && Quiescent(t)
      && t.nextId == s.nextId + 1
      && t.waiters == s.waiters
      && (s.messages != [] ==>
            m == s.messages[0] && err == Pass && t.messages == s.messages[1..]
            && t.log == s.log + [Delivery(s.nextId, s.messages[0])])
      && (s.messages == [] ==>
            m == "" && err == Fail(NoMessage) && t.messages == [] && t.log == s.log)
  {
    RegisterSpec(s, maxMessageNum);
    if s.messages == [] {
      GetNowExpires(s, maxMessageNum);
    }
  }

  /** On an empty backlog the new reader is not served, so it expires and
      is taken out again. */
  lemma GetNowExpires(s: Snapshot, maxMessageNum: int)
    requires Inv(s, maxMessageNum) && Quiescent(s) && s.messages == []
    ensures var (u, m, err) := GetNow(s);
      && Inv(u, maxMessageNum) && Quiescent(u)
      && u.waiters == s.waiters && u.messages == [] && u.log == s.log
      && m == "" && err == Fail(NoMessage)
  {
    RegisterSpec(s, maxMessageNum);
    var (t, w) := OnRegister(s);
    assert w !in Served(t.log) by {
      assert Served(t.log) == Arrivals(s)[..|s.log|];
    }
    MessageForUnserved(t.log, w);
    ExpireSpec(t, maxMessageNum, w);
    assert t.waiters[|s.waiters|] == w;
    assert t.waiters[..|s.waiters|] + t.waiters[|s.waiters| + 1..] == s.waiters;
  }

  // ---------------------------------------------------------------------
  // The caller's select (queue/queue.go:126-129)

  /** The `select` of Get as written: `received` is what the reader's
      `msgCh` holds and `signal` what its `errCh` holds. When both hold a
      value Go picks either case at random; `takeErr` stands for that
      choice. */
  function SelectAsWritten(received: Option<string>, signal: Option<Err>, takeErr: bool): (r: (string, Outcome))
    requires received.Some? || signal.Some?
    ensures r.1 == Pass ==> received == Some(r.0)
    ensures received.Some? && (signal.None? || !takeErr) ==> r == (received.value, Pass)
    ensures signal.Some? && (received.None? || takeErr) ==> r == ("", Fail(signal.value))
  {
    if received.Some? && (signal.None? || !takeErr) then (received.value, Pass)
    else ("", Fail(signal.value))
  }

  /** The select as evidently intended: a message already delivered to the
      reader wins over its deadline. */
  function Select(received: Option<string>, signal: Option<Err>): (r: (string, Outcome))
    requires received.Some? || signal.Some?
    ensures r.1 == Pass <==> received.Some?
    ensures received.Some? ==> r.0 == received.value
    ensures received.None? || signal.None? ==>
      r == SelectAsWritten(received, signal, true) && r == SelectAsWritten(received, signal, false)
  {
    if received.Some? then (received.value, Pass) else ("", Fail(signal.value))
  }

  /** A schedule the dispatcher may run before the caller's select: a reader
      registers on an empty queue, a put is delivered to it, then its
      deadline passes and the expiry is processed. */
  function RaceSchedule(s: Snapshot, maxMessageNum: int, m: string): (Snapshot, WaiterId, Err)
  {
    var (registered, w) := OnRegister(s);
    var (served, _) := OnPut(registered, maxMessageNum, m);
    var (expired, signal) := OnExpire(served, w);
    (expired, w, signal)
  }

  /** On the race schedule the reader's `msgCh` holds the message and its
      `errCh` holds NoMessage, and the engine counts the message as
      delivered: it has left the backlog for good. */
  lemma RaceState(s: Snapshot, maxMessageNum: int, m: string)
    requires Inv(s, maxMessageNum) && s.messages == [] && s.waiters == []
    requires maxMessageNum > 0
    ensures var (t, w, signal) := RaceSchedule(s, maxMessageNum, m);
      && MessageFor(t.log, w) == Some(m) && signal == NoMessage
      && t.messages == [] && t.waiters == []
      && Sent(t.log) == Sent(s.log) + [m]
  {
    RegisterSpec(s, maxMessageNum);
    var (registered, w) := OnRegister(s);
    PutSpec(registered, maxMessageNum, m);
    var (served, _) := OnPut(registered, maxMessageNum, m);
    ExpireSpec(served, maxMessageNum, w);
    LogAppend(s.log, [Delivery(w, m)]);
  }

  /** The select as written can lose that message: taking `errCh` returns
      ("", NoMessage) to the caller although the message was accepted,
      removed from the backlog and delivered to nobody else. */
  lemma LostMessage(s: Snapshot, maxMessageNum: int, m: string)
    requires Inv(s, maxMessageNum) && s.messages == [] && s.waiters == []
    requires maxMessageNum > 0
    ensures var (t, w, signal) := RaceSchedule(s, maxMessageNum, m);
      && t.messages == [] && Sent(t.log) == Sent(s.log) + [m]
      && SelectAsWritten(MessageFor(t.log, w), Some(signal), true) == ("", Fail(NoMessage))
  {
    RaceState(s, maxMessageNum, m);
  }

  /** The intended select returns the delivered message on the same
      schedule, so every message that leaves the backlog reaches a caller. */
  lemma RaceDelivered(s: Snapshot, maxMessageNum: int, m: string)
    requires Inv(s, maxMessageNum) && s.messages == [] && s.waiters == []
    requires maxMessageNum > 0
    ensures var (t, w, signal) := RaceSchedule(s, maxMessageNum, m);
      Select(MessageFor(t.log, w), Some(signal)) == (m, Pass)
  {
    RaceState(s, maxMessageNum, m);
  }

  // ---------------------------------------------------------------------
  // The dispatch loop as a fold over its event stream

  datatype Event = PutEvent(message: string) | RegisterEvent | ExpireEvent(waiter: WaiterId)

  /** What the engine sends back for one event: the Put confirmation, the
      created list element, or the error sent to an expired reader. */
  datatype Reply = PutReply(err: Outcome) | Registered(waiter: WaiterId) | ExpiredReply(signal: Err)

  function Apply(s: Snapshot, maxMessageNum: int, e: Event): (r: (Snapshot, Reply))
    ensures e.PutEvent? <==> r.1.PutReply?
    ensures e.RegisterEvent? <==> r.1.Registered?
    ensures e.ExpireEvent? ==> r.1 == ExpiredReply(NoMessage)
  {
    match e
    case PutEvent(m) => var (t, err) := OnPut(s, maxMessageNum, m); (t, PutReply(err))
    case RegisterEvent => var (t, w) := OnRegister(s); (t, Registered(w))
    case ExpireEvent(w) => var (t, sig) := OnExpire(s, w); (t, ExpiredReply(sig))
  }

  /** The state and replies after processing `events` in order. */
  function Run(s: Snapshot, maxMessageNum: int, events: seq<Event>): (r: (Snapshot, seq<Reply>))
    ensures |r.1| == |events|
    decreases |events|
  {
    if events == [] then (s, [])
    else
      var (t, replies) := Run(s, maxMessageNum, events[..|events| - 1]);
      var (u, reply) := Apply(t, maxMessageNum, events[|events| - 1]);
      (u, replies + [reply])
  }

  /** The messages whose Put was confirmed with `nil`, in event order. */
  function Accepted(events: seq<Event>, replies: seq<Reply>): seq<string>
    requires |replies| == |events|
    decreases |events|
  {
    if events == [] then []
    else
      var n := |events| - 1;
      Accepted(events[..n], replies[..n])
        + (if events[n].PutEvent? && replies[n] == PutReply(Pass) then [events[n].message] else [])
  }

  lemma ApplySpec(s: Snapshot, maxMessageNum: int, e: Event)
    requires Inv(s, maxMessageNum) && Quiescent(s)
    ensures var (t, reply) := Apply(s, maxMessageNum, e);
      && Inv(t, maxMessageNum) && Quiescent(t)
      && Stream(t) == Stream(s)
           + (if e.PutEvent? && reply == PutReply(Pass) then [e.message] else [])
  {
    match e
    case PutEvent(m) =>
      PutSpec(s, maxMessageNum, m);
    case RegisterEvent =>
      RegisterSpec(s, maxMessageNum);
    case ExpireEvent(w) =>
      ExpireSpec(s, maxMessageNum, w);
  }

  /** Conservation over any interleaving of events: the engine's invariant
      holds after every event, and the accepted messages are exactly the
      delivered ones followed by the queued ones. */
  lemma {:induction false} RunConserves(s: Snapshot, maxMessageNum: int, events: seq<Event>)
    requires Inv(s, maxMessageNum) && Quiescent(s)
    ensures var (t, replies) := Run(s, maxMessageNum, events);
      && Inv(t, maxMessageNum) && Quiescent(t)
      && Stream(t) == Stream(s) + Accepted(events, replies)
    decreases |events|
  {
    if events != [] {
      var n := |events| - 1;
      RunConserves(s, maxMessageNum, events[..n]);
      var (t, replies) := Run(s, maxMessageNum, events[..n]);
      ApplySpec(t, maxMessageNum, events[n]);
      var (_, replies') := Run(s, maxMessageNum, events);
      assert replies'[..n] == replies;
    }
  }

  /** Every accepted message is delivered exactly once or still queued
      exactly once, never both and never duplicated: its occurrences among
      the accepted messages equal its occurrences among the delivered plus
      the queued ones. */
  lemma ExactlyOnce(maxMessageNum: int, events: seq<Event>, m: string)
    ensures var (t, replies) := Run(Initial, maxMessageNum, events);
      multiset(Accepted(events, replies))[m] == multiset(Sent(t.log))[m] + multiset(t.messages)[m]
  {
    RunConserves(Initial, maxMessageNum, events);
    var (t, replies) := Run(Initial, maxMessageNum, events);
    assert Sent(Initial.log) == [];
    assert Accepted(events, replies) == Sent(t.log) + t.messages;
  }

  // ---------------------------------------------------------------------
  // queueImpl: the engine state updated in place

  /** One queue. `messages` and `waiters` are the two lists of `queueImpl`;
      `log` and `accepted` are ghost history: the deliveries made and the
      messages whose Put was confirmed with `nil`. */
  class Engine {
    var messages: seq<string>
    var waiters: seq<WaiterId>
    var nextId: WaiterId
    const maxMessageNum: int
    ghost var log: seq<Delivery>
    ghost var accepted: seq<string>

    ghost function State(): Snapshot
      reads this
    {
      Snapshot(messages, waiters, nextId, log)
    }

    /** The invariant of the specification, and conservation: the accepted
        messages are exactly the delivered ones followed by the queued ones. */
    ghost predicate Valid()
      reads this
    {
      Inv(State(), maxMessageNum) && Stream(State()) == accepted
    }

    /** Holds between events: nothing left to deliver. */
    ghost predicate Idle()
      reads this
    {
      Quiescent(State())
    }

    /** newQueueImpl (queue/queue.go:51-65) without the goroutine. */
    constructor (maxMessageNum: int)
      ensures Valid() && Idle()
      ensures State() == Initial && accepted == []
      ensures this.maxMessageNum == maxMessageNum
    {
      messages := [];
      waiters := [];
      nextId := 0;
      this.maxMessageNum := maxMessageNum;
      log := [];
      accepted := [];
    }

    /** deliverMessages (queue/queue.go:184-188): while both lists are
        non-empty, pop the oldest reader and send it the oldest message.
        Returns the sends made, in order. */
    method DeliverMessages() returns (sent: seq<Delivery>)
      requires Valid()
      modifies this
      ensures Valid() && Idle()
      ensures State() == Deliver(old(State()))
      ensures log == old(log) + sent
      ensures accepted == old(accepted)
    {
      sent := [];
      while !(Empty(waiters) || Empty(messages))
        invariant Valid() && accepted == old(accepted)
        invariant Deliver(State()) == Deliver(old(State()))
        invariant log == old(log) + sent
        decreases |messages|
      {
        ghost var before := State();
        DeliverOneConserves(before);
        var (w, ws) := Pop(waiters);
        var (m, ms) := Pop(messages);
        waiters, messages := ws, ms;
        log := log + [Delivery(w, m)];
        sent := sent + [Delivery(w, m)];
        assert State() == DeliverOne(before);
      }
    }

    /** The put case of dispatch (queue/queue.go:154-166). */
    method Put(message: string) returns (err: Outcome)
      requires Valid() && Idle()
      modifies this
      ensures Valid() && Idle()
      ensures (State(), err) == OnPut(old(State()), maxMessageNum, message)
      ensures accepted == old(accepted) + (if err == Pass then [message] else [])
    {
      if Len(messages) >= maxMessageNum {
        err := Fail(TooManyItems);
      } else {
        messages := Push(messages, message);
        accepted := accepted + [message];
        err := Pass;
      }
      assert Inv(State(), maxMessageNum);
      var _ := DeliverMessages();
    }

    /** The register case of dispatch (queue/queue.go:167-172): the new
        reader is appended and delivery runs. Returns the reader's identifier
        and what arrived on its `msgCh` during this event. */
    method Register() returns (w: WaiterId, received: Option<string>)
      requires Valid() && Idle()
      modifies this
      ensures Valid() && Idle()
      ensures (State(), w) == OnRegister(old(State()))
      ensures received == MessageFor(log, w)
      ensures accepted == old(accepted)
    {
      RegisterSpec(State(), maxMessageNum);
      w := nextId;
      waiters := Push(waiters, w);
      nextId := nextId + 1;
      assert Arrivals(State()) == Arrivals(old(State())) + [w];
      ghost var before := log;
      var sent := DeliverMessages();
      received := MessageFor(sent, w);
      MessageForAfter(before, sent, w);
    }

    /** The expire case of dispatch (queue/queue.go:173-178): the reader is
        told `NoMessage` and removed if still waiting. */
    method Expire(w: WaiterId) returns (signal: Err)
      requires Valid() && Idle()
      modifies this
      ensures Valid() && Idle()
      ensures (State(), signal) == OnExpire(old(State()), w)
      ensures accepted == old(accepted)
    {
      ExpireSpec(State(), maxMessageNum, w);
      signal := NoMessage;
      waiters := Without(waiters, w);
    }

    /** A Get call run alone (queue/queue.go:114-131): register, and if no
        message was delivered to the new reader, let its deadline pass. The
        answer goes through the select as written; run alone, only one of
        the two channels ever holds a value, so Go's choice between ready
        cases cannot arise and `takeErr` does not matter. */
    method Get() returns (message: string, err: Outcome)
      requires Valid() && Idle()
      modifies this
      ensures Valid() && Idle()
      ensures (State(), message, err) == GetNow(old(State()))
      ensures accepted == old(accepted)
      ensures waiters == old(waiters)
      ensures old(messages) != [] ==>
        message == old(messages)[0] && err == Pass && messages == old(messages)[1..]
      ensures old(messages) == [] ==>
        message == "" && err == Fail(NoMessage) && messages == []
    {
      GetNowSpec(State(), maxMessageNum);
      var w, received := Register();
      var signal: Option<Err> := None;
      if received.None? {
        var e := Expire(w);
        signal := Some(e);
      }
      var answer := SelectAsWritten(received, signal, true);
      message, err := answer.0, answer.1;
    }

    /** One iteration of the dispatch loop (queue/queue.go:153-179): the
        case for the event that arrived. */
    method Step(e: Event) returns (reply: Reply)
      requires Valid() && Idle()
      modifies this
      ensures Valid() && Idle()
      ensures (State(), reply) == Apply(old(State()), maxMessageNum, e)
      ensures accepted == old(accepted)
        + (if e.PutEvent? && reply == PutReply(Pass) then [e.message] else [])
    {
      match e {
        case PutEvent(m) =>
          var err := Put(m);
          reply := PutReply(err);
        case RegisterEvent =>
          var w, _ := Register();
          reply := Registered(w);
        case ExpireEvent(w) =>
          var signal := Expire(w);
          reply := ExpiredReply(signal);
      }
    }

    /** The dispatch loop (queue/queue.go:148-181) over a finite stream of
        events, one reply per event. */
    method Dispatch(events: seq<Event>) returns (replies: seq<Reply>)
      requires Valid() && Idle()
      modifies this
      ensures Valid() && Idle()
      ensures (State(), replies) == Run(old(State()), maxMessageNum, events)
      ensures accepted == old(accepted) + Accepted(events, replies)
    {
      replies := [];
      for i := 0 to |events|
        invariant Valid() && Idle()
        invariant (State(), replies) == Run(old(State()), maxMessageNum, events[..i])
        invariant accepted == old(accepted) + Accepted(events[..i], replies)
      {
        assert events[..i + 1][..i] == events[..i];
        ghost var previous := replies;
        var reply := Step(events[i]);
        replies := replies + [reply];
        assert replies[..i] == previous;
      }
      assert events[..|events|] == events;
    }
  }

  /** A reader that had not been served before `sent` finds in its channel
      exactly what `sent` delivered to it. */
  lemma {:induction false} MessageForAfter(before: seq<Delivery>, sent: seq<Delivery>, w: WaiterId)
    requires w !in Served(before)
    ensures MessageFor(before + sent, w) == MessageFor(sent, w)
    decreases |sent|
  {
    if sent == [] {
      assert before + sent == before;
      MessageForUnserved(before, w);
    } else {
      var n := |sent| - 1;
      assert (before + sent)[..|before| + n] == before + sent[..n];
      MessageForAfter(before, sent[..n], w);
    }
  }

  /** The sequential scenario of TestQueueBasic (queue/queue_test.go:18-52):
      on a queue of capacity N, N puts succeed, one more is refused with
      TooManyItems, N gets return the N messages in order, and one more get
      returns ("", NoMessage). */
  method FillAndDrain(msgs: seq<string>, extra: string)
    returns (puts: seq<Outcome>, overflow: Outcome, got: seq<string>, gets: seq<Outcome>,
             lastMessage: string, lastErr: Outcome)
    ensures |puts| == |msgs| && forall i :: 0 <= i < |puts| ==> puts[i] == Pass
    ensures overflow == Fail(TooManyItems)
    ensures got == msgs
    ensures |gets| == |msgs| && forall i :: 0 <= i < |gets| ==> gets[i] == Pass
    ensures lastMessage == "" && lastErr == Fail(NoMessage)
  {
    var q := new Engine(|msgs|);
    puts := Fill(q, msgs);
    overflow := q.Put(extra);
    got, gets := Drain(q, msgs);
    lastMessage, lastErr := q.Get();
  }

  /** Puts every message of `msgs` into an empty engine of capacity |msgs|. */
  method Fill(q: Engine, msgs: seq<string>) returns (puts: seq<Outcome>)
    requires q.Valid() && q.Idle() && q.messages == [] && q.waiters == []
    requires q.maxMessageNum == |msgs|
    modifies q
    ensures q.Valid() && q.Idle() && q.messages == msgs && q.waiters == []
    ensures |puts| == |msgs| && forall i :: 0 <= i < |puts| ==> puts[i] == Pass
  {
    puts := [];
    for i := 0 to |msgs|
      invariant q.Valid() && q.Idle() && q.maxMessageNum == |msgs|
      invariant q.messages == msgs[..i] && q.waiters == []
      invariant |puts| == i && forall j :: 0 <= j < i ==> puts[j] == Pass
    {
      PutSpec(q.State(), q.maxMessageNum, msgs[i]);
      var err := q.Put(msgs[i]);
      puts := puts + [err];
      assert msgs[..i + 1] == msgs[..i] + [msgs[i]];
    }
    assert msgs[..|msgs|] == msgs;
  }

  /** Gets as many times as `msgs` has messages, from an engine holding
      exactly `msgs`: each get returns the oldest message. */
  method Drain(q: Engine, msgs: seq<string>) returns (got: seq<string>, gets: seq<Outcome>)
    requires q.Valid() && q.Idle() && q.messages == msgs && q.waiters == []
    modifies q
    ensures q.Valid() && q.Idle() && q.messages == [] && q.waiters == []
    ensures got == msgs
    ensures |gets| == |msgs| && forall i :: 0 <= i < |gets| ==> gets[i] == Pass
  {
    got, gets := [], [];
    for i := 0 to |msgs|
      invariant q.Valid() && q.Idle()
      invariant q.messages == msgs[i..] && q.waiters == []
      invariant got == msgs[..i]
      invariant |gets| == i && forall j :: 0 <= j < i ==> gets[j] == Pass
    {
      var m, err := q.Get();
      got, gets := got + [m], gets + [err];
      assert msgs[..i + 1] == msgs[..i] + [msgs[i]];
    }
    assert msgs[..|msgs|] == msgs;
  }
}
