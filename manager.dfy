/** The queue registry of queue/manager.go.

    `queueManagerImpl` maps queue names to engines. Put creates an engine on
    the first write to a name, as long as the number of names stays within
    the configured cap; Get only looks names up, and a name that was never
    written behaves as an empty queue. The read/write lock and its
    double-checked creation collapse here to one lookup, then the cap check,
    then the insert. */
module Manager {
  import opened Errors
  import opened Queue

  /** QueueManagerConfig (queue/manager.go:22-25). */
  datatype Config = Config(maxQueueNum: int, maxMessageNumPerQueue: int)

  class QueueManager {
    const config: Config
    var queues: map<string, Engine>

    /** The registry's invariant: the number of names stays within the cap,
        every engine is in a consistent state between events and has the
        configured capacity, and no engine is shared by two names. */
    ghost predicate Valid()
      reads this, queues.Values
    {
      && (queues == map[] || |queues| <= config.maxQueueNum)
      && (forall n {:trigger queues[n].Valid()} :: n in queues ==> queues[n].Valid())
      && (forall n {:trigger queues[n].Idle()} :: n in queues ==> queues[n].Idle())
      && (forall n :: n in queues ==> queues[n].maxMessageNum == config.maxMessageNumPerQueue)
      && (forall n, n' :: n in queues && n' in queues && n != n' ==> queues[n] != queues[n'])
    }

    /** newQueueManager (queue/manager.go:34-40) with the engine as its
        only queue kind. */
    constructor (config: Config)
      ensures Valid() && queues == map[] && this.config == config
    {
      this.config := config;
      queues := map[];
    }

    /** queueManagerImpl.Get (queue/manager.go:50-63): a lookup that never
        creates an engine; a missing name means ("", NoMessage), otherwise
        the engine's Get decides. */
    method Get(name: string) returns (message: string, err: Outcome)
      requires Valid()
      modifies if name in queues then {queues[name]} else {}
      ensures Valid()
      ensures queues == old(queues)
      ensures name !in queues ==> message == "" && err == Fail(NoMessage)
      ensures name in queues ==>
        (queues[name].State(), message, err) == GetNow(old(queues[name].State()))
    {
      if name !in queues {
        return "", Fail(NoMessage);
      }
      var q := queues[name];
      message, err := q.Get();
      assert forall n :: n in queues && n != name ==> queues[n] != q;
    }

    /** queueManagerImpl.Put (queue/manager.go:65-94): an existing name
        delegates straight to its engine; an unseen name is refused with
        TooManyItems once the cap is reached, and otherwise gets a new engine
        of the per-queue capacity, which then takes the message. Entries are
        never removed or replaced. */
    method Put(name: string, message: string) returns (err: Outcome)
      requires Valid()
      modifies this, if name in queues then {queues[name]} else {}
      ensures Valid()
      ensures forall n :: n in old(queues) ==> n in queues && queues[n] == old(queues)[n]
      ensures name in old(queues) ==>
        && queues == old(queues)
        && (queues[name].State(), err)
           == OnPut(old(queues[name].State()), config.maxMessageNumPerQueue, message)
      ensures name !in old(queues) && |old(queues)| >= config.maxQueueNum ==>
        err == Fail(TooManyItems) && queues == old(queues)
      ensures name !in old(queues) && |old(queues)| < config.maxQueueNum ==>
        && queues.Keys == old(queues).Keys + {name}
        && fresh(queues[name])
        && (queues[name].State(), err) == OnPut(Initial, config.maxMessageNumPerQueue, message)
    {
      if name !in queues {
        err := Create(name);
        if err != Pass {
          return;
        }
      }
      err := Delegate(name, message);
    }

    /** The exclusive section of Put (queue/manager.go:73-88) for a name not
        present: refuse with TooManyItems at the cap, otherwise register a
        new, empty engine of the per-queue capacity. */
    method Create(name: string) returns (err: Outcome)
      requires Valid() && name !in queues
      modifies this
      ensures Valid()
      ensures |old(queues)| >= config.maxQueueNum ==>
        err == Fail(TooManyItems) && queues == old(queues)
      ensures |old(queues)| < config.maxQueueNum ==>
        && err == Pass
        && queues.Keys == old(queues).Keys + {name}
        && (forall n :: n in old(queues) ==> queues[n] == old(queues)[n])
        && fresh(queues[name])
        && queues[name].State() == Initial
    {
      if |queues| >= config.maxQueueNum {
        return Fail(TooManyItems);
      }
      var q := new Engine(config.maxMessageNumPerQueue);
      Insert(name, q);
      err := Pass;
    }

    /** `q.queues[name] = foundQueue` (queue/manager.go:86) for a new engine. */
    method Insert(name: string, q: Engine)
      requires Valid() && name !in queues && |queues| < config.maxQueueNum
      requires q.Valid() && q.Idle() && q.maxMessageNum == config.maxMessageNumPerQueue
      requires q !in queues.Values
      modifies this
      ensures Valid()
      ensures queues == old(queues)[name := q]
    {
      queues := queues[name := q];
    }

    /** `foundQueue.Put(message)` (queue/manager.go:93): the engine's answer
        is returned unchanged and no other engine is touched. */
    method Delegate(name: string, message: string) returns (err: Outcome)
      requires Valid() && name in queues
      modifies queues[name]
      ensures Valid()
      ensures (queues[name].State(), err)
              == OnPut(old(queues[name].State()), config.maxMessageNumPerQueue, message)
    {
      var q := queues[name];
      assert forall n :: n in queues && n != name ==> queues[n] != q;
      label Before:
      err := q.Put(message);
      forall n | n in queues && n != name
        ensures queues[n].Valid() && queues[n].Idle()
      {
        assert unchanged@Before(queues[n]);
      }
    }
  }

  /** A put to a name the registry does not hold yet, below the cap. */
  method PutUnseen(m: QueueManager, name: string, message: string) returns (err: Outcome)
    requires m.Valid() && name !in m.queues && |m.queues| < m.config.maxQueueNum
    requires m.config.maxMessageNumPerQueue > 0
    modifies m
    ensures m.Valid() && err == Pass
    ensures m.queues.Keys == old(m.queues.Keys) + {name}
  {
    PutSpec(Initial, m.config.maxMessageNumPerQueue, message);
    err := m.Put(name, message);
  }

  /** TestQueueManagerMaxQueueNum (queue/manager_test.go:76-104): with a cap
      of N names, puts to N distinct names succeed and a put to one more
      distinct name is refused with TooManyItems. */
  method FillRegistry(names: seq<string>, msgs: seq<string>, extraName: string, extraMessage: string,
                      maxMessageNumPerQueue: int)
    returns (puts: seq<Outcome>, overflow: Outcome)
    requires |msgs| == |names|
    requires forall i, j :: 0 <= i < j < |names| ==> names[i] != names[j]
    requires extraName !in names
    requires maxMessageNumPerQueue > 0
    ensures |puts| == |names| && forall i :: 0 <= i < |puts| ==> puts[i] == Pass
    ensures overflow == Fail(TooManyItems)
  {
    var m := new QueueManager(Config(|names|, maxMessageNumPerQueue));
    puts := [];
    for i := 0 to |names|
      invariant m.Valid() && |m.queues| == i && m.config == Config(|names|, maxMessageNumPerQueue)
      invariant forall j :: i <= j < |names| ==> names[j] !in m.queues
      invariant extraName !in m.queues
      invariant |puts| == i && forall k :: 0 <= k < i ==> puts[k] == Pass
    {
      var err := PutUnseen(m, names[i], msgs[i]);
      puts := puts + [err];
    }
    overflow := m.Put(extraName, extraMessage);
  }

  /** TestQueueManagerBasic (queue/manager_test.go:57-71): on a name never
      written, Get gives NoMessage, then Put succeeds, then Get returns the
      message just put. */
  method GetPutGet(config: Config, name: string, message: string)
    returns (first: Outcome, put: Outcome, second: string, secondErr: Outcome)
    requires config.maxQueueNum > 0 && config.maxMessageNumPerQueue > 0
    ensures first == Fail(NoMessage)
    ensures put == Pass
    ensures second == message && secondErr == Pass
  {
    var m := new QueueManager(config);
    var _, e := m.Get(name);
    first := e;
    put := m.Put(name, message);
    PutSpec(Initial, config.maxMessageNumPerQueue, message);
    GetNowSpec(m.queues[name].State(), config.maxMessageNumPerQueue);
    second, secondErr := m.Get(name);
  }
}
