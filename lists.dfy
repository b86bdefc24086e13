/** The generic `listAdapter` of queue/queue.go: a FIFO list with Push at the
    back and Pop/Peek at the front. The linked list itself is modelled by its
    contents, a sequence whose first element is the front. */
module Lists {

  /** Push appends `x` at the back. */
  function Push<T>(s: seq<T>, x: T): (r: seq<T>)
    ensures |r| == |s| + 1 && r[|s|] == x
    ensures forall i :: 0 <= i < |s| ==> r[i] == s[i]
  {
    s + [x]
  }

  /** Pop removes and returns the front element; the source panics on an
      empty list, so its callers test `Empty` first. */
  function Pop<T>(s: seq<T>): (r: (T, seq<T>))
    requires s != []
    ensures [r.0] + r.1 == s
  {
    (s[0], s[1..])
  }

  /** Peek returns the front element without removing it. */
  function Peek<T>(s: seq<T>): (r: T)
    requires s != []
    ensures r == Pop(s).0
  {
    s[0]
  }

  /** Len is the number of elements, `data.Len()`. */
  function Len<T>(s: seq<T>): (r: nat)
    ensures r == 0 <==> s == []
  {
    |s|
  }

  function Empty<T>(s: seq<T>): (r: bool)
    ensures r <==> Len(s) == 0
  {
    |s| == 0
  }

  /** FIFO law: pushing at the back does not change what Pop returns from
      a non-empty list, and commutes with removing its front; an element
      pushed onto an empty list is the next one popped. */
  lemma PushPop<T>(s: seq<T>, x: T)
    ensures s == [] ==> Pop(Push(s, x)) == (x, [])
    ensures s != [] ==> Pop(Push(s, x)) == (Pop(s).0, Push(Pop(s).1, x))
  {
    if s != [] {
      assert Push(s, x)[1..] == s[1..] + [x];
    }
  }

  /** Len counts the elements: Push adds one and Pop takes one away, so the
      capacity check of Put compares the true backlog size. */
  lemma PushPopLen<T>(s: seq<T>, x: T)
    ensures Len(Push(s, x)) == Len(s) + 1
    ensures s != [] ==> Len(Pop(s).1) == Len(s) - 1
  {
  }
}
