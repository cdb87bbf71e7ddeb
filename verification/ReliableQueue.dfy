// The reliable queue both services put on two Redis lists: messages wait on the
// main list and sit on the processing list from consume until ack or requeue.

module ReliableQueue {
  import opened Common

  datatype Queue<M> = Queue(main: seq<M>, processing: seq<M>)

  /** LREM key 1 m: drops the first element equal to `m`, if there is one. */
  function RemoveFirst<M(==)>(s: seq<M>, m: M): seq<M> {
    if s == [] then [] else if s[0] == m then s[1..] else [s[0]] + RemoveFirst(s[1..], m)
  }

  function Pushed<M>(q: Queue<M>, m: M): Queue<M> {
    q.(main := q.main + [m])
  }

  /** BLMOVE main processing LEFT RIGHT, on a non-empty main list. */
  function Moved<M>(q: Queue<M>): Queue<M>
    requires q.main != []
  {
    Queue(q.main[1..], q.processing + [q.main[0]])
  }

  function Removed<M(==)>(q: Queue<M>, m: M): Queue<M> {
    q.(processing := RemoveFirst(q.processing, m))
  }

  /** The LREM and RPUSH of one MULTI/EXEC. */
  function PutBack<M(==)>(q: Queue<M>, m: M): Queue<M> {
    Pushed(Removed(q, m), m)
  }

  /** LMOVE processing main LEFT RIGHT, on a non-empty processing list. */
  function Returned<M>(q: Queue<M>): Queue<M>
    requires q.processing != []
  {
    Queue(q.main + [q.processing[0]], q.processing[1..])
  }

  /** The queue after `k` successful recovery moves. */
  function Recovered<M>(q: Queue<M>, k: nat): Queue<M>
    requires k <= |q.processing|
  {
    Queue(q.main + q.processing[..k], q.processing[k..])
  }

  lemma {:induction false} RemoveFirstMultiset<M>(s: seq<M>, m: M)
    ensures multiset(RemoveFirst(s, m)) == multiset(s) - multiset{m}
    ensures m !in s ==> RemoveFirst(s, m) == s
  {
    if s != [] {
      assert s == [s[0]] + s[1..];
      if s[0] != m {
        RemoveFirstMultiset(s[1..], m);
      }
    }
  }

  /** What goes is the first of the elements equal to `m`; the others keep their order. */
  lemma {:induction false} RemoveFirstExactly<M>(s: seq<M>, m: M) returns (i: nat)
    requires m in s
    ensures i < |s| && s[i] == m && m !in s[..i] && RemoveFirst(s, m) == s[..i] + s[i + 1..]
  {
    i := 0;
    if s[0] != m {
      var n := RemoveFirstExactly(s[1..], m);
      i := n + 1;
      assert s[..i] == [s[0]] + s[1..][..n];
    }
  }

  /** Requeueing a message that is in processing keeps every message exactly once. */
  lemma PutBackConserves<M>(q: Queue<M>, m: M)
    requires m in q.processing
    ensures multiset(PutBack(q, m).main + PutBack(q, m).processing) == multiset(q.main + q.processing)
  {
    RemoveFirstMultiset(q.processing, m);
  }

  datatype Consumed<M> = Got(m: M) | Nothing | ConsumeFailed

  class RedisQueue<M(==)> {
    var main: seq<M>
    var processing: seq<M>

    function View(): Queue<M>
      reads this
    {
      Queue(main, processing)
    }

    constructor ()
      ensures View() == Queue([], [])
    {
      main, processing := [], [];
    }

    method Publish(payload: M, o: Outcome) returns (err: bool)
      modifies this
      ensures View() == if o.Applied() then Pushed(old(View()), payload) else old(View())
      ensures main == old(main) + (if o == NotApplied then [] else [payload]) && processing == old(processing)
      ensures err == (o != Ok)
    {
      if o.Applied() {
        main := main + [payload];
      }
      err := o != Ok;
    }

    method Consume(o: Outcome) returns (r: Consumed<M>)
      modifies this
      ensures View() == if o.Applied() && old(main) != [] then Moved(old(View())) else old(View())
      ensures o != NotApplied && old(main) != [] ==>
                main == old(main)[1..] && processing == old(processing) + [old(main)[0]]
      ensures r == if o != Ok then ConsumeFailed
                   else if old(main) == [] then Nothing
                   else Got(old(main)[0])
    {
      r := if o != Ok then ConsumeFailed else Nothing;
      if o.Applied() && main != [] {
        if o == Ok {
          r := Got(main[0]);
        }
        main, processing := main[1..], processing + [main[0]];
      }
    }

    method Ack(payload: M, o: Outcome) returns (err: bool)
      modifies this
      ensures View() == if o.Applied() then Removed(old(View()), payload) else old(View())
      ensures main == old(main) && processing == if o == NotApplied then old(processing) else RemoveFirst(old(processing), payload)
      ensures err == (o != Ok)
    {
      if o.Applied() {
        processing := RemoveFirst(processing, payload);
      }
      err := o != Ok;
    }

    method Requeue(payload: M, o: Outcome) returns (err: bool)
      modifies this
      ensures View() == if o.Applied() then PutBack(old(View()), payload) else old(View())
      ensures o != NotApplied ==> main == old(main) + [payload] && processing == RemoveFirst(old(processing), payload)
      ensures err == (o != Ok)
    {
      if o.Applied() {
        processing := RemoveFirst(processing, payload);
        main := main + [payload];
      }
      err := o != Ok;
    }

    /** `script` holds the outcome of each LMOVE in turn; those past its end are Ok. */
    method Recover(script: seq<Outcome>) returns (recovered: nat, err: bool, ghost moved: nat)
      modifies this
      ensures moved <= |old(processing)| && View() == Recovered(old(View()), moved)
      ensures main == old(main) + old(processing)[..moved] && processing == old(processing)[moved..]
      ensures !err ==> recovered == moved == |old(processing)|
      ensures err ==> recovered < |script| && script[recovered] != Ok
      ensures err ==> moved == if script[recovered].Applied() && recovered < |old(processing)|
                               then recovered + 1 else recovered
    {
      recovered := 0;
      while true
        invariant recovered <= |old(processing)| && View() == Recovered(old(View()), recovered)
        decreases |old(processing)| - recovered
      {
        var o := if recovered < |script| then script[recovered] else Ok;
        var q := View();
        if o.Applied() && processing != [] {
          main, processing := main + [processing[0]], processing[1..];
          assert View() == Recovered(old(View()), recovered + 1);
        }
        if o != Ok {
          moved := if o.Applied() && q.processing != [] then recovered + 1 else recovered;
          return recovered, true, moved;
        }
        if q.processing == [] {
          return recovered, false, recovered;
        }
        recovered := recovered + 1;
      }
    }
  }
}
