/** The eight-class packet queue of both drivers (`aicsdio_txrxif.c`, `aicwf_txrxif.c`). */
module FrameQueues {
  import opened Machine

  const CLASSES: nat := 8

  /** Eight FIFOs with the counter and the upper bound the driver keeps beside them. */
  datatype Queue<T> = Queue(lists: seq<seq<T>>, hiPrio: nat, qcnt: nat, qmax: nat, numPrio: nat)
  {
    ghost predicate Valid() {
      && |lists| == CLASSES && 0 < numPrio <= CLASSES && hiPrio < numPrio && qmax < 0x1_0000
      && qcnt == Total(lists) && qcnt <= qmax
      && forall p :: hiPrio < p < CLASSES ==> lists[p] == []
    }
  }

  // ----- sums over the classes -----

  function Total<T>(lists: seq<seq<T>>): nat {
    if lists == [] then 0 else Total(lists[..|lists| - 1]) + |lists[|lists| - 1]|
  }

  ghost function Contents<T>(lists: seq<seq<T>>): multiset<T> {
    if lists == [] then multiset{}
    else Contents(lists[..|lists| - 1]) + multiset(lists[|lists| - 1])
  }

  lemma {:induction false} UpdateTotal<T>(lists: seq<seq<T>>, p: nat, s: seq<T>)
    requires p < |lists|
    ensures Total(lists[p := s]) == Total(lists) - |lists[p]| + |s|
    decreases |lists|
  {
    var n := |lists| - 1;
    if p < n {
      assert lists[p := s][..n] == lists[..n][p := s];
      UpdateTotal(lists[..n], p, s);
    } else {
      assert lists[p := s][..n] == lists[..n];
    }
  }

  lemma {:induction false} UpdateContents<T>(lists: seq<seq<T>>, p: nat, s: seq<T>)
    requires p < |lists|
    ensures Contents(lists[p := s]) + multiset(lists[p]) == Contents(lists) + multiset(s)
    decreases |lists|
  {
    var n := |lists| - 1;
    if p < n {
      assert lists[p := s][..n] == lists[..n][p := s];
      UpdateContents(lists[..n], p, s);
      var rest := multiset(lists[n]);
      var a, b := Contents(lists[..n][p := s]), Contents(lists[..n]);
      assert (a + rest) + multiset(lists[p]) == (a + multiset(lists[p])) + rest;
      assert (b + rest) + multiset(s) == (b + multiset(s)) + rest;
    } else {
      assert lists[p := s][..n] == lists[..n];
    }
  }

  lemma {:induction false} TotalZero<T>(lists: seq<seq<T>>)
    ensures Total(lists) == 0 <==> forall p :: 0 <= p < |lists| ==> lists[p] == []
    decreases |lists|
  {
    if lists != [] {
      TotalZero(lists[..|lists| - 1]);
    }
  }

  lemma {:induction false} ClassAtMostTotal<T>(lists: seq<seq<T>>, p: nat)
    requires p < |lists|
    ensures |lists[p]| <= Total(lists)
    ensures |lists[p]| == Total(lists) ==> forall r :: 0 <= r < |lists| && r != p ==> lists[r] == []
  {
    UpdateTotal(lists, p, []);
    TotalZero(lists[p := []]);
    if |lists[p]| == Total(lists) {
      forall r | 0 <= r < |lists| && r != p
        ensures lists[r] == []
      {
        assert lists[p := []][r] == [];
      }
    }
  }

  // ----- the abstract operations -----

  /** The lowest class that holds a packet. */
  ghost predicate IsLowest<T>(lists: seq<seq<T>>, p: nat) {
    p < |lists| && lists[p] != [] && forall r :: 0 <= r < p ==> lists[r] == []
  }

  ghost predicate IsHighest<T>(lists: seq<seq<T>>, p: nat) {
    p < |lists| && lists[p] != [] && forall r :: p < r < |lists| ==> lists[r] == []
  }

  /** What one enqueue call did. */
  datatype Outcome<T> = Refused | Accepted | Replaced(victim: T)

  /**
   * An enqueue appends in its own class while there is room. A full queue refuses, unless some class
   * below the newcomer's holds a packet: then the newest packet of the lowest such class is thrown away
   * and the newcomer takes its place there, not in its own class. The upper bound follows an append only.
   */
  ghost predicate Enqueues<T>(q: Queue<T>, pkt: T, prio: nat, r: Queue<T>, out: Outcome<T>)
    requires q.Valid() && prio < q.numPrio
  {
    && r.qmax == q.qmax && r.numPrio == q.numPrio
    && (q.qcnt < q.qmax ==>
          && out == Accepted && r.lists == q.lists[prio := q.lists[prio] + [pkt]]
          && r.qcnt == q.qcnt + 1 && r.hiPrio == if q.hiPrio < prio then prio else q.hiPrio)
    && (q.qcnt == q.qmax && (forall p :: 0 <= p < prio ==> q.lists[p] == []) ==> out == Refused && r == q)
    && (forall p: nat :: q.qcnt == q.qmax && IsLowest(q.lists, p) && p < prio ==>
          var n := |q.lists[p]| - 1;
          && out == Replaced(q.lists[p][n]) && r.lists == q.lists[p := q.lists[p][..n] + [pkt]]
          && r.qcnt == q.qcnt && r.hiPrio == q.hiPrio)
  }

  /** A dequeue takes the oldest packet of the highest class that holds one. */
  ghost predicate Dequeues<T>(q: Queue<T>, r: Queue<T>, out: Option<T>)
    requires q.Valid()
  {
    && r.qmax == q.qmax && r.numPrio == q.numPrio
    && (q.qcnt == 0 ==> out == None && r == q)
    && (forall p: nat :: IsHighest(q.lists, p) ==>
          && out == Some(q.lists[p][0]) && r.lists == q.lists[p := q.lists[p][1..]]
          && r.qcnt == q.qcnt - 1 && r.hiPrio == p)
    && (q.qcnt > 0 ==> out.Some?)
  }

  // ----- the driver's queue -----

  class FrameQueue<T> {
    var hiPrio: nat
    var qcnt: nat
    var qmax: nat
    var numPrio: nat
    const queuelist: array<seq<T>>

    ghost function View(): Queue<T>
      reads this, queuelist
    {
      Queue(queuelist[..], hiPrio, qcnt, qmax, numPrio)
    }

    ghost predicate Valid()
      reads this, queuelist
    {
      View().Valid()
    }

    constructor (num: nat, maxLen: nat)
      requires 0 < num <= CLASSES && maxLen < 0x1_0000
      ensures Valid() && qcnt == 0 && qmax == maxLen && numPrio == num && fresh(queuelist)
    {
      hiPrio, qcnt, qmax, numPrio := 0, 0, maxLen, num;
      queuelist := new seq<T>[CLASSES](_ => []);
      new;
      TotalZero(queuelist[..]);
    }

    /** Appends at the tail of a class; the null result is false. */
    method Penq(prio: nat, p: T) returns (ok: bool)
      requires queuelist.Length == CLASSES && prio < CLASSES
      modifies this`hiPrio, this`qcnt, queuelist
      ensures ok <==> |old(queuelist[prio])| < qmax
      ensures !ok ==> View() == old(View())
      ensures ok ==> queuelist[..] == old(queuelist[..])[prio := old(queuelist[prio]) + [p]]
      ensures ok ==> qcnt == old(qcnt) + 1 && hiPrio == if old(hiPrio) < prio then prio else old(hiPrio)
    {
      if |queuelist[prio]| >= qmax {
        return false;
      }
      queuelist[prio] := queuelist[prio] + [p];
      qcnt := qcnt + 1;
      if hiPrio < prio {
        hiPrio := prio;
      }
      return true;
    }

    method PeekTail() returns (prio: Option<nat>)
      requires Valid()
      ensures qcnt == 0 <==> prio == None
      ensures prio.Some? ==> IsLowest(queuelist[..], prio.value) && prio.value <= hiPrio
    {
      if qcnt == 0 {
        return None;
      }
      var p := 0;
      while p < hiPrio && queuelist[p] == []
        invariant 0 <= p <= hiPrio
        invariant forall r :: 0 <= r < p ==> queuelist[r] == []
      {
        p := p + 1;
      }
      TotalZero(queuelist[..]);
      return Some(p);
    }

    method IsEmpty() returns (empty: bool)
      requires Valid()
      ensures empty <==> qcnt == 0
    {
      var len := 0;
      for prio := 0 to hiPrio + 1
        invariant len == Total(queuelist[..prio])
      {
        assert queuelist[..prio + 1][..prio] == queuelist[..prio];
        len := len + |queuelist[prio]|;
      }
      TotalZero(queuelist[..]);
      TotalZero(queuelist[..hiPrio + 1]);
      return len == 0;
    }

    method Dequeue() returns (out: Option<T>)
      requires Valid()
      modifies this`hiPrio, this`qcnt, queuelist
      ensures Valid() && Dequeues(old(View()), View(), out)
    {
      if qcnt == 0 {
        TotalZero(queuelist[..]);
        return None;
      }
      var prio := hiPrio;
      while prio > 0 && queuelist[prio] == []
        invariant prio == hiPrio < numPrio
        invariant forall p :: hiPrio < p < CLASSES ==> queuelist[p] == []
        invariant unchanged(queuelist) && qcnt == old(qcnt)
      {
        hiPrio := hiPrio - 1;
        prio := hiPrio;
      }
      ghost var lists := queuelist[..];
      assert lists == old(queuelist[..]);
      TotalZero(lists);
      assert IsHighest(lists, prio);
      out := Some(queuelist[prio][0]);
      UpdateTotal(lists, prio, lists[prio][1..]);
      queuelist[prio] := queuelist[prio][1..];
      qcnt := qcnt - 1;
      assert queuelist[..] == lists[prio := lists[prio][1..]];
    }

    /** `aicwf_frame_enq` of the bsp driver, which may evict. */
    method EnqueueEvicting(pkt: T, prio: nat) returns (ok: bool, ghost out: Outcome<T>)
      requires Valid() && prio < numPrio
      modifies this`hiPrio, this`qcnt, queuelist
      ensures Valid() && Enqueues(old(View()), pkt, prio, View(), out)
      ensures ok <==> out != Refused
    {
      hide Total;
      ghost var lists := queuelist[..];
      out := Refused;
      ClassAtMostTotal(lists, prio);
      if |queuelist[prio]| < qmax && qcnt < qmax {
        UpdateTotal(lists, prio, lists[prio] + [pkt]);
        var done := Penq(prio, pkt);
        out := Accepted;
        return true, out;
      }
      var modified: Option<nat> := None;
      if |queuelist[prio]| >= qmax {
        modified := Some(prio);
      } else if qcnt >= qmax {
        modified := PeekTail();
        assert modified.Some? ==> forall p: nat :: IsLowest(lists, p) ==> p == modified.value;
        if modified.Some? && modified.value > prio {
          return false, out;
        }
      }
      if modified == None || modified.value == prio {
        TotalZero(lists);
        return false, out;
      }
      var v := modified.value;
      var n := |queuelist[v]| - 1;
      out := Replaced(queuelist[v][n]);
      UpdateTotal(lists, v, lists[v][..n] + [pkt]);
      ClassAtMostTotal(lists, v);
      queuelist[v] := queuelist[v][..n];
      qcnt := qcnt - 1;
      ok := Penq(v, pkt);
      assert queuelist[..] == lists[v := lists[v][..n] + [pkt]];
    }

    /** `aicwf_frame_enq` of the fdrv driver: a full queue refuses. */
    method Enqueue(pkt: T, prio: nat) returns (ok: bool)
      requires Valid() && prio < numPrio
      modifies this`hiPrio, this`qcnt, queuelist
      ensures Valid() && (ok <==> old(qcnt) < qmax)
      ensures queuelist[..] == if ok then old(queuelist[..])[prio := old(queuelist[prio]) + [pkt]] else old(queuelist[..])
    {
      ClassAtMostTotal(queuelist[..], prio);
      UpdateTotal(queuelist[..], prio, queuelist[prio] + [pkt]);
      if |queuelist[prio]| < qmax && qcnt < qmax {
        var done := Penq(prio, pkt);
        return true;
      } else {
        return false;
      }
    }

    method Flush()
      requires Valid()
      modifies this`qcnt, queuelist
      ensures Valid() && qcnt == 0
    {
      var prio := 0;
      while prio < numPrio
        invariant 0 <= prio <= numPrio
        invariant Valid() && forall p :: 0 <= p < prio ==> queuelist[p] == []
      {
        while queuelist[prio] != []
          invariant Valid() && forall p :: 0 <= p < prio ==> queuelist[p] == []
          decreases |queuelist[prio]|
        {
          ghost var lists := queuelist[..];
          UpdateTotal(lists, prio, lists[prio][1..]);
          queuelist[prio] := queuelist[prio][1..];
          assert queuelist[..] == lists[prio := lists[prio][1..]];
          qcnt := qcnt - 1;
        }
        prio := prio + 1;
      }
      TotalZero(queuelist[..]);
    }
  }

  // ----- whole runs of the evicting queue -----

  datatype Call<T> = Enq(pkt: T, prio: nat) | Deq

  /** A run: the queue after each call, and what each call returned. */
  datatype Step<T> = Step(call: Call<T>, after: Queue<T>, enq: Outcome<T>, deq: Option<T>)

  ghost predicate StepFrom<T>(q: Queue<T>, s: Step<T>)
    requires q.Valid()
  {
    match s.call
    case Enq(pkt, prio) => prio < q.numPrio && Enqueues(q, pkt, prio, s.after, s.enq)
    case Deq => Dequeues(q, s.after, s.deq)
  }

  /** Every call keeps the count exact and bounded and the classes above the upper bound empty. */
  lemma {:induction false} StepKeepsValid<T>(q: Queue<T>, s: Step<T>)
    requires q.Valid() && StepFrom(q, s)
    ensures s.after.Valid()
  {
    hide Total;
    match s.call
    case Enq(pkt, prio) =>
      if q.qcnt < q.qmax {
        UpdateTotal(q.lists, prio, q.lists[prio] + [pkt]);
      } else if exists p :: 0 <= p < prio && q.lists[p] != [] {
        var p := LowestOf(q.lists, prio);
        UpdateTotal(q.lists, p, q.lists[p][..|q.lists[p]| - 1] + [pkt]);
      }
    case Deq =>
      if q.qcnt > 0 {
        var p := HighestOf(q.lists);
        UpdateTotal(q.lists, p, q.lists[p][1..]);
      }
  }

  ghost predicate IsRun<T>(start: Queue<T>, run: seq<Step<T>>)
    requires start.Valid()
    decreases |run|
  {
    run != [] ==> StepFrom(start, run[0]) && (StepKeepsValid(start, run[0]); IsRun(run[0].after, run[1..]))
  }

  function Last<T>(start: Queue<T>, run: seq<Step<T>>): Queue<T> {
    if run == [] then start else run[|run| - 1].after
  }

  ghost function Submitted<T>(run: seq<Step<T>>): multiset<T> {
    if run == [] then multiset{} else BroughtBy(run[0]) + Submitted(run[1..])
  }

  ghost function BroughtBy<T>(s: Step<T>): multiset<T> {
    match s.call
    case Enq(pkt, _) => multiset{pkt}
    case Deq => multiset{}
  }

  /** Packets handed out, thrown away by an eviction, or refused. */
  ghost function Gone<T>(run: seq<Step<T>>): multiset<T> {
    if run == [] then multiset{}
    else GoneBy(run[0]) + Gone(run[1..])
  }

  ghost function GoneBy<T>(s: Step<T>): multiset<T> {
    match s.call
    case Enq(pkt, _) => (match s.enq case Refused => multiset{pkt} case Replaced(v) => multiset{v} case Accepted => multiset{})
    case Deq => if s.deq.Some? then multiset{s.deq.value} else multiset{}
  }

  lemma LowestOf<T>(lists: seq<seq<T>>, prio: nat) returns (p: nat)
    requires prio <= |lists|
    requires exists r :: 0 <= r < prio && lists[r] != []
    ensures IsLowest(lists, p) && p < prio
  {
    p := 0;
    while lists[p] == []
      invariant p < prio && forall r :: 0 <= r < p ==> lists[r] == []
      invariant exists r :: p <= r < prio && lists[r] != []
      decreases prio - p
    {
      p := p + 1;
    }
  }

  lemma HighestOf<T>(lists: seq<seq<T>>) returns (p: nat)
    requires Total(lists) > 0
    ensures IsHighest(lists, p)
  {
    TotalZero(lists);
    p := |lists| - 1;
    while lists[p] == []
      invariant p < |lists| && forall r :: p < r < |lists| ==> lists[r] == []
      invariant exists r :: 0 <= r <= p && lists[r] != []
      decreases p
    {
      p := p - 1;
    }
  }

  lemma AppendContents<T>(lists: seq<seq<T>>, p: nat, pkt: T)
    requires p < |lists|
    ensures Contents(lists[p := lists[p] + [pkt]]) == Contents(lists) + multiset{pkt}
  {
    UpdateContents(lists, p, lists[p] + [pkt]);
    Cancel(Contents(lists[p := lists[p] + [pkt]]), Contents(lists), multiset(lists[p]), multiset{pkt}, multiset{});
  }

  lemma PopContents<T>(lists: seq<seq<T>>, p: nat)
    requires p < |lists| && lists[p] != []
    ensures Contents(lists[p := lists[p][1..]]) + multiset{lists[p][0]} == Contents(lists)
  {
    var first, rest := lists[p][0], lists[p][1..];
    assert lists[p] == [first] + rest;
    assert multiset(lists[p]) == multiset(rest) + multiset{first};
    UpdateContents(lists, p, rest);
    Cancel(Contents(lists[p := rest]), Contents(lists), multiset(rest), multiset{}, multiset{first});
  }

  lemma ReplaceContents<T>(lists: seq<seq<T>>, p: nat, pkt: T)
    requires p < |lists| && lists[p] != []
    ensures var n := |lists[p]| - 1;
            Contents(lists[p := lists[p][..n] + [pkt]]) + multiset{lists[p][n]} == Contents(lists) + multiset{pkt}
  {
    var n := |lists[p]| - 1;
    var init := lists[p][..n];
    assert lists[p] == init + [lists[p][n]];
    UpdateContents(lists, p, init + [pkt]);
    Cancel(Contents(lists[p := init + [pkt]]), Contents(lists), multiset(init), multiset{pkt}, multiset{lists[p][n]});
  }

  lemma Cancel<T>(after: multiset<T>, before: multiset<T>, common: multiset<T>, come: multiset<T>, gone: multiset<T>)
    requires after + (common + gone) == before + (common + come)
    ensures after + gone == before + come
  {
    forall x
      ensures (after + gone)[x] == (before + come)[x]
    {
      assert (after + (common + gone))[x] == (before + (common + come))[x];
    }
  }

  lemma StepConserves<T>(q: Queue<T>, s: Step<T>)
    requires q.Valid() && StepFrom(q, s)
    ensures Contents(s.after.lists) + GoneBy(s) == Contents(q.lists) + BroughtBy(s)
  {
    hide Contents, Total;
    match s.call
    case Enq(pkt, prio) =>
      if q.qcnt < q.qmax {
        AppendContents(q.lists, prio, pkt);
      } else if forall p :: 0 <= p < prio ==> q.lists[p] == [] {
      } else {
        var p := LowestOf(q.lists, prio);
        ReplaceContents(q.lists, p, pkt);
      }
    case Deq =>
      if q.qcnt > 0 {
        var p := HighestOf(q.lists);
        PopContents(q.lists, p);
      }
  }

  /**
   * Over any run every packet submitted is still queued, or left once in exactly one of the three ways, and
   * the count, the bound and the upper bound are right at the end.
   */
  lemma {:induction false} PacketsConserved<T>(start: Queue<T>, run: seq<Step<T>>)
    requires start.Valid() && IsRun(start, run)
    ensures Last(start, run).Valid()
    ensures Contents(Last(start, run).lists) + Gone(run) == Contents(start.lists) + Submitted(run)
    decreases |run|
  {
    hide StepFrom, Contents;
    if run != [] {
      var q := run[0].after;
      StepKeepsValid(start, run[0]);
      StepConserves(start, run[0]);
      PacketsConserved(q, run[1..]);
      assert Last(start, run) == Last(q, run[1..]);
      Chain(Contents(start.lists), Contents(q.lists), Contents(Last(q, run[1..]).lists),
            BroughtBy(run[0]), Submitted(run[1..]), GoneBy(run[0]), Gone(run[1..]));
    }
  }

  lemma Chain<T>(c0: multiset<T>, c1: multiset<T>, c2: multiset<T>,
                 s1: multiset<T>, s2: multiset<T>, g1: multiset<T>, g2: multiset<T>)
    requires c1 + g1 == c0 + s1 && c2 + g2 == c1 + s2
    ensures c2 + (g1 + g2) == c0 + (s1 + s2)
  {
    forall x
      ensures (c2 + (g1 + g2))[x] == (c0 + (s1 + s2))[x]
    {
      assert (c1 + g1)[x] == (c0 + s1)[x] && (c2 + g2)[x] == (c1 + s2)[x];
    }
  }

  /** With room for one packet, a second one of a higher class ends up in the first one's class. */
  method NewcomerInVictimsClass() returns (lists: seq<seq<nat>>, first: bool, second: bool)
    ensures first && second && |lists| == CLASSES && lists[0] == [8] && forall p :: 0 < p < CLASSES ==> lists[p] == []
  {
    hide Total;
    var q := new FrameQueue<nat>(CLASSES, 1);
    TotalZero(q.queuelist[..]);
    ghost var empty := q.queuelist[..];
    assert forall p :: 0 <= p < CLASSES ==> empty[p] == [];
    ghost var a, b;
    first, a := q.EnqueueEvicting(7, 0);
    ghost var one := q.queuelist[..];
    assert one == empty[0 := empty[0] + [7]] && one[0] == [7];
    assert IsLowest(one, 0);
    second, b := q.EnqueueEvicting(8, 1);
    lists := q.queuelist[..];
    assert lists == one[0 := one[0][..0] + [8]] && one[0][..0] + [8] == [8];
  }

  /**
   * A queue with room for three holds 7 and 9 in class 0 and 8 in class 1. A packet of class 2 takes the place of
   * 9, the newest of the lowest class; one of class 0 is refused; and the packets leave as 8, 7, 5.
   */
  method NewestOfLowestGoes() returns (victim: bool, refused: bool, out: seq<Option<nat>>)
    ensures victim && refused && out == [Some(8), Some(7), Some(5)]
  {
    hide Total;
    var q := FullOfThree();
    ghost var full := q.queuelist[..];
    ghost var a;
    assert IsLowest(full, 0);
    victim, a := q.EnqueueEvicting(5, 2);
    assert a == Replaced(9);
    ghost var after := q.queuelist[..];
    assert full[0][..1] + [5] == [7, 5];
    assert after == full[0 := [7, 5]];
    ghost var b;
    refused, b := q.EnqueueEvicting(6, 0);
    refused := !refused;
    assert q.queuelist[..] == after;
    out := ThreeOut(q);
  }

  method FullOfThree() returns (q: FrameQueue<nat>)
    ensures q.Valid() && fresh(q) && fresh(q.queuelist) && q.numPrio == 8 && q.qmax == 3 && q.qcnt == 3
    ensures q.queuelist[0] == [7, 9] && q.queuelist[1] == [8] && forall p :: 2 <= p < 8 ==> q.queuelist[p] == []
  {
    hide Total;
    q := new FrameQueue<nat>(8, 3);
    TotalZero(q.queuelist[..]);
    ghost var s0 := q.queuelist[..];
    assert forall p :: 0 <= p < 8 ==> s0[p] == [];
    var ok;
    ghost var a;
    ok, a := q.EnqueueEvicting(7, 0);
    ghost var s1 := q.queuelist[..];
    assert s1 == s0[0 := s0[0] + [7]];
    ok, a := q.EnqueueEvicting(8, 1);
    ghost var s2 := q.queuelist[..];
    assert s2 == s1[1 := s1[1] + [8]];
    ok, a := q.EnqueueEvicting(9, 0);
    ghost var s3 := q.queuelist[..];
    assert s3 == s2[0 := s2[0] + [9]] && s3[0] == [7, 9];
  }

  method ThreeOut(q: FrameQueue<nat>) returns (out: seq<Option<nat>>)
    requires q.Valid() && q.qcnt == 3
    requires q.queuelist[0] == [7, 5] && q.queuelist[1] == [8] && forall p :: 2 <= p < 8 ==> q.queuelist[p] == []
    modifies q, q.queuelist
    ensures out == [Some(8), Some(7), Some(5)]
  {
    hide Total;
    assert IsHighest(q.queuelist[..], 1);
    var x := q.Dequeue();
    assert IsHighest(q.queuelist[..], 0);
    var y := q.Dequeue();
    assert q.queuelist[0] == [5];
    assert IsHighest(q.queuelist[..], 0);
    var z := q.Dequeue();
    out := [x, y, z];
  }

  // ----- the order in which packets leave -----

  /** Highest class first, and within a class in the order of the list. */
  ghost function InOrder<T>(lists: seq<seq<T>>): seq<T> {
    if lists == [] then [] else lists[|lists| - 1] + InOrder(lists[..|lists| - 1])
  }

  lemma {:induction false} InOrderTakesFirst<T>(lists: seq<seq<T>>, p: nat)
    requires IsHighest(lists, p)
    ensures InOrder(lists) == [lists[p][0]] + InOrder(lists[p := lists[p][1..]])
    decreases |lists|
  {
    var n := |lists| - 1;
    var popped := lists[p := lists[p][1..]];
    if p < n {
      assert lists[n] == [] && popped[n] == [];
      assert popped[..n] == lists[..n][p := lists[p][1..]];
      InOrderTakesFirst(lists[..n], p);
    } else {
      assert popped[..n] == lists[..n];
      assert lists[n] == [lists[n][0]] + popped[n];
    }
  }

  ghost function Outputs<T>(run: seq<Step<T>>): seq<T> {
    if run == [] then []
    else (if run[0].deq.Some? then [run[0].deq.value] else []) + Outputs(run[1..])
  }

  /** Draining a queue with no enqueue in between hands out all of it, in priority order. */
  lemma {:induction false} DrainsInOrder<T>(q: Queue<T>, run: seq<Step<T>>)
    requires q.Valid() && IsRun(q, run) && |run| == q.qcnt
    requires forall k :: 0 <= k < |run| ==> run[k].call == Deq
    ensures Outputs(run) == InOrder(q.lists)
    decreases |run|
  {
    if run == [] {
      TotalZero(q.lists);
      InOrderEmpty(q.lists);
    } else {
      var r := run[0].after;
      StepKeepsValid(q, run[0]);
      var p := HighestOf(q.lists);
      InOrderTakesFirst(q.lists, p);
      UpdateTotal(q.lists, p, q.lists[p][1..]);
      DrainsInOrder(r, run[1..]);
    }
  }

  lemma {:induction false} InOrderEmpty<T>(lists: seq<seq<T>>)
    requires forall p :: 0 <= p < |lists| ==> lists[p] == []
    ensures InOrder(lists) == []
    decreases |lists|
  {
    if lists != [] {
      InOrderEmpty(lists[..|lists| - 1]);
    }
  }
}
