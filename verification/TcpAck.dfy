/** The TCP acknowledgement coalescer (`aicwf_tcp_ack.c`). */
module TcpAck {
  import opened Machine

  const TCP_ACK_NUM: nat := 32
  const TCP_ACK_DROP_CNT: int := 10

  // ----- wrapping comparisons -----

  /** U32_BEFORE: true also for equal sequence numbers. */
  predicate Before(a: word, b: word) {
    var d := (a - b) % TWO_32;
    d == 0 || d >= TWO_32 / 2
  }

  /** On sequence positions less than half the number space apart, this is the order of the positions. */
  lemma BeforeIsOrder(x: nat, y: nat)
    requires -(TWO_32 / 2) < x - y < TWO_32 / 2
    ensures Before(x % TWO_32, y % TWO_32) <==> x <= y
  {
    var d := x % TWO_32 - y % TWO_32;
    assert d == x - y + TWO_32 * (y / TWO_32 - x / TWO_32);
    ModShift(x - y, y / TWO_32 - x / TWO_32, TWO_32);
    if x < y {
      ModShift(x - y, 1, TWO_32);
    }
  }

  /** time_after(a, b) on 64-bit jiffies */
  predicate After(a: nat, b: nat) {
    (b - a) % TWO_64 >= TWO_64 / 2
  }

  /** With less than half the counter between them, this says that more than the timeout has passed. */
  lemma AfterIsElapsed(last: nat, now: nat, timeout: nat)
    requires last <= now && now - last <= 0x8000_0000_0000_0000 && timeout < 0x8000_0000_0000_0000
    ensures After(now, last + timeout) <==> now - last > timeout
    ensures After(now % TWO_64, last % TWO_64 + timeout) <==> now - last > timeout
  {
    var d := last + timeout - now;
    assert last % TWO_64 + timeout - now % TWO_64 == d + TWO_64 * (now / TWO_64 - last / TWO_64);
    ModShift(d, now / TWO_64 - last / TWO_64, TWO_64);
    if d < 0 {
      ModShift(d, 1, TWO_64);
    }
  }

  // ----- one slot of the table, and the locked sections that touch it -----

  datatype Flow = Flow(source: nat, dest: nat, saddr: int, daddr: int)

  /** A message buffer holding a pure acknowledgement of a flow. */
  datatype Msg = Msg(id: nat, flow: Flow, seqNo: word)

  datatype Slot = Slot(
    busy: bool, dropCnt: int, psh: bool, pshSeq: word, winScale: nat, lastTime: nat, timer: bool,
    held: Option<Msg>, inSend: Option<Msg>, flow: Flow, seqNo: word)

  const EMPTY_SLOT: Slot := Slot(false, 0, false, 0, 0, 0, false, None, None, Flow(0, 0, 0, 0), 0)

  /** kept: the caller must not send the message; drop: the message freed, if any. */
  datatype Handled = Handled(slot: Slot, kept: bool, drop: Option<Msg>)

  /** `tcp_ack_handle_new`; it does not look at the kind of acknowledgement it is given. */
  function HandleSlot(s: Slot, m: Msg, now: nat): Handled {
    var t := s.(lastTime := now);
    if !Before(s.seqNo, m.seqNo) then Handled(t, true, Some(m))
    else
      var quick := s.psh && !Before(m.seqNo, s.pshSeq);
      var cnt := if quick then s.dropCnt else Inc32(s.dropCnt);
      var u := t.(held := None, psh := s.psh && !quick, dropCnt := cnt, seqNo := m.seqNo);
      if quick || (s.inSend.None? && cnt >= TCP_ACK_DROP_CNT)
      then Handled(u.(dropCnt := 0, inSend := Some(m), timer := false), false, s.held)
      else Handled(u.(held := Some(m), timer := true), true, s.held)
  }

  predicate FireSends(s: Slot) {
    s.busy && s.held.Some? && s.inSend.None?
  }

  /** `tcp_ack_timeout`: a held message is passed on unless an earlier one is still under way. */
  function FireSlot(s: Slot): Slot {
    if FireSends(s) then s.(held := None, dropCnt := 0, inSend := s.held, timer := false) else s.(timer := false)
  }

  /** One round of `move_tcpack_msg`. */
  function DoneSlot(s: Slot, m: Msg): Slot {
    if s.busy && s.inSend == Some(m) then s.(inSend := None) else s
  }

  /** A free slot taken for a new flow; what it holds and what it has under way stay. */
  function FillSlot(s: Slot, flow: Flow, seqNo: word, winScale: nat, now: nat): Slot {
    s.(busy := true, psh := false, lastTime := now, dropCnt := TCP_ACK_DROP_CNT,
       winScale := if winScale != 0 then winScale else 1, flow := flow, seqNo := seqNo)
  }

  // ----- a message is never lost or duplicated inside the filter -----

  /** What a locked section does to its slot. */
  datatype Op =
    | Handle(m: Msg, now: nat)
    | Fire
    | Done(m: Msg)
    | Psh(seqNo: word)
    | Scale(winScale: nat)
    | Expire
    | Fill(m: Msg, winScale: nat, now: nat)   // the message that opens a flow is sent by its caller
    | Drain                              // one slot of `tcp_ack_deinit`

  /** A message that is not filtered is sent by its caller; everything else is a section on one slot. */
  datatype Event = Bypass(m: Msg) | At(i: nat, op: Op)

  /** The new slot, and the message that came in, went back to the caller, went to the device, or was freed. */
  datatype Moved = Moved(slot: Slot, arrived: Option<Msg>, returned: Option<Msg>, passed: Option<Msg>, dropped: Option<Msg>)

  function SlotStep(s: Slot, op: Op): Moved {
    match op
    case Handle(m, now) =>
      var h := HandleSlot(s, m, now);
      Moved(h.slot, Some(m), if h.kept then None else Some(m), None, h.drop)
    case Fire => Moved(FireSlot(s), None, None, if FireSends(s) then s.held else None, None)
    case Done(m) => Moved(DoneSlot(s, m), None, None, None, None)
    case Psh(n) => Moved(s.(psh := true, pshSeq := n), None, None, None, None)
    case Scale(w) => Moved(s.(winScale := w), None, None, None, None)
    case Expire => Moved(s.(busy := false), None, None, None, None)
    case Fill(m, w, now) => Moved(FillSlot(s, m.flow, m.seqNo, w, now), Some(m), Some(m), None, None)
    case Drain => Moved(s.(held := None, timer := false), None, None, None, s.held)
  }

  /** The table, and where each message that came in has gone. */
  datatype Filter = Filter(slots: seq<Slot>, submitted: multiset<Msg>, returned: multiset<Msg>, passed: multiset<Msg>, dropped: multiset<Msg>)

  function Opt(m: Option<Msg>): multiset<Msg> {
    if m.None? then multiset{} else multiset{m.value}
  }

  /** Each event is one section under a lock, so a run of them is any interleaving of the threads. */
  function Step(f: Filter, e: Event): (g: Filter)
    ensures |g.slots| == |f.slots|
  {
    match e
    case Bypass(m) => f.(submitted := f.submitted + multiset{m}, returned := f.returned + multiset{m})
    case At(i, op) =>
      if i >= |f.slots| then f
      else
        var v := SlotStep(f.slots[i], op);
        Filter(f.slots[i := v.slot], f.submitted + Opt(v.arrived), f.returned + Opt(v.returned),
               f.passed + Opt(v.passed), f.dropped + Opt(v.dropped))
  }

  function Run(events: seq<Event>): (f: Filter)
    ensures |f.slots| == TCP_ACK_NUM
  {
    if events == [] then Filter(seq(TCP_ACK_NUM, _ => EMPTY_SLOT), multiset{}, multiset{}, multiset{}, multiset{})
    else Step(Run(events[..|events| - 1]), events[|events| - 1])
  }

  function Is(o: Option<Msg>, m: Msg): nat {
    if o == Some(m) then 1 else 0
  }

  /** How many slots hold m. */
  function Held(slots: seq<Slot>, m: Msg): nat {
    if slots == [] then 0 else Is(slots[0].held, m) + Held(slots[1..], m)
  }

  lemma {:induction false} HeldUpdate(slots: seq<Slot>, i: nat, s: Slot, m: Msg)
    requires i < |slots|
    ensures Held(slots[i := s], m) + Is(slots[i].held, m) == Held(slots, m) + Is(s.held, m)
  {
    var r := slots[i := s];
    if i == 0 {
      assert r[1..] == slots[1..];
    } else {
      assert r[0] == slots[0] && r[1..] == slots[1..][i - 1 := s];
      HeldUpdate(slots[1..], i - 1, s, m);
    }
  }

  /** A slot gives away what it takes in or held before, once. */
  lemma SlotConserves(s: Slot, op: Op, m: Msg)
    ensures var v := SlotStep(s, op);
      Is(v.arrived, m) + Is(s.held, m) == Is(v.returned, m) + Is(v.slot.held, m) + Is(v.passed, m) + Is(v.dropped, m)
  {
    hide Before;
  }

  ghost predicate Conserved(f: Filter, m: Msg) {
    f.submitted[m] == f.returned[m] + Held(f.slots, m) + f.passed[m] + f.dropped[m]
  }

  lemma OptCount(a: multiset<Msg>, o: Option<Msg>, m: Msg)
    ensures (a + Opt(o))[m] == a[m] + Is(o, m)
  {
  }

  lemma StepConserves(f: Filter, e: Event, m: Msg)
    requires Conserved(f, m)
    ensures Conserved(Step(f, e), m)
  {
    hide SlotStep, Held, Opt, Is;
    if e.At? && e.i < |f.slots| {
      var v := SlotStep(f.slots[e.i], e.op);
      OptCount(f.submitted, v.arrived, m);
      OptCount(f.returned, v.returned, m);
      OptCount(f.passed, v.passed, m);
      OptCount(f.dropped, v.dropped, m);
      HeldUpdate(f.slots, e.i, SlotStep(f.slots[e.i], e.op).slot, m);
      SlotConserves(f.slots[e.i], e.op, m);
    }
  }

  lemma {:induction false} NothingHeldAtFirst(n: nat, m: Msg)
    ensures Held(seq(n, _ => EMPTY_SLOT), m) == 0
  {
    if n > 0 {
      assert seq(n, _ => EMPTY_SLOT)[1..] == seq(n - 1, _ => EMPTY_SLOT);
      NothingHeldAtFirst(n - 1, m);
    }
  }

  /**
   * Every message is as often sent by its caller, held, passed on by the timer or freed as it was submitted:
   * one submitted once is in exactly one of these places.
   */
  lemma {:induction false} MessagesConserved(events: seq<Event>, m: Msg)
    ensures var f := Run(events);
      f.submitted[m] == f.returned[m] + Held(f.slots, m) + f.passed[m] + f.dropped[m]
  {
    hide Step;
    if events == [] {
      NothingHeldAtFirst(TCP_ACK_NUM, m);
    } else {
      MessagesConserved(events[..|events| - 1], m);
      StepConserves(Run(events[..|events| - 1]), events[|events| - 1], m);
    }
  }

  // ----- which freed acknowledgements are superseded -----

  /** Another acknowledgement of d's own flow came in that is not older. */
  ghost predicate Superseded(arrived: multiset<Msg>, d: Msg) {
    exists a :: a in arrived && a != d && a.flow == d.flow && Before(d.seqNo, a.seqNo)
  }

  /** The acknowledgement whose number a slot carries: the one that took the slot, or the last one handled in order. */
  function Carried(s: Slot, l: Option<Msg>, op: Op): Option<Msg> {
    if op.Fill? || (op.Handle? && Before(s.seqNo, op.m.seqNo)) then Some(op.m) else l
  }

  function Latest(events: seq<Event>, i: nat): Option<Msg>
    requires i < TCP_ACK_NUM
  {
    if events == [] then None
    else
      var pre, e := events[..|events| - 1], events[|events| - 1];
      if e.At? && e.i == i then Carried(Run(pre).slots[i], Latest(pre, i), e.op) else Latest(pre, i)
  }

  lemma BeforeTotal(a: word, b: word)
    ensures Before(a, b) || Before(b, a)
    ensures Before(a, a)
  {
    var d := (a - b) % TWO_32;
    assert (b - a) % TWO_32 == if d == 0 then 0 else TWO_32 - d;
  }

  /** What a slot carries and holds came in, whatever the interleaving. */
  ghost predicate Sourced(s: Slot, l: Option<Msg>, arrived: multiset<Msg>) {
    && (l.Some? ==> l.value in arrived && s.seqNo == l.value.seqNo)
    && (s.held.Some? ==> s.held.value in arrived)
  }

  lemma {:induction false} RunSourced(events: seq<Event>, i: nat)
    requires i < TCP_ACK_NUM
    ensures Sourced(Run(events).slots[i], Latest(events, i), Run(events).submitted)
  {
    hide Step, SlotStep, Sourced, Carried;
    if events == [] {
      NothingSourced();
    } else {
      var pre, e := events[..|events| - 1], events[|events| - 1];
      RunSourced(pre, i);
      StepSourced(Run(pre), e, i, Latest(pre, i));
    }
  }

  lemma NothingSourced()
    ensures Sourced(EMPTY_SLOT, None, multiset{})
  {
  }

  lemma StepSourced(f: Filter, e: Event, i: nat, l: Option<Msg>)
    requires i < |f.slots| && Sourced(f.slots[i], l, f.submitted)
    ensures var after := if e.At? && e.i == i then Carried(f.slots[i], l, e.op) else l;
      Sourced(Step(f, e).slots[i], after, Step(f, e).submitted)
  {
    hide SlotStep, Carried;
    if e.At? && e.i == i {
      SlotSourced(f.slots[i], l, f.submitted, e.op);
    }
  }

  lemma SlotSourced(s: Slot, l: Option<Msg>, arrived: multiset<Msg>, op: Op)
    requires Sourced(s, l, arrived)
    ensures Sourced(SlotStep(s, op).slot, Carried(s, l, op), arrived + Opt(SlotStep(s, op).arrived))
  {
    hide Before;
  }

  /**
   * After any run, handling a new message m on slot i frees a message that nothing of its own flow supersedes
   * exactly in two cases. Either m is older than the slot's number, that number is another flow's, and m is the
   * newest of its flow. Or m is not older, the message held is of another flow, or is newer than m and the slot
   * has been renumbered since it was put there; and the held message is the newest of its flow.
   */
  lemma {:induction false} UnsupersededExactly(events: seq<Event>, i: nat, m: Msg, now: nat)
    requires i < TCP_ACK_NUM && m !in Run(events).submitted
    ensures
      var f := Run(events);
      var s, l, h := f.slots[i], Latest(events, i), HandleSlot(f.slots[i], m, now);
      h.drop.Some? && !Superseded(Step(f, At(i, Handle(m, now))).submitted, h.drop.value) <==>
        if !Before(s.seqNo, m.seqNo)
        then (l.None? || l.value.flow != m.flow) && !Superseded(f.submitted, m)
        else
          && s.held.Some?
          && (s.held.value.flow != m.flow || (l != s.held && !Before(s.held.value.seqNo, m.seqNo)))
          && !Superseded(f.submitted, s.held.value)
  {
    hide Before, Run, Latest;
    var f := Run(events);
    RunSourced(events, i);
    var s, l := f.slots[i], Latest(events, i);
    var g := Step(f, At(i, Handle(m, now)));
    assert g.submitted == f.submitted + multiset{m};
    BeforeTotal(s.seqNo, m.seqNo);
    assert forall a :: a in g.submitted <==> a in f.submitted || a == m;
  }

  // ----- what can lose the newest acknowledgement of a flow -----

  /** Every message is a new buffer. */
  predicate Fresh(events: seq<Event>, e: Event) {
    match e
    case Bypass(m) => m !in Run(events).submitted
    case At(_, Handle(m, _)) => m !in Run(events).submitted
    case At(_, Fill(m, _, _)) => m !in Run(events).submitted
    case At(_, _) => true
  }

  /** Between the match and the slot's lock the slot has gone to another flow. */
  predicate Races(events: seq<Event>, e: Event) {
    e.At? && e.i < TCP_ACK_NUM && e.op.Handle? && (Latest(events, e.i).None? || Run(events).slots[e.i].flow != e.op.m.flow)
  }

  /** A slot is taken for a flow while it still holds a message. */
  predicate TakesOver(events: seq<Event>, e: Event) {
    e.At? && e.i < TCP_ACK_NUM && e.op.Fill? && Run(events).slots[e.i].held.Some?
  }

  /** `tcp_ack_deinit` finds a slot that holds a message. */
  predicate DrainsHeld(events: seq<Event>, e: Event) {
    e.At? && e.i < TCP_ACK_NUM && e.op.Drain? && Run(events).slots[e.i].held.Some?
  }

  /** The section frees a message that nothing of its own flow supersedes. */
  ghost predicate Loses(events: seq<Event>, e: Event) {
    e.At? && e.i < TCP_ACK_NUM &&
    var dropped := SlotStep(Run(events).slots[e.i], e.op).dropped;
    dropped.Some? && !Superseded(Step(Run(events), e).submitted, dropped.value)
  }

  /** Which of the three may happen. */
  datatype Causes = Causes(races: bool, takeovers: bool, drains: bool)

  ghost predicate Allowed(events: seq<Event>, c: Causes) {
    events != [] ==>
    var pre, e := events[..|events| - 1], events[|events| - 1];
    && Allowed(pre, c) && Fresh(pre, e)
    && (c.races || !Races(pre, e)) && (c.takeovers || !TakesOver(pre, e)) && (c.drains || !DrainsHeld(pre, e))
  }

  ghost predicate LosesNothing(events: seq<Event>) {
    events != [] ==>
    var pre, e := events[..|events| - 1], events[|events| - 1];
    LosesNothing(pre) && !Loses(pre, e)
  }

  /** The slot's number is its own flow's, and it holds nothing but the acknowledgement that number is from. */
  predicate Coherent(s: Slot, l: Option<Msg>) {
    && (l.Some? ==> l.value.flow == s.flow)
    && (s.held.Some? ==> l == s.held)
  }

  lemma {:induction false} WithoutReuseCoherent(events: seq<Event>, i: nat, drains: bool)
    requires Allowed(events, Causes(false, false, drains)) && i < TCP_ACK_NUM
    ensures Coherent(Run(events).slots[i], Latest(events, i))
  {
    hide SlotStep, Carried;
    if events != [] {
      var pre, e := events[..|events| - 1], events[|events| - 1];
      WithoutReuseCoherent(pre, i, drains);
      if e.At? && e.i == i {
        SlotCoherent(Run(pre).slots[i], Latest(pre, i), e.op);
      }
    }
  }

  lemma SlotCoherent(s: Slot, l: Option<Msg>, op: Op)
    requires Coherent(s, l)
    requires op.Handle? ==> l.Some? && s.flow == op.m.flow
    requires op.Fill? ==> s.held.None?
    ensures Coherent(SlotStep(s, op).slot, Carried(s, l, op))
  {
    hide Before;
  }

  lemma {:induction false} WithoutCauseLosesNothing(events: seq<Event>)
    requires Allowed(events, Causes(false, false, false))
    ensures LosesNothing(events)
  {
    hide Before, Latest, Run, Loses, Step, SlotStep;
    if events != [] {
      var pre, e := events[..|events| - 1], events[|events| - 1];
      WithoutCauseLosesNothing(pre);
      if e.At? && e.i < TCP_ACK_NUM {
        WithoutReuseCoherent(pre, e.i, false);
        if e.op.Handle? {
          HandleLosesNothing(pre, e);
        } else {
          OthersLoseNothing(pre, e);
        }
      } else {
        assert !Loses(pre, e) by { NoSlotLosesNothing(pre, e); }
      }
    }
  }

  lemma NoSlotLosesNothing(pre: seq<Event>, e: Event)
    requires !e.At? || e.i >= TCP_ACK_NUM
    ensures !Loses(pre, e)
  {
    hide Run;
  }

  lemma HandleLosesNothing(pre: seq<Event>, e: Event)
    requires e.At? && e.i < TCP_ACK_NUM && e.op.Handle? && Fresh(pre, e) && !Races(pre, e)
    requires Coherent(Run(pre).slots[e.i], Latest(pre, e.i))
    ensures !Loses(pre, e)
  {
    hide Before, Latest, Run, Superseded, HandleSlot;
    UnsupersededExactly(pre, e.i, e.op.m, e.op.now);
  }

  lemma OthersLoseNothing(pre: seq<Event>, e: Event)
    requires e.At? && e.i < TCP_ACK_NUM && !e.op.Handle? && !DrainsHeld(pre, e)
    ensures !Loses(pre, e)
  {
    hide Before, Latest, Run, Superseded, Step;
  }

  /** One more section on slot 0, followed exactly. */
  lemma Extend(events: seq<Event>, op: Op, s: Slot, l: Option<Msg>, arrived: multiset<Msg>, c: Causes)
    returns (longer: seq<Event>)
    requires Run(events).slots[0] == s && Latest(events, 0) == l && Run(events).submitted == arrived
    requires Allowed(events, c)
    requires op.Handle? ==> op.m !in arrived && (c.races || (l.Some? && s.flow == op.m.flow))
    requires op.Fill? ==> op.m !in arrived && (c.takeovers || s.held.None?)
    requires op.Drain? ==> c.drains
    ensures longer == events + [At(0, op)] && Allowed(longer, c)
    ensures Run(longer).slots[0] == SlotStep(s, op).slot && Latest(longer, 0) == Carried(s, l, op)
    ensures Run(longer).submitted == arrived + Opt(SlotStep(s, op).arrived)
  {
    hide SlotStep, Carried;
    longer := events + [At(0, op)];
    assert longer[..|longer| - 1] == events;
  }

  const FLOW_F: Flow := Flow(1, 2, 3, 4)
  const FLOW_G: Flow := Flow(5, 6, 7, 8)

  lemma EmptyRun(c: Causes)
    ensures Run([]).slots[0] == EMPTY_SLOT && Latest([], 0) == None && Run([]).submitted == multiset{}
    ensures Allowed([], c)
  {
  }

  const F0: Msg := Msg(0, FLOW_F, 100)
  const F1: Msg := Msg(1, FLOW_F, 500)
  const F2: Msg := Msg(2, FLOW_F, 600)
  const G0: Msg := Msg(3, FLOW_G, 1000)
  const G1: Msg := Msg(4, FLOW_G, 1001)

  /** The race alone: an acknowledgement matched to a slot of its flow is judged by another flow's number. */
  lemma RaceLoses(c: Causes) returns (events: seq<Event>)
    requires c.races
    ensures Allowed(events, c) && !LosesNothing(events)
  {
    hide Run, Latest, Allowed, LosesNothing, Before, Superseded;
    EmptyRun(c);
    var s1 := FillSlot(EMPTY_SLOT, FLOW_F, 100, 1, 0);
    var s2 := s1.(busy := false);
    var s3 := FillSlot(s2, FLOW_G, 1000, 1, 0);
    var e1 := Extend([], Fill(F0, 1, 0), EMPTY_SLOT, None, multiset{}, c);
    var e2 := Extend(e1, Expire, s1, Some(F0), multiset{F0}, c);
    var e3 := Extend(e2, Fill(G0, 1, 0), s2, Some(F0), multiset{F0}, c);
    events := Extend(e3, Handle(F1, 0), s3, Some(G0), multiset{F0, G0}, c);
    assert !Before(1000, 500) && !Before(500, 100) by { Numbers(); }
    Lost(e3, Handle(F1, 0), F1);
  }

  lemma Numbers()
    ensures Before(100, 500) && Before(500, 600) && Before(1000, 1001)
    ensures !Before(1000, 500) && !Before(500, 100) && !Before(600, 500) && !Before(600, 100)
  {
  }

  /** The slot after its flow's second acknowledgement was sent and the third is held, the second still under way. */
  const HOLDING: Slot :=
    Slot(true, 1, false, 0, 1, 0, false, Some(F2), Some(F1), FLOW_F, 600)

  lemma Holds(c: Causes) returns (events: seq<Event>)
    ensures Allowed(events, c)
    ensures Run(events).slots[0] == HOLDING && Latest(events, 0) == Some(F2) && Run(events).submitted == multiset{F0, F1, F2}
  {
    hide Run, Latest, Allowed, Before;
    EmptyRun(c);
    Numbers();
    var s1 := FillSlot(EMPTY_SLOT, FLOW_F, 100, 1, 0);
    var s2 := s1.(dropCnt := 0, inSend := Some(F1), seqNo := 500);
    var e1 := Extend([], Fill(F0, 1, 0), EMPTY_SLOT, None, multiset{}, c);
    var e2 := Extend(e1, Handle(F1, 0), s1, Some(F0), multiset{F0}, c);
    var e3 := Extend(e2, Handle(F2, 0), s2, Some(F1), multiset{F0, F1}, c);
    events := Extend(e3, Fire, HOLDING.(timer := true), Some(F2), multiset{F0, F1, F2}, c);
  }

  /** The takeover alone: a message still held when its slot goes to another flow is freed by that flow's next one. */
  lemma TakeoverLoses(c: Causes) returns (events: seq<Event>)
    requires c.takeovers
    ensures Allowed(events, c) && !LosesNothing(events)
  {
    hide Run, Latest, Allowed, LosesNothing, Before, Superseded;
    Numbers();
    var e4 := Holds(c);
    var s5 := HOLDING.(busy := false);
    var s6 := FillSlot(s5, FLOW_G, 1000, 1, 0);
    var e5 := Extend(e4, Expire, HOLDING, Some(F2), multiset{F0, F1, F2}, c);
    var e6 := Extend(e5, Fill(G0, 1, 0), s5, Some(F2), multiset{F0, F1, F2}, c);
    events := Extend(e6, Handle(G1, 0), s6, Some(G0), multiset{F0, F1, F2, G0}, c);
    Lost(e6, Handle(G1, 0), F2);
  }

  /** The teardown alone: a message held then is the newest of its flow. */
  lemma DrainLoses(c: Causes) returns (events: seq<Event>)
    requires c.drains
    ensures Allowed(events, c) && !LosesNothing(events)
  {
    hide Run, Latest, Allowed, LosesNothing, Before, Superseded;
    Numbers();
    var e4 := Holds(c);
    events := Extend(e4, Drain, HOLDING, Some(F2), multiset{F0, F1, F2}, c);
    Lost(e4, Drain, F2);
  }

  lemma Lost(pre: seq<Event>, op: Op, d: Msg)
    requires SlotStep(Run(pre).slots[0], op).dropped == Some(d)
    requires forall a :: a in Run(pre).submitted || Some(a) == SlotStep(Run(pre).slots[0], op).arrived ==>
      a != d && a.flow == d.flow ==> !Before(d.seqNo, a.seqNo)
    ensures !LosesNothing(pre + [At(0, op)])
  {
    hide Before, Run, SlotStep;
    var events := pre + [At(0, op)];
    assert events[..|events| - 1] == pre;
    assert Step(Run(pre), At(0, op)).submitted == Run(pre).submitted + Opt(SlotStep(Run(pre).slots[0], op).arrived);
  }

  /**
   * Over all runs of fresh messages: only superseded ones are ever freed exactly when no slot changes flow
   * between match and lock, none is taken while it holds a message, and none holds one at teardown. Each of
   * the three suffices to lose one.
   */
  lemma {:induction false} LosesExactly(c: Causes)
    ensures (forall events: seq<Event> :: Allowed(events, c) ==> LosesNothing(events))
       <==> !c.races && !c.takeovers && !c.drains
  {
    hide *;
    if c.races {
      var events := RaceLoses(c);
    } else if c.takeovers {
      var events := TakeoverLoses(c);
    } else if c.drains {
      var events := DrainLoses(c);
    } else {
      forall events: seq<Event> | Allowed(events, c)
        ensures LosesNothing(events)
      {
        WithoutCauseLosesNothing(events);
      }
    }
  }

  // ----- the timer of a held message -----

  /** Since the message was put in, the timer has fired and found another one under way, or the slot expired. */
  function MissedBy(s: Slot, missed: bool, op: Op): bool {
    match op
    case Fire => s.held.Some? && (!s.busy || s.inSend.Some?)
    case Handle(m, _) => missed && !Before(s.seqNo, m.seqNo)
    case _ => missed
  }

  function Missed(events: seq<Event>, i: nat): bool
    requires i < TCP_ACK_NUM
  {
    events != [] &&
    var pre, e := events[..|events| - 1], events[|events| - 1];
    if e.At? && e.i == i then MissedBy(Run(pre).slots[i], Missed(pre, i), e.op) else Missed(pre, i)
  }

  /** In every run a held message has no armed timer exactly when its timer has fired in vain. */
  lemma {:induction false} HeldUntimedExactly(events: seq<Event>, i: nat)
    requires i < TCP_ACK_NUM
    ensures Run(events).slots[i].held.Some? ==> (!Run(events).slots[i].timer <==> Missed(events, i))
  {
    hide SlotStep, MissedBy;
    if events != [] {
      var pre, e := events[..|events| - 1], events[|events| - 1];
      HeldUntimedExactly(pre, i);
      if e.At? && e.i == i {
        SlotTimer(Run(pre).slots[i], Missed(pre, i), e.op);
      }
    }
  }

  lemma SlotTimer(s: Slot, missed: bool, op: Op)
    requires s.held.Some? ==> (!s.timer <==> missed)
    ensures SlotStep(s, op).slot.held.Some? ==> (!SlotStep(s, op).slot.timer <==> MissedBy(s, missed, op))
  {
    hide Before;
  }

  /** A run after which a busy slot holds a message with none under way and no timer: only its flow can move it on. */
  lemma HeldUntimed() returns (events: seq<Event>)
    ensures var s := Run(events).slots[0]; s.busy && s.held == Some(F2) && s.inSend.None? && !s.timer
  {
    hide Run, Latest, Allowed;
    var c := Causes(false, false, false);
    var e4 := Holds(c);
    events := Extend(e4, Done(F1), HOLDING, Some(F2), multiset{F0, F1, F2}, c);
  }

  // ----- what a slot does, in sequence positions -----

  /**
   * A slot whose number is at position x, with a segment pushed at z, is given the acknowledgement of position y.
   * An older one is freed. One beyond the pushed segment is sent at once and clears the mark. Any other leaves
   * the mark, and is sent when it is the tenth with none under way, else held for the timer.
   */
  lemma HandleByPosition(s: Slot, m: Msg, now: nat, x: nat, y: nat, z: nat)
    requires s.seqNo == x % TWO_32 && m.seqNo == y % TWO_32 && s.pshSeq == z % TWO_32
    requires -0x8000_0000 < x - y < 0x8000_0000 && -0x8000_0000 < y - z < 0x8000_0000
    requires 0 <= s.dropCnt < 0x7FFF_FFFF
    ensures
      var h := HandleSlot(s, m, now);
      if y < x then h == Handled(s.(lastTime := now), true, Some(m))
      else
        && h.drop == s.held
        && h.kept == (!(s.psh && y > z) && (s.inSend.Some? || s.dropCnt < 9))
        && h.slot ==
             if h.kept
             then Slot(s.busy, s.dropCnt + 1, s.psh, s.pshSeq, s.winScale, now, true, Some(m), s.inSend, s.flow, m.seqNo)
             else Slot(s.busy, 0, s.psh && y <= z, s.pshSeq, s.winScale, now, false, None, Some(m), s.flow, m.seqNo)
  {
    hide Before;
    BeforeIsOrder(x, y);
    BeforeIsOrder(y, z);
  }

  // ----- what a slot remembers, told from the events -----

  /**
   * inUse: taken and not expired since. mark: the last pushed segment since the slot was taken, unless one beyond
   * it was acknowledged. underWay: what was sent last, unless it was reported done while the slot was in use.
   * count: acknowledgements kept since one was sent, on top of 10 if none was since the slot was taken.
   * lastUse: when it was last taken or given an acknowledgement.
   */
  datatype Past = Past(inUse: bool, mark: Option<word>, underWay: Option<Msg>, count: nat, lastUse: nat)

  /** The number a slot carries; comparisons are of distances within half the number space. */
  function Number(events: seq<Event>, i: nat): word
    requires i < TCP_ACK_NUM
  {
    if Latest(events, i).Some? then Latest(events, i).value.seqNo else 0
  }

  predicate Beyond(n: word, mark: word) {
    0 < (n - mark) % 0x1_0000_0000 < 0x8000_0000
  }

  function Remember(p: Past, number: word, held: Option<Msg>, op: Op): Past {
    match op
    case Fill(_, _, now) => Past(true, None, p.underWay, 10, now)
    case Expire => p.(inUse := false)
    case Psh(n) => p.(mark := Some(n))
    case Done(m) => if p.inUse && p.underWay == Some(m) then p.(underWay := None) else p
    case Fire => if p.inUse && held.Some? && p.underWay.None? then p.(underWay := held, count := 0) else p
    case Handle(m, now) =>
      if Beyond(number, m.seqNo) then p.(lastUse := now)
      else if p.mark.Some? && Beyond(m.seqNo, p.mark.value) then Past(p.inUse, None, Some(m), 0, now)
      else if p.underWay.None? && p.count + 1 >= 10 then Past(p.inUse, p.mark, Some(m), 0, now)
      else p.(count := p.count + 1, lastUse := now)
    case _ => p
  }

  function PastOf(events: seq<Event>, i: nat): Past
    requires i < TCP_ACK_NUM
  {
    if events == [] then Past(false, None, None, 0, 0)
    else
      var pre, e := events[..|events| - 1], events[|events| - 1];
      if e.At? && e.i == i then Remember(PastOf(pre, i), Number(pre, i), Run(pre).slots[i].held, e.op) else PastOf(pre, i)
  }

  predicate Remembers(s: Slot, p: Past) {
    && s.busy == p.inUse && s.inSend == p.underWay && s.dropCnt == p.count && s.lastTime == p.lastUse
    && (s.psh <==> p.mark.Some?) && (p.mark.Some? ==> s.pshSeq == p.mark.value)
  }

  /** In every interleaving each slot is what its events say, as long as its counter cannot wrap. */
  lemma {:induction false} SlotIsItsPast(events: seq<Event>, i: nat)
    requires i < TCP_ACK_NUM && Handles(events) < 0x7FFF_FFFF - TCP_ACK_DROP_CNT
    ensures Remembers(Run(events).slots[i], PastOf(events, i))
    ensures Run(events).slots[i].seqNo == Number(events, i)
  {
    hide SlotStep, Remember, Remembers, Carried;
    if events == [] {
      EmptyIsPast();
    } else {
      var pre, e := events[..|events| - 1], events[|events| - 1];
      SlotIsItsPast(pre, i);
      CounterInRange(pre, i);
      if e.At? && e.i == i {
        SlotRemembers(Run(pre).slots[i], PastOf(pre, i), e.op);
        CarriesNumber(Run(pre).slots[i], Latest(pre, i), e.op);
      }
    }
  }

  lemma EmptyIsPast()
    ensures Remembers(EMPTY_SLOT, Past(false, None, None, 0, 0))
  {
  }

  lemma CarriesNumber(s: Slot, l: Option<Msg>, op: Op)
    requires s.seqNo == if l.Some? then l.value.seqNo else 0
    ensures var c := Carried(s, l, op); SlotStep(s, op).slot.seqNo == if c.Some? then c.value.seqNo else 0
  {
    hide Before;
  }

  lemma BeyondIsAfter(a: word, b: word)
    ensures Beyond(a, b) <==> !Before(a, b)
  {
  }

  lemma SlotRemembers(s: Slot, p: Past, op: Op)
    requires Remembers(s, p) && s.dropCnt < 0x7FFF_FFFF
    ensures Remembers(SlotStep(s, op).slot, Remember(p, s.seqNo, s.held, op))
  {
    hide Before, Beyond;
    if op.Handle? {
      BeyondIsAfter(s.seqNo, op.m.seqNo);
      BeyondIsAfter(op.m.seqNo, s.pshSeq);
    }
  }

  /**
   * After any run, on a slot whose number is at position x and whose last push is marked at z: an acknowledgement
   * in order and beyond z goes back to its caller and clears the mark. One in order at or before z leaves the
   * mark, and is held while one is under way or the counter is below the limit.
   */
  lemma {:induction false} PushForcesSend(events: seq<Event>, i: nat, m: Msg, now: nat, x: nat, y: nat, z: nat)
    requires i < TCP_ACK_NUM && Handles(events) < 0x7FFF_FFFF - TCP_ACK_DROP_CNT
    requires Number(events, i) == x % TWO_32 && m.seqNo == y % TWO_32 && PastOf(events, i).mark == Some(z % TWO_32)
    requires x <= y < x + 0x8000_0000 && -0x8000_0000 < y - z < 0x8000_0000
    ensures
      var v, p := SlotStep(Run(events).slots[i], Handle(m, now)), PastOf(events, i);
      var after := PastOf(events + [At(i, Handle(m, now))], i);
      && (y > z ==> v.returned == Some(m) && v.slot.held.None? && after.mark.None?)
      && (y <= z ==> after.mark == p.mark)
      && (y <= z && (p.underWay.Some? || p.count < 9) ==> v.returned.None? && v.slot.held == Some(m) && v.slot.timer)
      && (y <= z && p.underWay.None? && p.count >= 9 ==> v.returned == Some(m) && v.slot.held.None?)
  {
    hide Run, Latest, HandleSlot, Before;
    var longer := events + [At(i, Handle(m, now))];
    assert longer[..|longer| - 1] == events;
    SlotIsItsPast(events, i);
    CounterInRange(events, i);
    HandleByPosition(Run(events).slots[i], m, now, x, y, z);
    BeforeIsOrder(x, y);
    BeforeIsOrder(y, z);
    BeyondIsAfter(Number(events, i), m.seqNo);
    BeyondIsAfter(m.seqNo, z % TWO_32);
  }

  // ----- the throttle -----

  function Handles(events: seq<Event>): nat {
    if events == [] then 0
    else Handles(events[..|events| - 1]) + if events[|events| - 1].At? && events[|events| - 1].op.Handle? then 1 else 0
  }

  /** Until the counter could wrap, it is never negative. */
  lemma {:induction false} CounterInRange(events: seq<Event>, i: nat)
    requires i < TCP_ACK_NUM && Handles(events) < 0x7FFF_FFFF - TCP_ACK_DROP_CNT
    ensures 0 <= Run(events).slots[i].dropCnt <= TCP_ACK_DROP_CNT + Handles(events)
  {
    hide SlotStep;
    if events != [] {
      var pre, e := events[..|events| - 1], events[|events| - 1];
      CounterInRange(pre, i);
      if e.At? && e.i == i {
        SlotCounter(Run(pre).slots[i], e.op);
      }
    }
  }

  lemma SlotCounter(s: Slot, op: Op)
    requires 0 <= s.dropCnt < 0x7FFF_FFFF
    ensures var n := SlotStep(s, op).slot.dropCnt;
      0 <= n <= (if op.Handle? then s.dropCnt + 1 else if s.dropCnt < TCP_ACK_DROP_CNT then TCP_ACK_DROP_CNT else s.dropCnt)
  {
    hide Before;
  }

  /** The acknowledgements handled on slot i. */
  function HandledOn(i: nat, events: seq<Event>): nat {
    if events == [] then 0
    else (if events[0].At? && events[0].i == i && events[0].op.Handle? then 1 else 0) + HandledOn(i, events[1..])
  }

  /**
   * From f on, every acknowledgement handled on slot i comes in order, finds none under way, and is kept; the
   * timer sends nothing and the slot is not taken for another flow. What other slots do does not matter.
   */
  ghost predicate AllKept(f: Filter, i: nat, events: seq<Event>)
    requires i < |f.slots|
    decreases |events|
  {
    events != [] ==>
    var s, e := f.slots[i], events[0];
    && (e.At? && e.i == i ==>
          && (e.op.Handle? ==> Before(s.seqNo, e.op.m.seqNo) && s.inSend.None? && HandleSlot(s, e.op.m, e.op.now).kept)
          && (e.op.Fire? ==> !FireSends(s))
          && !e.op.Fill?)
    && AllKept(Step(f, e), i, events[1..])
  }

  /** Each kept acknowledgement counts. */
  lemma {:induction false} KeptCounts(f: Filter, i: nat, events: seq<Event>)
    requires i < |f.slots| && AllKept(f, i, events) && HandledOn(i, events) > 0 && f.slots[i].dropCnt < 0x7FFF_FFFF
    ensures f.slots[i].dropCnt + HandledOn(i, events) < TCP_ACK_DROP_CNT
    decreases |events|
  {
    hide Before, SlotStep;
    var e := events[0];
    if e.At? && e.i == i {
      KeptSlot(f.slots[i], e.op);
    }
    if HandledOn(i, events[1..]) > 0 {
      KeptCounts(Step(f, e), i, events[1..]);
    }
  }

  lemma KeptSlot(s: Slot, op: Op)
    requires op.Handle? ==> Before(s.seqNo, op.m.seqNo) && s.inSend.None? && HandleSlot(s, op.m, op.now).kept
    requires (op.Fire? ==> !FireSends(s)) && !op.Fill? && s.dropCnt < 0x7FFF_FFFF
    ensures SlotStep(s, op).slot.dropCnt == s.dropCnt + (if op.Handle? then 1 else 0)
    ensures op.Handle? ==> s.dropCnt + 1 < TCP_ACK_DROP_CNT
  {
    hide Before;
  }

  /** Among any 10 consecutive in-order acknowledgements of a slot, handled with none under way, at least one is sent. */
  lemma {:induction false} NineAtMost(events: seq<Event>, i: nat, more: seq<Event>)
    requires i < TCP_ACK_NUM && Handles(events) < 0x7FFF_FFFF - TCP_ACK_DROP_CNT
    requires AllKept(Run(events), i, more)
    ensures HandledOn(i, more) <= 9
  {
    hide Run, AllKept;
    CounterInRange(events, i);
    if HandledOn(i, more) > 0 {
      KeptCounts(Run(events), i, more);
    }
  }

  // ----- the table of flows, calls one after the other -----

  function CountBusy(slots: seq<Slot>): (n: nat)
    ensures n <= |slots|
  {
    if slots == [] then 0 else (if slots[0].busy then 1 else 0) + CountBusy(slots[1..])
  }

  lemma {:induction false} CountUpdate(slots: seq<Slot>, i: nat, s: Slot)
    requires i < |slots|
    ensures CountBusy(slots[i := s]) == CountBusy(slots) + (if s.busy then 1 else 0) - (if slots[i].busy then 1 else 0)
  {
    var r := slots[i := s];
    if i == 0 {
      assert r[1..] == slots[1..];
    } else {
      assert r[0] == slots[0] && r[1..] == slots[1..][i - 1 := s];
      CountUpdate(slots[1..], i - 1, s);
    }
  }

  lemma {:induction false} CountFull(slots: seq<Slot>)
    ensures CountBusy(slots) == |slots| <==> forall i :: 0 <= i < |slots| ==> slots[i].busy
  {
    if slots != [] {
      CountFull(slots[1..]);
      if forall i :: 0 <= i < |slots[1..]| ==> slots[1..][i].busy {
        assert forall i :: 0 < i < |slots| ==> slots[i] == slots[1..][i - 1];
      } else {
        var i :| 0 <= i < |slots[1..]| && !slots[1..][i].busy;
        assert !slots[i + 1].busy;
      }
    }
  }

  predicate Matches(s: Slot, flow: Flow) {
    s.busy && s.flow == flow
  }

  predicate Stale(s: Slot, now: nat, timeout: nat) {
    s.busy && After(now, s.lastTime + timeout)
  }

  function Aged(s: Slot, now: nat, timeout: nat): Slot {
    if Stale(s, now, timeout) then s.(busy := false) else s
  }

  /** Only a slot whose flow was idle for longer than the timeout becomes free, and nothing else of it changes. */
  lemma AgedExactly(s: Slot, now: nat, timeout: nat)
    requires s.lastTime <= now && now - s.lastTime <= 0x8000_0000_0000_0000 && timeout < 0x8000_0000_0000_0000
    ensures Aged(s, now, timeout) == s.(busy := s.busy && now - s.lastTime <= timeout)
  {
    hide After;
    AfterIsElapsed(s.lastTime, now, timeout);
  }

  ghost predicate Distinct(slots: seq<Slot>) {
    forall i, j :: 0 <= i < j < |slots| && slots[i].busy && slots[j].busy ==> slots[i].flow != slots[j].flow
  }

  class AckFilter {
    const slots: array<Slot>
    const timeout: nat
    var enable: bool
    var maxNum: int
    var freeIndex: int
    var lastTime: nat
    var passed: multiset<Msg>       // given to `intf_tx` by the timer
    var dropped: multiset<Msg>      // given to `intf_tcp_drop_msg`

    /** max_num counts the busy slots, a free index names a free slot, and no flow has two slots. */
    ghost predicate Valid()
      reads this, slots
    {
      && slots.Length == TCP_ACK_NUM
      && maxNum == CountBusy(slots[..])
      && -1 <= freeIndex < TCP_ACK_NUM && (freeIndex >= 0 ==> !slots[freeIndex].busy)
      && Distinct(slots[..])
    }

    /** How often the filter has m: held, passed on by the timer, or freed. */
    ghost function Has(m: Msg): nat
      reads this, slots
    {
      Held(slots[..], m) + passed[m] + dropped[m]
    }

    /** `tcp_ack_init`; the zeroed free_index names slot 0. */
    constructor (now: nat, timeoutTicks: nat)
      ensures Valid() && (forall m :: Has(m) == 0) && fresh(slots) && enable && timeout == timeoutTicks
      ensures slots.Length == 32 && forall i :: 0 <= i < 32 ==> !slots[i].busy
    {
      slots := new Slot[TCP_ACK_NUM](_ => EMPTY_SLOT);
      timeout, enable, maxNum, freeIndex, lastTime := timeoutTicks, true, 0, 0, now;
      passed, dropped := multiset{}, multiset{};
      new;
      assert slots[..] == seq(TCP_ACK_NUM, _ => EMPTY_SLOT);
      NothingBusyAtFirst(TCP_ACK_NUM);
      forall m ensures Held(slots[..], m) == 0 { NothingHeldAtFirst(TCP_ACK_NUM, m); }
    }

    /** `tcp_ack_match`: the one slot of the flow, or -1. */
    method Match(flow: Flow) returns (index: int)
      requires slots.Length == TCP_ACK_NUM
      ensures -1 <= index < TCP_ACK_NUM
      ensures index < 0 ==> forall j :: 0 <= j < TCP_ACK_NUM ==> !Matches(slots[j], flow)
      ensures index >= 0 ==> Matches(slots[index], flow)
    {
      index := -1;
      var i := 0;
      while index < 0 && i < TCP_ACK_NUM
        invariant 0 <= i <= TCP_ACK_NUM && -1 <= index < TCP_ACK_NUM
        invariant if index < 0 then forall j :: 0 <= j < i ==> !Matches(slots[j], flow) else Matches(slots[index], flow)
        decreases TCP_ACK_NUM - i
      {
        index := -1;
        if Matches(slots[i], flow) {
          index := i;
        }
        i := i + 1;
      }
    }

    /** `tcp_ack_update`: slots idle for too long become free, and the lowest of them is the next one given out. */
    method Update(now: nat)
      requires Valid()
      modifies this`maxNum, this`freeIndex, this`lastTime, slots
      ensures Valid()
      ensures slots[..] == if After(now, old(lastTime) + timeout) then AgedAll(old(slots[..]), now, timeout) else old(slots[..])
      ensures forall m :: Has(m) == old(Has(m))
    {
      if After(now, lastTime + timeout) {
        lastTime := now;
        var i := TCP_ACK_NUM - 1;
        while i >= 0
          invariant -1 <= i < TCP_ACK_NUM && Valid()
          invariant forall j :: 0 <= j <= i ==> slots[j] == old(slots[j])
          invariant forall j :: i < j < TCP_ACK_NUM ==> slots[j] == Aged(old(slots[j]), now, timeout)
          invariant forall m :: Has(m) == old(Has(m))
        {
          if Stale(slots[i], now, timeout) {
            ghost var before := slots[..];
            freeIndex := i;
            maxNum := maxNum - 1;
            slots[i] := slots[i].(busy := false);
            Changed(before, i, slots[..], slots[i]);
          }
          i := i - 1;
        }
      }
    }

    /** `tcp_ack_alloc_index`: a slot that is free, or -1 exactly when none is; it is counted before it is taken. */
    method AllocIndex() returns (index: int)
      requires Valid()
      modifies this`maxNum, this`freeIndex
      ensures -1 <= index < TCP_ACK_NUM
      ensures index < 0 <==> forall j :: 0 <= j < TCP_ACK_NUM ==> slots[j].busy
      ensures index >= 0 ==> !slots[index].busy && maxNum == old(maxNum) + 1 && freeIndex == -1
      ensures index < 0 ==> maxNum == old(maxNum) && freeIndex == old(freeIndex)
    {
      CountFull(slots[..]);
      if maxNum == TCP_ACK_NUM {
        return -1;
      }
      if freeIndex >= 0 {
        index := freeIndex;
        freeIndex := -1;
        maxNum := maxNum + 1;
        return;
      }
      index := -1;
      var i := 0;
      while index < 0 && i < TCP_ACK_NUM
        invariant 0 <= i <= TCP_ACK_NUM && -1 <= index < TCP_ACK_NUM
        invariant index < 0 ==> (forall j :: 0 <= j < i ==> slots[j].busy) && maxNum == old(maxNum) && freeIndex == -1
        invariant index >= 0 ==> !slots[index].busy && maxNum == old(maxNum) + 1 && freeIndex == -1
        decreases TCP_ACK_NUM - i
      {
        if !slots[i].busy {
          freeIndex := -1;
          maxNum := maxNum + 1;
          index := i;
        }
        i := i + 1;
      }
    }

    /** `tcp_ack_handle_new` */
    method HandleNew(i: nat, m: Msg, now: nat) returns (ret: int)
      requires Valid() && i < TCP_ACK_NUM
      modifies this`dropped, slots
      ensures Valid()
      ensures slots[..] == old(slots[..])[i := HandleSlot(old(slots[i]), m, now).slot]
      ensures ret == if HandleSlot(old(slots[i]), m, now).kept then 1 else 0
      ensures forall x :: Has(x) + (if ret == 0 && x == m then 1 else 0) == old(Has(x)) + (if x == m then 1 else 0)
    {
      hide HandleSlot, Before, Held, CountBusy;
      ghost var before := slots[..];
      var s, kept, drop := HandleSection(slots[i], m, now);
      slots[i] := s;
      dropped := dropped + Opt(drop);
      ret := if kept then 1 else 0;
      Changed(before, i, slots[..], s);
      HandleKeepsFlow(before[i], m, now);
      forall x
        ensures Has(x) + (if ret == 0 && x == m then 1 else 0) == old(Has(x)) + (if x == m then 1 else 0)
      {
        OptCount(old(dropped), drop, x);
        SlotConserves(before[i], Handle(m, now), x);
      }
    }

    /** The branch of `filter_send_tcp_ack` for a flow that has a slot. */
    method FilterKnown(index: nat, winScale: nat, m: Msg, now: nat) returns (ret: int)
      requires Valid() && index < TCP_ACK_NUM && Matches(slots[index], m.flow)
      modifies this`dropped, slots
      ensures Valid()
      ensures forall x :: Has(x) + (if ret == 0 && x == m then 1 else 0) == old(Has(x)) + (if x == m then 1 else 0)
      ensures Filtered(old(slots[..]), slots[..], enable, true, winScale, m, now, ret)
    {
      hide HandleSlot, Before, Held, CountBusy;
      ghost var aged := slots[..];
      if winScale != 0 && slots[index].winScale != winScale {
        slots[index] := slots[index].(winScale := winScale);
        Changed(aged, index, slots[..], slots[index]);
      }
      ret := 0;
      if enable {
        ret := HandleNew(index, m, now);
      }
      assert Matches(aged[index], m.flow);
    }

    /** The branch for a flow that has none: it takes a free slot if there is one, and the message is sent. */
    method FilterUnknown(winScale: nat, m: Msg, now: nat)
      requires Valid() && forall j :: 0 <= j < TCP_ACK_NUM ==> !Matches(slots[j], m.flow)
      modifies this`maxNum, this`freeIndex, slots
      ensures Valid() && forall x :: Has(x) == old(Has(x))
      ensures Filtered(old(slots[..]), slots[..], enable, true, winScale, m, now, 0)
    {
      hide Held, CountBusy;
      ghost var aged := slots[..];
      var index := AllocIndex();
      if index >= 0 {
        slots[index] := FillSlot(slots[index], m.flow, m.seqNo, winScale, now);
        Changed(aged, index, slots[..], slots[index]);
        assert !aged[index].busy;
      }
    }

    /** `filter_send_tcp_ack`; whether the frame is a pure acknowledgement, and its window scale, are inputs. */
    method FilterSend(pureAck: bool, winScale: nat, m: Msg, now: nat) returns (ret: int)
      requires Valid()
      modifies this`maxNum, this`freeIndex, this`lastTime, this`dropped, slots
      ensures Valid()
      ensures forall x :: Has(x) + (if ret == 0 && x == m then 1 else 0) == old(Has(x)) + (if x == m then 1 else 0)
      ensures
        var aged := if After(now, old(lastTime) + timeout) then AgedAll(old(slots[..]), now, timeout) else old(slots[..]);
        Filtered(aged, slots[..], enable, pureAck, winScale, m, now, ret)
    {
      hide Filtered, Held, CountBusy, AgedAll, Distinct;
      Update(now);
      ghost var aged := slots[..];
      if !pureAck {
        NotFiltered(aged, enable, winScale, m, now);
        return 0;
      }
      var index := Match(m.flow);
      if index >= 0 {
        ret := FilterKnown(index, winScale, m, now);
      } else {
        FilterUnknown(winScale, m, now);
        ret := 0;
      }
    }

    /** `filter_rx_tcp_ack` for a received segment with PSH set */
    method FilterRx(flow: Flow, seqNo: word)
      requires Valid()
      modifies slots
      ensures Valid() && forall m :: Has(m) == old(Has(m))
      ensures forall j :: 0 <= j < TCP_ACK_NUM ==>
        slots[j] == if enable && Matches(old(slots[j]), flow) then old(slots[j]).(psh := true, pshSeq := seqNo) else old(slots[j])
    {
      if !enable {
        return;
      }
      var index := Match(flow);
      if index >= 0 {
        ghost var before := slots[..];
        slots[index] := slots[index].(psh := true, pshSeq := seqNo);
        Changed(before, index, slots[..], slots[index]);
      }
    }

    /** `tcp_ack_timeout` of slot i */
    method Timeout(i: nat)
      requires Valid() && i < TCP_ACK_NUM
      modifies this`passed, slots
      ensures Valid() && forall m :: Has(m) == old(Has(m))
      ensures slots[..] == old(slots[..])[i := FireSlot(old(slots[i]))]
      ensures passed == old(passed) + if FireSends(old(slots[i])) then Opt(old(slots[i]).held) else multiset{}
    {
      hide Held, CountBusy;
      ghost var before := slots[..];
      var msg := slots[i].held;
      if slots[i].busy && msg.Some? && slots[i].inSend.None? {
        slots[i] := slots[i].(held := None, dropCnt := 0, inSend := msg, timer := false);
        passed := passed + multiset{msg.value};
      } else {
        slots[i] := slots[i].(timer := false);
      }
      Changed(before, i, slots[..], slots[i]);
    }

    /** `move_tcpack_msg` */
    method Completed(m: Msg)
      requires Valid()
      modifies slots
      ensures Valid() && forall x :: Has(x) == old(Has(x))
      ensures forall j :: 0 <= j < TCP_ACK_NUM ==>
        slots[j] == if enable then DoneSlot(old(slots[j]), m) else old(slots[j])
    {
      hide Held, CountBusy;
      if !enable {
        return;
      }
      for i := 0 to TCP_ACK_NUM
        invariant Valid() && forall x :: Has(x) == old(Has(x))
        invariant forall j :: 0 <= j < i ==> slots[j] == DoneSlot(old(slots[j]), m)
        invariant forall j :: i <= j < TCP_ACK_NUM ==> slots[j] == old(slots[j])
      {
        if slots[i].busy && slots[i].inSend == Some(m) {
          ghost var before := slots[..];
          slots[i] := slots[i].(inSend := None);
          Changed(before, i, slots[..], slots[i]);
        }
      }
    }

    /** `tcp_ack_deinit`: afterwards nothing is held. */
    method Deinit()
      requires Valid()
      modifies this`enable, this`dropped, slots
      ensures Valid() && !enable && forall x :: Has(x) == old(Has(x))
      ensures forall j :: 0 <= j < TCP_ACK_NUM ==> slots[j] == old(slots[j]).(held := None, timer := false)
    {
      hide Held, CountBusy;
      enable := false;
      for i := 0 to TCP_ACK_NUM
        invariant Valid() && !enable && forall x :: Has(x) == old(Has(x))
        invariant forall j :: 0 <= j < i ==> slots[j] == old(slots[j]).(held := None, timer := false)
        invariant forall j :: i <= j < TCP_ACK_NUM ==> slots[j] == old(slots[j])
      {
        ghost var before := slots[..];
        var drop := slots[i].held;
        slots[i] := slots[i].(held := None, timer := false);
        dropped := dropped + Opt(drop);
        Changed(before, i, slots[..], slots[i]);
      }
    }
  }

  /** The section of `tcp_ack_handle_new` under the slot's lock. */
  method HandleSection(slot: Slot, m: Msg, now: nat) returns (s: Slot, kept: bool, drop: Option<Msg>)
    ensures Handled(s, kept, drop) == HandleSlot(slot, m, now)
  {
    s, drop, kept := slot.(lastTime := now), None, false;
    if Before(s.seqNo, m.seqNo) {
      if s.held.Some? {
        drop := s.held;
        s := s.(held := None);
      }
      var quick := false;
      if s.psh && !Before(m.seqNo, s.pshSeq) {
        s := s.(psh := false);
        quick := true;
      } else {
        s := s.(dropCnt := Inc32(s.dropCnt));
      }
      s := s.(seqNo := m.seqNo);
      if quick || (s.inSend.None? && s.dropCnt >= TCP_ACK_DROP_CNT) {
        s := s.(dropCnt := 0, inSend := Some(m), timer := false);
      } else {
        kept := true;
        s := s.(held := Some(m), timer := true);
      }
    } else {
      drop := Some(m);
      kept := true;
    }
  }

  lemma HandleKeepsFlow(s: Slot, m: Msg, now: nat)
    ensures var t := HandleSlot(s, m, now).slot; t.busy == s.busy && t.flow == s.flow
  {
  }

  /** The slot of the flow, wherever it is, is the one that handles the acknowledgement. */
  lemma FilteredBySlot(aged: seq<Slot>, after: seq<Slot>, winScale: nat, m: Msg, now: nat, ret: int, i: nat)
    requires |aged| == |after| && Distinct(aged) && i < |aged| && Matches(aged[i], m.flow)
    requires Filtered(aged, after, true, true, winScale, m, now, ret)
    ensures
      var h := HandleSlot(aged[i].(winScale := if winScale != 0 then winScale else aged[i].winScale), m, now);
      after == aged[i := h.slot] && ret == if h.kept then 1 else 0
  {
    hide HandleSlot;
  }

  /** A flow without a slot is sent, and gets a free slot if there is one, counted as if ten had been kept. */
  lemma FilteredNewFlow(aged: seq<Slot>, after: seq<Slot>, enable: bool, winScale: nat, m: Msg, now: nat, ret: int)
    requires |aged| == |after| && Filtered(aged, after, enable, true, winScale, m, now, ret)
    requires forall i :: 0 <= i < |aged| ==> !(aged[i].busy && aged[i].flow == m.flow)
    ensures ret == 0
    ensures (forall i :: 0 <= i < |aged| ==> aged[i].busy) ==> after == aged
    ensures (exists i :: 0 <= i < |aged| && !aged[i].busy) ==>
      exists i :: 0 <= i < |aged| && !aged[i].busy && after == aged[i :=
        Slot(true, 10, false, aged[i].pshSeq, if winScale == 0 then 1 else winScale, now, aged[i].timer,
             aged[i].held, aged[i].inSend, m.flow, m.seqNo)]
  {
    hide HandleSlot;
  }

  /**
   * A pushed segment at position z of the flow of slot i, then the flow's acknowledgement of position y, in order
   * and before the slot expires: beyond z it is sent and no mark is left; at or before z the mark stays, and it is
   * held below the limit.
   */
  method PushedThenAcked(f: AckFilter, i: nat, winScale: nat, m: Msg, now: nat, x: nat, y: nat, z: nat) returns (ret: int)
    requires f.Valid() && f.enable && i < 32 && f.slots[i].busy && f.slots[i].flow == m.flow
    requires f.slots[i].seqNo == x % TWO_32 && m.seqNo == y % TWO_32 && 0 <= f.slots[i].dropCnt < 0x7FFF_FFFF
    requires x <= y < x + 0x8000_0000 && -0x8000_0000 < y - z < 0x8000_0000
    requires f.slots[i].lastTime <= now <= f.slots[i].lastTime + f.timeout && f.timeout < 0x8000_0000_0000_0000
    modifies f`maxNum, f`freeIndex, f`lastTime, f`dropped, f.slots
    ensures f.Valid()
    ensures y > z ==> ret == 0 && !f.slots[i].psh && f.slots[i].held.None? && f.slots[i].inSend == Some(m)
    ensures y <= z ==> f.slots[i].psh && f.slots[i].pshSeq == z % TWO_32
    ensures y <= z && (old(f.slots[i].inSend).Some? || old(f.slots[i].dropCnt) < 9) ==> ret == 1 && f.slots[i].held == Some(m)
    ensures y <= z && old(f.slots[i].inSend).None? && old(f.slots[i].dropCnt) >= 9 ==> ret == 0 && f.slots[i].held.None?
  {
    hide Filtered, Held, CountBusy, HandleSlot, After;
    f.FilterRx(m.flow, z % TWO_32);
    ghost var marked := f.slots[..];
    ghost var aged := if After(now, f.lastTime + f.timeout) then AgedAll(marked, now, f.timeout) else marked;
    ret := f.FilterSend(true, winScale, m, now);
    AfterIsElapsed(marked[i].lastTime, now, f.timeout);
    assert aged[i] == marked[i];
    assert Distinct(aged);
    FilteredBySlot(aged, f.slots[..], winScale, m, now, ret, i);
    HandleByPosition(aged[i].(winScale := if winScale != 0 then winScale else aged[i].winScale), m, now, x, y, z);
  }

  lemma NotFiltered(aged: seq<Slot>, enable: bool, winScale: nat, m: Msg, now: nat)
    ensures Filtered(aged, aged, enable, false, winScale, m, now, 0)
  {
  }

  /** How a call turns the aged table into the new one: only the slot of the flow, or a free one, changes. */
  ghost predicate Filtered(aged: seq<Slot>, after: seq<Slot>, enable: bool, pureAck: bool, winScale: nat, m: Msg, now: nat, ret: int)
    requires |aged| == |after|
  {
    if !pureAck then ret == 0 && after == aged
    else if exists i :: 0 <= i < |aged| && Matches(aged[i], m.flow) then
      exists i :: 0 <= i < |aged| && Matches(aged[i], m.flow) &&
        var s := aged[i].(winScale := if winScale != 0 then winScale else aged[i].winScale);
        if enable
        then after == aged[i := HandleSlot(s, m, now).slot] && ret == if HandleSlot(s, m, now).kept then 1 else 0
        else after == aged[i := s] && ret == 0
    else if exists i :: 0 <= i < |aged| && !aged[i].busy then
      ret == 0 && exists i :: 0 <= i < |aged| && !aged[i].busy && after == aged[i := FillSlot(aged[i], m.flow, m.seqNo, winScale, now)]
    else ret == 0 && after == aged
  }

  function AgedAll(slots: seq<Slot>, now: nat, timeout: nat): seq<Slot> {
    seq(|slots|, i requires 0 <= i < |slots| => Aged(slots[i], now, timeout))
  }

  lemma {:induction false} NothingBusyAtFirst(n: nat)
    ensures CountBusy(seq(n, _ => EMPTY_SLOT)) == 0
  {
    if n > 0 {
      assert seq(n, _ => EMPTY_SLOT)[1..] == seq(n - 1, _ => EMPTY_SLOT);
      NothingBusyAtFirst(n - 1);
    }
  }

  /** What one changed slot means for the two counts. */
  lemma Changed(before: seq<Slot>, i: nat, after: seq<Slot>, s: Slot)
    requires i < |before| && after == before[i := s]
    ensures CountBusy(after) == CountBusy(before) + (if s.busy then 1 else 0) - (if before[i].busy then 1 else 0)
    ensures forall m :: Held(after, m) + Is(before[i].held, m) == Held(before, m) + Is(s.held, m)
  {
    CountUpdate(before, i, s);
    forall m ensures Held(after, m) + Is(before[i].held, m) == Held(before, m) + Is(s.held, m) { HeldUpdate(before, i, s, m); }
  }
}
