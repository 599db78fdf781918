/**
 * The transmit side of the SDIO driver as interleaved steps. Any number of producers queue packets under
 * txqlock, count them and complete bustx_trgg; one thread dequeues, packs frames into the aggregation
 * buffer, spends firmware credits and flushes; commands may be submitted at any time. Every locked section
 * and every access to a shared variable is one step.
 */
module TxPath {
  import opened FrameQueues

  datatype Packet = Packet(id: nat, priority: nat)
  type Command = nat

  const THRESHOLD: int := 2   // DATA_FLOW_CTRL_THRESH

  /** Who holds txqlock: nobody, a producer that has queued its packet, or one that has also counted it. */
  datatype Holder = Nobody | Queued | Counted

  /** Where the TX thread is; `now` is the txnow argument of the send in progress. */
  datatype Pc =
    | Wait                              // in wait_for_completion
    | WakeCheck                         // tests tx_pktcnt and cmd_txstate
    | CmdCheck                          // aicwf_sdio_tx_process tests cmd_txstate
    | CmdSend                           // aicwf_sdio_tx_msg
    | FlowCheck                         // first credit read, if the queue is not empty
    | LoopHead
    | Decide                            // credits and cmd_txstate choose the branch
    | SendEntry(now: bool)              // aicwf_sdio_send compares aggr_count with its limits
    | Dequeue(now: bool)                // waits for txqlock
    | Aggregate(now: bool, pkt: Packet)
    | Settle(now: bool)                 // reads tx_pktcnt and decides whether to flush
    | Flush(now: bool, inHand: bool)    // aicwf_sdio_aggr_send
    | Uncount(now: bool)                // atomic_dec

  /** A transfer: its frames and the credits that stood when it was decided. */
  datatype Batch = Batch(frames: seq<Packet>, credits: int)

  /** How the send loop was last left, with the packets queued when that branch was chosen. */
  datatype Leave = SawEmpty | NoCredits(queued: nat) | Forced(queued: nat)

  datatype State = State(
    lists: seq<seq<Packet>>, qmax: nat, holder: Holder, pktCnt: int,
    owed: nat,            // completions that producers and submitters have still to signal
    pending: nat,         // bustx_trgg
    cmd: bool,            // cmd_txstate
    cmdFailed: bool,      // the last command transfer was refused and left cmd_txstate set
    pc: Pc, credits: int, maxAggr: int, aggr: seq<Packet>, aggrLen: nat,
    accepted: seq<Packet>, taken: seq<Packet>, sent: seq<Batch>,
    account: Account, left: Leave,   // history only: no step depends on them
    commands: Commands)

  /** The last number the flow-control register gave, and the frames transferred since. */
  datatype Account = Account(granted: int, spent: nat)

  /** The command in cmd_buf while cmd_txstate is set, and where the commands submitted so far have gone. */
  datatype Commands = Commands(
    waiting: seq<Command>, submitted: seq<Command>, delivered: seq<Command>,
    overwritten: multiset<Command>, broken: multiset<Command>)

  /**
   * What becomes of a command transfer: done; refused for want of command buffers, which leaves cmd_txstate
   * set; or broken off by a bus error, which clears it all the same.
   */
  datatype Transfer = Done | NoBuffer | BusError

  /** What the outside decides in a step: what an unlocked emptiness test sees, a credit read, and so on. */
  datatype Choice = Choice(seesEmpty: bool, credit: int, msg: Transfer, frameLen: nat)

  datatype Event =
    | Produce(pkt: Packet)
    | ProducerCount
    | ProducerUnlock
    | Submit(command: Command)
    | Complete
    | TxStep(choice: Choice)

  function Init(qmax: nat, maxAggr: int): State {
    State(seq(CLASSES, _ => []), qmax, Nobody, 0, 0, 0, false, false, Wait, 0, maxAggr, [], 0, [], [], [], Account(0, 0), SawEmpty,
          Commands([], [], [], multiset{}, multiset{}))
  }

  /** The three low bits of the packet's priority. */
  function ClassOf(pkt: Packet): nat {
    pkt.priority % CLASSES
  }

  function Uncounted(s: State): nat {
    if s.holder == Queued then 1 else 0
  }

  /**
   * What `aicwf_is_framequeue_empty` can return without the lock: a packet that is still being added may
   * or may not be seen, every other one is.
   */
  predicate CanSee(s: State, empty: bool) {
    if empty then Total(s.lists) - Uncounted(s) <= 0 else Total(s.lists) > 0
  }

  /** The highest class that holds a packet, or the number of classes. */
  function HighestClass(lists: seq<seq<Packet>>, from: nat): (p: nat)
    requires from <= |lists|
    ensures p <= |lists|
    ensures p < |lists| ==> p < from && lists[p] != [] && forall r :: p < r < from ==> lists[r] == []
    ensures p == |lists| ==> forall r :: 0 <= r < from ==> lists[r] == []
  {
    if from == 0 then |lists|
    else if lists[from - 1] != [] then from - 1
    else HighestClass(lists, from - 1)
  }

  /** cmd_buf holds one command: a new one takes its place. */
  function AfterSubmit(k: Commands, x: Command): Commands {
    k.(waiting := [x], submitted := k.submitted + [x], overwritten := k.overwritten + multiset(k.waiting))
  }

  function AfterTransfer(k: Commands, t: Transfer): Commands {
    match t
    case Done => k.(waiting := [], delivered := k.delivered + k.waiting)
    case NoBuffer => k
    case BusError => k.(waiting := [], broken := k.broken + multiset(k.waiting))
  }

  /** Where control goes after `aicwf_sdio_send` returns. */
  function After(now: bool): Pc {
    if now then Wait else LoopHead
  }

  /** aggr_count is at one of its two limits. */
  predicate AtLimit(s: State) {
    |s.aggr| == s.credits - THRESHOLD || |s.aggr| >= s.maxAggr
  }

  function TxNext(s: State, c: Choice): State {
    match s.pc
    case Wait => if s.pending > 0 then s.(pending := s.pending - 1, pc := WakeCheck) else s
    case WakeCheck => if s.pktCnt > 0 || s.cmd then s.(pc := CmdCheck) else s.(pc := Wait, left := SawEmpty)
    case CmdCheck => s.(pc := if s.cmd then CmdSend else FlowCheck)
    case CmdSend =>
      if c.msg.NoBuffer? then s.(cmdFailed := true, pc := FlowCheck)
      else s.(cmd := false, cmdFailed := false, pc := FlowCheck, commands := AfterTransfer(s.commands, c.msg))
    case FlowCheck =>
      if !CanSee(s, c.seesEmpty) then s
      else if c.seesEmpty then s.(pc := LoopHead)
      else s.(credits := c.credit, account := Account(c.credit, 0), pc := LoopHead)
    case LoopHead =>
      if !CanSee(s, c.seesEmpty) then s
      else if c.seesEmpty then s.(pc := Wait, left := SawEmpty)
      else s.(pc := Decide)
    case Decide =>
      if s.credits <= THRESHOLD then
        if s.cmd then s.(pc := Wait, left := NoCredits(Total(s.lists)))
        else s.(credits := c.credit, account := Account(c.credit, 0), pc := LoopHead)
      else s.(pc := SendEntry(s.cmd), left := if s.cmd then Forced(Total(s.lists)) else s.left)
    case SendEntry(now) =>
      if s.aggr == [] && s.aggrLen != 0 then s.(aggr := [], aggrLen := 0, pc := After(now))
      else if s.aggr != [] && s.aggrLen == 0 then s.(pc := After(now))
      else if AtLimit(s) then
        if s.aggr != [] then s.(credits := s.credits - |s.aggr|, pc := Flush(now, false)) else s.(pc := After(now))
      else s.(pc := Dequeue(now))
    case Dequeue(now) =>
      if s.holder != Nobody then s
      else
        var p := HighestClass(s.lists, |s.lists|);
        if p == |s.lists| then s.(pc := After(now))
        else s.(lists := s.lists[p := s.lists[p][1..]], taken := s.taken + [s.lists[p][0]],
                pc := Aggregate(now, s.lists[p][0]))
    case Aggregate(now, pkt) =>
      if c.frameLen == 0 then s
      else s.(aggr := s.aggr + [pkt], aggrLen := s.aggrLen + c.frameLen, pc := Settle(now))
    case Settle(now) =>
      if s.pktCnt == 1 || now || AtLimit(s)
      then s.(credits := s.credits - |s.aggr|, pc := Flush(now, true))
      else s.(pc := Uncount(now))
    case Flush(now, inHand) =>
      s.(sent := s.sent + [Batch(s.aggr, s.credits + |s.aggr|)], aggr := [], aggrLen := 0,
         account := s.account.(spent := s.account.spent + |s.aggr|),
         pc := if inHand then Uncount(now) else After(now))
    case Uncount(now) => s.(pktCnt := s.pktCnt - 1, pc := After(now))
  }

  /** An event that is not possible in a state leaves it as it is. */
  function Next(s: State, e: Event): State {
    match e
    case Produce(pkt) =>
      if s.holder != Nobody || ClassOf(pkt) >= |s.lists| || Total(s.lists) >= s.qmax then s
      else s.(lists := s.lists[ClassOf(pkt) := s.lists[ClassOf(pkt)] + [pkt]], holder := Queued, accepted := s.accepted + [pkt])
    case ProducerCount => if s.holder == Queued then s.(pktCnt := s.pktCnt + 1, holder := Counted) else s
    case ProducerUnlock => if s.holder == Counted then s.(holder := Nobody, owed := s.owed + 1) else s
    case Submit(command) =>
      s.(cmd := true, owed := s.owed + 1, commands := AfterSubmit(s.commands, command))
    case Complete => if s.owed > 0 then s.(owed := s.owed - 1, pending := s.pending + 1) else s
    case TxStep(c) => TxNext(s, c)
  }

  function Run(s: State, events: seq<Event>): State {
    if events == [] then s else Next(Run(s, events[..|events| - 1]), events[|events| - 1])
  }

  // ----- the invariant -----

  /** The TX thread has dequeued a packet that tx_pktcnt still counts. */
  ghost function InHand(s: State): nat {
    match s.pc
    case Aggregate(_, _) => 1
    case Settle(_) => 1
    case Flush(_, inHand) => if inHand then 1 else 0
    case Uncount(_) => 1
    case _ => 0
  }

  ghost predicate Counting(s: State) {
    && |s.lists| == CLASSES
    && s.pktCnt == Total(s.lists) + InHand(s) - Uncounted(s)
    && (s.holder == Queued ==> Total(s.lists) > 0)
    && (s.aggrLen == 0 <==> s.aggr == [])
  }

  ghost predicate BelowLimits(s: State) {
    |s.aggr| < s.credits - THRESHOLD && |s.aggr| < s.maxAggr
  }

  ghost predicate Aggregation(s: State) {
    && s.maxAggr >= 1
    && match s.pc
       case Wait => s.aggr == []
       case WakeCheck => s.aggr == []
       case CmdCheck => s.aggr == []
       case CmdSend => s.aggr == []
       case FlowCheck => s.aggr == []
       case LoopHead => s.aggr != [] ==> BelowLimits(s) && s.pktCnt >= 1
       case Decide => Total(s.lists) > 0 && (s.aggr != [] ==> BelowLimits(s) && s.pktCnt >= 1)
       case SendEntry(_) => Total(s.lists) > 0 && BelowLimits(s) && (s.aggr != [] ==> s.pktCnt >= 1)
       case Dequeue(_) => Total(s.lists) > 0 && BelowLimits(s) && (s.aggr != [] ==> s.pktCnt >= 1)
       case Aggregate(_, _) => BelowLimits(s)
       case Settle(_) => s.aggr != [] && |s.aggr| <= s.credits - THRESHOLD && |s.aggr| <= s.maxAggr
       case Flush(_, inHand) => inHand && s.aggr != [] && s.credits >= THRESHOLD && |s.aggr| <= s.maxAggr
       case Uncount(now) => s.aggr != [] ==> !now && BelowLimits(s) && s.pktCnt >= 2
  }

  ghost predicate WithinCredits(b: Batch, maxAggr: int) {
    1 <= |b.frames| <= maxAggr && |b.frames| <= b.credits - THRESHOLD
  }

  ghost predicate Credits(s: State) {
    forall k :: 0 <= k < |s.sent| ==> WithinCredits(s.sent[k], s.maxAggr)
  }

  /** The credits left are those granted, less the frames transferred since and those about to be. */
  ghost predicate Accounted(s: State) {
    && s.credits == s.account.granted - s.account.spent - (if s.pc.Flush? then |s.aggr| else 0)
    && (s.account.spent > 0 ==> s.account.granted - s.account.spent >= THRESHOLD)
  }

  ghost function Frames(sent: seq<Batch>): seq<Packet> {
    if sent == [] then [] else Frames(sent[..|sent| - 1]) + sent[|sent| - 1].frames
  }

  /** Packets leave the queue into the aggregation buffer and from there into transfers, in order. */
  ghost predicate Conservation(s: State) {
    && multiset(s.accepted) == Contents(s.lists) + multiset(s.taken)
    && InOrderOfTaking(s)
    && ByClass(s.lists, s.accepted, s.taken)
  }

  /** The packets of class p, in order. */
  function OfClass(p: nat, s: seq<Packet>): seq<Packet> {
    if s == [] then []
    else
      var last := s[|s| - 1];
      OfClass(p, s[..|s| - 1]) + if last.priority % 8 == p then [last] else []
  }

  /** In each class the packets taken, followed by those queued, are the accepted ones in order of acceptance. */
  ghost predicate ByClass(lists: seq<seq<Packet>>, accepted: seq<Packet>, taken: seq<Packet>) {
    forall p :: 0 <= p < |lists| ==> OfClass(p, accepted) == OfClass(p, taken) + lists[p]
  }

  ghost predicate InOrderOfTaking(s: State) {
    s.taken == Frames(s.sent) + s.aggr + (if s.pc.Aggregate? then [s.pc.pkt] else [])
  }

  /** A completion is pending or somebody is on the way to signal one. */
  ghost predicate WakeComing(s: State) {
    s.pending > 0 || s.owed > 0 || s.holder != Nobody
  }

  /** The send in progress was forced by a command. */
  ghost predicate ForCommand(pc: Pc) {
    match pc
    case SendEntry(now) => now
    case Dequeue(now) => now
    case Aggregate(now, _) => now
    case Settle(now) => now
    case Flush(now, _) => now
    case Uncount(now) => now
    case _ => false
  }

  ghost predicate Wakeups(s: State) {
    && (s.cmdFailed ==> s.cmd)
    && (ForCommand(s.pc) ==> s.cmd)
    && match s.pc
       case Wait => WakeComing(s) || s.cmdFailed || (Total(s.lists) == 0 && !s.cmd)
       case WakeCheck => true
       case CmdCheck => true
       case CmdSend => s.cmd
       case _ => s.cmd ==> WakeComing(s) || s.cmdFailed
  }

  /** What the command branch leaves behind: everything, or all but the one packet it sends. */
  function Stranded(left: Leave): nat {
    match left
    case SawEmpty => 0
    case NoCredits(n) => n
    case Forced(n) => if n > 0 then n - 1 else 0
  }

  ghost predicate Leaving(s: State) {
    && (!s.left.SawEmpty? ==> s.left.queued > 0)
    && match s.pc
       case Wait => WakeComing(s) || Total(s.lists) == Stranded(s.left)
       case SendEntry(now) => now ==> s.left.Forced? && (WakeComing(s) || Total(s.lists) == s.left.queued)
       case Dequeue(now) => now ==> s.left.Forced? && (WakeComing(s) || Total(s.lists) == s.left.queued)
       case Aggregate(now, _) => now ==> s.left.Forced? && (WakeComing(s) || Total(s.lists) == Stranded(s.left))
       case Settle(now) => now ==> s.left.Forced? && (WakeComing(s) || Total(s.lists) == Stranded(s.left))
       case Flush(now, _) => now ==> s.left.Forced? && (WakeComing(s) || Total(s.lists) == Stranded(s.left))
       case Uncount(now) => now ==> s.left.Forced? && (WakeComing(s) || Total(s.lists) == Stranded(s.left))
       case _ => true
  }

  ghost predicate Inv(s: State) {
    && Counting(s) && Aggregation(s) && Credits(s) && Accounted(s) && Conservation(s) && Wakeups(s) && Leaving(s)
    && CommandsKept(s.commands, s.cmd)
  }

  /** a is s with some elements left out. */
  predicate Within(a: seq<Command>, s: seq<Command>) {
    a == [] || (s != [] && (Within(a, s[..|s| - 1]) || (a[|a| - 1] == s[|s| - 1] && Within(a[..|a| - 1], s[..|s| - 1]))))
  }

  /** Every submitted command waits, was delivered, or was lost in one of two ways; deliveries are in order. */
  ghost predicate CommandsKept(k: Commands, cmd: bool) {
    && |k.waiting| <= 1 && (cmd <==> k.waiting != [])
    && multiset(k.submitted) == multiset(k.delivered + k.waiting) + k.overwritten + k.broken
    && Within(k.delivered + k.waiting, k.submitted)
  }

  // ----- every step keeps it -----

  lemma AddedTo(lists: seq<seq<Packet>>, prio: nat, pkt: Packet)
    requires prio < |lists|
    ensures Total(lists[prio := lists[prio] + [pkt]]) == Total(lists) + 1
    ensures Contents(lists[prio := lists[prio] + [pkt]]) == Contents(lists) + multiset{pkt}
  {
    UpdateTotal(lists, prio, lists[prio] + [pkt]);
    AppendContents(lists, prio, pkt);
  }

  lemma TakenFrom(lists: seq<seq<Packet>>)
    ensures var p := HighestClass(lists, |lists|);
            if p == |lists| then Total(lists) == 0
            else
              && IsHighest(lists, p)
              && Total(lists[p := lists[p][1..]]) == Total(lists) - 1
              && Contents(lists[p := lists[p][1..]]) + multiset{lists[p][0]} == Contents(lists)
  {
    var p := HighestClass(lists, |lists|);
    TotalZero(lists);
    if p < |lists| {
      UpdateTotal(lists, p, lists[p][1..]);
      PopContents(lists, p);
    }
  }

  lemma OutsideKeepsState(s: State, e: Event)
    requires Inv(s) && !e.TxStep?
    ensures var r := Next(s, e); Counting(r) && Aggregation(r) && Credits(r) && Accounted(r) && Wakeups(r) && Leaving(r) && CommandsKept(r.commands, r.cmd)
  {
    hide Contents, Total, Conservation, CommandsKept, AfterSubmit;
    if e.Produce? && ClassOf(e.pkt) < |s.lists| {
      AddedTo(s.lists, ClassOf(e.pkt), e.pkt);
    }
    if e.Submit? {
      SubmitKeepsCommands(s.commands, s.cmd, e.command);
    }
  }

  lemma OutsideKeepsConservation(s: State, e: Event)
    requires Inv(s) && !e.TxStep?
    ensures Conservation(Next(s, e))
  {
    hide Contents, Total, Frames, Aggregation, Credits, Accounted, Wakeups, Leaving, CommandsKept, ClassOf, ByClass;
    if e.Produce? && ClassOf(e.pkt) < |s.lists| {
      AcceptingConserves(s.lists, s.accepted, s.taken, e.pkt);
    }
  }

  lemma AcceptingConserves(lists: seq<seq<Packet>>, accepted: seq<Packet>, taken: seq<Packet>, pkt: Packet)
    requires ClassOf(pkt) < |lists| && ByClass(lists, accepted, taken) && multiset(accepted) == Contents(lists) + multiset(taken)
    ensures var after := lists[ClassOf(pkt) := lists[ClassOf(pkt)] + [pkt]];
            ByClass(after, accepted + [pkt], taken) && multiset(accepted + [pkt]) == Contents(after) + multiset(taken)
  {
    hide OfClass, ClassOf, Contents;
    AppendContents(lists, ClassOf(pkt), pkt);
    var after := lists[ClassOf(pkt) := lists[ClassOf(pkt)] + [pkt]];
    assert multiset(accepted + [pkt]) == multiset(accepted) + multiset{pkt};
    forall p | 0 <= p < |after|
      ensures OfClass(p, accepted + [pkt]) == OfClass(p, taken) + after[p]
    {
      OfClassNext(p, accepted, pkt);
      assert OfClass(p, accepted) == OfClass(p, taken) + lists[p];
    }
  }

  /** The head of class h moves to the taken packets. */
  lemma TakingKeepsClasses(lists: seq<seq<Packet>>, accepted: seq<Packet>, taken: seq<Packet>, h: nat)
    requires ByClass(lists, accepted, taken) && h < |lists| && lists[h] != []
    ensures ByClass(lists[h := lists[h][1..]], accepted, taken + [lists[h][0]])
  {
    hide OfClass, ClassOf;
    var after, pkt := lists[h := lists[h][1..]], lists[h][0];
    assert OfClass(h, accepted) == OfClass(h, taken) + lists[h];
    OfClassMembers(h, accepted);
    assert pkt in OfClass(h, taken) + lists[h];
    forall p | 0 <= p < |after|
      ensures OfClass(p, accepted) == OfClass(p, taken + [pkt]) + after[p]
    {
      OfClassNext(p, taken, pkt);
      assert OfClass(p, accepted) == OfClass(p, taken) + lists[p];
      assert lists[h] == [pkt] + lists[h][1..];
    }
  }

  lemma OfClassNext(p: nat, s: seq<Packet>, pkt: Packet)
    ensures OfClass(p, s + [pkt]) == OfClass(p, s) + if ClassOf(pkt) == p then [pkt] else []
  {
    assert (s + [pkt])[..|s|] == s;
  }

  lemma {:induction false} OfClassMembers(p: nat, s: seq<Packet>)
    ensures forall x :: x in OfClass(p, s) ==> ClassOf(x) == p
  {
    if s != [] {
      OfClassMembers(p, s[..|s| - 1]);
    }
  }

  /** The thread is between the entry of `aicwf_sdio_send` and its return. */
  predicate Sending(pc: Pc) {
    pc.SendEntry? || pc.Dequeue? || pc.Aggregate? || pc.Settle? || pc.Flush? || pc.Uncount?
  }

  lemma {:induction false} CountingKept(s: State, c: Choice)
    requires Inv(s)
    ensures Counting(TxNext(s, c))
  {
    hide *;
    if Sending(s.pc) {
      CountingKeptSending(s, c);
    } else {
      CountingKeptElsewhere(s, c);
    }
  }

  lemma CountingKeptElsewhere(s: State, c: Choice)
    requires Inv(s) && !Sending(s.pc)
    ensures Counting(TxNext(s, c))
  {
    hide Contents, Total, Conservation, Credits, Wakeups, HighestClass, AfterTransfer, CommandsKept;
    match s.pc
    case Wait => case WakeCheck => case CmdCheck => case CmdSend => case FlowCheck => case LoopHead => case Decide =>
  }

  lemma CountingKeptSending(s: State, c: Choice)
    requires Inv(s) && Sending(s.pc)
    ensures Counting(TxNext(s, c))
  {
    hide Contents, Total, Conservation, Credits, Wakeups, HighestClass, AfterTransfer, CommandsKept;
    TakenFrom(s.lists);
    match s.pc
    case SendEntry(_) => case Dequeue(_) => case Aggregate(_, _) => case Settle(_) => case Flush(_, _) => case Uncount(_) =>
  }

  lemma {:induction false} AggregationKept(s: State, c: Choice)
    requires Inv(s)
    ensures Aggregation(TxNext(s, c))
  {
    hide *;
    if Sending(s.pc) {
      AggregationKeptSending(s, c);
    } else {
      AggregationKeptElsewhere(s, c);
    }
  }

  lemma AggregationKeptElsewhere(s: State, c: Choice)
    requires Inv(s) && !Sending(s.pc)
    ensures Aggregation(TxNext(s, c))
  {
    hide Contents, Total, Conservation, Credits, Wakeups, HighestClass, AfterTransfer, CommandsKept;
    match s.pc
    case Wait => case WakeCheck => case CmdCheck => case CmdSend => case FlowCheck => case LoopHead => case Decide =>
  }

  lemma AggregationKeptSending(s: State, c: Choice)
    requires Inv(s) && Sending(s.pc)
    ensures Aggregation(TxNext(s, c))
  {
    hide Contents, Total, Conservation, Credits, Wakeups, HighestClass, AfterTransfer, CommandsKept;
    TakenFrom(s.lists);
    match s.pc
    case SendEntry(_) => case Dequeue(_) => case Aggregate(_, _) => case Settle(_) => case Flush(_, _) => case Uncount(_) =>
  }

  lemma CreditsKept(s: State, c: Choice)
    requires Inv(s)
    ensures Credits(TxNext(s, c))
  {
    hide Contents, Total, Conservation, Wakeups, HighestClass, Counting, AfterTransfer, CommandsKept;
    match s.pc
    case Wait => case WakeCheck => case CmdCheck => case CmdSend => case FlowCheck => case LoopHead =>
    case Decide => case SendEntry(_) => case Dequeue(_) => case Aggregate(_, _) => case Settle(_) =>
    case Flush(_, _) => case Uncount(_) =>
  }

  lemma {:induction false} AccountKept(s: State, c: Choice)
    requires Inv(s)
    ensures Accounted(TxNext(s, c))
  {
    hide *;
    if Sending(s.pc) {
      AccountKeptSending(s, c);
    } else {
      AccountKeptElsewhere(s, c);
    }
  }

  lemma AccountKeptElsewhere(s: State, c: Choice)
    requires Inv(s) && !Sending(s.pc)
    ensures Accounted(TxNext(s, c))
  {
    hide Contents, Total, Conservation, Credits, Wakeups, Leaving, HighestClass, AfterTransfer, CommandsKept;
    match s.pc
    case Wait => case WakeCheck => case CmdCheck => case CmdSend => case FlowCheck => case LoopHead => case Decide =>
  }

  lemma AccountKeptSending(s: State, c: Choice)
    requires Inv(s) && Sending(s.pc)
    ensures Accounted(TxNext(s, c))
  {
    hide Contents, Total, Conservation, Credits, Wakeups, Leaving, HighestClass, AfterTransfer, CommandsKept;
    match s.pc
    case SendEntry(_) => case Dequeue(_) => case Aggregate(_, _) => case Settle(_) => case Flush(_, _) => case Uncount(_) =>
  }

  lemma {:induction false} WakeupsKept(s: State, c: Choice)
    requires Inv(s)
    ensures Wakeups(TxNext(s, c))
  {
    hide Contents, Total, Conservation, Credits, HighestClass, AfterTransfer, CommandsKept;
    TakenFrom(s.lists);
    match s.pc
    case Wait => case WakeCheck => case CmdCheck => case CmdSend => case FlowCheck => case LoopHead =>
    case Decide => case SendEntry(_) => case Dequeue(_) => case Aggregate(_, _) => case Settle(_) =>
    case Flush(_, _) => case Uncount(_) =>
  }

  lemma {:induction false} WithinLonger(a: seq<Command>, s: seq<Command>, x: Command)
    requires Within(a, s)
    ensures Within(a, s + [x]) && Within(a + [x], s + [x])
  {
    assert (s + [x])[..|s|] == s && (a + [x])[..|a|] == a;
  }

  lemma {:induction false} WithinShorter(a: seq<Command>, s: seq<Command>)
    requires Within(a, s) && a != []
    ensures Within(a[..|a| - 1], s)
    decreases |s|
  {
    var n := |s| - 1;
    if Within(a, s[..n]) {
      WithinShorter(a, s[..n]);
    }
  }

  lemma SubmitKeepsCommands(k: Commands, cmd: bool, x: Command)
    requires CommandsKept(k, cmd)
    ensures CommandsKept(AfterSubmit(k, x), true)
  {
    hide Within;
    if k.waiting == [] {
      assert k.delivered + [] == k.delivered;
    } else {
      WithinShorter(k.delivered + k.waiting, k.submitted);
      assert (k.delivered + k.waiting)[..|k.delivered|] == k.delivered;
    }
    WithinLonger(k.delivered, k.submitted, x);
    assert multiset(k.delivered + k.waiting) == multiset(k.delivered) + multiset(k.waiting);
    assert multiset(k.delivered + [x]) == multiset(k.delivered) + multiset{x};
    assert multiset(k.submitted + [x]) == multiset(k.submitted) + multiset{x};
  }

  lemma TransferKeepsCommands(k: Commands, t: Transfer)
    requires CommandsKept(k, true) && !t.NoBuffer?
    ensures CommandsKept(AfterTransfer(k, t), false)
  {
    hide Within;
    assert k.delivered + k.waiting + [] == k.delivered + k.waiting;
    WithinShorter(k.delivered + k.waiting, k.submitted);
    assert (k.delivered + k.waiting)[..|k.delivered|] == k.delivered == k.delivered + [];
    assert multiset(k.delivered + k.waiting) == multiset(k.delivered) + multiset(k.waiting);
  }

  lemma CommandsStay(s: State, c: Choice)
    requires Inv(s)
    ensures CommandsKept(TxNext(s, c).commands, TxNext(s, c).cmd)
  {
    hide Contents, Total, HighestClass, CommandsKept, AfterTransfer, Conservation, Credits, Aggregation, Leaving;
    if s.pc.CmdSend? && !c.msg.NoBuffer? {
      TransferKeepsCommands(s.commands, c.msg);
    }
  }

  lemma {:induction false} LeavingKept(s: State, c: Choice)
    requires Inv(s)
    ensures Leaving(TxNext(s, c))
  {
    hide *;
    if Sending(s.pc) {
      LeavingKeptSending(s, c);
    } else {
      LeavingKeptElsewhere(s, c);
    }
  }

  lemma LeavingKeptElsewhere(s: State, c: Choice)
    requires Inv(s) && !Sending(s.pc)
    ensures Leaving(TxNext(s, c))
  {
    hide Contents, Total, Conservation, Credits, HighestClass, Wakeups, AfterTransfer, CommandsKept;
    match s.pc
    case Wait => case WakeCheck => case CmdCheck => case CmdSend => case FlowCheck => case LoopHead => case Decide =>
  }

  lemma LeavingKeptSending(s: State, c: Choice)
    requires Inv(s) && Sending(s.pc)
    ensures Leaving(TxNext(s, c))
  {
    hide Contents, Total, Conservation, Credits, HighestClass, Wakeups, AfterTransfer, CommandsKept;
    TakenFrom(s.lists);
    match s.pc
    case SendEntry(_) => case Dequeue(_) => case Aggregate(_, _) => case Settle(_) => case Flush(_, _) => case Uncount(_) =>
  }

  lemma ConservationKept(s: State, c: Choice)
    requires Inv(s)
    ensures Conservation(TxNext(s, c))
  {
    if s.pc.Dequeue? {
      TakingConserves(s, c);
    } else {
      QueueUntouched(s, c);
      TakenInOrder(s, c);
      hide TxNext, Contents, Total, Frames, Counting, Credits, Accounted, Wakeups, Aggregation, ByClass;
    }
  }

  lemma QueueUntouched(s: State, c: Choice)
    requires !s.pc.Dequeue?
    ensures var r := TxNext(s, c);
            r.lists == s.lists && r.accepted == s.accepted && r.taken == s.taken
  {
    hide Total, HighestClass, CanSee, AtLimit, AfterTransfer;
  }

  lemma TakenInOrder(s: State, c: Choice)
    requires Counting(s) && InOrderOfTaking(s) && !s.pc.Dequeue?
    ensures InOrderOfTaking(TxNext(s, c))
  {
    hide Total, HighestClass, Frames, CanSee, AfterTransfer;
    if s.pc.Flush? {
      FramesNext(s.sent, TxNext(s, c).sent[|s.sent|]);
    }
  }

  lemma FramesNext(sent: seq<Batch>, b: Batch)
    ensures Frames(sent + [b]) == Frames(sent) + b.frames
  {
    assert (sent + [b])[..|sent|] == sent;
  }

  lemma TakingConserves(s: State, c: Choice)
    requires Conservation(s) && s.pc.Dequeue?
    ensures Conservation(TxNext(s, c))
  {
    hide Contents, Total, HighestClass, Frames, ByClass;
    TakenFrom(s.lists);
    var r := TxNext(s, c);
    if r.pc.Aggregate? {
      MoveOne(s.accepted, Contents(s.lists), Contents(r.lists), s.taken, r.pc.pkt);
      TakingKeepsClasses(s.lists, s.accepted, s.taken, HighestClass(s.lists, |s.lists|));
    }
  }

  lemma MoveOne(all: seq<Packet>, before: multiset<Packet>, after: multiset<Packet>, taken: seq<Packet>, p: Packet)
    requires multiset(all) == before + multiset(taken) && after + multiset{p} == before
    ensures multiset(all) == after + multiset(taken + [p])
  {
    assert multiset(taken + [p]) == multiset(taken) + multiset{p};
  }

  lemma {:induction false} NextKeepsInv(s: State, e: Event)
    requires Inv(s)
    ensures Inv(Next(s, e)) && Next(s, e).maxAggr == s.maxAggr
  {
    SameLimit(s, e);
    if e.TxStep? {
      hide TxNext, Counting, Aggregation, Credits, Accounted, Conservation, Wakeups, Leaving, CommandsKept;
      AccountKept(s, e.choice);
      CountingKept(s, e.choice);
      AggregationKept(s, e.choice);
      CreditsKept(s, e.choice);
      ConservationKept(s, e.choice);
      WakeupsKept(s, e.choice);
      LeavingKept(s, e.choice);
      CommandsStay(s, e.choice);
    } else {
      OutsideKeepsState(s, e);
      OutsideKeepsConservation(s, e);
    }
  }

  lemma SameLimit(s: State, e: Event)
    ensures Next(s, e).maxAggr == s.maxAggr
  {
  }

  lemma InitInv(qmax: nat, maxAggr: int)
    requires maxAggr >= 1
    ensures Inv(Init(qmax, maxAggr))
  {
    var s := Init(qmax, maxAggr);
    TotalZero(s.lists);
    EmptyContents(s.lists);
  }

  lemma {:induction false} RunKeepsInv(qmax: nat, maxAggr: int, events: seq<Event>)
    requires maxAggr >= 1
    ensures Inv(Run(Init(qmax, maxAggr), events))
    ensures Run(Init(qmax, maxAggr), events).maxAggr == maxAggr
    decreases |events|
  {
    hide Inv, Next;
    if events == [] {
      InitInv(qmax, maxAggr);
    } else {
      var s := Run(Init(qmax, maxAggr), events[..|events| - 1]);
      RunKeepsInv(qmax, maxAggr, events[..|events| - 1]);
      NextKeepsInv(s, events[|events| - 1]);
    }
  }

  lemma {:induction false} EmptyContents(lists: seq<seq<Packet>>)
    requires forall p :: 0 <= p < |lists| ==> lists[p] == []
    ensures Contents(lists) == multiset{}
    decreases |lists|
  {
    if lists != [] {
      EmptyContents(lists[..|lists| - 1]);
    }
  }

  // ----- what the driver relies on -----

  /** No packet is stranded: outside the send loop the aggregation buffer is empty. */
  lemma {:induction false} NothingStranded(qmax: nat, maxAggr: int, events: seq<Event>)
    requires maxAggr >= 1
    ensures var s := Run(Init(qmax, maxAggr), events);
            (s.pc.Wait? || s.pc.WakeCheck? || s.pc.CmdCheck? || s.pc.CmdSend?) ==> s.aggr == [] && s.aggrLen == 0
  {
    RunKeepsInv(qmax, maxAggr, events);
  }

  /** Credits are never overspent: every transfer leaves at least two, and none exceeds the batch limit. */
  lemma {:induction false} CreditsNeverOverspent(qmax: nat, maxAggr: int, events: seq<Event>)
    requires maxAggr >= 1
    ensures var s := Run(Init(qmax, maxAggr), events);
            && (forall k :: 0 <= k < |s.sent| ==>
                  1 <= |s.sent[k].frames| <= maxAggr && s.sent[k].credits - |s.sent[k].frames| >= THRESHOLD)
            && (s.pc.LoopHead? && s.credits > THRESHOLD ==> |s.aggr| < s.credits - THRESHOLD && |s.aggr| < maxAggr)
  {
    RunKeepsInv(qmax, maxAggr, events);
  }

  /** The sleep test sees buffered data: with packets in the aggregation buffer the count is positive. */
  lemma {:induction false} SleepSeesBuffered(qmax: nat, maxAggr: int, events: seq<Event>)
    requires maxAggr >= 1
    ensures var s := Run(Init(qmax, maxAggr), events);
            s.aggr != [] ==> s.pktCnt >= 1
  {
    RunKeepsInv(qmax, maxAggr, events);
  }

  /**
   * The count reads as idle with a packet in the driver exactly in one window: the only packet has been
   * queued by a producer that still holds the lock and has not counted it.
   */
  lemma {:induction false} SleepMissesOnlyUncounted(qmax: nat, maxAggr: int, events: seq<Event>)
    requires maxAggr >= 1
    ensures var s := Run(Init(qmax, maxAggr), events);
            var inDriver := Total(s.lists) + InHand(s) + |s.aggr|;
            s.pktCnt <= 0 && inDriver > 0 <==> s.holder == Queued && Total(s.lists) == 1 && InHand(s) == 0
  {
    RunKeepsInv(qmax, maxAggr, events);
  }

  /** Every accepted packet is queued, in hand, in the aggregation buffer or sent, exactly once. */
  lemma {:induction false} PacketsConserved(qmax: nat, maxAggr: int, events: seq<Event>)
    requires maxAggr >= 1
    ensures var s := Run(Init(qmax, maxAggr), events);
            var hand := if s.pc.Aggregate? then [s.pc.pkt] else [];
            multiset(s.accepted) == Contents(s.lists) + multiset(Frames(s.sent) + s.aggr + hand)
  {
    RunKeepsInv(qmax, maxAggr, events);
  }

  /**
   * In each of the eight classes the accepted packets, in the order of acceptance, are the ones sent, then those
   * in the aggregation buffer, the one in hand, and those queued in that class.
   */
  lemma {:induction false} SentInClassOrder(qmax: nat, maxAggr: int, events: seq<Event>, p: nat)
    requires maxAggr >= 1 && p < 8
    ensures var s := Run(Init(qmax, maxAggr), events);
            var hand := if s.pc.Aggregate? then [s.pc.pkt] else [];
            && |s.lists| == 8
            && OfClass(p, s.accepted) == OfClass(p, Frames(s.sent) + s.aggr + hand) + s.lists[p]
  {
    hide OfClass;
    RunKeepsInv(qmax, maxAggr, events);
  }

  /**
   * What the thread takes is the oldest accepted packet, not yet taken, of its class, and no packet of a higher
   * class is queued.
   */
  lemma {:induction false} TakesOldestOfHighest(qmax: nat, maxAggr: int, events: seq<Event>, c: Choice)
    requires maxAggr >= 1
    requires Run(Init(qmax, maxAggr), events).pc.Dequeue? && Run(Init(qmax, maxAggr), events).holder == Nobody
    ensures var s, r := Run(Init(qmax, maxAggr), events), TxNext(Run(Init(qmax, maxAggr), events), c);
            && r.pc.Aggregate? && r.taken == s.taken + [r.pc.pkt]
            && (forall q, k :: 0 <= q < |s.lists| && 0 <= k < |s.lists[q]| ==> s.lists[q][k].priority % 8 <= r.pc.pkt.priority % 8)
            && var p := r.pc.pkt.priority % 8;
               |OfClass(p, s.taken)| < |OfClass(p, s.accepted)| && OfClass(p, s.accepted)[|OfClass(p, s.taken)|] == r.pc.pkt
  {
    hide OfClass, Run, Credits, Accounted, Wakeups, Leaving, CommandsKept, Contents, Frames, HighestClass;
    RunKeepsInv(qmax, maxAggr, events);
    var s := Run(Init(qmax, maxAggr), events);
    TakenFrom(s.lists);
    var h := HighestClass(s.lists, |s.lists|);
    QueuedInClass(s, h, 0);
    forall q, k | 0 <= q < |s.lists| && 0 <= k < |s.lists[q]|
      ensures s.lists[q][k].priority % 8 <= s.lists[h][0].priority % 8
    {
      QueuedInClass(s, q, k);
    }
  }

  lemma QueuedInClass(s: State, p: nat, k: nat)
    requires ByClass(s.lists, s.accepted, s.taken) && p < |s.lists| && k < |s.lists[p]|
    ensures s.lists[p][k].priority % 8 == p
  {
    hide OfClass;
    OfClassMembers(p, s.accepted);
    assert s.lists[p][k] in OfClass(p, s.taken) + s.lists[p];
  }

  /** The queue never holds more than its limit; a packet is refused only by a full queue, or waits for the lock. */
  lemma {:induction false} QueueBounded(qmax: nat, maxAggr: int, events: seq<Event>, pkt: Packet)
    requires maxAggr >= 1
    ensures var s := Run(Init(qmax, maxAggr), events);
            && Total(s.lists) <= qmax
            && Next(s, Produce(pkt)).accepted ==
               if s.holder == Nobody && Total(s.lists) < qmax then s.accepted + [pkt] else s.accepted
    decreases |events|
  {
    hide Inv, TxNext;
    RunKeepsInv(qmax, maxAggr, events);
    assert |Run(Init(qmax, maxAggr), events).lists| == 8 by { EightClasses(Run(Init(qmax, maxAggr), events)); }
    if events == [] {
      TotalZero(Init(qmax, maxAggr).lists);
    } else {
      var pre := events[..|events| - 1];
      QueueBounded(qmax, maxAggr, pre, pkt);
      RunBound(qmax, maxAggr, pre);
      BoundKept(Run(Init(qmax, maxAggr), pre), events[|events| - 1]);
    }
    RunBound(qmax, maxAggr, events);
  }

  lemma EightClasses(s: State)
    requires Inv(s)
    ensures |s.lists| == 8
  {
  }

  lemma SameBound(s: State, e: Event)
    ensures Next(s, e).qmax == s.qmax
  {
    hide Total, HighestClass;
  }

  lemma {:induction false} RunBound(qmax: nat, maxAggr: int, events: seq<Event>)
    ensures Run(Init(qmax, maxAggr), events).qmax == qmax
    decreases |events|
  {
    hide Next;
    if events != [] {
      RunBound(qmax, maxAggr, events[..|events| - 1]);
      SameBound(Run(Init(qmax, maxAggr), events[..|events| - 1]), events[|events| - 1]);
    }
  }

  lemma BoundKept(s: State, e: Event)
    requires Total(s.lists) <= s.qmax
    ensures Total(Next(s, e).lists) <= s.qmax
  {
    hide Total, Contents, HighestClass;
    if e.Produce? && ClassOf(e.pkt) < |s.lists| {
      AddedTo(s.lists, ClassOf(e.pkt), e.pkt);
    } else if e.TxStep? {
      if s.pc.Dequeue? {
        TakenFrom(s.lists);
      } else {
        QueueUntouched(s, e.choice);
      }
    }
  }

  /**
   * Since the flow-control register was last read, transfers have left at least two of the buffers it granted;
   * at the loop head the credits left are exactly what has not been spent.
   */
  lemma {:induction false} GrantNeverExceeded(qmax: nat, maxAggr: int, events: seq<Event>)
    requires maxAggr >= 1
    ensures var s := Run(Init(qmax, maxAggr), events);
            && (s.account.spent > 0 ==> s.account.spent + 2 <= s.account.granted)
            && (s.pc.LoopHead? ==> s.credits == s.account.granted - s.account.spent)
  {
    RunKeepsInv(qmax, maxAggr, events);
  }

  /** A round that finds packets starts with what the register says now, and so does every wait for credits. */
  lemma {:induction false} CreditsReadAfresh(qmax: nat, maxAggr: int, events: seq<Event>, c: Choice)
    requires maxAggr >= 1
    ensures var s, r := Run(Init(qmax, maxAggr), events), TxNext(Run(Init(qmax, maxAggr), events), c);
            (s.pc.FlowCheck? && !c.seesEmpty && CanSee(s, false)) || (s.pc.Decide? && s.credits <= 2 && !s.cmd) ==>
            r.pc.LoopHead? && r.credits == c.credit && r.account == Account(c.credit, 0)
  {
  }

  // ----- nothing waits for ever -----

  function Steps(s: State, n: nat): State
    decreases n
  {
    if n == 0 then s else Steps(TxNext(s, Lucky(s)), n - 1)
  }

  /** The outside at its best: the emptiness test sees what is there, and the firmware has buffers. */
  function Lucky(s: State): Choice {
    Choice(Total(s.lists) == 0, 3, Done, 1)
  }

  function Rank(s: State): nat {
    match s.pc
    case Wait => 0
    case WakeCheck => 19
    case CmdCheck => 18
    case CmdSend => 17
    case FlowCheck => 16
    case LoopHead => if s.credits <= THRESHOLD then 10 else 8
    case Decide => if s.credits <= THRESHOLD then 9 else 7
    case SendEntry(_) => 6
    case Dequeue(_) => 5
    case Aggregate(_, _) => 15
    case Settle(_) => 14
    case Flush(_, _) => 13
    case Uncount(_) => 12
  }

  function Work(s: State): nat {
    20 * Total(s.lists) + 20 * s.pending + Rank(s)
  }

  predicate Quiet(s: State) {
    s.holder == Nobody && s.owed == 0
  }

  lemma Advances(s: State)
    requires Inv(s) && Quiet(s) && !(s.pc.Wait? && s.pending == 0)
    ensures var r := TxNext(s, Lucky(s));
            Work(r) < Work(s) && Quiet(r) && (!s.cmdFailed ==> !r.cmdFailed) && r.accepted == s.accepted
  {
    hide *;
    if Sending(s.pc) {
      AdvancesSending(s);
    } else {
      AdvancesElsewhere(s);
    }
  }

  lemma AdvancesElsewhere(s: State)
    requires Inv(s) && Quiet(s) && !(s.pc.Wait? && s.pending == 0) && !Sending(s.pc)
    ensures var r := TxNext(s, Lucky(s));
            Work(r) < Work(s) && Quiet(r) && (!s.cmdFailed ==> !r.cmdFailed) && r.accepted == s.accepted
  {
    hide Contents, Total, Conservation, Credits, Accounted, Wakeups, Leaving, HighestClass, AfterTransfer, CommandsKept;
    match s.pc
    case Wait => case WakeCheck => case CmdCheck => case CmdSend => case FlowCheck => case LoopHead => case Decide =>
  }

  lemma AdvancesSending(s: State)
    requires Inv(s) && Quiet(s) && Sending(s.pc)
    ensures var r := TxNext(s, Lucky(s));
            Work(r) < Work(s) && Quiet(r) && (!s.cmdFailed ==> !r.cmdFailed) && r.accepted == s.accepted
  {
    hide Contents, Total, Conservation, Credits, Accounted, Wakeups, Leaving, HighestClass, AfterTransfer, CommandsKept;
    TakenFrom(s.lists);
    match s.pc
    case SendEntry(_) => case Dequeue(_) => case Aggregate(_, _) => case Settle(_) => case Flush(_, _) => case Uncount(_) =>
  }

  lemma {:induction false} Settles(s: State) returns (n: nat)
    requires Inv(s) && Quiet(s)
    ensures var r := Steps(s, n);
            && Inv(r) && Quiet(r) && r.pc.Wait? && r.pending == 0
            && (!s.cmdFailed ==> !r.cmdFailed) && r.accepted == s.accepted
    decreases Work(s)
  {
    hide Inv, Lucky, TxNext, Work;
    if s.pc.Wait? && s.pending == 0 {
      n := 0;
    } else {
      Advances(s);
      NextKeepsInv(s, TxStep(Lucky(s)));
      n := Settles(TxNext(s, Lucky(s)));
      n := n + 1;
    }
  }

  /**
   * After any run, once the producers have signalled and the firmware grants buffers, the thread alone comes to
   * rest; unless the last command transfer had been refused it has then sent every accepted packet, each class
   * in order, and no command waits.
   */
  lemma {:induction false} AllGetsSent(qmax: nat, maxAggr: int, events: seq<Event>) returns (n: nat)
    requires maxAggr >= 1 && Quiet(Run(Init(qmax, maxAggr), events))
    ensures var s := Run(Init(qmax, maxAggr), events);
            var r := Steps(s, n);
            && r.pc.Wait? && r.pending == 0 && r.accepted == s.accepted
            && (!s.cmdFailed ==> !r.cmd && forall p :: 0 <= p < 8 ==> OfClass(p, Frames(r.sent)) == OfClass(p, s.accepted))
  {
    RunKeepsInv(qmax, maxAggr, events);
    var s := Run(Init(qmax, maxAggr), events);
    n := Settles(s);
    hide *;
    if !s.cmdFailed {
      AtRest(Steps(s, n));
    }
  }

  lemma AtRest(r: State)
    requires Inv(r) && Quiet(r) && r.pc.Wait? && r.pending == 0 && !r.cmdFailed
    ensures !r.cmd && forall p :: 0 <= p < 8 ==> OfClass(p, Frames(r.sent)) == OfClass(p, r.accepted)
  {
    hide OfClass, Total, Contents, Frames, Accounted, Credits, CommandsKept, Leaving;
    TotalZero(r.lists);
    assert Frames(r.sent) + r.aggr + [] == Frames(r.sent) == r.taken;
    forall p | 0 <= p < 8
      ensures OfClass(p, r.taken) == OfClass(p, r.accepted)
    {
      assert r.lists[p] == [];
    }
  }

  /**
   * When the thread sleeps with no completion pending or on its way, all accepted packets have been sent and
   * no command waits, exactly unless the last command transfer failed.
   */
  lemma {:induction false} NoLostWakeup(qmax: nat, maxAggr: int, events: seq<Event>)
    requires maxAggr >= 1
    ensures var s := Run(Init(qmax, maxAggr), events);
            s.pc == Wait && !WakeComing(s) ==>
            (Total(s.lists) == 0 && !s.cmd && multiset(s.accepted) == multiset(Frames(s.sent)) <==> !s.cmdFailed)
  {
    RunKeepsInv(qmax, maxAggr, events);
    var s := Run(Init(qmax, maxAggr), events);
    if s.pc == Wait && Total(s.lists) == 0 {
      TotalZero(s.lists);
      EmptyContents(s.lists);
      assert Frames(s.sent) + s.aggr + [] == Frames(s.sent);
    }
  }

  /**
   * Packets wait in such a sleep exactly when the send loop was last left by its command branch with no
   * credits, or with credits and at least two packets queued; and it is exactly those packets, less the one
   * that was sent.
   */
  lemma {:induction false} PacketsWaitExactly(qmax: nat, maxAggr: int, events: seq<Event>)
    requires maxAggr >= 1
    ensures var s := Run(Init(qmax, maxAggr), events);
            s.pc == Wait && !WakeComing(s) ==>
            && (Total(s.lists) > 0 <==> s.left.NoCredits? || (s.left.Forced? && s.left.queued >= 2))
            && Total(s.lists) == (match s.left case SawEmpty => 0 case NoCredits(n) => n case Forced(n) => n - 1)
            && (Total(s.lists) > 0 ==> s.cmdFailed)
  {
    RunKeepsInv(qmax, maxAggr, events);
  }

  /**
   * Every submitted command waits to be sent, was delivered, was overwritten by a later one, or was lost to a
   * bus error, exactly once; and deliveries are in the order of submission.
   */
  lemma {:induction false} CommandsConserved(qmax: nat, maxAggr: int, events: seq<Event>)
    requires maxAggr >= 1
    ensures var k := Run(Init(qmax, maxAggr), events).commands;
            && multiset(k.submitted) == multiset(k.delivered) + multiset(k.waiting) + k.overwritten + k.broken
            && Within(k.delivered, k.submitted)
  {
    RunKeepsInv(qmax, maxAggr, events);
    var k := Run(Init(qmax, maxAggr), events).commands;
    hide Run, Within;
    assert multiset(k.delivered + k.waiting) == multiset(k.delivered) + multiset(k.waiting);
    if k.waiting != [] {
      WithinShorter(k.delivered + k.waiting, k.submitted);
      assert (k.delivered + k.waiting)[..|k.delivered|] == k.delivered;
    } else {
      assert k.delivered + [] == k.delivered;
    }
  }

  /**
   * In a sleep that nothing is going to end, the delivered commands are all the submitted ones exactly when the
   * last transfer was not refused, no submission found an earlier command waiting, and no bus error occurred.
   */
  lemma {:induction false} CommandsSentExactly(qmax: nat, maxAggr: int, events: seq<Event>)
    requires maxAggr >= 1
    ensures var s := Run(Init(qmax, maxAggr), events);
            s.pc == Wait && !WakeComing(s) ==>
            (s.commands.delivered == s.commands.submitted <==>
              !s.cmdFailed && s.commands.overwritten == multiset{} && s.commands.broken == multiset{})
  {
    RunKeepsInv(qmax, maxAggr, events);
    CommandsConserved(qmax, maxAggr, events);
    var s := Run(Init(qmax, maxAggr), events);
    if s.pc == Wait && !WakeComing(s) {
      AllSent(s.commands);
    }
  }

  lemma AllSent(k: Commands)
    requires multiset(k.submitted) == multiset(k.delivered) + multiset(k.waiting) + k.overwritten + k.broken
    requires Within(k.delivered, k.submitted)
    ensures k.delivered == k.submitted <==> k.waiting == [] && k.overwritten == multiset{} && k.broken == multiset{}
  {
    hide Within;
    var lost := multiset(k.waiting) + k.overwritten + k.broken;
    assert multiset(k.submitted) == multiset(k.delivered) + lost;
    assert |multiset(k.submitted)| == |k.submitted| && |multiset(k.delivered)| == |k.delivered|;
    assert |k.submitted| == |k.delivered| + |lost|;
    assert |lost| == |k.waiting| + |k.overwritten| + |k.broken|;
    WithinSameLength(k.delivered, k.submitted);
  }

  lemma {:induction false} WithinSameLength(a: seq<Command>, s: seq<Command>)
    requires Within(a, s)
    ensures |a| <= |s| && (|a| == |s| ==> a == s)
    decreases |s|
  {
    if a != [] {
      var n := |s| - 1;
      if Within(a, s[..n]) {
        WithinSameLength(a, s[..n]);
      } else {
        WithinSameLength(a[..|a| - 1], s[..n]);
        assert |a| == |s| ==> a == a[..|a| - 1] + [a[|a| - 1]] && s == s[..n] + [s[n]];
      }
    }
  }

  // ----- the exception is real -----

  /** The events applied one after the other, first to last. */
  function Apply(s: State, events: seq<Event>): State
    decreases |events|
  {
    if events == [] then s else Apply(Next(s, events[0]), events[1..])
  }

  lemma {:induction false} RunIsApply(s: State, events: seq<Event>)
    ensures Run(s, events) == Apply(s, events)
    decreases |events|
  {
    hide Next;
    if events != [] {
      var n := |events| - 1;
      RunIsApply(s, events[..n]);
      ApplyLast(s, events[..n], events[n]);
      assert events[..n] + [events[n]] == events;
    }
  }

  lemma {:induction false} ApplyLast(s: State, events: seq<Event>, e: Event)
    ensures Apply(s, events + [e]) == Next(Apply(s, events), e)
    decreases |events|
  {
    hide Next;
    if events == [] {
      assert [e][1..] == [];
    } else {
      assert (events + [e])[1..] == events[1..] + [e];
      ApplyLast(Next(s, events[0]), events[1..], e);
    }
  }

  lemma {:induction false} ApplyAppend(s: State, a: seq<Event>, b: seq<Event>)
    ensures Apply(s, a + b) == Apply(Apply(s, a), b)
    decreases |a|
  {
    hide Next;
    if a == [] {
      assert a + b == b;
    } else {
      assert (a + b)[1..] == a[1..] + b;
      ApplyAppend(Next(s, a[0]), a[1..], b);
    }
  }

  const SEVEN: Packet := Packet(7, 8)

  const NO_LUCK: Choice := Choice(false, THRESHOLD, NoBuffer, 0)

  /** One round of the thread with a command that fails again and no credits to spend. */
  lemma FailedRound(s: State)
    requires s.pc == Wait && s.pending > 0 && s.cmd && Total(s.lists) > 0
    ensures Apply(s, seq(7, _ => TxStep(NO_LUCK))) == s.(pending := s.pending - 1, cmdFailed := true, credits := THRESHOLD,
              account := Account(THRESHOLD, 0), left := NoCredits(Total(s.lists)))
  {
    hide *;
    var e := TxStep(NO_LUCK);
    var s4 := CommandFails(s);
    NothingToSpend(s4);
    FourTimes(s, e, 3);
    ThreeTimes(s4, e);
  }

  lemma FourTimes(s: State, e: Event, n: nat)
    ensures Apply(s, seq(4 + n, _ => e)) == Apply(Next(Next(Next(Next(s, e), e), e), e), seq(n, _ => e))
  {
    hide Apply, Next;
    Unroll(s, e, n + 4);
    Unroll(Next(s, e), e, n + 3);
    Unroll(Next(Next(s, e), e), e, n + 2);
    Unroll(Next(Next(Next(s, e), e), e), e, n + 1);
  }

  lemma ThreeTimes(s: State, e: Event)
    ensures Apply(s, seq(3, _ => e)) == Next(Next(Next(s, e), e), e)
  {
    hide Apply, Next;
    Unroll(s, e, 3);
    Unroll(Next(s, e), e, 2);
    Unroll(Next(Next(s, e), e), e, 1);
    ApplyNothing(Next(Next(Next(s, e), e), e), e);
  }

  lemma CommandFails(s: State) returns (s4: State)
    requires s.pc == Wait && s.pending > 0 && s.cmd
    ensures var e := TxStep(NO_LUCK); s4 == Next(Next(Next(Next(s, e), e), e), e)
    ensures s4 == s.(pending := s.pending - 1, pc := FlowCheck, cmdFailed := true)
  {
    hide Total, HighestClass;
    var e := TxStep(NO_LUCK);
    var s1 := s.(pending := s.pending - 1, pc := WakeCheck);
    assert Next(s, e) == s1;
    assert Next(s1, e) == s1.(pc := CmdCheck);
    assert Next(s1.(pc := CmdCheck), e) == s1.(pc := CmdSend);
    s4 := s1.(pc := FlowCheck, cmdFailed := true);
  }

  lemma NothingToSpend(s: State)
    requires s.pc == FlowCheck && s.cmd && Total(s.lists) > 0
    ensures var e := TxStep(NO_LUCK);
      Next(Next(Next(s, e), e), e) == s.(pc := Wait, credits := THRESHOLD, account := Account(THRESHOLD, 0), left := NoCredits(Total(s.lists)))
  {
    hide Total, HighestClass;
    var e := TxStep(NO_LUCK);
    var s5 := s.(pc := LoopHead, credits := THRESHOLD, account := Account(THRESHOLD, 0));
    assert Next(s, e) == s5;
    assert Next(s5, e) == s5.(pc := Decide);
  }

  lemma Unroll(s: State, e: Event, n: nat)
    requires n > 0
    ensures Apply(s, seq(n, _ => e)) == Apply(Next(s, e), seq(n - 1, _ => e))
  {
    hide Next;
    assert seq(n, _ => e)[1..] == seq(n - 1, _ => e);
  }

  lemma ApplyNothing(s: State, e: Event)
    ensures Apply(s, seq(0, _ => e)) == s
  {
  }

  const SETUP: seq<Event> := [Produce(SEVEN), ProducerCount, ProducerUnlock, Complete, Submit(9), Complete]

  /** With a failed command and no credits, an accepted packet waits and nothing is left to wake the thread. */
  lemma {:induction false} FailedCommandStrandsPacket() returns (events: seq<Event>)
    ensures var s := Run(Init(2000, 8), events);
            s.pc == Wait && !WakeComing(s) && s.cmdFailed && Total(s.lists) == 1 && s.sent == []
  {
    var round := seq(7, _ => TxStep(NO_LUCK));
    var start := Init(2000, 8);
    events := SETUP + round + round;
    hide *;
    var ready := SetupReady();
    ApplyAppend(start, SETUP + round, round);
    ApplyAppend(start, SETUP, round);
    FailedRound(ready);
    var once := ready.(pending := 1, cmdFailed := true, credits := THRESHOLD, account := Account(THRESHOLD, 0), left := NoCredits(1));
    FailedRound(once);
    RunIsApply(start, events);
    NobodyComes(once.(pending := 0));
  }

  lemma NobodyComes(s: State)
    requires s.pending == 0 && s.owed == 0 && s.holder == Nobody
    ensures !WakeComing(s)
  {
  }

  lemma SetupReady() returns (ready: State)
    ensures Apply(Init(2000, 8), SETUP) == ready
    ensures ready.pc == Wait && ready.pending == 2 && ready.cmd && Total(ready.lists) == 1 && ready.sent == []
    ensures ready.owed == 0 && ready.holder == Nobody
  {
    var start := Init(2000, 8);
    var one := start.lists[0 := [SEVEN]];
    TotalZero(start.lists);
    AddedTo(start.lists, 0, SEVEN);
    assert start.lists[0] + [SEVEN] == [SEVEN];
    ready := start.(lists := one, accepted := [SEVEN], pktCnt := 1, pending := 2, cmd := true,
                    commands := Commands([9], [9], [], multiset{}, multiset{}));
    hide Total, HighestClass, Contents, Run, Apply;
    SetupDone(start, one, ready);
  }

  lemma SetupDone(start: State, one: seq<seq<Packet>>, ready: State)
    requires start == Init(2000, 8) && one == start.lists[0 := start.lists[0] + [SEVEN]] && Total(start.lists) == 0
    requires ready == start.(lists := one, accepted := [SEVEN], pktCnt := 1, pending := 2, cmd := true,
                           commands := Commands([9], [9], [], multiset{}, multiset{}))
    ensures Apply(start, [Produce(SEVEN), ProducerCount, ProducerUnlock, Complete, Submit(9), Complete]) == ready
  {
    hide Total, HighestClass;
    var s1 := start.(lists := one, accepted := [SEVEN], holder := Queued);
    assert Next(start, Produce(SEVEN)) == s1;
    var e3 := [Complete, Submit(9), Complete];
    var s3 := s1.(pktCnt := 1, holder := Nobody, owed := 1);
    assert Next(Next(s1, ProducerCount), ProducerUnlock) == s3;
    assert Next(Next(Next(s3, Complete), Submit(9)), Complete) == ready;
    ApplyThree(start, Produce(SEVEN), ProducerCount, ProducerUnlock, e3);
    ApplyThree(s3, Complete, Submit(9), Complete, []);
    assert e3 + [] == e3;
    assert [Produce(SEVEN), ProducerCount, ProducerUnlock] + e3
        == [Produce(SEVEN), ProducerCount, ProducerUnlock, Complete, Submit(9), Complete];
  }

  lemma ApplyThree(s: State, a: Event, b: Event, c: Event, rest: seq<Event>)
    ensures Apply(s, [a, b, c] + rest) == Apply(Next(Next(Next(s, a), b), c), rest)
  {
    hide Next, Apply;
    assert [a, b, c] + rest == [a] + ([b] + ([c] + rest));
    ApplyFirst(s, a, [b] + ([c] + rest));
    ApplyFirst(Next(s, a), b, [c] + rest);
    ApplyFirst(Next(Next(s, a), b), c, rest);
  }

  lemma ApplyFirst(s: State, a: Event, rest: seq<Event>)
    ensures Apply(s, [a] + rest) == Apply(Next(s, a), rest)
  {
    hide Next;
    assert ([a] + rest)[1..] == rest;
  }

  /** Two submissions in a row: the first command is never sent. */
  lemma CommandOverwritten()
    ensures var s := Run(Init(2000, 8), [Submit(1), Submit(2)]);
            s.commands.waiting == [2] && s.commands.submitted == [1, 2] && s.commands.overwritten == multiset{1}
  {
    var start, a, b := Init(2000, 8), Submit(1), Submit(2);
    assert Next(Next(start, a), b).commands == Commands([2], [1, 2], [], multiset{1}, multiset{});
    hide Run, Apply, Next;
    RunIsApply(start, [a, b]);
    ApplyFirst(start, a, [b]);
    ApplyFirst(Next(start, a), b, []);
    assert [a, b] == [a] + [b] && [b] == [b] + [];
    assert Apply(Next(Next(start, a), b), []) == Next(Next(start, a), b) by { ApplyNothing(Next(Next(start, a), b), a); NoEvents(a); }
  }

  lemma NoEvents(e: Event)
    ensures seq(0, _ => e) == []
  {
  }
}
