/** Splitting a received buffer into records (`aicwf_another_ptk_1`, inner loop of `aicwf_process_rxframes`). */
module RxWalk {
  import opened Machine

  const HARDWARE_HEADER: nat := 60   // RX_HWHRD_LEN

  /** Who a record is handed to; a configuration record of another type is dropped. */
  datatype Handler = DataIndication | CommandResponse | DataConfirm | Print | Nobody

  datatype Dispatch = Dispatch(handler: Handler, bytes: seq<byte>)

  /** A walk ends, or meets a record that does not move the read pointer and handles it for ever. */
  datatype Outcome = Finished(done: seq<Dispatch>) | Spins(done: seq<Dispatch>, at: nat)

  // ----- one record -----

  function LengthAt(b: seq<byte>, at: nat): (n: nat)
    requires at + 2 <= |b|
    ensures n < 0x1_0000
  {
    var lo, hi: int := b[at], b[at + 1];
    lo + 256 * hi
  }

  /** data[2] & SDIO_TYPE_CFG */
  function IsConfig(b: seq<byte>, at: nat): bool
    requires at + 3 <= |b|
  {
    b[at + 2] / 16 % 2 == 1
  }

  function HandlerOf(kind: byte): Handler {
    match kind % 128
    case 0x11 => CommandResponse
    case 0x12 => DataConfirm
    case 0x13 => Print
    case _ => Nobody
  }

  /** roundup in a u16 variable. */
  function Round16(n: nat): (r: nat)
    requires n < 0x1_0000
    ensures r % 4 == 0
  {
    if n % 4 != 0 then RoundUp4(n) % 0x1_0000 else n
  }

  /** How far the read pointer moves. */
  function Advance(b: seq<byte>, at: nat): (n: nat)
    requires at + 3 <= |b|
    ensures at % 4 == 0 ==> (at + n) % 4 == 0
  {
    if IsConfig(b, at) then Round16(LengthAt(b, at)) + 4
    else Round16((LengthAt(b, at) + HARDWARE_HEADER) % 0x1_0000)
  }

  /** How many bytes the handler's copy takes. */
  function CopyLen(b: seq<byte>, at: nat): nat
    requires at + 3 <= |b|
  {
    if IsConfig(b, at) then LengthAt(b, at) + 4 else (LengthAt(b, at) + HARDWARE_HEADER) % 0x1_0000
  }

  /** The bytes copied for the handler, as far as they lie in the buffer. */
  function Copied(b: seq<byte>, at: nat): seq<byte>
    requires at + 3 <= |b|
  {
    var n := CopyLen(b, at);
    if at + n <= |b| then b[at..at + n] else b[at..]
  }

  function DispatchAt(b: seq<byte>, at: nat): Dispatch
    requires at + 3 <= |b|
  {
    Dispatch(if IsConfig(b, at) then HandlerOf(b[at + 2]) else DataIndication, Copied(b, at))
  }

  /** Only four lengths, all of data records, wrap to no movement at all. */
  lemma AdvanceZero(b: seq<byte>, at: nat)
    requires at + 3 <= |b|
    ensures Advance(b, at) == 0 <==> !IsConfig(b, at) && 65473 <= LengthAt(b, at) <= 65476
  {
  }

  // ----- the walk -----

  predicate Another(b: seq<byte>, at: nat)
    requires |b| % 4 == 0 && at % 4 == 0
  {
    at < |b| && LengthAt(b, at) != 0
  }

  function Walk(b: seq<byte>, at: nat): Outcome
    requires |b| % 4 == 0 && at % 4 == 0
    decreases |b| - at
  {
    if !Another(b, at) then Finished([])
    else if Advance(b, at) == 0 then Spins([], at)
    else
      var d := [DispatchAt(b, at)];
      match Walk(b, at + Advance(b, at))
      case Finished(ds) => Finished(d + ds)
      case Spins(ds, p) => Spins(d + ds, p)
  }

  /** The walk comes to position p. */
  ghost predicate Reaches(b: seq<byte>, at: nat, p: nat)
    requires |b| % 4 == 0 && at % 4 == 0
    decreases |b| - at
  {
    p == at || (Another(b, at) && Advance(b, at) > 0 && Reaches(b, at + Advance(b, at), p))
  }

  ghost predicate Overlong(b: seq<byte>, p: nat) {
    p + 3 <= |b| && !IsConfig(b, p) && 65473 <= LengthAt(b, p) <= 65476
  }

  /** The walk terminates exactly when it comes to no data record with one of the four lengths. */
  lemma {:induction false} SpinsExactly(b: seq<byte>, at: nat)
    requires |b| % 4 == 0 && at % 4 == 0
    ensures Walk(b, at).Spins? <==> exists p :: Reaches(b, at, p) && Overlong(b, p)
    decreases |b| - at
  {
    hide Advance, IsConfig, LengthAt, DispatchAt;
    if Another(b, at) {
      AdvanceZero(b, at);
      if Advance(b, at) == 0 {
        assert Reaches(b, at, at) && Overlong(b, at);
      } else {
        var next := at + Advance(b, at);
        SpinsExactly(b, next);
        if Walk(b, next).Spins? {
          var p :| Reaches(b, next, p) && Overlong(b, p);
          assert Reaches(b, at, p);
        } else {
          forall p | Reaches(b, at, p)
            ensures !Overlong(b, p)
          {
            assert p == at || Reaches(b, next, p);
          }
        }
      }
    } else {
      forall p | Reaches(b, at, p)
        ensures !Overlong(b, p)
      {
      }
    }
  }

  lemma SpinningBuffer()
    ensures Walk([0xC1, 0xFF, 0, 0], 0) == Spins([], 0)
  {
    var b: seq<byte> := [0xC1, 0xFF, 0, 0];
    assert LengthAt(b, 0) == 65473;
    AdvanceZero(b, 0);
  }

  // ----- when every copy lies inside the buffer -----

  const MAX_TRANSFER: nat := 0x7F * 512   // the block count has 7 bits

  /** Where the read pointer stops. */
  function Stop(b: seq<byte>, at: nat): nat
    requires |b| % 4 == 0 && at % 4 == 0
    decreases |b| - at
  {
    if !Another(b, at) || Advance(b, at) == 0 then at else Stop(b, at + Advance(b, at))
  }

  /** The record's rounded length wraps, so that the step is shorter than the copy. */
  predicate Wraps(b: seq<byte>, at: nat)
    requires at + 3 <= |b|
  {
    if IsConfig(b, at) then LengthAt(b, at) >= 65533 else 65473 <= LengthAt(b, at) <= 65475
  }

  lemma StepOfCopy(b: seq<byte>, at: nat)
    requires at + 3 <= |b|
    ensures if Wraps(b, at) then CopyLen(b, at) >= 65533 && Advance(b, at) <= 4
            else CopyLen(b, at) <= Advance(b, at) == RoundUp4(CopyLen(b, at))
  {
    hide IsConfig, LengthAt, Round16, RoundUp4;
    StepNumbers(LengthAt(b, at));
  }

  /** Rounding up in 16 bits goes wrong for the last three numbers only. */
  lemma RoundExact(n: nat)
    requires n < 0x1_0000
    ensures if n >= 65533 then Round16(n) == 0 else n <= Round16(n) == RoundUp4(n)
    ensures RoundUp4(n) + 4 == RoundUp4(n + 4)
  {
    RoundShift(n);
    if n % 4 == 0 {
      RoundSelf(n);
    }
    hide RoundUp4;
    var r := RoundUp4(n);
    if n >= 65533 {
      assert r == 65536;
    }
  }

  lemma RoundShift(n: nat)
    ensures RoundUp4(n) + 4 == RoundUp4(n + 4)
  {
  }

  lemma RoundSelf(n: nat)
    requires n % 4 == 0
    ensures RoundUp4(n) == n
  {
  }

  lemma StepNumbers(n: nat)
    requires n < 0x1_0000
    ensures if n >= 65533 then Round16(n) == 0 else n <= Round16(n) && Round16(n) + 4 == RoundUp4(n + 4)
    ensures var c := (n + HARDWARE_HEADER) % 0x1_0000;
      if 65473 <= n <= 65475 then c >= 65533 && Round16(c) == 0 else c <= Round16(c) == RoundUp4(c)
  {
    hide Round16, RoundUp4;
    RoundExact(n);
    var c := (n + HARDWARE_HEADER) % 0x1_0000;
    assert c == if n < 65476 then n + 60 else n + 60 - 65536;
    RoundExact(c);
  }

  /**
   * In a transfer of the largest size or less every copy lies inside the buffer exactly when the walk ends
   * inside it and meets no record whose rounded length wraps.
   */
  lemma {:induction false} InsideExactly(b: seq<byte>, at: nat)
    requires |b| % 4 == 0 && at % 4 == 0 && |b| <= MAX_TRANSFER && at <= |b|
    ensures (forall p: nat :: Reaches(b, at, p) && p % 4 == 0 && Another(b, p) ==> p + CopyLen(b, p) <= |b|)
       <==> Stop(b, at) <= |b| && (forall p: nat :: Reaches(b, at, p) && p % 4 == 0 && Another(b, p) ==> !Wraps(b, p))
    decreases |b| - at
  {
    hide Advance, CopyLen, Wraps, IsConfig, LengthAt, RoundUp4;
    if Another(b, at) {
      StepOfCopy(b, at);
      assert Reaches(b, at, at);
      var next := at + Advance(b, at);
      if Advance(b, at) > 0 {
        forall p: nat
          ensures Reaches(b, at, p) <==> p == at || Reaches(b, next, p)
        {
        }
        StepInside(b, at);
        if next <= |b| {
          InsideExactly(b, next);
        } else {
          assert Stop(b, next) == next;
        }
      }
    }
  }

  /** Positions and sizes are multiples of 4, so a copy inside the buffer means a step inside it. */
  lemma StepInside(b: seq<byte>, at: nat)
    requires |b| % 4 == 0 && at % 4 == 0 && |b| <= MAX_TRANSFER && at + 3 <= |b|
    ensures at + CopyLen(b, at) <= |b| ==> !Wraps(b, at) && at + Advance(b, at) <= |b|
  {
    StepOfCopy(b, at);
  }

  // ----- the layout the chip writes -----

  /** A data record: 60 bytes of hardware header, then the packet. A configuration record: 4 bytes, then the message. */
  datatype Record = DataRecord(header: seq<byte>, packet: seq<byte>) | ConfigRecord(header: seq<byte>, message: seq<byte>)

  ghost function Body(r: Record): seq<byte> {
    match r
    case DataRecord(_, p) => p
    case ConfigRecord(_, m) => m
  }

  ghost function RecordBytes(r: Record): seq<byte> {
    match r
    case DataRecord(h, p) => h + p
    case ConfigRecord(h, m) => h + m
  }

  /** The length that the walk rounds up in 16 bits. */
  ghost function Rounded(r: Record): nat {
    match r
    case DataRecord(h, p) => |h| + |p|
    case ConfigRecord(_, m) => |m|
  }

  /** The header carries the length of the body and the kind, and rounding does not overflow 16 bits. */
  ghost predicate WellFormed(r: Record) {
    var n := |Body(r)|;
    && |r.header| == (if r.DataRecord? then HARDWARE_HEADER else 4)
    && 0 < n && Rounded(r) <= 65532
    && r.header[0] == n % 256 && r.header[1] == n / 256
    && (r.header[2] / 16 % 2 == 1 <==> r.ConfigRecord?)
  }

  ghost function Layout(records: seq<Record>): seq<byte> {
    if records == [] then []
    else
      Padded(RecordBytes(records[0])) + Layout(records[1..])
  }

  ghost function Dispatches(records: seq<Record>): seq<Dispatch> {
    if records == [] then []
    else
      var r := records[0];
      [Dispatch(if r.ConfigRecord? && |r.header| > 2 then HandlerOf(r.header[2]) else DataIndication, RecordBytes(r))]
      + Dispatches(records[1..])
  }

  lemma RoundNoWrap(n: nat)
    requires n <= 65532
    ensures Round16(n) == RoundUp4(n) && RoundUp4(n) + 4 == RoundUp4(n + 4)
  {
  }

  lemma FirstRecord(b: seq<byte>, at: nat, r: Record)
    requires WellFormed(r) && |b| % 4 == 0 && at % 4 == 0
    requires at + RoundUp4(|RecordBytes(r)|) <= |b| && b[at..at + |RecordBytes(r)|] == RecordBytes(r)
    ensures at + 3 <= |b| && Another(b, at) && Advance(b, at) == RoundUp4(|RecordBytes(r)|)
    ensures DispatchAt(b, at) == Dispatch(if r.ConfigRecord? then HandlerOf(r.header[2]) else DataIndication, RecordBytes(r))
  {
    hide HandlerOf, Round16, RoundUp4;
    var s, n := RecordBytes(r), |Body(r)|;
    assert s[0] == b[at] && s[1] == b[at + 1] && s[2] == b[at + 2];
    assert s[0] == r.header[0] && s[1] == r.header[1] && s[2] == r.header[2];
    RoundNoWrap(Rounded(r));
    assert LengthAt(b, at) == n;
  }

  ghost function Padded(s: seq<byte>): (p: seq<byte>)
    ensures |p| == RoundUp4(|s|)
  {
    s + seq(RoundUp4(|s|) - |s|, _ => 0)
  }

  /** The walk dispatches exactly the records that were laid out, in order, and stops behind them. */
  lemma {:induction false} WalkInvertsLayout(b: seq<byte>, at: nat, records: seq<Record>)
    requires forall r :: r in records ==> WellFormed(r)
    requires |b| % 4 == 0 && at % 4 == 0
    requires at <= |b| && Layout(records) <= b[at..]
    requires var end := at + |Layout(records)|; end == |b| || (end + 2 <= |b| && LengthAt(b, end) == 0)
    ensures Walk(b, at) == Finished(Dispatches(records))
    decreases |records|
  {
    hide WellFormed, Advance, DispatchAt, RecordBytes, HandlerOf, RoundUp4, LengthAt;
    if records == [] {
      NothingMore(b, at);
    } else {
      var r := records[0];
      var s := RecordBytes(r);
      var first := Padded(s);
      assert first <= b[at..] && s <= first;
      assert b[at..at + |s|] == s;
      FirstRecord(b, at, r);
      HeaderLong(r);
      var next := at + |first|;
      assert Layout(records[1..]) == Layout(records)[|first|..];
      assert b[next..] == b[at..][|first|..];
      WalkInvertsLayout(b, next, records[1..]);
    }
  }

  lemma NothingMore(b: seq<byte>, at: nat)
    requires |b| % 4 == 0 && at % 4 == 0
    requires at == |b| || (at + 2 <= |b| && LengthAt(b, at) == 0)
    ensures Walk(b, at) == Finished([])
  {
  }

  lemma HeaderLong(r: Record)
    requires WellFormed(r)
    ensures |r.header| > 2
  {
  }

  // ----- what the chip means -----

  /** A transfer from the chip for one handler: its header and its body. */
  datatype Sent = Sent(handler: Handler, header: seq<byte>, body: seq<byte>)

  /**
   * The header starts with the body's length, low-order byte first, and the type: bit 4 marks configuration
   * records, whose types 0x11, 0x12 and 0x13 are command responses, data confirms and prints; bit 7 is free.
   */
  ghost predicate AsSent(s: Sent) {
    && 1 <= |s.body| && |s.header| == (if s.handler == DataIndication then 60 else 4)
    && |s.body| <= (if s.handler == DataIndication then 65472 else 65532)
    && var low: int, high: int, kind: int := s.header[0], s.header[1], s.header[2];
       |s.body| == low + 256 * high &&
       match s.handler
       case DataIndication => kind / 16 % 2 == 0
       case CommandResponse => kind == 0x11 || kind == 0x91
       case DataConfirm => kind == 0x12 || kind == 0x92
       case Print => kind == 0x13 || kind == 0x93
       case Nobody => kind / 16 % 2 == 1 && kind !in [0x11, 0x12, 0x13, 0x91, 0x92, 0x93]
  }

  /** Each transfer starts at a multiple of 4. */
  ghost function SentBytes(sent: seq<Sent>): seq<byte> {
    if sent == [] then [] else Padded(sent[0].header + sent[0].body) + SentBytes(sent[1..])
  }

  ghost function AsRecord(s: Sent): Record {
    if s.handler == DataIndication then DataRecord(s.header, s.body) else ConfigRecord(s.header, s.body)
  }

  ghost function AsRecords(sent: seq<Sent>): seq<Record> {
    seq(|sent|, i requires 0 <= i < |sent| => AsRecord(sent[i]))
  }

  lemma SentIsRecord(s: Sent)
    requires AsSent(s)
    ensures var r := AsRecord(s);
      WellFormed(r) && RecordBytes(r) == s.header + s.body && (r.ConfigRecord? ==> HandlerOf(r.header[2]) == s.handler)
  {
  }

  lemma {:induction false} SentLayout(sent: seq<Sent>)
    requires forall s :: s in sent ==> AsSent(s)
    ensures Layout(AsRecords(sent)) == SentBytes(sent)
    ensures Dispatches(AsRecords(sent)) == seq(|sent|, i requires 0 <= i < |sent| => Dispatch(sent[i].handler, sent[i].header + sent[i].body))
  {
    hide AsSent, WellFormed, RecordBytes, HandlerOf, Padded;
    if sent != [] {
      SentIsRecord(sent[0]);
      HeaderLong(AsRecord(sent[0]));
      SentLayout(sent[1..]);
      assert AsRecords(sent)[1..] == AsRecords(sent[1..]);
    }
  }

  /** A buffer with transfers for any handlers, one after the other: each handler is given exactly its own, in order. */
  lemma {:induction false} SentIsHandled(b: seq<byte>, sent: seq<Sent>)
    requires forall s :: s in sent ==> AsSent(s)
    requires |b| % 4 == 0 && SentBytes(sent) <= b
    requires var end := |SentBytes(sent)|; end == |b| || (end + 2 <= |b| && b[end] == 0 && b[end + 1] == 0)
    ensures Walk(b, 0) ==
      Finished(seq(|sent|, i requires 0 <= i < |sent| => Dispatch(sent[i].handler, sent[i].header + sent[i].body)))
  {
    hide AsSent, WellFormed, Walk, Dispatches, Layout, SentBytes;
    SentLayout(sent);
    forall r | r in AsRecords(sent)
      ensures WellFormed(r)
    {
      var i :| 0 <= i < |sent| && AsRecords(sent)[i] == r;
      SentIsRecord(sent[i]);
    }
    assert b[0..] == b;
    WalkInvertsLayout(b, 0, AsRecords(sent));
  }

  // ----- the driver's loop -----

  class RxBuffer {
    const start: array<byte>
    var read: nat
    var done: seq<Dispatch>   // what the handlers have been given

    constructor (bytes: array<byte>)
      ensures start == bytes && read == 0 && done == []
    {
      start := bytes;
      read := 0;
      done := [];
    }

    /** The transfer length is a multiple of 4; the alignment check of the source is an assertion here. */
    method AnotherPacket() returns (more: bool)
      requires start.Length % 4 == 0 && read % 4 == 0
      ensures more <==> Another(start[..], read)
    {
      assert read % 4 == 0;
      if read >= start.Length {
        return false;
      }
      var lo, hi: int := start[read], start[read + 1];
      more := lo + 256 * hi != 0;
    }

    /** The branch on the record's type: what is copied, how far the pointer moves, and who gets it. */
    method Measure() returns (aggrLen: nat, adjust: nat, handler: Handler)
      requires read + 3 <= start.Length
      ensures aggrLen == CopyLen(start[..], read) && adjust == Advance(start[..], read)
      ensures Dispatch(handler, Copied(start[..], read)) == DispatchAt(start[..], read)
    {
      hide HandlerOf, Copied, Round16;
      assert start[..][read] == start[read] && start[..][read + 1] == start[read + 1];
      var lo, hi: int := start[read], start[read + 1];
      var pktLen := lo + 256 * hi;
      if start[read + 2] / 16 % 2 != 1 {
        aggrLen := (pktLen + HARDWARE_HEADER) % 0x1_0000;
        adjust := Round16(aggrLen);
        handler := DataIndication;
      } else {
        aggrLen := pktLen + 4;
        adjust := Round16(pktLen) + 4;
        handler := HandlerOf(start[read + 2]);
      }
    }

    method Process() returns (outcome: Outcome)
      requires start.Length % 4 == 0 && read == 0 && done == []
      modifies this`read, this`done
      ensures outcome == Walk(start[..], 0)
      ensures outcome.done == done && read % 4 == 0
    {
      hide Walk, Advance, CopyLen, DispatchAt;
      ghost var b := start[..];
      WalkFrom(b, 0, []);
      var more := AnotherPacket();
      while more
        invariant read % 4 == 0 && (more <==> Another(b, read))
        invariant Walk(b, 0) == Prepend(done, Walk(b, read))
        decreases start.Length - read
      {
        WalkFrom(b, read, done);
        var aggrLen, adjust, handler := Measure();
        if adjust == 0 {
          return Spins(done, read);
        }
        var copied := if read + aggrLen <= start.Length then start[read..read + aggrLen] else start[read..];
        assert copied == Copied(b, read);
        done := done + [Dispatch(handler, copied)];
        read := read + adjust;
        more := AnotherPacket();
      }
      WalkFrom(b, read, done);
      return Finished(done);
    }
  }

  ghost function Prepend(ds: seq<Dispatch>, o: Outcome): Outcome {
    match o
    case Finished(es) => Finished(ds + es)
    case Spins(es, p) => Spins(ds + es, p)
  }

  /** One turn of the loop in terms of the recursive walk. */
  lemma WalkFrom(b: seq<byte>, at: nat, ds: seq<Dispatch>)
    requires |b| % 4 == 0 && at % 4 == 0
    ensures Prepend([], Walk(b, at)) == Walk(b, at)
    ensures !Another(b, at) ==> Prepend(ds, Walk(b, at)) == Finished(ds)
    ensures Another(b, at) && Advance(b, at) == 0 ==> Prepend(ds, Walk(b, at)) == Spins(ds, at)
    ensures Another(b, at) && Advance(b, at) > 0 ==>
              Advance(b, at) % 4 == 0 &&
              Prepend(ds, Walk(b, at)) == Prepend(ds + [DispatchAt(b, at)], Walk(b, at + Advance(b, at)))
  {
    hide Advance, DispatchAt;
    match Walk(b, at)
    case Finished(es) =>
      assert ds + [] == ds && [] + es == es;
      if Another(b, at) {
        var fs := Walk(b, at + Advance(b, at)).done;
        assert ds + ([DispatchAt(b, at)] + fs) == ds + [DispatchAt(b, at)] + fs;
      }
    case Spins(es, p) =>
      assert ds + [] == ds && [] + es == es;
      if Another(b, at) && Advance(b, at) > 0 {
        var fs := Walk(b, at + Advance(b, at)).done;
        assert ds + ([DispatchAt(b, at)] + fs) == ds + [DispatchAt(b, at)] + fs;
      }
  }
}
