/** Packing frames into one transfer (`aicwf_sdio_aggr`, `aicwf_sdio_aggr_send`) and splitting it again. */
module TxAggregate {
  import opened Machine
  import Crc8

  const BLOCK: nat := 512               // TXPKT_BLOCKSIZE, SDIOWIFI_FUNC_BLOCKSIZE
  const CAPACITY: nat := 1536 * 64      // MAX_AGGR_TXPKT_LEN

  /** Old: 8801, 8800DC and 8800DW; D80: 8800D80 and 8800D80X2, whose headers carry a CRC. */
  datatype Chip = Old | D80

  // ----- the layout -----

  /** The bytes the length field covers: on the older chips they include the padding. */
  ghost function Covered(chip: Chip, frame: seq<byte>): seq<byte> {
    if chip.D80? then frame else frame + Zeros(RoundUp4(|frame|) - |frame|)
  }

  function HeaderCrc(b0: byte, b1: byte, b2: byte): byte {
    Crc8.Crc([b0 as bv8, b1 as bv8, b2 as bv8]) as int
  }

  ghost function Header(chip: Chip, frame: seq<byte>): (h: seq<byte>)
    ensures |h| == 4
  {
    var n := |Covered(chip, frame)|;
    var b0, b1 := n % 256, n / 256 % 16;
    [b0, b1, 1, if chip.D80? then HeaderCrc(b0, b1, 1) else 0]
  }

  ghost function Record(chip: Chip, frame: seq<byte>): (r: seq<byte>)
    ensures |r| == 4 + RoundUp4(|frame|)
  {
    Header(chip, frame) + frame + Zeros(RoundUp4(|frame|) - |frame|)
  }

  ghost function Encode(chip: Chip, frames: seq<seq<byte>>): (s: seq<byte>)
    ensures |s| % 4 == 0
  {
    if frames == [] then [] else Encode(chip, frames[..|frames| - 1]) + Record(chip, frames[|frames| - 1])
  }

  /** The 12-bit length in the first two header bytes. */
  function FieldOf(b0: int, b1: int): int {
    b0 + 256 * (b1 % 16)
  }

  /** What the chip does with a transfer: frame by frame until a zero length or the end. */
  function Split(chip: Chip, s: seq<byte>): seq<seq<byte>> {
    if |s| < 4 then []
    else
      var n := FieldOf(s[0], s[1]);
      if n == 0 || RoundUp4(4 + n) > |s| then []
      else if chip.D80? && s[3] != HeaderCrc(s[0], s[1], s[2]) then []
      else [s[4..4 + n]] + Split(chip, s[RoundUp4(4 + n)..])
  }

  /** The length field holds 12 bits and 0 ends the transfer. */
  ghost predicate FitsLength(chip: Chip, frame: seq<byte>) {
    0 < |Covered(chip, frame)| < 4096
  }

  ghost function AllCovered(chip: Chip, frames: seq<seq<byte>>): seq<seq<byte>> {
    seq(|frames|, k requires 0 <= k < |frames| => Covered(chip, frames[k]))
  }

  /**
   * A record byte by byte: the length of what it covers, low-order byte first, the type 1, a fourth byte, the
   * frame, and fewer than four zeros up to a multiple of 4. On the D80 chips the header checks to 0 under the
   * polynomial of `Crc8`; on the older ones the length includes the zeros.
   */
  lemma RecordBytes(chip: Chip, frame: seq<byte>)
    requires FitsLength(chip, frame)
    ensures
      var r, n := Record(chip, frame), |frame|;
      var low: int, high: int := r[0], r[1];
      && |r| % 4 == 0 && 4 + n <= |r| < 8 + n
      && r[4..4 + n] == frame && (forall i :: 4 + n <= i < |r| ==> r[i] == 0)
      && high < 16 && r[2] == 1
      && (chip.Old? ==> low + 256 * high == |r| - 4 && r[3] == 0)
      && (chip.D80? ==> low + 256 * high == n && Crc8.Crc([r[0] as bv8, r[1] as bv8, r[2] as bv8, r[3] as bv8]) == 0)
  {
    hide HeaderCrc;
    var r := Record(chip, frame);
    assert r[4..4 + |frame|] == frame;
    LengthBytes(|Covered(chip, frame)|);
    if chip.D80? {
      HeaderChecks(r[0], r[1], 1, r[3]);
    }
  }

  lemma LengthBytes(n: nat)
    requires n < 4096
    ensures n % 256 + 256 * (n / 256 % 16) == n
  {
  }

  /** Four header bytes check to 0 when the last one is the checksum of the first three. */
  lemma HeaderChecks(b0: byte, b1: byte, b2: byte, b3: byte)
    requires b3 == HeaderCrc(b0, b1, b2)
    ensures Crc8.Crc([b0 as bv8, b1 as bv8, b2 as bv8, b3 as bv8]) == 0
  {
    hide Crc8.Crc;
    var m := [b0 as bv8, b1 as bv8, b2 as bv8];
    assert m + [b3 as bv8] == [b0 as bv8, b1 as bv8, b2 as bv8, b3 as bv8];
    Crc8.ResidueZero(m, b3 as bv8);
    BackAndThere(Crc8.Crc(m));
  }

  lemma BackAndThere(c: bv8)
    ensures (c as int) as bv8 == c
  {
  }

  /** A D80 chip takes nothing from a header that does not check. */
  lemma BadHeaderRefused(s: seq<byte>)
    requires |s| >= 4 && Crc8.Crc([s[0] as bv8, s[1] as bv8, s[2] as bv8, s[3] as bv8]) != 0
    ensures Split(D80, s) == []
  {
    hide Split, HeaderCrc, FieldOf, Crc8.Crc;
    if s[3] == HeaderCrc(s[0], s[1], s[2]) {
      HeaderChecks(s[0], s[1], s[2], s[3]);
    }
    SplitOne(D80, s);
  }

  // ----- splitting gives back the frames exactly when every length fits -----

  lemma {:induction false} EncodeCons(chip: Chip, f: seq<byte>, rest: seq<seq<byte>>)
    ensures Encode(chip, [f] + rest) == Record(chip, f) + Encode(chip, rest)
    decreases |rest|
  {
    hide Record;
    if rest == [] {
      assert [f] + rest == [f];
      assert Encode(chip, [f][..0]) == [];
    } else {
      var n := |rest| - 1;
      assert ([f] + rest)[..|rest|] == [f] + rest[..n];
      EncodeCons(chip, f, rest[..n]);
    }
  }

  lemma LengthField(n: nat)
    ensures FieldOf(n % 256, n / 256 % 16) == n % 4096
  {
  }

  lemma RecordParts(chip: Chip, f: seq<byte>, tail: seq<byte>)
    ensures var s, c := Record(chip, f) + tail, Covered(chip, f);
            && s[0] == |c| % 256 && s[1] == |c| / 256 % 16 && s[2] == 1
            && s[3] == (if chip.D80? then HeaderCrc(s[0], s[1], 1) else 0)
            && |Record(chip, f)| == RoundUp4(4 + |c|) && s[RoundUp4(4 + |c|)..] == tail
            && s[4..4 + |c|] == c
  {
    hide HeaderCrc;
    var s, c := Record(chip, f) + tail, Covered(chip, f);
    assert s[4..4 + |c|] == c;
  }

  /** What the splitter makes of the first record of a transfer. */
  lemma SplitFirst(chip: Chip, f: seq<byte>, tail: seq<byte>)
    ensures var s := Split(chip, Record(chip, f) + tail);
            if FitsLength(chip, f) then s == [Covered(chip, f)] + Split(chip, tail)
            else s == [] || |s[0]| < |Covered(chip, f)|
  {
    hide HeaderCrc, Record, Covered, FieldOf, RoundUp4;
    RecordParts(chip, f, tail);
    LengthField(|Covered(chip, f)|);
    SplitOne(chip, Record(chip, f) + tail);
  }

  /** One unfolding of the splitter. */
  lemma SplitOne(chip: Chip, s: seq<byte>)
    requires |s| >= 4
    ensures var n := FieldOf(s[0], s[1]);
            Split(chip, s) ==
            if n == 0 || RoundUp4(4 + n) > |s| || (chip.D80? && s[3] != HeaderCrc(s[0], s[1], s[2])) then []
            else [s[4..4 + n]] + Split(chip, s[RoundUp4(4 + n)..])
  {
    hide HeaderCrc, FieldOf;
  }

  lemma SplitEnd(chip: Chip, rest: seq<byte>)
    requires rest == [] || (|rest| >= 4 && rest[..4] == Zeros(4))
    ensures Split(chip, rest) == []
  {
    if rest != [] {
      assert rest[0] == Zeros(4)[0] && rest[1] == Zeros(4)[1];
    }
  }

  /** Aggregate framing round trip: it works exactly when every covered length is 1 to 4095 bytes. */
  lemma {:induction false} FramingExact(chip: Chip, frames: seq<seq<byte>>, rest: seq<byte>)
    requires rest == [] || (|rest| >= 4 && rest[..4] == Zeros(4))
    ensures Split(chip, Encode(chip, frames) + rest) == AllCovered(chip, frames) <==>
            forall f :: f in frames ==> FitsLength(chip, f)
    decreases |frames|
  {
    hide Record, Split, FitsLength, Covered;
    if frames == [] {
      assert Encode(chip, frames) + rest == rest;
      SplitEnd(chip, rest);
    } else {
      var f, others := frames[0], frames[1..];
      assert frames == [f] + others;
      EncodeCons(chip, f, others);
      assert Encode(chip, frames) + rest == Record(chip, f) + (Encode(chip, others) + rest);
      SplitFirst(chip, f, Encode(chip, others) + rest);
      FramingExact(chip, others, rest);
      var c, all := Covered(chip, f), AllCovered(chip, others);
      assert AllCovered(chip, frames) == [c] + all;
      if FitsLength(chip, f) {
        var t := Split(chip, Encode(chip, others) + rest);
        assert [c] + t == [c] + all ==> t == ([c] + t)[1..] == ([c] + all)[1..] == all;
        assert forall g :: g in frames <==> g == f || g in others;
      }
    }
  }

  /** The limits in terms of the frame itself: the older chips lose three lengths to the padding. */
  lemma LengthLimit(chip: Chip, frame: seq<byte>)
    ensures FitsLength(chip, frame) <==> 0 < |frame| <= (if chip.D80? then 4095 else 4092)
  {
  }

  /** On the D80 chips the frames come back unchanged, each behind a header with the right CRC. */
  lemma {:induction false} D80RoundTrip(frames: seq<seq<byte>>, rest: seq<byte>)
    requires rest == [] || (|rest| >= 4 && rest[..4] == Zeros(4))
    ensures Split(D80, Encode(D80, frames) + rest) == frames <==>
            forall f :: f in frames ==> 0 < |f| < 4096
  {
    FramingExact(D80, frames, rest);
    assert AllCovered(D80, frames) == frames;
    hide Split, Encode;
    forall f
      ensures FitsLength(D80, f) <==> 0 < |f| < 4096
    {
      LengthLimit(D80, f);
    }
  }

  /** An older chip splits a frame of 4093 bytes wrongly: its padded length reads as 0. */
  lemma FirstLengthLost()
    ensures Split(Old, Encode(Old, [Zeros(4093)]) + []) != AllCovered(Old, [Zeros(4093)])
  {
    hide Split, Encode, AllCovered, FitsLength, Zeros;
    LengthLimit(Old, Zeros(4093));
    FramingExact(Old, [Zeros(4093)], []);
    assert Zeros(4093) in [Zeros(4093)];
  }

  // ----- how much a batch can take -----

  ghost predicate BatchOf(frames: seq<seq<byte>>, most: nat, longest: nat) {
    |frames| <= most && forall f :: f in frames ==> |f| <= longest
  }

  lemma {:induction false} EncodeAtMost(chip: Chip, frames: seq<seq<byte>>, unit: nat)
    requires forall f :: f in frames ==> 4 + RoundUp4(|f|) <= unit
    ensures |Encode(chip, frames)| <= |frames| * unit
    decreases |frames|
  {
    hide Record, RoundUp4;
    if frames != [] {
      var n := |frames| - 1;
      assert frames[n] in frames && forall f :: f in frames[..n] ==> f in frames;
      EncodeAtMost(chip, frames[..n], unit);
      OneMore(n, unit);
    }
  }

  lemma OneMore(n: nat, unit: nat)
    ensures (n + 1) * unit == n * unit + unit
  {
  }

  lemma RoundMonotone(a: nat, b: nat)
    requires a <= b
    ensures RoundUp4(a) <= RoundUp4(b)
  {
  }

  lemma {:induction false} EncodeEqual(chip: Chip, count: nat, frame: seq<byte>, unit: nat)
    requires unit == 4 + RoundUp4(|frame|)
    ensures |Encode(chip, seq(count, _ => frame))| == count * unit
    decreases count
  {
    hide Record, RoundUp4;
    if count > 0 {
      var n := count - 1;
      assert seq(count, _ => frame)[..n] == seq(n, _ => frame);
      EncodeEqual(chip, n, frame, unit);
      OneMore(n, unit);
    }
  }

  /** Every batch within the two limits fits the buffer exactly when the largest one does. */
  lemma {:induction false} CapacityExact(chip: Chip, most: nat, longest: nat)
    ensures (forall frames :: BatchOf(frames, most, longest) ==> |Encode(chip, frames)| <= CAPACITY)
       <==> most * (4 + RoundUp4(longest)) <= CAPACITY
  {
    hide Encode, RoundUp4, Zeros;
    var full := seq(most, _ => Zeros(longest));
    var unit := 4 + RoundUp4(longest);
    EncodeEqual(chip, most, Zeros(longest), unit);
    assert BatchOf(full, most, longest);
    if most * (4 + RoundUp4(longest)) <= CAPACITY {
      forall frames | BatchOf(frames, most, longest)
        ensures |Encode(chip, frames)| <= CAPACITY
      {
        forall f | f in frames
          ensures 4 + RoundUp4(|f|) <= unit
        {
          RoundMonotone(|f|, longest);
        }
        EncodeAtMost(chip, frames, unit);
        Times(|frames|, most, unit);
      }
    }
  }

  lemma Times(a: nat, b: nat, c: nat)
    requires a <= b
    ensures a * c <= b * c
  {
  }

  /** With the default batch limit of 32 that is a frame of 3068 bytes. */
  lemma DefaultLimit(longest: nat)
    ensures 32 * (4 + RoundUp4(longest)) <= CAPACITY <==> longest <= 3068
  {
  }

  // ----- the driver's buffer -----

  class TxBuffer {
    const chip: Chip
    const buf: array<byte>
    var tail: nat
    var aggrCount: nat
    ghost var frames: seq<seq<byte>>

    /** Up to tail the buffer is the encoding of the frames; what lies beyond is left from before. */
    ghost predicate Valid()
      reads this, buf
    {
      buf.Length == CAPACITY && tail <= CAPACITY && aggrCount == |frames| && buf[..tail] == Encode(chip, frames)
    }

    constructor (c: Chip)
      ensures Valid() && frames == [] && chip == c && fresh(buf) && buf.Length == 98304
    {
      chip := c;
      buf := new byte[CAPACITY];
      tail, aggrCount := 0, 0;
      frames := [];
    }

    method Put(bytes: seq<byte>)
      requires tail + |bytes| <= buf.Length
      modifies buf, this`tail
      ensures tail == old(tail) + |bytes| && buf[..tail] == old(buf[..tail]) + bytes
    {
      for k := 0 to |bytes|
        invariant tail == old(tail)
        invariant buf[..tail + k] == old(buf[..tail]) + bytes[..k]
      {
        buf[tail + k] := bytes[k];
        assert bytes[..k + 1] == bytes[..k] + [bytes[k]];
        assert buf[..tail + k + 1] == buf[..tail + k] + [bytes[k]];
      }
      assert bytes[..|bytes|] == bytes;
      tail := tail + |bytes|;
    }

    /** desc and body together are the frame; the caller keeps the buffer from overflowing. */
    method Aggregate(desc: seq<byte>, body: seq<byte>)
      requires Valid() && tail + 4 + RoundUp4(|desc + body|) <= CAPACITY
      modifies this, buf
      ensures Valid() && frames == old(frames) + [desc + body]
    {
      hide Encode, HeaderCrc, Record, Header;
      ghost var frame := desc + body;
      ghost var before := buf[..tail];
      var start := tail;
      var len := |body| + |desc|;
      var b0, b1 := len % 256, len / 256 % 16;
      var b3 := if chip.Old? then 0 else HeaderCrc(b0, b1, 1);
      ghost var padded := PutAligned([b0, b1, 1, b3], desc, body);
      RecordIs(chip, frame, padded);
      ghost var written := [b0, b1, 1, b3] + padded;
      assert written[2..] == [1, b3] + padded;
      if chip.Old? {
        assert buf[..tail][start + 2..] == written[2..];
        SetLength(start, tail - start - 4);
      } else {
        assert written == [b0, b1] + written[2..];
      }
      assert buf[..tail] == before + Record(chip, frame);
      EncodeNext(chip, frames, frame);
      frames := frames + [frame];
      aggrCount := aggrCount + 1;
    }

    /** Header, payload and the zero bytes that bring the data to a multiple of 4. */
    method PutAligned(header: seq<byte>, desc: seq<byte>, body: seq<byte>) returns (ghost padded: seq<byte>)
      requires tail % 4 == 0 && |header| == 4 && tail + 4 + RoundUp4(|desc + body|) <= buf.Length
      modifies buf, this`tail
      ensures padded == desc + body + Zeros(RoundUp4(|desc + body|) - |desc + body|)
      ensures tail == old(tail) + 4 + |padded| && buf[..tail] == old(buf[..tail]) + (header + padded)
    {
      AlignedAfter(tail, |desc + body|);
      Put(header);
      Put(desc);
      Put(body);
      if tail % 4 != 0 {
        var align := RoundUp4(tail) - tail;
        Put(seq(align, _ => 0));
      }
      padded := desc + body + Zeros(RoundUp4(|desc + body|) - |desc + body|);
      assert buf[..tail] == old(buf[..tail]) + (header + padded);
    }

    /** start_ptr[0] and start_ptr[1] of the older chips, written once the padding is known. */
    method SetLength(start: nat, n: nat)
      requires start + 2 <= tail <= buf.Length
      modifies buf
      ensures buf[..tail] == old(buf[..start]) + ([n % 256, n / 256 % 16] + old(buf[..tail])[start + 2..])
    {
      buf[start] := n % 256;
      buf[start + 1] := n / 256 % 16;
    }

    method Reset()
      requires buf.Length == CAPACITY
      modifies this
      ensures Valid() && frames == []
    {
      tail := 0;
      aggrCount := 0;
      frames := [];
    }

    /** Adds the zero tail unless the data fill their last block, and transfers whole blocks. */
    method AggrSend() returns (transfer: seq<byte>)
      requires Valid()
      modifies this, buf
      ensures Valid() && frames == []
      ensures |transfer| % 512 == 0 && |transfer| < |Encode(chip, old(frames))| + 512
      ensures Split(chip, transfer) == AllCovered(chip, old(frames)) <==>
              forall f :: f in old(frames) ==> FitsLength(chip, f)
    {
      hide Encode, Split, FitsLength;
      ghost var data := buf[..tail];
      RoomForTail(tail);
      if tail % BLOCK != 0 {
        Put([0, 0, 0, 0]);
      }
      var len := (tail + BLOCK - 1) / BLOCK * BLOCK;
      transfer := buf[..len];
      ghost var rest := transfer[|data|..];
      if tail != |data| {
        assert buf[..tail] == data + [0, 0, 0, 0];
        assert rest[..4] == buf[..tail][|data|..];
        assert rest[..4] == Zeros(4);
      }
      assert transfer == data + rest;
      FramingExact(chip, frames, rest);
      Reset();
    }
  }

  lemma RecordIs(chip: Chip, frame: seq<byte>, padded: seq<byte>)
    requires padded == frame + Zeros(RoundUp4(|frame|) - |frame|)
    ensures var n := if chip.D80? then |frame| else |padded|;
            Record(chip, frame) ==
            [n % 256, n / 256 % 16] + ([1, if chip.D80? then HeaderCrc(n % 256, n / 256 % 16, 1) else 0] + padded)
  {
    hide HeaderCrc;
  }

  lemma EncodeNext(chip: Chip, frames: seq<seq<byte>>, f: seq<byte>)
    ensures Encode(chip, frames + [f]) == Encode(chip, frames) + Record(chip, f)
  {
    assert (frames + [f])[..|frames|] == frames;
  }

  lemma AlignedAfter(before: nat, n: nat)
    requires before % 4 == 0
    ensures (before + 4 + n) % 4 == 0 <==> RoundUp4(n) == n
    ensures RoundUp4(before + 4 + n) == before + 4 + RoundUp4(n)
  {
  }

  /** Data are 4-aligned, so the tail never needs another block. */
  lemma RoomForTail(tail: nat)
    requires tail % 4 == 0
    ensures tail % BLOCK == 0 ==> (tail + BLOCK - 1) / BLOCK * BLOCK == tail
    ensures tail % BLOCK != 0 ==> (tail + 4 + BLOCK - 1) / BLOCK * BLOCK == tail - tail % BLOCK + BLOCK >= tail + 4
  {
  }
}
