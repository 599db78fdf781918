/** Bluetooth HCI frames put together from transport fragments (`aic_btsdio.c`). */
module HciReassembly {
  import opened Machine

  const ENOMEM: int := -12
  const EILSEQ: int := -84
  const SLOTS: nat := 4

  /** The packet types that are reassembled: 2 is ACL data, 3 is SCO data, 4 is an event. */
  type Kind = k: int | 2 <= k <= 4 witness 2

  function HeaderLen(k: Kind): nat {
    match k
    case 2 => 4
    case 3 => 3
    case _ => 2
  }

  /** The receive buffer allocated for one frame. */
  function BufferLen(k: Kind): nat {
    match k
    case 2 => 1028
    case 3 => 255
    case _ => 260
  }

  function PayloadLen(k: Kind, s: seq<byte>): nat
    requires |s| >= HeaderLen(k)
  {
    match k
    case 2 => var lo: int := s[2]; var hi: int := s[3]; lo + 256 * hi
    case 3 => s[2]
    case _ => s[1]
  }

  // ----- a decoder of the whole byte stream of one packet type -----

  /** How long the first frame of s is, as far as s shows. */
  function FrameLen(k: Kind, s: seq<byte>): (n: nat)
    ensures n >= HeaderLen(k) >= 2
  {
    if |s| < HeaderLen(k) then HeaderLen(k) else HeaderLen(k) + PayloadLen(k, s)
  }

  datatype Decoded = Decoded(frames: seq<seq<byte>>, tail: seq<byte>)

  function Decode(k: Kind, s: seq<byte>): Decoded {
    var n := FrameLen(k, s);
    if |s| < n then Decoded([], s)
    else var d := Decode(k, s[n..]); Decoded([s[..n]] + d.frames, d.tail)
  }

  /** Every frame of the stream whose header is complete fits its receive buffer. */
  predicate Fits(k: Kind, s: seq<byte>) {
    var n := FrameLen(k, s);
    n <= BufferLen(k) && (|s| < n || Fits(k, s[n..]))
  }

  // ----- what one fragment does -----

  /** Like Decode, but a frame too large for its buffer discards the rest of what was given. */
  datatype Parsed = Parsed(frames: seq<seq<byte>>, tail: seq<byte>, ok: bool)

  function Parse(k: Kind, s: seq<byte>): Parsed {
    var n := FrameLen(k, s);
    if n > BufferLen(k) then Parsed([], [], false)
    else if |s| < n then Parsed([], s, true)
    else Prepend([s[..n]], Parse(k, s[n..]))
  }

  function Prepend(fs: seq<seq<byte>>, p: Parsed): Parsed {
    p.(frames := fs + p.frames)
  }

  datatype Frame = Frame(kind: Kind, bytes: seq<byte>)

  function Tagged(k: Kind, fs: seq<seq<byte>>): seq<Frame> {
    seq(|fs|, i requires 0 <= i < |fs| => Frame(k, fs[i]))
  }

  /** The frames handed up so far, and the unfinished frame of each packet type. */
  datatype Host = Host(log: seq<Frame>, parts: seq<seq<byte>>)

  function Receive(h: Host, k: Kind, d: seq<byte>): (g: Host)
    requires |h.parts| == SLOTS
    ensures |g.parts| == SLOTS
  {
    var p := Parse(k, h.parts[k - 1] + d);
    Host(h.log + Tagged(k, p.frames), h.parts[k - 1 := p.tail])
  }

  // ----- fragments and the whole stream -----

  lemma {:induction false} FitsIsParse(k: Kind, s: seq<byte>)
    ensures Parse(k, s).ok == Fits(k, s)
    ensures Fits(k, s) ==> Parse(k, s).frames == Decode(k, s).frames && Parse(k, s).tail == Decode(k, s).tail
  {
    hide BufferLen, PayloadLen;
    var n := FrameLen(k, s);
    if n <= BufferLen(k) && n <= |s| {
      FitsIsParse(k, s[n..]);
    }
  }

  /** What is kept between fragments is an unfinished frame. */
  lemma {:induction false} TailIsUnfinished(k: Kind, s: seq<byte>)
    ensures var t := Parse(k, s).tail; Parse(k, t) == Parsed([], t, true)
  {
    hide PayloadLen;
    var n := FrameLen(k, s);
    if n <= BufferLen(k) && n <= |s| {
      TailIsUnfinished(k, s[n..]);
    }
  }

  lemma ParseFirst(k: Kind, a: seq<byte>, b: seq<byte>)
    requires |a| == FrameLen(k, a) <= BufferLen(k)
    ensures Parse(k, a + b) == Prepend([a], Parse(k, b))
  {
    hide BufferLen;
    var s := a + b;
    assert FrameLen(k, s) == |a| && s[..|a|] == a && s[|a|..] == b;
  }

  lemma FirstFrame(k: Kind, s: seq<byte>)
    requires FrameLen(k, s) <= |s|
    ensures FrameLen(k, s[..FrameLen(k, s)]) == FrameLen(k, s)
  {
  }

  /** Parsing may stop anywhere and go on later from the bytes it kept. */
  lemma {:induction false} ParseResumes(k: Kind, s: seq<byte>, t: seq<byte>)
    requires Parse(k, s).ok
    ensures Parse(k, s + t) == Prepend(Parse(k, s).frames, Parse(k, Parse(k, s).tail + t))
    decreases |s|, 0
  {
    var n := FrameLen(k, s);
    if n <= |s| {
      var a, b := s[..n], s[n..];
      FirstFrame(k, s);
      ResumesStep(k, a, b, t);
      assert s == a + b;
    }
  }

  lemma {:induction false} ResumesStep(k: Kind, a: seq<byte>, b: seq<byte>, t: seq<byte>)
    requires |a| == FrameLen(k, a) <= BufferLen(k) && Parse(k, b).ok
    ensures Parse(k, a + b + t) == Prepend(Parse(k, a + b).frames, Parse(k, Parse(k, a + b).tail + t))
    decreases |b|, 1
  {
    hide FrameLen, BufferLen, Parse;
    ParseFirst(k, a, b);
    ParseFirst(k, a, b + t);
    ParseResumes(k, b, t);
    assert a + b + t == a + (b + t);
    var fs := Parse(k, b).frames;
    var gs := Parse(k, Parse(k, b).tail + t).frames;
    assert [a] + fs + gs == [a] + (fs + gs);
  }

  lemma {:induction false} PrefixFits(k: Kind, s: seq<byte>, t: seq<byte>)
    requires Fits(k, s + t)
    ensures Fits(k, s)
  {
    hide BufferLen;
    var n := FrameLen(k, s);
    if |s| >= HeaderLen(k) {
      assert FrameLen(k, s + t) == n;
      if n <= |s| {
        assert (s + t)[n..] == s[n..] + t;
        PrefixFits(k, s[n..], t);
      }
    } else {
      SmallestFrame(k);
      assert FrameLen(k, s) == FrameLen(k, []);
    }
  }

  function Size(fs: seq<seq<byte>>): nat {
    if fs == [] then 0 else |fs[0]| + Size(fs[1..])
  }

  lemma {:induction false} SizeAppend(fs: seq<seq<byte>>, gs: seq<seq<byte>>)
    ensures Size(fs + gs) == Size(fs) + Size(gs)
  {
    if fs == [] {
      assert fs + gs == gs;
    } else {
      assert (fs + gs)[1..] == fs[1..] + gs;
      SizeAppend(fs[1..], gs);
    }
  }

  /** The decoder neither drops nor invents bytes; the receive path drops some exactly when a frame does not fit. */
  lemma {:induction false} BytesKept(k: Kind, s: seq<byte>)
    ensures Size(Decode(k, s).frames) + |Decode(k, s).tail| == |s|
    ensures var p := Parse(k, s); if p.ok then Size(p.frames) + |p.tail| == |s| else Size(p.frames) + |p.tail| < |s|
  {
    var n := FrameLen(k, s);
    if n <= |s| {
      BytesKept(k, s[n..]);
      SizeAppend([s[..n]], Decode(k, s[n..]).frames);
      SizeAppend([s[..n]], Parse(k, s[n..]).frames);
    }
  }

  // ----- any interleaving of fragments of the three packet types -----

  datatype Chunk = Chunk(kind: Kind, bytes: seq<byte>)

  function Run(chunks: seq<Chunk>): (h: Host)
    ensures |h.parts| == SLOTS
  {
    if chunks == [] then Host([], [[], [], [], []])
    else Receive(Run(chunks[..|chunks| - 1]), chunks[|chunks| - 1].kind, chunks[|chunks| - 1].bytes)
  }

  /** The bytes of one packet type, joined. */
  function Stream(k: Kind, chunks: seq<Chunk>): seq<byte> {
    if chunks == [] then []
    else Stream(k, chunks[..|chunks| - 1]) + if chunks[|chunks| - 1].kind == k then chunks[|chunks| - 1].bytes else []
  }

  /** The frames of one packet type, in the order they were handed up. */
  function FramesOf(k: Kind, log: seq<Frame>): seq<seq<byte>> {
    if log == [] then [] else (if log[0].kind == k then [log[0].bytes] else []) + FramesOf(k, log[1..])
  }

  lemma {:induction false} FramesOfAppend(k: Kind, a: seq<Frame>, b: seq<Frame>)
    ensures FramesOf(k, a + b) == FramesOf(k, a) + FramesOf(k, b)
  {
    if a == [] {
      assert a + b == b;
    } else {
      assert (a + b)[0] == a[0] && (a + b)[1..] == a[1..] + b;
      FramesOfAppend(k, a[1..], b);
    }
  }

  lemma {:induction false} FramesOfTagged(k: Kind, j: Kind, fs: seq<seq<byte>>)
    ensures FramesOf(k, Tagged(j, fs)) == if j == k then fs else []
  {
    if fs != [] {
      assert Tagged(j, fs)[1..] == Tagged(j, fs[1..]);
      FramesOfTagged(k, j, fs[1..]);
    }
  }

  /** What one more fragment means for the frames of type k. */
  lemma ReceiveOf(h: Host, k: Kind, c: Chunk)
    requires |h.parts| == SLOTS
    ensures var g := Receive(h, c.kind, c.bytes);
      var p := Parse(k, h.parts[k - 1] + c.bytes);
      if c.kind == k then FramesOf(k, g.log) == FramesOf(k, h.log) + p.frames && g.parts[k - 1] == p.tail
      else FramesOf(k, g.log) == FramesOf(k, h.log) && g.parts[k - 1] == h.parts[k - 1]
  {
    hide Parse;
    var fs := Parse(c.kind, h.parts[c.kind - 1] + c.bytes).frames;
    FramesOfAppend(k, h.log, Tagged(c.kind, fs));
    FramesOfTagged(k, c.kind, fs);
  }

  lemma {:induction false} RunIsParse(k: Kind, chunks: seq<Chunk>)
    requires Parse(k, Stream(k, chunks)).ok
    ensures FramesOf(k, Run(chunks).log) == Parse(k, Stream(k, chunks)).frames
    ensures Run(chunks).parts[k - 1] == Parse(k, Stream(k, chunks)).tail
  {
    hide FrameLen, BufferLen, Receive;
    if chunks != [] {
      var pre, c := chunks[..|chunks| - 1], chunks[|chunks| - 1];
      var s := Stream(k, pre);
      ReceiveOf(Run(pre), k, c);
      if c.kind == k {
        FitsIsParse(k, s + c.bytes);
        PrefixFits(k, s, c.bytes);
        FitsIsParse(k, s);
        RunIsParse(k, pre);
        ParseResumes(k, s, c.bytes);
      } else {
        assert s + [] == s;
        RunIsParse(k, pre);
      }
    } else {
      SmallestFrame(k);
    }
  }

  lemma {:induction false} RunSize(k: Kind, chunks: seq<Chunk>)
    ensures Size(FramesOf(k, Run(chunks).log)) + |Run(chunks).parts[k - 1]| <= |Stream(k, chunks)|
    ensures !Fits(k, Stream(k, chunks)) ==>
      Size(FramesOf(k, Run(chunks).log)) + |Run(chunks).parts[k - 1]| < |Stream(k, chunks)|
  {
    hide FrameLen, BufferLen, Receive, Parse, Fits;
    if chunks == [] {
      FitsNothing(k);
    } else {
      var pre, c := chunks[..|chunks| - 1], chunks[|chunks| - 1];
      var s := Stream(k, pre);
      RunSize(k, pre);
      ReceiveOf(Run(pre), k, c);
      if c.kind == k {
        var part := Run(pre).parts[k - 1];
        BytesKept(k, part + c.bytes);
        SizeAppend(FramesOf(k, Run(pre).log), Parse(k, part + c.bytes).frames);
        FitsIsParse(k, s);
        FitsIsParse(k, s + c.bytes);
        if Fits(k, s) {
          RunIsParse(k, pre);
          ParseResumes(k, s, c.bytes);
        }
      } else {
        assert s + [] == s;
      }
    }
  }

  lemma FitsNothing(k: Kind)
    ensures Fits(k, [])
  {
    SmallestFrame(k);
  }

  /**
   * However the byte stream of each type is cut, and however the types interleave, the frames handed up and
   * the bytes kept are those of the whole-stream decoder, exactly when every frame fits its buffer.
   */
  lemma CuttingDoesNotMatter(k: Kind, chunks: seq<Chunk>)
    ensures var h, d := Run(chunks), Decode(k, Stream(k, chunks));
      FramesOf(k, h.log) == d.frames && h.parts[k - 1] == d.tail <==> Fits(k, Stream(k, chunks))
  {
    hide *;
    var s := Stream(k, chunks);
    FitsIsParse(k, s);
    BytesKept(k, s);
    RunSize(k, chunks);
    if Fits(k, s) {
      RunIsParse(k, chunks);
    }
  }

  /** Event frames always fit; ACL frames fit up to 1024 payload bytes, SCO frames up to 252. */
  lemma {:induction false} EventsAlwaysFit(s: seq<byte>)
    ensures Fits(4, s)
  {
    var n := FrameLen(4, s);
    if n <= |s| {
      EventsAlwaysFit(s[n..]);
    }
  }

  /** A SCO header that announces 253 bytes is dropped, although the decoder would keep it. */
  lemma OversizedScoLost()
    ensures var chunks := [Chunk(3, [0, 0, 253])];
      !Fits(3, Stream(3, chunks)) && Run(chunks).parts[2] == [] && Decode(3, Stream(3, chunks)).tail == [0, 0, 253]
  {
    var chunks := [Chunk(3, [0, 0, 253])];
    assert chunks[..0] == [] && [] + chunks[0].bytes == [0, 0, 253];
    assert Stream(3, []) == [] && Run([]).parts[2] == [];
    assert Stream(3, chunks) == [0, 0, 253];
    assert FrameLen(3, [0, 0, 253]) == 256;
  }

  // ----- what the other side sends -----

  /** A packet as the controller means it: two bytes of handle and flags, or an event code, and a payload. */
  datatype Packet =
    | Acl(first: byte, second: byte, payload: seq<byte>)
    | Sco(first: byte, second: byte, payload: seq<byte>)
    | Event(code: byte, payload: seq<byte>)

  /** Of type k, and with no more payload than the receive path takes. */
  predicate Sendable(k: Kind, p: Packet) {
    match p
    case Acl(_, _, payload) => k == 2 && |payload| <= 1024
    case Sco(_, _, payload) => k == 3 && |payload| <= 252
    case Event(_, payload) => k == 4 && |payload| <= 255
  }

  /** The bytes on the wire; an ACL length has its low-order byte first. */
  function Printed(k: Kind, p: Packet): (s: seq<byte>)
    requires Sendable(k, p)
    ensures s != []
  {
    match p
    case Acl(first, second, payload) => [first, second, |payload| % 256, |payload| / 256] + payload
    case Sco(first, second, payload) => [first, second, |payload|] + payload
    case Event(code, payload) => [code, |payload|] + payload
  }

  function AllPrinted(k: Kind, ps: seq<Packet>): seq<seq<byte>>
    requires forall i :: 0 <= i < |ps| ==> Sendable(k, ps[i])
  {
    seq(|ps|, i requires 0 <= i < |ps| => Printed(k, ps[i]))
  }

  function Joined(fs: seq<seq<byte>>): seq<byte> {
    if fs == [] then [] else fs[0] + Joined(fs[1..])
  }

  lemma PrintedIsFrame(k: Kind, p: Packet, i: nat)
    requires Sendable(k, p) && i <= |Printed(k, p)|
    ensures FrameLen(k, Printed(k, p)) == |Printed(k, p)| <= BufferLen(k)
    ensures i < |Printed(k, p)| ==> i < FrameLen(k, Printed(k, p)[..i]) <= BufferLen(k)
  {
  }

  lemma {:induction false} ParsePrinted(k: Kind, ps: seq<Packet>, q: Packet, i: nat)
    requires forall j :: 0 <= j < |ps| ==> Sendable(k, ps[j])
    requires Sendable(k, q) && i < |Printed(k, q)|
    ensures Parse(k, Joined(AllPrinted(k, ps)) + Printed(k, q)[..i]) == Parsed(AllPrinted(k, ps), Printed(k, q)[..i], true)
    decreases |ps|
  {
    hide FrameLen, BufferLen, Printed, Sendable;
    var tail := Printed(k, q)[..i];
    if ps == [] {
      PrintedIsFrame(k, q, i);
      assert [] + tail == tail;
    } else {
      var a, fs := Printed(k, ps[0]), AllPrinted(k, ps[1..]);
      PrintedIsFrame(k, ps[0], 0);
      ParsePrinted(k, ps[1..], q, i);
      ParseFirst(k, a, Joined(fs) + tail);
      assert AllPrinted(k, ps) == [a] + fs;
      assert a + Joined(fs) + tail == a + (Joined(fs) + tail);
    }
  }

  /**
   * Whatever packets of a type are sent, however their bytes are cut into chunks, and however the types
   * interleave, exactly these packets are handed up, and the first bytes of one still on its way are kept.
   */
  lemma {:induction false} SentIsReceived(k: Kind, ps: seq<Packet>, q: Packet, i: nat, chunks: seq<Chunk>)
    requires forall j :: 0 <= j < |ps| ==> Sendable(k, ps[j])
    requires Sendable(k, q) && i < |Printed(k, q)|
    requires Stream(k, chunks) == Joined(AllPrinted(k, ps)) + Printed(k, q)[..i]
    ensures FramesOf(k, Run(chunks).log) == AllPrinted(k, ps)
    ensures Run(chunks).parts[k - 1] == Printed(k, q)[..i]
  {
    hide *;
    ParsePrinted(k, ps, q, i);
    RunIsParse(k, chunks);
  }

  /** One byte more than the limit, and the header is dropped together with what follows it in its chunk. */
  lemma LongerIsDropped(first: byte, second: byte, n: nat, rest: seq<byte>)
    ensures 1024 < n < 65536 ==>
      var h := Run([Chunk(2, [first, second, n % 256, n / 256] + rest)]); h.log == [] && h.parts[1] == []
    ensures 252 < n < 256 ==>
      var h := Run([Chunk(3, [first, second, n] + rest)]); h.log == [] && h.parts[2] == []
  {
    hide Parse;
    if 1024 < n < 65536 {
      var s: seq<byte> := [first, second, n % 256, n / 256] + rest;
      FirstChunk(2, s);
      assert FrameLen(2, s) == 4 + n;
      TooLong(2, s);
    }
    if 252 < n < 256 {
      var s: seq<byte> := [first, second, n] + rest;
      FirstChunk(3, s);
      assert FrameLen(3, s) == 3 + n;
      TooLong(3, s);
    }
  }

  lemma TooLong(k: Kind, s: seq<byte>)
    requires FrameLen(k, s) > BufferLen(k)
    ensures Parse(k, s) == Parsed([], [], false)
  {
  }

  lemma FirstChunk(k: Kind, s: seq<byte>)
    ensures Run([Chunk(k, s)]) == Host(Tagged(k, Parse(k, s).frames), [[], [], [], []][k - 1 := Parse(k, s).tail])
  {
    hide Parse;
    var chunks := [Chunk(k, s)];
    assert chunks[..0] == [] && [] + s == s;
    assert Run([]) == Host([], [[], [], [], []]);
  }

  datatype Skb = Skb(data: seq<byte>, missing: nat)

  predicate Unfinished(k: Kind, skb: Skb) {
    |skb.data| + skb.missing == FrameLen(k, skb.data) <= BufferLen(k) && skb.missing > 0
  }

  function Part(slot: Option<Skb>): seq<byte> {
    if slot.None? then [] else slot.value.data
  }

  function Parts(slots: seq<Option<Skb>>): (parts: seq<seq<byte>>)
    ensures |parts| == |slots|
  {
    seq(|slots|, i requires 0 <= i < |slots| => Part(slots[i]))
  }

  lemma PartsUpdate(slots: seq<Option<Skb>>, i: nat, x: Option<Skb>)
    requires i < |slots|
    ensures Parts(slots[i := x]) == Parts(slots)[i := Part(x)]
  {
  }

  /** What one call does with data d: at most one frame leaves, and `remain` bytes of d are left over. */
  ghost predicate OneFrame(h: Host, k: Kind, d: seq<byte>, g: Host, remain: int)
    requires |h.parts| == SLOTS
  {
    var s := h.parts[k - 1] + d;
    var n := FrameLen(k, s);
    if n > BufferLen(k) then remain == ENOMEM && g == Host(h.log, h.parts[k - 1 := []])
    else if |s| < n then remain == 0 && g == Host(h.log, h.parts[k - 1 := s])
    else
      && remain == |s| - n && (d != [] ==> remain < |d|)
      && g == Host(h.log + [Frame(k, s[..n])], h.parts[k - 1 := []])
  }

  /** Handing data to the receive path one frame at a time comes to the same as handing it over at once. */
  lemma OneFrameThenRest(h: Host, k: Kind, d: seq<byte>, g: Host, remain: int)
    requires |h.parts| == SLOTS && |h.parts[k - 1]| < FrameLen(k, h.parts[k - 1])
    requires OneFrame(h, k, d, g, remain)
    ensures remain <= |d|
    ensures remain < 0 ==> remain == ENOMEM && Receive(h, k, d) == g && !Parse(k, h.parts[k - 1] + d).ok
    ensures remain >= 0 ==>
      var rest := d[|d| - remain..];
      Receive(h, k, d) == Receive(g, k, rest) && Parse(k, h.parts[k - 1] + d).ok == Parse(k, g.parts[k - 1] + rest).ok
  {
    hide BufferLen, PayloadLen;
    var s := h.parts[k - 1] + d;
    var n := FrameLen(k, s);
    if n <= BufferLen(k) {
      if n <= |s| {
        CompleteThenRest(h, k, d, g, remain);
      } else {
        assert d[|d|..] == [];
        ReceiveNothing(g, k);
      }
    }
  }

  lemma OneFrameProgress(h: Host, k: Kind, d: seq<byte>, g: Host, remain: int)
    requires |h.parts| == SLOTS && OneFrame(h, k, d, g, remain) && d != []
    ensures remain < |d|
  {
  }

  lemma CompleteThenRest(h: Host, k: Kind, d: seq<byte>, g: Host, remain: int)
    requires |h.parts| == SLOTS && |h.parts[k - 1]| < FrameLen(k, h.parts[k - 1])
    requires FrameLen(k, h.parts[k - 1] + d) <= BufferLen(k) && FrameLen(k, h.parts[k - 1] + d) <= |h.parts[k - 1] + d|
    requires OneFrame(h, k, d, g, remain)
    ensures 0 <= remain <= |d|
    ensures var rest := d[|d| - remain..];
      Receive(h, k, d) == Receive(g, k, rest) && Parse(k, h.parts[k - 1] + d).ok == Parse(k, g.parts[k - 1] + rest).ok
  {
    hide BufferLen, FrameLen, Receive, Parse;
    var s := h.parts[k - 1] + d;
    var n := FrameLen(k, s);
    CutInNewData(k, h.parts[k - 1], d);
    FirstFrame(k, s);
    var a, rest := s[..n], s[n..];
    assert s == a + rest && [] + rest == rest;
    ReceiveFirst(h, k, a, rest, d);
  }

  lemma CutInNewData(k: Kind, part: seq<byte>, d: seq<byte>)
    requires |part| < FrameLen(k, part) && FrameLen(k, part + d) <= |part| + |d|
    ensures |part| < FrameLen(k, part + d)
    ensures (part + d)[FrameLen(k, part + d)..] == d[FrameLen(k, part + d) - |part|..]
  {
  }

  lemma ReceiveFirst(h: Host, k: Kind, a: seq<byte>, rest: seq<byte>, d: seq<byte>)
    requires |h.parts| == SLOTS && h.parts[k - 1] + d == a + rest
    requires |a| == FrameLen(k, a) <= BufferLen(k)
    ensures Receive(h, k, d) == Receive(Host(h.log + [Frame(k, a)], h.parts[k - 1 := []]), k, rest)
    ensures Parse(k, a + rest).ok == Parse(k, rest).ok
  {
    hide FrameLen, BufferLen, Parse;
    ParseFirst(k, a, rest);
    assert [] + rest == rest;
    var fs := Parse(k, rest).frames;
    assert Tagged(k, [a] + fs) == [Frame(k, a)] + Tagged(k, fs);
  }

  lemma ReceiveNothing(h: Host, k: Kind)
    requires |h.parts| == SLOTS && |h.parts[k - 1]| < FrameLen(k, h.parts[k - 1]) <= BufferLen(k)
    ensures Receive(h, k, []) == h && Parse(k, h.parts[k - 1] + []).ok
  {
    assert h.parts[k - 1] + [] == h.parts[k - 1];
  }

  class HciDev {
    const reassembly: array<Option<Skb>>
    var received: seq<Frame>

    /** A stored frame is unfinished, knows how much is still missing, and has room for it. */
    ghost predicate Valid()
      reads this, reassembly
    {
      && reassembly.Length == SLOTS
      && forall i :: 0 <= i < SLOTS && reassembly[i].Some? ==> i > 0 && Unfinished(i + 1, reassembly[i].value)
    }

    ghost function Abs(): (h: Host)
      requires reassembly.Length == SLOTS
      reads this, reassembly
      ensures |h.parts| == SLOTS
    {
      Host(received, Parts(reassembly[..]))
    }

    lemma PartUnfinished(k: Kind)
      requires Valid()
      ensures var part := Abs().parts[k - 1]; |part| < FrameLen(k, part) <= BufferLen(k)
    {
      SmallestFrame(k);
    }

    constructor ()
      ensures Valid() && Abs() == Host([], [[], [], [], []])
    {
      reassembly := new Option<Skb>[SLOTS](_ => None);
      received := [];
    }

    /** `hci_reassembly` with `index` = `kind` - 1, as its caller passes it: at most one frame leaves. */
    method Reassemble(kind: int, data: seq<byte>) returns (remain: int)
      requires Valid()
      modifies this, reassembly
      ensures Valid()
      ensures !(2 <= kind <= 4) ==> remain == EILSEQ && Abs() == old(Abs())
      ensures 2 <= kind <= 4 ==> OneFrame(old(Abs()), kind, data, Abs(), remain)
    {
      if kind < 2 || kind > 4 {
        return EILSEQ;
      }
      if reassembly[kind - 1].None? {
        SmallestFrame(kind);
        reassembly[kind - 1] := Some(Skb([], HeaderLen(kind)));
      }
      hide FrameLen, BufferLen, HeaderLen, Parts;
      ghost var slots := old(reassembly[..]);
      var skb, rest, status := Fill(kind, reassembly[kind - 1].value, data);
      reassembly[kind - 1] := if status.Short? then Some(skb) else None;
      PartsUpdate(slots, kind - 1, reassembly[kind - 1]);
      assert reassembly[..] == slots[kind - 1 := reassembly[kind - 1]];
      if status.TooBig? {
        return ENOMEM;
      }
      if status.Complete? {
        received := received + [Frame(kind, skb.data)];
      }
      return rest;
    }

    /** `hci_recv_fragment`: every round consumes at least one byte, so the loop ends. */
    method RecvFragment(kind: int, data: seq<byte>) returns (rem: int)
      requires Valid()
      modifies this, reassembly
      ensures Valid()
      ensures !(2 <= kind <= 4) ==> rem == -84 && Abs() == old(Abs())
      ensures 2 <= kind <= 4 ==>
        && Abs() == Receive(old(Abs()), kind, data)
        && rem == if Parse(kind, old(Abs()).parts[kind - 1] + data).ok then 0 else -12
    {
      if kind < 2 || kind > 4 {
        return EILSEQ;
      }
      hide FrameLen, BufferLen, Parse, Receive, HeaderLen, Parts, Abs, OneFrame;
      rem := 0;
      var rest := data;
      while |rest| > 0
        invariant Valid() && (rem == 0 || rem == |rest|)
        invariant Receive(Abs(), kind, rest) == Receive(old(Abs()), kind, data)
        invariant Parse(kind, Abs().parts[kind - 1] + rest).ok == Parse(kind, old(Abs()).parts[kind - 1] + data).ok
      {
        PartUnfinished(kind);
        ghost var before := Abs();
        rem := Reassemble(kind, rest);
        OneFrameThenRest(before, kind, rest, Abs(), rem);
        OneFrameProgress(before, kind, rest, Abs(), rem);
        if rem < 0 {
          return;
        }
        rest := rest[|rest| - rem..];
      }
      assert rest == [];
      PartUnfinished(kind);
      ReceiveNothing(Abs(), kind);
    }
  }

  datatype Status = Short | Complete | TooBig

  /** The copying loop of `hci_reassembly`: fill the header, learn the length, fill the payload. */
  method Fill(k: Kind, start: Skb, data: seq<byte>) returns (skb: Skb, count: nat, status: Status)
    requires Unfinished(k, start)
    ensures
      var s := start.data + data;
      var n := FrameLen(k, s);
      if n > BufferLen(k) then status.TooBig?
      else if |s| < n then status.Short? && count == 0 && skb == Skb(s, n - |s|)
      else status.Complete? && count == |s| - n && skb.data == s[..n] && count < |data|
  {
    hide FrameLen, BufferLen, HeaderLen, PayloadLen;
    skb, count := start, |data|;
    ghost var s := start.data + data;
    while count > 0
      invariant 0 <= count <= |data| && s == skb.data + data[|data| - count..]
      invariant Unfinished(k, skb)
    {
      var len := if skb.missing < count then skb.missing else count;
      var from := |data| - count;
      AppendPart(skb.data, data, from, len);
      FrameLenStep(k, skb.data, data[from..from + len], data[from + len..]);
      skb := Skb(skb.data + data[from..from + len], skb.missing - len);
      count := count - len;
      if |skb.data| == HeaderLen(k) {
        skb := skb.(missing := PayloadLen(k, skb.data));
        if BufferLen(k) - |skb.data| < skb.missing {
          status := TooBig;
          return;
        }
      }
      if skb.missing == 0 {
        status := Complete;
        assert skb.data == s[..|skb.data|];
        return;
      }
    }
    assert s == skb.data + [] == skb.data;
    status := Short;
  }

  lemma AppendPart(x: seq<byte>, d: seq<byte>, i: nat, n: nat)
    requires i + n <= |d|
    ensures x + d[i..] == (x + d[i..i + n]) + d[i + n..]
  {
    assert d[i..] == d[i..i + n] + d[i + n..];
  }

  lemma SmallestFrame(k: Kind)
    ensures FrameLen(k, []) == HeaderLen(k) <= BufferLen(k)
  {
  }

  /** A frame's length is settled by the byte that completes its header, and by no later one. */
  lemma FrameLenStep(k: Kind, x: seq<byte>, y: seq<byte>, z: seq<byte>)
    requires y != [] && |x| + |y| <= FrameLen(k, x)
    ensures FrameLen(k, x + y) == if |x + y| == HeaderLen(k) then |x + y| + PayloadLen(k, x + y) else FrameLen(k, x)
    ensures |x + y| >= HeaderLen(k) ==> FrameLen(k, x + y + z) == FrameLen(k, x + y)
  {
  }
}
