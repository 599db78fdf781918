/**
 * The PPPoE relay tag (`aic_br_ext.c`): on the way out the bridge puts a magic number and the client's MAC
 * in front of the Relay-Session-Id tag, on the way back it takes them out and readdresses the frame
 * (section 4 and Appendix A of RFC 2516).
 */
module PppoeRelay {
  import opened Machine

  const RELAY_SID: nat := 0x0110
  const MAGIC: seq<byte> := [0x81, 0x86]
  const TAG_BUF: nat := 40
  const TAGS: nat := 20          // Ethernet header and PPPoE header

  // ----- tag lists -----

  datatype Tag = Tag(kind: nat, value: seq<byte>)

  predicate TagOk(t: Tag) {
    t.kind < 0x1_0000 && |t.value| < 0x1_0000
  }

  function Big16(n: nat): (s: seq<byte>)
    requires n < 0x1_0000
    ensures |s| == 2
  {
    [n / 256, n % 256]
  }

  /** A 16-bit number in network order. */
  function From16(hi: int, lo: int): int {
    hi * 256 + lo
  }

  function EncodeTag(t: Tag): (s: seq<byte>)
    requires TagOk(t)
    ensures |s| == 4 + |t.value|
  {
    Big16(t.kind) + Big16(|t.value|) + t.value
  }

  predicate TagsOk(tags: seq<Tag>) {
    forall t | t in tags :: TagOk(t)
  }

  function Encode(tags: seq<Tag>): seq<byte>
    requires TagsOk(tags)
  {
    if tags == [] then [] else EncodeTag(tags[0]) + Encode(tags[1..])
  }

  lemma {:induction false} EncodeAppend(a: seq<Tag>, b: seq<Tag>)
    requires TagsOk(a) && TagsOk(b)
    ensures TagsOk(a + b) && Encode(a + b) == Encode(a) + Encode(b)
  {
    hide EncodeTag, TagOk;
    if a == [] {
      assert a + b == b;
    } else {
      EncodeAppend(a[1..], b);
      assert (a + b)[1..] == a[1..] + b;
      assert (a + b)[0] == a[0];
      assert Encode(a + b) == EncodeTag(a[0]) + Encode(a[1..] + b);
    }
  }

  lemma EncodeSplit(tags: seq<Tag>, k: nat)
    requires TagsOk(tags) && k < |tags|
    ensures Encode(tags) == Encode(tags[..k]) + EncodeTag(tags[k]) + Encode(tags[k + 1..])
  {
    hide EncodeTag, TagOk;
    var rest := tags[k..];
    assert tags == tags[..k] + rest;
    EncodeAppend(tags[..k], rest);
    assert rest[0] == tags[k] && rest[1..] == tags[k + 1..];
  }

  /** The position of the first Relay-Session-Id tag, or the length of the list. */
  function FirstRelay(tags: seq<Tag>): (k: nat)
    ensures k <= |tags|
    ensures k < |tags| ==> tags[k].kind == RELAY_SID
    ensures forall j :: 0 <= j < k ==> tags[j].kind != RELAY_SID
  {
    if tags == [] || tags[0].kind == RELAY_SID then 0 else 1 + FirstRelay(tags[1..])
  }

  lemma FirstRelayUnique(tags: seq<Tag>, k: nat)
    requires k < |tags| && tags[k].kind == RELAY_SID && forall j :: 0 <= j < k ==> tags[j].kind != RELAY_SID
    ensures FirstRelay(tags) == k
  {
  }

  // ----- what the two directions do to a tag list -----

  function OldValue(tags: seq<Tag>): seq<byte> {
    var k := FirstRelay(tags);
    if k < |tags| then tags[k].value else []
  }

  function Others(tags: seq<Tag>): seq<Tag> {
    var k := FirstRelay(tags);
    if k < |tags| then Without(tags, k) else tags
  }

  /** Outwards: the relay tag, with magic and MAC before its old value, comes first. */
  function Inserted(tags: seq<Tag>, mac: seq<byte>): seq<Tag> {
    [Tag(RELAY_SID, MAGIC + mac + OldValue(tags))] + Others(tags)
  }

  predicate CanStrip(tags: seq<Tag>) {
    var k := FirstRelay(tags);
    k < |tags| && |tags[k].value| >= 8 && tags[k].value[..2] == MAGIC
  }

  /** Inwards: magic and MAC go out; a tag that held nothing else goes with them. */
  function Stripped(tags: seq<Tag>): seq<Tag>
    requires CanStrip(tags)
  {
    var k := FirstRelay(tags);
    if |tags[k].value| > 8 then tags[k := Tag(RELAY_SID, tags[k].value[8..])] else Without(tags, k)
  }

  function StrippedMac(tags: seq<Tag>): seq<byte>
    requires CanStrip(tags)
  {
    tags[FirstRelay(tags)].value[2..8]
  }

  /** The client's list, with its relay tag (if any) moved to the front. */
  function RelayFirst(tags: seq<Tag>): seq<Tag> {
    var k := FirstRelay(tags);
    if k < |tags| then [tags[k]] + Without(tags, k) else tags
  }

  /** Stripping a list whose first relay tag holds magic, MAC and an old value. */
  lemma StripFound(tags: seq<Tag>, k: nat, mac: seq<byte>, rest: seq<byte>)
    requires |mac| == 6 && k < |tags| && tags[k] == Tag(RELAY_SID, MAGIC + mac + rest)
    requires forall j :: 0 <= j < k ==> tags[j].kind != RELAY_SID
    ensures CanStrip(tags) && StrippedMac(tags) == mac
    ensures Stripped(tags) == if rest != [] then tags[k := Tag(RELAY_SID, rest)] else Without(tags, k)
  {
    FirstRelayUnique(tags, k);
    var v := tags[k].value;
    assert v[..2] == MAGIC && v[2..8] == mac && v[8..] == rest;
  }

  /** Round trip: the client's tags come back exactly unless its relay tag was there but empty. */
  lemma {:induction false} RoundTrip(tags: seq<Tag>, mac: seq<byte>)
    requires |mac| == 6
    ensures CanStrip(Inserted(tags, mac)) && StrippedMac(Inserted(tags, mac)) == mac
    ensures Stripped(Inserted(tags, mac)) == RelayFirst(tags) <==>
            !(FirstRelay(tags) < |tags| && tags[FirstRelay(tags)].value == [])
  {
    hide *;
    InsertedStrips(tags, mac);
    RelayFirstIs(tags);
  }

  lemma InsertedStrips(tags: seq<Tag>, mac: seq<byte>)
    requires |mac| == 6
    ensures CanStrip(Inserted(tags, mac)) && StrippedMac(Inserted(tags, mac)) == mac
    ensures Stripped(Inserted(tags, mac)) ==
            if OldValue(tags) != [] then [Tag(RELAY_SID, OldValue(tags))] + Others(tags) else Others(tags)
  {
    hide FirstRelay, CanStrip, Stripped, StrippedMac, OldValue, Others;
    var sent, rest := Inserted(tags, mac), OldValue(tags);
    StripFound(sent, 0, mac, rest);
    if rest != [] {
      assert sent[0 := Tag(RELAY_SID, rest)] == [Tag(RELAY_SID, rest)] + Others(tags);
    } else {
      assert Without(sent, 0) == Others(tags);
    }
  }

  lemma RelayFirstIs(tags: seq<Tag>)
    ensures OldValue(tags) != [] ==> RelayFirst(tags) == [Tag(RELAY_SID, OldValue(tags))] + Others(tags)
    ensures FirstRelay(tags) == |tags| ==> OldValue(tags) == [] && RelayFirst(tags) == Others(tags)
    ensures FirstRelay(tags) < |tags| ==> tags[FirstRelay(tags)].value == OldValue(tags)
    ensures FirstRelay(tags) < |tags| && OldValue(tags) == [] ==> RelayFirst(tags) != Others(tags)
  {
    var k := FirstRelay(tags);
    if k < |tags| {
      assert tags[k] == Tag(RELAY_SID, tags[k].value);
      assert |RelayFirst(tags)| == |Others(tags)| + 1;
    }
  }

  /** An access concentrator echoes the relay tag among tags of its own; stripping touches nothing else. */
  lemma EchoRestored(before: seq<Tag>, after: seq<Tag>, tags: seq<Tag>, mac: seq<byte>)
    requires |mac| == 6 && forall t :: t in before ==> t.kind != RELAY_SID
    ensures var echoed := before + [Inserted(tags, mac)[0]] + after;
            && CanStrip(echoed) && StrippedMac(echoed) == mac
            && Stripped(echoed) == before + (if OldValue(tags) == [] then [] else [Tag(RELAY_SID, OldValue(tags))]) + after
  {
    hide FirstRelay, CanStrip, Stripped, StrippedMac, OldValue, Others;
    var echoed := before + [Inserted(tags, mac)[0]] + after;
    var k, rest := |before|, OldValue(tags);
    StripFound(echoed, k, mac, rest);
    assert Without(echoed, k) == before + [] + after;
    assert echoed[k := Tag(RELAY_SID, rest)] == before + [Tag(RELAY_SID, rest)] + after;
  }

  // ----- the length the program reads from its own tag -----

  /**
   * `tag->tag_len + TAG_HDR_LEN`: the field is in network order and is read without conversion, so a
   * little-endian host sees its two bytes exchanged.
   */
  function HostLength(bigEndian: bool, n: nat): nat
    requires n < 0x1_0000
  {
    if bigEndian then n else n % 256 * 256 + n / 256
  }

  lemma HostLengthExact(bigEndian: bool, n: nat)
    requires n <= 28
    ensures HostLength(bigEndian, 8 + n) == 8 + n <==> bigEndian
    ensures HostLength(false, 8 + n) == 256 * (8 + n)
  {
  }

  /** The tag area after `__nat25_add_pppoe_tag` copied n bytes from the tag buffer in front of it. */
  function Prepended(area: seq<byte>, tagBuf: seq<byte>, n: nat): seq<byte>
    requires n <= |tagBuf|
  {
    tagBuf[..n] + area
  }

  /**
   * The insertion writes the list it is meant to write exactly on a big-endian host. On a little-endian
   * one it adds at least 2052 bytes, whatever lies behind the tag in memory.
   */
  lemma InsertExactOnBigEndian(bigEndian: bool, tags: seq<Tag>, mac: seq<byte>, tagBuf: seq<byte>)
    requires TagsOk(tags) && |mac| == 6 && |OldValue(tags)| <= 28
    requires TagsOk(Inserted(tags, mac)) && TagsOk(Others(tags))
    requires EncodeTag(Inserted(tags, mac)[0]) <= tagBuf
    requires 4 + HostLength(bigEndian, 8 + |OldValue(tags)|) <= |tagBuf|
    ensures (Prepended(Encode(Others(tags)), tagBuf, 4 + HostLength(bigEndian, 8 + |OldValue(tags)|))
             == Encode(Inserted(tags, mac))) <==> bigEndian
  {
    var t := Inserted(tags, mac)[0];
    HostLengthExact(bigEndian, |OldValue(tags)|);
    assert Inserted(tags, mac)[1..] == Others(tags);
    assert Encode(Inserted(tags, mac)) == EncodeTag(t) + Encode(Others(tags));
    if bigEndian {
      assert tagBuf[..|EncodeTag(t)|] == EncodeTag(t);
    }
  }

  /** A tag on the wire: type and length in network order, then the value. */
  lemma TagOnWire(kind: nat, value: seq<byte>)
    requires kind < 0x1_0000 && |value| < 0x1_0000
    ensures EncodeTag(Tag(kind, value)) == [kind / 256, kind % 256, |value| / 256, |value| % 256] + value
    ensures Encode([Tag(kind, value)]) == EncodeTag(Tag(kind, value))
  {
  }

  /** The tag the bridge inserts, byte by byte: type 0x0110, length, 0x8186, the client's MAC, and the old value. */
  lemma InsertedOnWire(tags: seq<Tag>, mac: seq<byte>)
    requires |mac| == 6 && |OldValue(tags)| <= 28
    ensures EncodeTag(Inserted(tags, mac)[0]) ==
      [0x01, 0x10, 0, 8 + |OldValue(tags)|, 0x81, 0x86] + mac + OldValue(tags)
  {
    hide OldValue, Others;
    var value := MAGIC + mac + OldValue(tags);
    TagOnWire(0x0110, value);
    assert EncodeTag(Tag(0x0110, value)) == [0x01, 0x10, 0, 8 + |OldValue(tags)|] + value;
  }

  /** The k-th tag is the first relay tag, and its value starts with the magic number. */
  predicate FirstAndMarked(tags: seq<Tag>, k: nat)
    requires k < |tags|
  {
    var v := tags[k].value;
    && tags[k].kind == 0x0110 && (forall j :: 0 <= j < k ==> tags[j].kind != 0x0110)
    && |v| >= 8 && v[0] == 0x81 && v[1] == 0x86
  }

  /** What may be stripped, in bytes: eight or more, 0x81 and 0x86 first, and the MAC is the next six. */
  lemma StrippableBytes(tags: seq<Tag>)
    ensures CanStrip(tags) <==>
      exists k :: 0 <= k < |tags| && FirstAndMarked(tags, k)
    ensures CanStrip(tags) ==> |StrippedMac(tags)| == 6 && forall i :: 0 <= i < 6 ==> StrippedMac(tags)[i] == tags[FirstRelay(tags)].value[2 + i]
  {
    var k := FirstRelay(tags);
    if CanStrip(tags) {
      var v := tags[k].value;
      assert v[0] == v[..2][0] == 0x81 && v[1] == v[..2][1] == 0x86;
      assert FirstAndMarked(tags, k);
    }
    forall j | 0 <= j < |tags| && FirstAndMarked(tags, j)
      ensures CanStrip(tags)
    {
      FirstRelayUnique(tags, j);
      assert tags[j].value[..2] == MAGIC;
    }
  }

  // ----- packets as byte sequences -----

  /** p with the bytes from `at` on replaced by b. */
  function Overwrite(p: seq<byte>, at: nat, b: seq<byte>): (r: seq<byte>)
    requires at + |b| <= |p|
    ensures |r| == |p| && r[..at] == p[..at] && r[at + |b|..] == p[at + |b|..]
  {
    p[..at] + b + p[at + |b|..]
  }

  lemma OverwriteBefore(p: seq<byte>, at: nat, b: seq<byte>, lo: nat, hi: nat)
    requires at + |b| <= |p| && lo <= hi <= at
    ensures Overwrite(p, at, b)[lo..hi] == p[lo..hi]
  {
  }

  lemma OverwriteBehind(p: seq<byte>, at: nat, b: seq<byte>, lo: nat, hi: nat)
    requires at + |b| <= lo <= hi <= |p|
    ensures Overwrite(p, at, b)[lo..hi] == p[lo..hi]
  {
  }

  lemma OverwriteInside(p: seq<byte>, at: nat, b: seq<byte>, n: nat)
    requires at + |b| <= |p| && n <= |b|
    ensures Overwrite(p, at, b)[at..at + n] == b[..n]
  {
  }

  lemma SliceJoin(p: seq<byte>, lo: nat, mid: nat, hi: nat)
    requires lo <= mid <= hi <= |p|
    ensures p[lo..hi] == p[lo..mid] + p[mid..hi]
  {
  }

  lemma OverwriteNext(p: seq<byte>, from: nat, to: nat, i: nat)
    requires to <= from && from + i < |p|
    ensures var q := Overwrite(p, to, p[from..from + i]);
            q[from + i] == p[from + i] && q[to + i := p[from + i]] == Overwrite(p, to, p[from..from + i + 1])
  {
    var q := Overwrite(p, to, p[from..from + i]);
    assert q[from + i] == q[to + i..][from - to] == p[to + i..][from - to];
  }

  /** ntohs(ph->length) */
  function LengthOf(p: seq<byte>): nat
    requires |p| >= TAGS
  {
    From16(p[18], p[19])
  }

  lemma LengthOnWire(p: seq<byte>)
    requires |p| >= 20
    ensures var hi: int, lo: int := p[18], p[19]; LengthOf(p) == 256 * hi + lo
  {
  }

  ghost function WithLength(p: seq<byte>, n: nat): (r: seq<byte>)
    requires |p| >= TAGS && n < 0x1_0000
    ensures |r| == |p|
  {
    Overwrite(p, 18, Big16(n))
  }

  lemma WithLengthIs(p: seq<byte>, n: nat, hi: nat)
    requires TAGS <= hi <= |p| && n < 0x1_0000
    ensures LengthOf(WithLength(p, n)) == n
    ensures WithLength(p, n)[..18] == p[..18] && WithLength(p, n)[TAGS..hi] == p[TAGS..hi]
  {
    OverwriteInside(p, 18, Big16(n), 2);
    OverwriteBehind(p, 18, Big16(n), TAGS, hi);
    var q := WithLength(p, n);
    assert q[18..20][0] == q[18] && q[18..20][1] == q[19];
  }

  /** The length field says |area| and the area behind the headers is this one. */
  ghost predicate AreaIs(p: seq<byte>, len: nat, area: seq<byte>) {
    TAGS <= len <= |p| && TAGS + |area| <= len && LengthOf(p) == |area| && p[TAGS..TAGS + |area|] == area
  }

  lemma AreaLength(p: seq<byte>, len: nat, area: seq<byte>)
    requires AreaIs(p, len, area)
    ensures LengthOf(p) == |area| && TAGS + |area| <= len <= |p|
  {
  }

  ghost predicate Holds(p: seq<byte>, len: nat, tags: seq<Tag>) {
    TagsOk(tags) && AreaIs(p, len, Encode(tags))
  }

  lemma TagInside(tags: seq<Tag>, k: nat)
    requires TagsOk(tags) && k < |tags|
    ensures var x, n := |Encode(tags[..k])|, 4 + |tags[k].value|;
            x + n <= |Encode(tags)| && Encode(tags)[x..x + n] == EncodeTag(tags[k])
  {
    EncodeSplit(tags, k);
    hide Encode, EncodeTag;
    Middle(Encode(tags[..k]), EncodeTag(tags[k]), Encode(tags[k + 1..]));
  }

  /** The four bytes at the start of the k-th tag say what it is and how long; its value follows. */
  lemma TagAt(p: seq<byte>, len: nat, tags: seq<Tag>, k: nat)
    requires Holds(p, len, tags) && k < |tags|
    ensures var at := TAGS + |Encode(tags[..k])|; var t := tags[k];
            && at + 4 + |t.value| <= len
            && From16(p[at], p[at + 1]) == t.kind && From16(p[at + 2], p[at + 3]) == |t.value|
            && p[at + 4..at + 4 + |t.value|] == t.value
  {
    var t, e, x, n := tags[k], Encode(tags), |Encode(tags[..k])|, 4 + |tags[k].value|;
    TagInside(tags, k);
    hide Encode, EncodeTag, From16, TagsOk, Big16;
    SliceSlice(p, TAGS, TAGS + |e|, x, x + n);
    var at := TAGS + x;
    var s := p[at..at + n];
    TagHeader(t, s);
    ValueIn(t, s);
    SliceSlice(p, at, at + n, 4, n);
    assert p[at] == s[0] && p[at + 1] == s[1] && p[at + 2] == s[2] && p[at + 3] == s[3];
  }

  /** The packet after skb_pull_and_merge and the correction of the length. */
  ghost function Cut(p: seq<byte>, len: nat, at: nat, n: nat): seq<byte>
    requires TAGS <= at && at + n <= len <= |p| && n <= LengthOf(p) < 0x1_0000
  {
    WithLength(Overwrite(p, at, p[at + n..len]), LengthOf(p) - n)
  }

  lemma CutArea(p: seq<byte>, len: nat, a: seq<byte>, x: seq<byte>, b: seq<byte>)
    requires AreaIs(p, len, a + x + b) && |a + x + b| < 0x1_0000
    ensures AreaIs(Cut(p, len, TAGS + |a|, |x|), len - |x|, a + b)
    ensures Cut(p, len, TAGS + |a|, |x|)[..18] == p[..18]
  {
    hide WithLength;
    var at, n, e := TAGS + |a|, |x|, |a + x + b|;
    var q := Overwrite(p, at, p[at + n..len]);
    Middle(a, x, b);
    SliceSlice(p, TAGS, TAGS + e, 0, |a|);
    SliceSlice(p, TAGS, TAGS + e, |a| + n, e);
    SliceSlice(p, at + n, len, 0, |b|);
    OverwriteBefore(p, at, p[at + n..len], TAGS, at);
    OverwriteInside(p, at, p[at + n..len], |b|);
    SliceJoin(q, TAGS, at, at + |b|);
    assert q[18] == p[18] && q[19] == p[19] && q[..18] == p[..18] by {
      assert q[..at] == p[..at];
      assert q[..at][..18] == q[..18] && p[..at][..18] == p[..18];
      assert q[..at][18] == q[18] && q[..at][19] == q[19];
    }
    WithLengthIs(q, |a + b|, TAGS + |a + b|);
  }

  /** The packet after `__nat25_add_pppoe_tag` moved the area up and copied b in front of it. */
  ghost function Pushed(p: seq<byte>, b: seq<byte>): seq<byte>
    requires |p| >= TAGS && TAGS + LengthOf(p) + |b| <= |p| < 0x1_0000
  {
    var l := LengthOf(p);
    Overwrite(WithLength(Overwrite(p, TAGS + |b|, p[TAGS..TAGS + l]), l + |b|), TAGS, b)
  }

  lemma PushedArea(p: seq<byte>, len: nat, area: seq<byte>, b: seq<byte>)
    requires AreaIs(p, len, area) && len + |b| <= |p| < 0x1_0000
    ensures AreaIs(Pushed(p, b), len + |b|, b + area) && Pushed(p, b)[..18] == p[..18]
  {
    hide WithLength;
    var l, n := |area|, |b|;
    var q := Overwrite(p, TAGS + n, area);
    OverwriteInside(p, TAGS + n, area, l);
    OverwriteBefore(p, TAGS + n, area, 0, 18);
    WithLengthIs(q, l + n, TAGS + n + l);
    var w := WithLength(q, l + n);
    SliceSlice(q, TAGS, TAGS + n + l, n, n + l);
    SliceSlice(w, TAGS, TAGS + n + l, n, n + l);
    var r := Overwrite(w, TAGS, b);
    OverwriteBehind(w, TAGS, b, TAGS + n, TAGS + n + l);
    OverwriteInside(w, TAGS, b, n);
    OverwriteBefore(w, TAGS, b, 0, TAGS);
    SliceJoin(r, TAGS, TAGS + n, TAGS + n + l);
    assert r[..TAGS] == w[..TAGS];
    assert r[..TAGS][..18] == r[..18] && w[..TAGS][..18] == w[..18];
    assert r[..TAGS][18] == r[18] && r[..TAGS][19] == r[19] && w[..TAGS][18] == w[18] && w[..TAGS][19] == w[19];
  }

  /** Overwriting two bytes inside the area. */
  lemma AreaOverwritten(p: seq<byte>, len: nat, area: seq<byte>, x: nat, two: seq<byte>)
    requires AreaIs(p, len, area) && x + |two| <= |area|
    ensures AreaIs(Overwrite(p, TAGS + x, two), len, area[..x] + two + area[x + |two|..])
    ensures Overwrite(p, TAGS + x, two)[..18] == p[..18]
  {
    var q, e := Overwrite(p, TAGS + x, two), |area|;
    OverwriteBefore(p, TAGS + x, two, 0, TAGS + x);
    assert q[..TAGS + x][..18] == q[..18] && p[..TAGS + x][..18] == p[..18];
    assert q[..TAGS + x][18] == q[18] && q[..TAGS + x][19] == q[19];
    OverwriteBefore(p, TAGS + x, two, TAGS, TAGS + x);
    OverwriteInside(p, TAGS + x, two, |two|);
    OverwriteBehind(p, TAGS + x, two, TAGS + x + |two|, TAGS + e);
    SliceSlice(p, TAGS, TAGS + e, 0, x);
    SliceSlice(p, TAGS, TAGS + e, x + |two|, e);
    SliceJoin(q, TAGS, TAGS + x, TAGS + x + |two|);
    SliceJoin(q, TAGS, TAGS + x + |two|, TAGS + e);
  }

  /** Overwriting the destination address. */
  lemma HeadOverwritten(p: seq<byte>, len: nat, area: seq<byte>, mac: seq<byte>)
    requires AreaIs(p, len, area) && |mac| == 6
    ensures var q := Overwrite(p, 0, mac);
            AreaIs(q, len, area) && q[..6] == mac && q[6..18] == p[6..18]
  {
    var q := Overwrite(p, 0, mac);
    OverwriteInside(p, 0, mac, 6);
    OverwriteBehind(p, 0, mac, 6, 18);
    OverwriteBehind(p, 0, mac, 18, TAGS);
    OverwriteBehind(p, 0, mac, TAGS, TAGS + |area|);
    assert q[18..20][0] == q[18] && q[18..20][1] == q[19];
  }

  lemma TagHeader(t: Tag, s: seq<byte>)
    requires TagOk(t) && s == EncodeTag(t)
    ensures From16(s[0], s[1]) == t.kind && From16(s[2], s[3]) == |t.value|
  {
  }

  lemma ValueIn(t: Tag, s: seq<byte>)
    requires TagOk(t) && s == EncodeTag(t)
    ensures s[4..] == t.value
  {
  }

  lemma EncodeEmpty(tags: seq<Tag>)
    requires TagsOk(tags)
    ensures Encode(tags) == [] <==> tags == []
  {
  }

  lemma FirstRelayNone(tags: seq<Tag>)
    ensures (forall j :: 0 <= j < |tags| ==> tags[j].kind != RELAY_SID) ==> FirstRelay(tags) == |tags|
  {
  }

  lemma EncodeNone(tags: seq<Tag>)
    requires TagsOk(tags)
    ensures Encode(tags[..0]) == []
  {
  }

  lemma EncodeAt(tags: seq<Tag>, k: nat)
    requires TagsOk(tags) && k <= |tags|
    ensures |Encode(tags)| == |Encode(tags[..k])| + |Encode(tags[k..])|
    ensures Encode(tags[k..]) == [] <==> k == |tags|
  {
    assert tags == tags[..k] + tags[k..];
    EncodeAppend(tags[..k], tags[k..]);
    EncodeEmpty(tags[k..]);
  }

  lemma NoRelay(tags: seq<Tag>, k: nat)
    requires k <= |tags| && TagsOk(tags) && |Encode(tags[..k])| >= |Encode(tags)|
    requires forall j :: 0 <= j < k ==> tags[j].kind != RELAY_SID
    ensures FirstRelay(tags) == |tags|
  {
    EncodeAt(tags, k);
    FirstRelayNone(tags);
  }

  /** Before the end of the area stands a whole tag, and what it says leads to the next one. */
  lemma FindStep(p: seq<byte>, len: nat, tags: seq<Tag>, k: nat)
    requires Holds(p, len, tags) && k <= |tags| && |Encode(tags[..k])| < |Encode(tags)|
    ensures k < |tags| && |Encode(tags[..k + 1])| == |Encode(tags[..k])| + 4 + |tags[k].value|
    ensures var at := TAGS + |Encode(tags[..k])|;
            && at + 4 <= len <= |p|
            && From16(p[at], p[at + 1]) == tags[k].kind && From16(p[at + 2], p[at + 3]) == |tags[k].value|
  {
    hide EncodeTag, From16;
    EncodeAt(tags, k);
    TagAt(p, len, tags, k);
    assert tags[..k + 1] == tags[..k] + [tags[k]];
    EncodeAppend(tags[..k], [tags[k]]);
    assert Encode([tags[k]]) == EncodeTag(tags[k]) + Encode([tags[k]][1..]);
  }

  lemma InsertedOk(tags: seq<Tag>, mac: seq<byte>)
    requires TagsOk(Others(tags)) && |OldValue(tags)| <= 28 && |mac| == 6
    ensures TagsOk(Inserted(tags, mac))
  {
  }

  lemma TagBufIs(t: Tag, tagBuf: seq<byte>, behind: seq<byte>)
    requires t.kind == RELAY_SID && |t.value| <= 36
    requires tagBuf == Big16(RELAY_SID) + Big16(|t.value|) + t.value + behind
    ensures TagOk(t) && EncodeTag(t) <= tagBuf && Field(tagBuf) == |t.value|
  {
  }

  /** Cutting 8 bytes behind the header of the k-th tag and correcting its length encodes the shorter tag. */
  lemma ShortenedEncoding(tags: seq<Tag>, k: nat)
    requires TagsOk(tags) && k < |tags| && |tags[k].value| > 8 && tags[k].kind == RELAY_SID
    ensures var t, short := tags[k], Tag(RELAY_SID, tags[k].value[8..]);
            var first, last := Encode(tags[..k]), Encode(tags[k + 1..]);
            var cut := first + EncodeTag(t)[..4] + (t.value[8..] + last);
            && Encode(tags) == first + EncodeTag(t)[..4] + t.value[..8] + (t.value[8..] + last)
            && TagsOk(tags[k := short])
            && Encode(tags[k := short]) == cut[..|first| + 2] + Big16(|t.value| - 8) + cut[|first| + 4..]
  {
    hide EncodeTag, Big16, Encode;
    var short := Tag(RELAY_SID, tags[k].value[8..]);
    assert TagOk(tags[k]) && TagOk(short);
    assert TagsOk(tags[k := short]);
    EncodeSplit(tags, k);
    EncodeSplit(tags[k := short], k);
    assert tags[k := short][..k] == tags[..k] && tags[k := short][k + 1..] == tags[k + 1..];
    ShortSeq(tags[k], Encode(tags[..k]), Encode(tags[k + 1..]));
  }

  lemma ShortSeq(t: Tag, first: seq<byte>, last: seq<byte>)
    requires TagOk(t) && |t.value| > 8 && t.kind == RELAY_SID
    ensures var short := Tag(RELAY_SID, t.value[8..]);
            var cut := first + EncodeTag(t)[..4] + (t.value[8..] + last);
            var p := |first| + 2;
            && TagOk(short)
            && first + EncodeTag(t) + last == first + EncodeTag(t)[..4] + t.value[..8] + (t.value[8..] + last)
            && cut[..p] + Big16(|t.value| - 8) + cut[p + 2..] == first + EncodeTag(short) + last
  {
    var short := Tag(RELAY_SID, t.value[8..]);
    var head, rest := EncodeTag(t)[..4], t.value[8..];
    hide Big16;
    assert t.value == t.value[..8] + rest;
    assert EncodeTag(t) == head + (t.value[..8] + rest);
    assert head == Big16(t.kind) + Big16(|t.value|);
    var cut := first + head + (rest + last);
    assert cut == (first + Big16(t.kind)) + Big16(|t.value|) + (rest + last);
    Middle(first + Big16(t.kind), Big16(|t.value|), rest + last);
    assert EncodeTag(short) == Big16(t.kind) + Big16(|t.value| - 8) + rest;
  }

  /** The length field of a tag, as it lies in memory. */
  function Field(tag: seq<byte>): (n: nat)
    requires |tag| >= 4
    ensures n < 0x1_0000
  {
    From16(tag[2], tag[3])
  }

  /** What taking the old relay tag out frees. */
  function Removed(tags: seq<Tag>): nat {
    var k := FirstRelay(tags);
    if k < |tags| then 4 + |tags[k].value| else 0
  }

  // ----- the packet buffer -----

  class Skb {
    const data: array<byte>   // from skb->data to the end of the buffer
    var len: nat

    constructor (d: array<byte>, n: nat)
      ensures data == d && len == n
    {
      data := d;
      len := n;
    }

    ghost predicate Valid()
      reads this, data
    {
      TAGS <= len <= data.Length < 0x1_0000
    }

    /** memcpy into the packet. */
    method CopyIn(to: nat, bytes: seq<byte>)
      requires to + |bytes| <= data.Length
      modifies data
      ensures data[..] == Overwrite(old(data[..]), to, bytes)
    {
      for i := 0 to |bytes|
        invariant data[..] == Overwrite(old(data[..]), to, bytes[..i])
      {
        data[to + i] := bytes[i];
      }
      assert bytes[..|bytes|] == bytes;
    }

    /** memmove to a lower address: from the first byte up. */
    method MoveDown(from: nat, to: nat, n: nat)
      requires to <= from && from + n <= data.Length
      modifies data
      ensures data[..] == Overwrite(old(data[..]), to, old(data[..])[from..from + n])
    {
      ghost var p := data[..];
      for i := 0 to n
        invariant data[..] == Overwrite(p, to, p[from..from + i])
      {
        OverwriteNext(p, from, to, i);
        hide Overwrite;
        ghost var q := data[..];
        data[to + i] := data[from + i];
        assert data[..] == q[to + i := q[from + i]];
      }
    }

    /** memmove to a higher address: from the last byte down. */
    method MoveUp(from: nat, to: nat, n: nat)
      requires from <= to && to + n <= data.Length
      modifies data
      ensures data[..] == Overwrite(old(data[..]), to, old(data[..])[from..from + n])
    {
      ghost var p := data[..];
      var i := n;
      while i > 0
        invariant 0 <= i <= n
        invariant forall j :: to + i <= j < to + n ==> data[j] == p[from + (j - to)]
        invariant forall j :: 0 <= j < to + i || to + n <= j < data.Length ==> data[j] == p[j]
      {
        i := i - 1;
        data[to + i] := data[from + i];
      }
    }

    method SetLength(n: nat)
      requires data.Length >= TAGS && n < 0x1_0000
      modifies data
      ensures data[..] == WithLength(old(data[..]), n)
    {
      data[18] := n / 256;
      data[19] := n % 256;
    }

    method GetLength() returns (n: nat)
      requires data.Length >= TAGS
      ensures n == LengthOf(data[..])
    {
      n := From16(data[18], data[19]);
    }

    /** The first Relay-Session-Id tag of the area. */
    method FindTag(ghost tags: seq<Tag>) returns (at: Option<nat>)
      requires Valid() && Holds(data[..], len, tags)
      ensures var k := FirstRelay(tags);
              at == if k < |tags| then Some(TAGS + |Encode(tags[..k])|) else None
    {
      var cur := TAGS;
      var length := GetLength();
      ghost var p, k := data[..], 0;
      hide Encode, From16, AreaIs, FirstRelay, LengthOf;
      AreaLength(p, len, Encode(tags));
      EncodeNone(tags);
      while cur - TAGS < length
        invariant k <= |tags| && forall j :: 0 <= j < k ==> tags[j].kind != RELAY_SID
        invariant cur == TAGS + |Encode(tags[..k])|
        decreases |tags| - k
      {
        FindStep(p, len, tags, k);
        var tagType := From16(data[cur], data[cur + 1]);
        var tagLen := From16(data[cur + 2], data[cur + 3]);
        if tagType == RELAY_SID {
          FirstRelayUnique(tags, k);
          return Some(cur);
        }
        cur := cur + 4 + tagLen;
        k := k + 1;
      }
      NoRelay(tags, k);
      return None;
    }

    /** skb_pull_and_merge: the bytes behind the cut move down and the packet gets shorter. */
    method PullAndMerge(src: nat, n: nat) returns (ok: bool)
      requires len <= data.Length
      modifies this, data
      ensures ok <==> src + n <= old(len)
      ensures !ok ==> len == old(len) && data[..] == old(data[..])
      ensures ok ==> len == old(len) - n && data[..] == Overwrite(old(data[..]), src, old(data[..])[src + n..old(len)])
    {
      if src + n > len || len < n {
        return false;
      }
      MoveDown(src + n, src, len - (src + n));
      len := len - n;
      return true;
    }

    /** `__nat25_add_pppoe_tag`; tagBuf is the memory from the tag structure on. */
    method AddTag(bigEndian: bool, tagBuf: seq<byte>, ghost area: seq<byte>) returns (ok: bool)
      requires Valid() && AreaIs(data[..], len, area) && 4 <= |tagBuf|
      requires |tagBuf| >= 4 + HostLength(bigEndian, Field(tagBuf))
      modifies this, data
      ensures Valid() && data[..][..18] == old(data[..])[..18]
      ensures ok <==> data.Length - old(len) >= 4 + HostLength(bigEndian, Field(tagBuf))
      ensures !ok ==> len == old(len) && data[..] == old(data[..])
      ensures ok ==> AreaIs(data[..], len, Prepended(area, tagBuf, 4 + HostLength(bigEndian, Field(tagBuf))))
    {
      hide HostLength, Field, From16, Overwrite, WithLength;
      var dataLen := HostLength(bigEndian, Field(tagBuf)) + 4;
      if data.Length - len < dataLen {
        return false;
      }
      PushedArea(data[..], len, area, tagBuf[..dataLen]);
      len := len + dataLen;
      var count := GetLength();
      MoveUp(TAGS, TAGS + dataLen, count);
      SetLength(count + dataLen);
      CopyIn(TAGS, tagBuf[..dataLen]);
      return true;
    }

    /** Pulls n bytes out of the tag area and takes them off the length. */
    method CutOut(at: nat, n: nat, ghost a: seq<byte>, ghost x: seq<byte>, ghost b: seq<byte>)
      requires Valid() && AreaIs(data[..], len, a + x + b) && at == TAGS + |a| && n == |x|
      modifies this, data
      ensures Valid() && len == old(len) - n && AreaIs(data[..], len, a + b)
      ensures data[..][..18] == old(data[..])[..18]
    {
      CutArea(data[..], len, a, x, b);
      hide Overwrite, WithLength, From16;
      var length := GetLength();
      var ok := PullAndMerge(at, n);
      SetLength(length - n);
    }

    /** Cuts the k-th tag out. */
    method RemoveTag(at: nat, n: nat, ghost tags: seq<Tag>, ghost k: nat)
      requires Valid() && Holds(data[..], len, tags) && k < |tags|
      requires at == TAGS + |Encode(tags[..k])| && n == |tags[k].value|
      modifies this, data
      ensures Valid() && Holds(data[..], len, Without(tags, k)) && len == old(len) - 4 - n
      ensures data[..][..18] == old(data[..])[..18]
    {
      EncodeSplit(tags, k);
      EncodeAppend(tags[..k], tags[k + 1..]);
      hide Encode, EncodeTag, AreaIs;
      CutOut(at, 4 + n, Encode(tags[..k]), EncodeTag(tags[k]), Encode(tags[k + 1..]));
    }

    /** Takes magic and MAC out of the k-th tag and corrects both lengths. */
    method ShortenTag(at: nat, tagLen: nat, ghost tags: seq<Tag>, ghost k: nat)
      requires Valid() && Holds(data[..], len, tags) && k < |tags|
      requires tagLen == |tags[k].value| > 8 && tags[k].kind == RELAY_SID
      requires at == TAGS + |Encode(tags[..k])|
      modifies this, data
      ensures Valid() && Holds(data[..], len, tags[k := Tag(RELAY_SID, tags[k].value[8..])])
      ensures data[..][..18] == old(data[..])[..18]
    {
      ShortenedEncoding(tags, k);
      hide Encode, EncodeTag, AreaIs, Overwrite, Big16, TagsOk, From16, LengthOf;
      ghost var v, first, last := tags[k].value, Encode(tags[..k]), Encode(tags[k + 1..]);
      ghost var head := first + EncodeTag(tags[k])[..4];
      CutOut(at + 4, 8, head, v[..8], v[8..] + last);
      WriteTagLength(at, tagLen - 8, head + (v[8..] + last), |first|);
    }

    /** tag->tag_len = htons(n), for the tag at offset x of the area. */
    method WriteTagLength(at: nat, n: nat, ghost area: seq<byte>, ghost x: nat)
      requires Valid() && AreaIs(data[..], len, area) && at == TAGS + x && x + 4 <= |area| && n < 0x1_0000
      modifies data
      ensures Valid() && AreaIs(data[..], len, area[..x + 2] + Big16(n) + area[x + 4..])
      ensures data[..][..18] == old(data[..])[..18]
    {
      hide Overwrite, Big16, AreaIs;
      AreaLength(data[..], len, area);
      ghost var two := Big16(n);
      AreaOverwritten(data[..], len, area, x + 2, two);
      assert TAGS + (x + 2) == at + 2 && x + 2 + |two| == x + 4;
      CopyIn(at + 2, Big16(n));
    }

    /** Copies the old relay value and takes its tag out, unless the value is too long. */
    method TakeOldRelay(ghost tags: seq<Tag>) returns (tooLong: bool, value: seq<byte>)
      requires Valid() && Holds(data[..], len, tags)
      modifies this, data
      ensures Valid() && data[..][..18] == old(data[..])[..18]
      ensures tooLong <==> |OldValue(tags)| > 28
      ensures tooLong ==> len == old(len) && data[..] == old(data[..])
      ensures !tooLong ==> value == OldValue(tags) && Holds(data[..], len, Others(tags)) && len == old(len) - Removed(tags)
    {
      hide Encode, From16, AreaIs;
      ghost var p, k := data[..], FirstRelay(tags);
      value := [];
      var found := FindTag(tags);
      if found.Some? {
        var at := found.value;
        TagAt(p, len, tags, k);
        var n := From16(data[at + 2], data[at + 3]);
        if n + 4 + 2 + 6 > TAG_BUF {
          return true, value;
        }
        value := data[..][at + 4..at + 4 + n];
        RemoveTag(at, n, tags, k);
      }
      return false, value;
    }

    /**
     * The PADI/PADR branch with addPPPoETag set; `behind` is the stack memory after the bytes written to
     * the tag buffer. With a failed insertion the old relay tag is already gone.
     */
    method InsertRelay(bigEndian: bool, behind: seq<byte>, ghost tags: seq<Tag>) returns (ret: int)
      requires Valid() && Holds(data[..], len, tags) && |behind| >= 0x1_0000
      modifies this, data
      ensures Valid() && data[..][..18] == old(data[..])[..18]
      ensures |OldValue(tags)| > 28 ==> ret == -1 && len == old(len) && data[..] == old(data[..])
      ensures |OldValue(tags)| <= 28 ==>
                && (ret == 0 <==> data.Length - (old(len) - Removed(tags)) >= 4 + HostLength(bigEndian, 8 + |OldValue(tags)|))
                && (ret == 0 || (ret == -1 && Holds(data[..], len, Others(tags))))
      ensures ret == 0 ==>
                && TagsOk(Others(tags))
                && LengthOf(data[..]) == |Encode(Others(tags))| + 4 + HostLength(bigEndian, 8 + |OldValue(tags)|)
      ensures ret == 0 ==> (Holds(data[..], len, Inserted(tags, old(data[..])[6..12])) <==> bigEndian)
    {
      hide EncodeTag, From16, HostLength, FirstRelay, Encode, Field, OldValue, Others, Removed;
      ghost var p := data[..];
      var tooLong, value := TakeOldRelay(tags);
      if tooLong {
        return -1;
      }
      var mac := data[..][6..12];
      assert mac == data[..][..18][6..12] && p[6..12] == p[..18][6..12];
      var tagBuf := Big16(RELAY_SID) + Big16(8 + |value|) + (MAGIC + mac + value) + behind;
      TagBufIs(Inserted(tags, mac)[0], tagBuf, behind);
      HostLengthExact(bigEndian, |value|);
      var ok := AddTag(bigEndian, tagBuf, Encode(Others(tags)));
      if !ok {
        return -1;
      }
      InsertedOk(tags, mac);
      InsertExactOnBigEndian(bigEndian, tags, mac, tagBuf);
      return 0;
    }

    /** Finds a relay tag that starts with the magic number and a MAC. */
    method CheckRelay(ghost tags: seq<Tag>) returns (ok: bool, at: nat, tagLen: nat)
      requires Valid() && Holds(data[..], len, tags)
      ensures ok <==> CanStrip(tags)
      ensures ok ==> var k := FirstRelay(tags);
                && at == TAGS + |Encode(tags[..k])| && tagLen == |tags[k].value|
                && at + 12 <= len && data[..][at + 6..at + 12] == StrippedMac(tags)
    {
      hide Encode, From16, AreaIs;
      ghost var p, k := data[..], FirstRelay(tags);
      ok, at, tagLen := false, 0, 0;
      var found := FindTag(tags);
      if found == None {
        return;
      }
      at := found.value;
      TagAt(p, len, tags, k);
      tagLen := From16(data[at + 2], data[at + 3]);
      if tagLen < 8 {
        return;
      }
      ghost var v := tags[k].value;
      assert v[0] == p[at + 4] && v[1] == p[at + 5] by {
        assert p[at + 4..at + 4 + tagLen][0] == p[at + 4] && p[at + 4..at + 4 + tagLen][1] == p[at + 5];
      }
      SliceSlice(p, at + 4, at + 4 + tagLen, 2, 8);
      ok := data[at + 4] == 0x81 && data[at + 5] == 0x86;
      assert ok <==> v[..2] == MAGIC by {
        assert v[..2] == [v[0], v[1]];
      }
    }

    /** The PADO/PADS branch with addPPPoETag set. */
    method LookupRelay(ghost tags: seq<Tag>) returns (ret: int)
      requires Valid() && Holds(data[..], len, tags)
      modifies this, data
      ensures Valid()
      ensures ret == if CanStrip(tags) then 0 else -1
      ensures ret != 0 ==> len == old(len) && data[..] == old(data[..])
      ensures ret == 0 ==>
                && data[..][..6] == StrippedMac(tags) && data[..][6..18] == old(data[..])[6..18]
                && Holds(data[..], len, Stripped(tags))
    {
      hide EncodeTag, From16, Encode, FirstRelay, AreaIs, Overwrite;
      var ok, at, tagLen := CheckRelay(tags);
      if !ok {
        return -1;
      }
      ghost var k := FirstRelay(tags);
      HeadOverwritten(data[..], len, Encode(tags), StrippedMac(tags));
      CopyIn(0, data[..][at + 6..at + 12]);
      ghost var p := data[..];
      if tagLen == 8 {
        RemoveTag(at, tagLen, tags, k);
      } else {
        ShortenTag(at, tagLen, tags, k);
      }
      assert data[..][..6] == data[..][..18][..6] && p[..6] == p[..18][..6];
      assert data[..][6..18] == data[..][..18][6..18] && p[6..18] == p[..18][6..18];
      return 0;
    }

    /**
     * Both directions on one packet of a big-endian host: unless there was no room or the old value was too
     * long, the client's tags are back, relay tag first, and the frame is addressed to the client.
     */
    method ThereAndBack(behind: seq<byte>, ghost tags: seq<Tag>) returns (ret: int)
      requires Valid() && Holds(data[..], len, tags) && |behind| >= 0x1_0000
      modifies this, data
      ensures Valid()
      ensures ret == 0 <==> |OldValue(tags)| <= 28 && data.Length - (old(len) - Removed(tags)) >= 12 + |OldValue(tags)|
      ensures ret == 0 ==> data[..][..6] == old(data[..])[6..12]
      ensures ret == 0 ==> Holds(data[..], len,
        if FirstRelay(tags) < |tags| && tags[FirstRelay(tags)].value == [] then Others(tags) else RelayFirst(tags))
    {
      hide Encode, From16, AreaIs, Holds, FirstRelay, OldValue, Others, Removed, Inserted, Stripped, CanStrip, StrippedMac, RelayFirst, EncodeTag, TagsOk;
      ghost var mac := data[..][6..12];
      ret := InsertRelay(true, behind, tags);
      if ret == 0 {
        InsertedStrips(tags, mac);
        RelayFirstIs(tags);
        ret := LookupRelay(Inserted(tags, mac));
      }
    }
  }
}
