/** The NAT2.5 bridge database (`aic_br_ext.c`): sixteen intrusive hash chains with ageing and use counts. */
module NatDb {
  import opened Machine

  const HASH_SIZE: nat := 16
  const ADDR_LEN: nat := 17

  const MAC_LEN: nat := 6
  const IP_LEN: nat := 4

  datatype Octets = Octets(bytes: seq<byte>)

  type Addr = a: Octets | |a.bytes| == ADDR_LEN witness Octets(seq(ADDR_LEN, _ => 0))
  type Mac = m: Octets | |m.bytes| == MAC_LEN witness Octets(seq(MAC_LEN, _ => 0))
  type Ip = m: Octets | |m.bytes| == IP_LEN witness Octets(seq(IP_LEN, _ => 0))

  const ZERO_MAC: Mac := Octets([0, 0, 0, 0, 0, 0])
  const ZERO_IP: Ip := Octets([0, 0, 0, 0])

  /** `__nat25_generate_ipv4_network_addr` */
  function Ipv4Addr(ip: Ip): Addr {
    Octets([1, 0, 0, 0, 0, 0, 0] + ip.bytes + [0, 0, 0, 0, 0, 0])
  }

  // ----- the hash -----

  function XorRange(a: Addr, from: nat, to: nat): (x: byte)
    requires from <= to <= ADDR_LEN
    decreases ADDR_LEN - from
  {
    if from == to then 0 else ((a.bytes[from] as bv8) ^ (XorRange(a, from + 1, to) as bv8)) as int
  }

  /** `__nat25_network_hash`: which bytes count depends on the type in the first one. */
  function Hash(a: Addr): (h: nat)
    ensures h < HASH_SIZE
  {
    var x: int :=
      match a.bytes[0]
      case 1 => XorRange(a, 7, 11)
      case 3 => XorRange(a, 1, 11)
      case 4 => XorRange(a, 1, 4)
      case 5 => XorRange(a, 0, 9)
      case 2 => XorRange(a, 1, 17)
      case _ => XorRange(a, 0, 17);
    x % HASH_SIZE
  }

  function Xor(a: byte, b: byte): byte {
    ((a as bv8) ^ (b as bv8)) as int
  }

  /** The bytes that count, type by type: IPv4, IPX, AppleTalk, PPPoE, IPv6, and any other. */
  lemma HashBytes(a: Addr)
    ensures var b := a.bytes;
      && |b| == 17
      && (b[0] == 1 ==> Hash(a) == Xor(b[7], Xor(b[8], Xor(b[9], b[10]))) % 16)
      && (var ten := Xor(b[1], Xor(b[2], Xor(b[3], Xor(b[4], Xor(b[5], Xor(b[6], Xor(b[7], Xor(b[8], Xor(b[9], b[10])))))))));
          b[0] == 3 ==> Hash(a) == ten % 16)
      && (b[0] == 4 ==> Hash(a) == Xor(b[1], Xor(b[2], b[3])) % 16)
      && (var nine := Xor(b[0], Xor(b[1], Xor(b[2], Xor(b[3], Xor(b[4], Xor(b[5], Xor(b[6], Xor(b[7], b[8]))))))));
          b[0] == 5 ==> Hash(a) == nine % 16)
      && var most := Xor(b[1], Xor(b[2], Xor(b[3], Xor(b[4], Xor(b[5], Xor(b[6], Xor(b[7], Xor(b[8], Xor(b[9],
           Xor(b[10], Xor(b[11], Xor(b[12], Xor(b[13], Xor(b[14], Xor(b[15], b[16])))))))))))))));
         (b[0] == 2 ==> Hash(a) == most % 16) && (b[0] == 0 || b[0] > 5 ==> Hash(a) == Xor(b[0], most) % 16)
  {
    hide XorRange, Xor;
    Unroll(a, 7, 11); Unroll(a, 8, 11); Unroll(a, 9, 11); Unroll(a, 10, 11);
    Unroll(a, 1, 11); Unroll(a, 2, 11); Unroll(a, 3, 11); Unroll(a, 4, 11); Unroll(a, 5, 11); Unroll(a, 6, 11);
    Unroll(a, 1, 4); Unroll(a, 2, 4); Unroll(a, 3, 4);
    Unroll(a, 0, 9); Unroll(a, 1, 9); Unroll(a, 2, 9); Unroll(a, 3, 9); Unroll(a, 4, 9);
    Unroll(a, 5, 9); Unroll(a, 6, 9); Unroll(a, 7, 9); Unroll(a, 8, 9);
    Unroll(a, 0, 17); Unroll(a, 1, 17); Unroll(a, 2, 17); Unroll(a, 3, 17); Unroll(a, 4, 17); Unroll(a, 5, 17);
    Unroll(a, 6, 17); Unroll(a, 7, 17); Unroll(a, 8, 17); Unroll(a, 9, 17); Unroll(a, 10, 17); Unroll(a, 11, 17);
    Unroll(a, 12, 17); Unroll(a, 13, 17); Unroll(a, 14, 17); Unroll(a, 15, 17); Unroll(a, 16, 17);
  }

  lemma Unroll(a: Addr, from: nat, to: nat)
    requires from < to <= ADDR_LEN
    ensures XorRange(a, from, to) == if from + 1 == to then a.bytes[from] else Xor(a.bytes[from], XorRange(a, from + 1, to))
  {
    if from + 1 == to {
      assert XorRange(a, from + 1, to) == 0;
      XorZero(a.bytes[from]);
    }
  }

  lemma XorZero(x: byte)
    ensures Xor(x, 0) == x
  {
    assert (x as bv8) ^ 0 == x as bv8;
  }

  /** An IPv4 address sits behind ten fixed bytes of the key, is told from any other, and alone gives the bucket. */
  lemma Ipv4Keys(ip: Ip, other: Ip)
    ensures Ipv4Addr(ip).bytes == [1, 0, 0, 0, 0, 0, 0, ip.bytes[0], ip.bytes[1], ip.bytes[2], ip.bytes[3], 0, 0, 0, 0, 0, 0]
    ensures Hash(Ipv4Addr(ip)) == Xor(ip.bytes[0], Xor(ip.bytes[1], Xor(ip.bytes[2], ip.bytes[3]))) % 16
    ensures Ipv4Addr(ip) == Ipv4Addr(other) ==> ip == other
  {
    hide Hash, Xor;
    HashBytes(Ipv4Addr(ip));
    var a, b := Ipv4Addr(ip).bytes, Ipv4Addr(other).bytes;
    assert a[7..11] == ip.bytes && b[7..11] == other.bytes;
  }

  // ----- ageing: jiffies are 64-bit and wrap -----

  /** time_before_eq(stamp, now - ageing) */
  predicate Expired(stamp: nat, now: nat, ageing: nat) {
    var d := (stamp - now + ageing) % TWO_64;
    d == 0 || d >= TWO_64 / 2
  }

  /** With true tick counts and less than half the counter between them, this is the plain comparison. */
  lemma ExpiredIsElapsed(then_: nat, now: nat, ageing: nat)
    requires then_ <= now && ageing < TWO_64 / 2 && now - then_ <= ageing + TWO_64 / 2
    ensures Expired(then_ % TWO_64, now % TWO_64, ageing) <==> now - then_ >= ageing
  {
    var q, r := then_ / TWO_64, now / TWO_64;
    var d := then_ - now + ageing;
    assert then_ % TWO_64 - now % TWO_64 + ageing == d + TWO_64 * (r - q);
    ModShift(d, r - q, TWO_64);
    if d > 0 {
    } else if d < 0 {
      ModShift(d, 1, TWO_64);
    }
  }

  // ----- the abstract database -----

  datatype Rec = Rec(mac: Mac, stamp: nat, uses: int)

  type Db = map<Addr, Rec>

  function InsertDb(db: Db, a: Addr, mac: Mac, now: nat): Db {
    if a in db then db[a := db[a].(mac := mac, stamp := now)] else db[a := Rec(mac, now, 1)]
  }

  predicate Live(db: Db, a: Addr, now: nat, ageing: nat) {
    a in db && !Expired(db[a].stamp, now, ageing)
  }

  function LookupDb(db: Db, a: Addr, now: nat, ageing: nat): Db {
    if Live(db, a, now, ageing) then db[a := db[a].(uses := Inc32(db[a].uses))] else db
  }

  function TouchDb(db: Db, a: Addr, now: nat): Db {
    if a in db then db[a := db[a].(stamp := now)] else db
  }

  /** Expiry of the addresses in `on` only: an expired entry loses a use and goes when none is left. */
  ghost function ExpireOn(db: Db, now: nat, ageing: nat, on: set<Addr>): Db {
    map a | a in db && !(a in on && Expired(db[a].stamp, now, ageing) && Dec32(db[a].uses) == 0) ::
      if a in on && Expired(db[a].stamp, now, ageing) then db[a].(uses := Dec32(db[a].uses)) else db[a]
  }

  ghost function ExpireDb(db: Db, now: nat, ageing: nat): Db {
    ExpireOn(db, now, ageing, db.Keys)
  }

  // ----- the same, told from the operations on one address -----

  /** The hardware address of the last insertion. */
  function LastMac(ops: seq<Op>, a: Addr): Option<Mac> {
    if ops == [] then None
    else
      var op := ops[|ops| - 1];
      if op.OpInsert? && op.a == a then Some(op.mac) else LastMac(ops[..|ops| - 1], a)
  }

  /** The time of the last insertion or touch. */
  function LastTime(ops: seq<Op>, a: Addr): nat {
    if ops == [] then 0
    else
      var op := ops[|ops| - 1];
      if (op.OpInsert? || op.OpTouch?) && op.a == a then op.now else LastTime(ops[..|ops| - 1], a)
  }

  /** The uses left: one from the insertion, one more for each answered lookup, one less for each scan that finds it out of date. */
  function UsesLeft(ops: seq<Op>, a: Addr, ageing: nat): nat {
    if ops == [] then 0
    else
      var pre, op := ops[..|ops| - 1], ops[|ops| - 1];
      var n := UsesLeft(pre, a, ageing);
      match op
      case OpInsert(x, _, _) => if x == a && n == 0 then 1 else n
      case OpLookup(x, now) => if x == a && n > 0 && !Expired(LastTime(pre, a), now, ageing) then n + 1 else n
      case OpTouch(_, _) => n
      case OpExpire(now) => if n > 0 && Expired(LastTime(pre, a), now, ageing) then n - 1 else n
      case OpCleanup => 0
  }

  /**
   * After any run an address is stored exactly when it has uses left; its hardware address is that of its last
   * insertion and its time that of its last insertion or touch, whatever was done to other addresses.
   */
  lemma {:induction false} StoredIsLast(ops: seq<Op>, a: Addr, ageing: nat)
    requires Lookups(ops) < MAX_USES
    ensures a in Run(ops, ageing) <==> UsesLeft(ops, a, ageing) > 0
    ensures a in Run(ops, ageing) ==>
      LastMac(ops, a).Some? && Run(ops, ageing)[a] == Rec(LastMac(ops, a).value, LastTime(ops, a), UsesLeft(ops, a, ageing))
  {
    hide Expired;
    if ops != [] {
      var pre, op := ops[..|ops| - 1], ops[|ops| - 1];
      StoredIsLast(pre, a, ageing);
      UsesStayPositive(pre, ageing);
    }
  }

  /** Without a cleanup, an address inserted and never found out of date by a scan is still stored. */
  lemma {:induction false} StaysWhileFresh(ops: seq<Op>, a: Addr, ageing: nat, k: nat)
    requires k < |ops| && ops[k].OpInsert? && ops[k].a == a && Lookups(ops) < MAX_USES
    requires forall j :: k < j < |ops| ==> !ops[j].OpCleanup?
    requires forall j :: k < j < |ops| && ops[j].OpExpire? ==> !Expired(LastTime(ops[..j], a), ops[j].now, ageing)
    ensures a in Run(ops, ageing)
  {
    hide Expired, Run;
    StaysUsed(ops, a, ageing, k);
    StoredIsLast(ops, a, ageing);
  }

  lemma {:induction false} StaysUsed(ops: seq<Op>, a: Addr, ageing: nat, k: nat)
    requires k < |ops| && ops[k].OpInsert? && ops[k].a == a
    requires forall j :: k < j < |ops| ==> !ops[j].OpCleanup?
    requires forall j :: k < j < |ops| && ops[j].OpExpire? ==> !Expired(LastTime(ops[..j], a), ops[j].now, ageing)
    ensures UsesLeft(ops, a, ageing) > 0
  {
    hide Expired, LastTime;
    var n := |ops| - 1;
    if k < n {
      var pre := ops[..n];
      forall j | k < j < n && pre[j].OpExpire?
        ensures !Expired(LastTime(pre[..j], a), pre[j].now, ageing)
      {
        assert pre[..j] == ops[..j];
      }
      StaysUsed(pre, a, ageing, k);
    }
  }

  lemma RunNext(ops: seq<Op>, op: Op, ageing: nat)
    ensures Run(ops + [op], ageing) == Apply(Run(ops, ageing), op, ageing)
  {
    assert (ops + [op])[..|ops|] == ops;
  }

  lemma ExpireNone(db: Db, now: nat, ageing: nat)
    ensures ExpireOn(db, now, ageing, {}) == db
  {
  }

  lemma ExpireOneMore(db: Db, now: nat, ageing: nat, on: set<Addr>, a: Addr)
    requires a !in on
    ensures ExpireOn(ExpireOn(db, now, ageing, on), now, ageing, {a}) == ExpireOn(db, now, ageing, on + {a})
  {
    hide Expired, Dec32;
  }

  lemma ExpireAll(db: Db, now: nat, ageing: nat, on: set<Addr>)
    requires db.Keys <= on
    ensures ExpireOn(db, now, ageing, on) == ExpireDb(db, now, ageing)
  {
    hide Expired, Dec32;
  }

  // ----- whole runs of the table -----

  const MAX_USES: int := 0x7FFF_FFFF

  datatype Op = OpInsert(a: Addr, mac: Mac, now: nat) | OpLookup(a: Addr, now: nat) | OpTouch(a: Addr, now: nat) | OpExpire(now: nat) | OpCleanup

  ghost function Apply(db: Db, op: Op, ageing: nat): Db {
    match op
    case OpInsert(a, mac, now) => InsertDb(db, a, mac, now)
    case OpLookup(a, now) => LookupDb(db, a, now, ageing)
    case OpTouch(a, now) => TouchDb(db, a, now)
    case OpExpire(now) => ExpireDb(db, now, ageing)
    case OpCleanup => map[]
  }

  ghost function Run(ops: seq<Op>, ageing: nat): Db {
    if ops == [] then map[] else Apply(Run(ops[..|ops| - 1], ageing), ops[|ops| - 1], ageing)
  }

  function Lookups(ops: seq<Op>): nat {
    if ops == [] then 0 else Lookups(ops[..|ops| - 1]) + if ops[|ops| - 1].OpLookup? then 1 else 0
  }

  ghost predicate UsesWithin(db: Db, most: int) {
    forall a :: a in db ==> 1 <= db[a].uses <= most
  }

  /** A live use count leaves the range 1..2^31-1 exactly when a lookup hits an entry already at the top of it. */
  lemma UsesWrapExactly(db: Db, op: Op, ageing: nat)
    requires UsesWithin(db, MAX_USES)
    ensures UsesWithin(Apply(db, op, ageing), MAX_USES) <==>
      !(op.OpLookup? && Live(db, op.a, op.now, ageing) && db[op.a].uses == MAX_USES)
  {
    hide Expired;
    if op.OpLookup? && Live(db, op.a, op.now, ageing) {
      assert Apply(db, op, ageing)[op.a].uses == Inc32(db[op.a].uses);
    }
  }

  /** So in a run with fewer than 2^31-1 lookups every stored entry has a use count of at least 1. */
  lemma {:induction false} UsesStayPositive(ops: seq<Op>, ageing: nat)
    requires Lookups(ops) < MAX_USES
    ensures UsesWithin(Run(ops, ageing), 1 + Lookups(ops))
  {
    hide Expired;
    if ops != [] {
      UsesStayPositive(ops[..|ops| - 1], ageing);
    }
  }

  /** An insertion followed by n lookups at the same time. */
  function LookedUp(a: Addr, mac: Mac, n: nat): seq<Op> {
    if n == 0 then [OpInsert(a, mac, 1)] else LookedUp(a, mac, n - 1) + [OpLookup(a, 1)]
  }

  lemma {:induction false} LookupsCount(a: Addr, mac: Mac, n: nat)
    requires n < MAX_USES
    ensures Run(LookedUp(a, mac, n), 300) == map[a := Rec(mac, 1, 1 + n)]
  {
    hide Expired;
    var ops := LookedUp(a, mac, n);
    if n == 0 {
      assert ops[..0] == [];
    } else {
      assert ops[..|ops| - 1] == LookedUp(a, mac, n - 1);
      LookupsCount(a, mac, n - 1);
      assert !Expired(1, 1, 300) by { ExpiredIsElapsed(1, 1, 300); }
    }
  }

  /** The run that wraps: after 2^31-1 lookups a stored, fresh entry has a negative use count. */
  lemma {:induction false} TopCountWraps(a: Addr, mac: Mac)
    ensures Run(LookedUp(a, mac, MAX_USES), 300) == map[a := Rec(mac, 1, -0x8000_0000)]
  {
    hide Expired;
    var ops := LookedUp(a, mac, MAX_USES);
    assert ops[..|ops| - 1] == LookedUp(a, mac, MAX_USES - 1);
    LookupsCount(a, mac, MAX_USES - 1);
    assert !Expired(1, 1, 300) by { ExpiredIsElapsed(1, 1, 300); }
  }

  ghost function ExpireRun(db: Db, times: seq<nat>, ageing: nat): Db {
    if times == [] then db else ExpireDb(ExpireRun(db, times[..|times| - 1], ageing), times[|times| - 1], ageing)
  }

  /** An entry with u uses survives expiry scans as long as fewer than u of them find it out of date. */
  lemma {:induction false} GoneAfterItsUses(db: Db, a: Addr, times: seq<nat>, ageing: nat)
    requires a in db && db[a].uses >= 1
    ensures a in ExpireRun(db, times, ageing) <==> StaleScans(db[a].stamp, times, ageing) < db[a].uses
    ensures a in ExpireRun(db, times, ageing) ==>
      ExpireRun(db, times, ageing)[a] == db[a].(uses := db[a].uses - StaleScans(db[a].stamp, times, ageing))
  {
    hide Expired;
    if times != [] {
      GoneAfterItsUses(db, a, times[..|times| - 1], ageing);
    }
  }

  function StaleScans(stamp: nat, times: seq<nat>, ageing: nat): nat {
    if times == [] then 0
    else StaleScans(stamp, times[..|times| - 1], ageing) + if Expired(stamp, times[|times| - 1], ageing) then 1 else 0
  }

  // ----- the linked chains -----

  /** What a back-pointer points at: a bucket head, or the next field of another entry. */
  datatype Link = Detached | Head(bucket: nat) | NextOf(entry: Entry)

  class Entry {
    const addr: Addr
    var next: Entry?
    var pprev: Link
    var uses: int
    var mac: Mac
    var stamp: nat

    constructor (a: Addr, m: Mac, now: nat)
      ensures addr == a && mac == m && uses == 1 && stamp == now && next == null && pprev == Detached
    {
      addr, mac, uses, stamp, next, pprev := a, m, 1, now, null, Detached;
    }

    ghost function AsRec(): Rec
      reads `mac, `stamp, `uses
    {
      Rec(mac, stamp, uses)
    }
  }

  ghost function At(s: seq<Entry>, i: int): Entry? {
    if 0 <= i < |s| then s[i] else null
  }

  ghost function LinkAt(b: nat, s: seq<Entry>, i: nat): Link
    requires i < |s|
  {
    if i == 0 then Head(b) else NextOf(s[i - 1])
  }

  /** s is the chain of bucket b, drawn from the stored entries: links both ways, and no entry twice, so no cycle. */
  ghost predicate IsChain(head: Entry?, b: nat, s: seq<Entry>, entries: set<Entry>)
    reads entries`next, entries`pprev
  {
    && head == At(s, 0)
    && (forall e :: e in s ==> e in entries)
    && (forall i {:trigger s[i].next} :: 0 <= i < |s| ==> s[i].next == At(s, i + 1))
    && (forall i {:trigger s[i].pprev} :: 0 <= i < |s| ==> s[i].pprev == LinkAt(b, s, i))
    && (forall i, j :: 0 <= i < j < |s| ==> s[i] != s[j])
  }

  /** What pushing at the head must have done to the links. */
  lemma PushedIsChain(ent: Entry, b: nat, s: seq<Entry>, entries: set<Entry>)
    requires ent !in s && ent in entries && ent.next == At(s, 0) && ent.pprev == Head(b)
    requires forall i, j :: 0 <= i < j < |s| ==> s[i] != s[j]
    requires forall e :: e in s ==> e in entries
    requires forall i {:trigger s[i].next} :: 0 <= i < |s| ==> s[i].next == At(s, i + 1)
    requires forall i {:trigger s[i].pprev} :: 0 <= i < |s| ==> s[i].pprev == if i == 0 then NextOf(ent) else LinkAt(b, s, i)
    ensures IsChain(ent, b, [ent] + s, entries)
  {
    var t := [ent] + s;
    forall i | 0 <= i < |t|
      ensures t[i].next == At(t, i + 1) && t[i].pprev == LinkAt(b, t, i)
    {
      assert i > 0 ==> t[i] == s[i - 1];
    }
  }

  /** What cutting out the k-th entry must have done to the links. */
  lemma CutIsChain(head: Entry?, b: nat, s: seq<Entry>, k: nat, entries: set<Entry>)
    requires k < |s| && head == if k == 0 then At(s, 1) else At(s, 0)
    requires forall i, j :: 0 <= i < j < |s| ==> s[i] != s[j]
    requires forall e :: e in s && e != s[k] ==> e in entries
    requires forall i {:trigger s[i].next} :: 0 <= i < |s| && i != k ==> s[i].next == At(s, if i + 1 == k then k + 1 else i + 1)
    requires forall i {:trigger s[i].pprev} :: 0 <= i < |s| && i != k ==> s[i].pprev == LinkAt(b, s, if i == k + 1 then k else i)
    ensures IsChain(head, b, Without(s, k), entries)
  {
    var t := Without(s, k);
    hide Without;
    WithoutAt(s, k);
    forall i | 0 <= i < |t|
      ensures t[i].next == At(t, i + 1) && t[i].pprev == LinkAt(b, t, i)
    {
      var o := s[if i < k then i else i + 1];
      assert t[i] == o && o.next == At(t, i + 1) && o.pprev == LinkAt(b, t, i);
    }
  }

  lemma WithoutAt<T>(s: seq<T>, k: nat)
    requires k < |s| && forall i, j :: 0 <= i < j < |s| ==> s[i] != s[j]
    ensures |Without(s, k)| == |s| - 1
    ensures forall i :: 0 <= i < |s| - 1 ==> Without(s, k)[i] == s[if i < k then i else i + 1]
    ensures forall e :: e in Without(s, k) <==> e in s && e != s[k]
    ensures forall i, j :: 0 <= i < j < |s| - 1 ==> Without(s, k)[i] != Without(s, k)[j]
  {
    forall e | e in s && e != s[k]
      ensures e in Without(s, k)
    {
      var i :| 0 <= i < |s| && s[i] == e;
      assert Without(s, k)[if i < k then i else i - 1] == e;
    }
  }

  /** The index knows each entry by its address, so no address occurs twice, and each sits in the bucket of its hash. */
  ghost predicate Indexed(chains: seq<seq<Entry>>, index: map<Addr, Entry>, entries: set<Entry>) {
    && |chains| == HASH_SIZE
    && (forall a :: a in index ==> index[a] in entries && index[a].addr == a)
    && (forall e :: e in entries ==> e.addr in index && index[e.addr] == e && e in chains[Hash(e.addr)])
    && (forall b: nat, e :: b < HASH_SIZE && e in chains[b] ==> e in entries && Hash(e.addr) == b)
  }

  lemma ChainsApart(chains: seq<seq<Entry>>, index: map<Addr, Entry>, entries: set<Entry>, b: nat)
    requires Indexed(chains, index, entries) && b < HASH_SIZE
    ensures |chains| == HASH_SIZE
    ensures forall c: nat, e :: c < HASH_SIZE && e in chains[c] ==> e in entries && (c != b ==> e !in chains[b])
  {
    hide Hash;
    assert forall e :: e in chains[b] ==> Hash(e.addr) == b;
  }

  lemma AddedStaysIndexed(chains: seq<seq<Entry>>, index: map<Addr, Entry>, entries: set<Entry>, ent: Entry)
    requires Indexed(chains, index, entries) && ent.addr !in index
    ensures var b := Hash(ent.addr);
      Indexed(chains[b := [ent] + chains[b]], index[ent.addr := ent], entries + {ent})
  {
    hide Hash;
  }

  lemma {:induction false} RemovedStaysIndexed(chains: seq<seq<Entry>>, index: map<Addr, Entry>, entries: set<Entry>, b: nat, k: nat)
    requires Indexed(chains, index, entries) && b < HASH_SIZE && k < |chains[b]|
    requires forall i, j :: 0 <= i < j < |chains[b]| ==> chains[b][i] != chains[b][j]
    ensures var f := chains[b][k];
      Indexed(chains[b := Without(chains[b], k)], index - {f.addr}, entries - {f})
  {
    hide Hash, Without;
    WithoutAt(chains[b], k);
  }

  lemma KnownByAddr(chains: seq<seq<Entry>>, index: map<Addr, Entry>, entries: set<Entry>)
    requires Indexed(chains, index, entries)
    ensures |chains| == HASH_SIZE
    ensures forall a :: a in index ==> index[a] in entries && index[a].addr == a
    ensures forall e :: e in entries ==> e.addr in index && index[e.addr] == e
  {
  }

  /** Of bucket i, the scan has still to visit exactly `rest`. */
  ghost predicate Pending(index: map<Addr, Entry>, i: nat, rest: seq<Entry>, seen: set<Addr>) {
    && (forall e :: e in rest ==> e.addr in index && index[e.addr] == e && Hash(e.addr) == i && e.addr !in seen)
    && (forall a :: a in index && Hash(a) == i && a !in seen ==> index[a] in rest)
  }

  lemma PendingFirst(chains: seq<seq<Entry>>, index: map<Addr, Entry>, entries: set<Entry>, i: nat, seen: set<Addr>)
    requires Indexed(chains, index, entries) && i < HASH_SIZE
    requires forall a :: a in seen ==> Hash(a) != i
    ensures Pending(index, i, chains[i], seen)
  {
    hide Hash;
  }

  lemma PendingStep(index: map<Addr, Entry>, i: nat, rest: seq<Entry>, seen: set<Addr>)
    requires Pending(index, i, rest, seen) && rest != [] && rest[0] !in rest[1..]
    requires forall a :: a in index ==> index[a].addr == a
    ensures Hash(rest[0].addr) == i && rest[0].addr !in seen
    ensures Pending(index, i, rest[1..], seen + {rest[0].addr})
    ensures Pending(index - {rest[0].addr}, i, rest[1..], seen + {rest[0].addr})
  {
    hide Hash;
    assert rest[0] in rest;
    assert forall e :: e in rest && e != rest[0] ==> e in rest[1..];
    assert forall e :: e in rest[1..] ==> e in rest && e.addr != rest[0].addr;
  }

  lemma PendingLast(index: map<Addr, Entry>, i: nat, seen: set<Addr>)
    requires Pending(index, i, [], seen)
    ensures forall a :: a in index && Hash(a) == i ==> a in seen
  {
    hide Hash;
  }

  /** The next link and the remaining entries, whether the k-th one stays or is cut out. */
  lemma ChainTail(head: Entry?, b: nat, s: seq<Entry>, entries: set<Entry>, k: nat)
    requires IsChain(head, b, s, entries) && k < |s|
    ensures s[k] == s[k..][0] && s[k] !in s[k..][1..]
    ensures s[k].next == At(s, k + 1) && s[k].next == At(Without(s, k), k)
    ensures |Without(s, k)| == |s| - 1
    ensures s[k + 1..] == s[k..][1..] && Without(s, k)[k..] == s[k..][1..]
  {
  }

  lemma ChainHead(head: Entry?, b: nat, s: seq<Entry>, entries: set<Entry>)
    requires IsChain(head, b, s, entries)
    ensures head == At(s, 0) && s[0..] == s
  {
  }

  lemma EmptyChains(chains: seq<seq<Entry>>, index: map<Addr, Entry>, entries: set<Entry>)
    requires Indexed(chains, index, entries) && forall b :: 0 <= b < HASH_SIZE ==> chains[b] == []
    ensures index == map[] && entries == {}
  {
    hide Hash;
    assert forall e :: e in entries ==> chains[Hash(e.addr)] == [];
  }

  lemma HeadsOfEmpty(heads: seq<Entry?>, chains: seq<seq<Entry>>, entries: set<Entry>)
    requires |heads| == |chains| == HASH_SIZE
    requires forall b: nat :: b < HASH_SIZE ==> IsChain(heads[b], b, chains[b], entries) && chains[b] == []
    ensures forall b :: 0 <= b < HASH_SIZE ==> heads[b] == null
  {
  }

  class Bridge {
    const nethash: array<Entry?>
    const ageing: nat
    var scdb: Entry?
    var scdbMac: Mac
    var scdbIp: Ip
    ghost var chains: seq<seq<Entry>>
    ghost var entries: set<Entry>
    ghost var index: map<Addr, Entry>
    ghost var history: seq<Op>      // the calls so far

    /** Every bucket is linked as its chain says, and the one-entry shortcut never dangles. */
    ghost predicate Valid()
      reads this, nethash, entries`next, entries`pprev
    {
      hide Hash, IsChain;
      && Indexed(chains, index, entries)
      && nethash.Length == HASH_SIZE && |chains| == HASH_SIZE
      && (forall b: nat :: b < HASH_SIZE ==> IsChain(nethash[b], b, chains[b], entries))
      && (scdb != null ==> scdb in entries && scdb.addr == Ipv4Addr(scdbIp))
    }

    /** The abstract value. */
    ghost function Contents(): Db
      requires Indexed(chains, index, entries)
      reads this`chains, this`index, this`entries, entries`mac, entries`stamp, entries`uses
    {
      map a | a in index :: index[a].AsRec()
    }

    lemma KnownKeys()
      requires Indexed(chains, index, entries)
      ensures forall a :: a in Contents() <==> a in index
    {
      hide Indexed;
    }

    /** The chains hold what the calls so far amount to. */
    ghost predicate Recorded()
      requires Indexed(chains, index, entries)
      reads this, entries`mac, entries`stamp, entries`uses
    {
      Contents() == Run(history, ageing)
    }

    constructor (ageingTicks: nat)
      ensures Valid() && Recorded() && history == [] && nethash.Length == 16
      ensures Valid() && Contents() == map[] && ageing == ageingTicks && fresh(nethash) && entries == {}
    {
      nethash := new Entry?[HASH_SIZE](_ => null);
      ageing := ageingTicks;
      scdb, scdbMac, scdbIp := null, ZERO_MAC, ZERO_IP;
      chains := seq(HASH_SIZE, _ => []);
      entries := {};
      index := map[];
      history := [];
    }

    /** The search loop shared by insert, lookup and the shortcut. */
    method Find(a: Addr) returns (db: Entry?)
      requires Valid()
      ensures db == if a in index then index[a] else null
    {
      hide Hash, Ipv4Addr;
      var b := Hash(a);
      db := nethash[b];
      assert IsChain(nethash[b], b, chains[b], entries);
      ghost var i := 0;
      while db != null
        invariant 0 <= i <= |chains[b]| && db == At(chains[b], i)
        invariant forall j :: 0 <= j < i ==> chains[b][j].addr != a
        decreases |chains[b]| - i
      {
        if db.addr == a {
          return;
        }
        db := db.next;
        i := i + 1;
      }
    }

    method Link(ent: Entry, b: nat, ghost s: seq<Entry>)
      requires b < nethash.Length && IsChain(nethash[b], b, s, entries) && ent !in entries
      modifies nethash, ent`next, ent`pprev, s`pprev
      ensures IsChain(nethash[b], b, [ent] + s, entries + {ent})
      ensures forall c :: 0 <= c < nethash.Length && c != b ==> nethash[c] == old(nethash[c])
    {
      ent.next := nethash[b];
      if ent.next != null {
        ent.next.pprev := NextOf(ent);
      }
      nethash[b] := ent;
      ent.pprev := Head(b);
      PushedIsChain(ent, b, s, entries + {ent});
    }

    /** The k-th entry of a chain leaves it through its back-pointer alone. */
    method Unlink(ent: Entry, ghost b: nat, ghost k: nat, ghost s: seq<Entry>)
      requires b < nethash.Length && IsChain(nethash[b], b, s, entries) && k < |s| && ent == s[k]
      modifies nethash, s`next, s`pprev
      ensures IsChain(nethash[b], b, Without(s, k), entries - {ent})
      ensures forall c :: 0 <= c < nethash.Length && c != b ==> nethash[c] == old(nethash[c])
    {
      match ent.pprev {
        case Head(c) => nethash[c] := ent.next;
        case NextOf(e) => e.next := ent.next;
        case Detached => assert false;
      }
      if ent.next != null {
        ent.next.pprev := ent.pprev;
      }
      ent.next := null;
      ent.pprev := Detached;
      CutIsChain(nethash[b], b, s, k, entries - {ent});
    }

    /** A matching entry takes the new hardware address and time; its use count stays. */
    method Refresh(db: Entry, mac: Mac, now: nat)
      requires Valid() && db in entries
      modifies db`mac, db`stamp
      ensures Valid() && Contents() == InsertDb(old(Contents()), db.addr, mac, now)
    {
      hide Hash, IsChain, Ipv4Addr, Indexed;
      KnownByAddr(chains, index, entries);
      db.mac := mac;
      db.stamp := now;
    }

    /** `__network_hash_link` of a new entry, seen from the whole table. */
    method Attach(ent: Entry, b: nat)
      requires Valid() && ent !in entries && ent.addr !in index && b == Hash(ent.addr)
      modifies this`chains, this`entries, this`index, nethash, ent`next, ent`pprev, entries`pprev
      ensures Valid() && entries == old(entries) + {ent} && index == old(index)[ent.addr := ent]
    {
      hide Hash, Ipv4Addr, Indexed;
      KnownByAddr(chains, index, entries);
      ChainsApart(chains, index, entries, b);
      Link(ent, b, chains[b]);
      forall c: nat | c < HASH_SIZE && c != b
        ensures IsChain(nethash[c], c, chains[c], entries + {ent})
      {
        assert old(IsChain(nethash[c], c, chains[c], entries));
        ghost var t := chains[c];
        assert forall e :: e in t ==> e in entries && e !in chains[b] && e != ent;
        assert forall e :: e in t ==> e.next == old(e.next) && e.pprev == old(e.pprev);
        assert forall i {:trigger t[i].next} {:trigger t[i].pprev} :: 0 <= i < |t| ==>
          t[i] in t && t[i].next == old(t[i].next) && t[i].pprev == old(t[i].pprev);
      }
      AddedStaysIndexed(chains, index, entries, ent);
      entries := entries + {ent};
      index := index[ent.addr := ent];
      chains := chains[b := [ent] + chains[b]];
    }

    /** `__network_hash_unlink`, seen from the whole table. */
    method Detach(f: Entry, ghost b: nat, ghost k: nat)
      requires Valid() && b < HASH_SIZE && k < |chains[b]| && f == chains[b][k] && scdb != f
      modifies this`chains, this`entries, this`index, nethash, entries`next, entries`pprev
      ensures Valid() && f in old(entries) && entries == old(entries) - {f} && index == old(index) - {f.addr}
      ensures chains == old(chains)[b := Without(old(chains[b]), k)]
    {
      hide Hash, Ipv4Addr, Indexed;
      KnownByAddr(chains, index, entries);
      ChainsApart(chains, index, entries, b);
      assert IsChain(nethash[b], b, chains[b], entries);
      Unlink(f, b, k, chains[b]);
      forall c: nat | c < HASH_SIZE && c != b
        ensures IsChain(nethash[c], c, chains[c], entries - {f})
      {
        assert old(IsChain(nethash[c], c, chains[c], entries));
        ghost var t := chains[c];
        assert f in chains[b];
        assert forall e :: e in t ==> e in entries && e !in chains[b] && e != f;
        assert forall e :: e in t ==> e.next == old(e.next) && e.pprev == old(e.pprev);
        assert forall i {:trigger t[i].next} {:trigger t[i].pprev} :: 0 <= i < |t| ==>
          t[i] in t && t[i].next == old(t[i].next) && t[i].pprev == old(t[i].pprev);
      }
      RemovedStaysIndexed(chains, index, entries, b, k);
      entries := entries - {f};
      index := index - {f.addr};
      chains := chains[b := Without(chains[b], k)];
    }

    /** An entry about to be freed: the shortcut is cleared when it points there. */
    method Remove(f: Entry, ghost b: nat, ghost k: nat)
      requires Valid() && b < HASH_SIZE && k < |chains[b]| && f == chains[b][k]
      modifies this, nethash, entries`next, entries`pprev
      ensures Valid() && f in old(entries) && entries == old(entries) - {f} && index == old(index) - {f.addr}
      ensures chains == old(chains)[b := Without(old(chains[b]), k)]
      ensures if old(scdb) == f then scdb == null && scdbMac == ZERO_MAC && scdbIp == ZERO_IP
              else scdb == old(scdb) && scdbMac == old(scdbMac) && scdbIp == old(scdbIp)
    {
      hide Hash, IsChain, Ipv4Addr, Indexed;
      if scdb == f {
        scdbMac, scdbIp, scdb := ZERO_MAC, ZERO_IP, null;
      }
      Detach(f, b, k);
    }

    method AddNew(mac: Mac, a: Addr, now: nat)
      requires Valid() && a !in index
      modifies this`chains, this`entries, this`index, nethash, entries`next, entries`pprev
      ensures Valid() && fresh(entries - old(entries))
      ensures Contents() == InsertDb(old(Contents()), a, mac, now)
    {
      hide Hash, IsChain, Ipv4Addr, Indexed;
      KnownByAddr(chains, index, entries);
      var ent := new Entry(a, mac, now);
      Attach(ent, Hash(a));
      KnownByAddr(chains, index, entries);
      assert forall x :: x in old(index) ==> index[x].AsRec() == old(index[x].AsRec());
    }

    /** `__nat25_db_network_insert`; the allocation succeeds. */
    method Insert(mac: Mac, a: Addr, now: nat)
      requires Valid()
      modifies this`chains, this`entries, this`index, this`history, nethash, entries
      ensures Valid() && fresh(entries - old(entries))
      ensures Contents() == InsertDb(old(Contents()), a, mac, now)
      ensures history == old(history) + [OpInsert(a, mac, now)] && (old(Recorded()) ==> Recorded())
    {
      hide Hash, IsChain, Ipv4Addr, Indexed, Run, InsertDb;
      KnownByAddr(chains, index, entries);
      RunNext(history, OpInsert(a, mac, now), ageing);
      history := history + [OpInsert(a, mac, now)];
      var db := Find(a);
      if db != null {
        Refresh(db, mac, now);
        return;
      }
      AddNew(mac, a, now);
    }

    /** The body of the lookup loop: an entry that has not expired gives its hardware address and counts a use. */
    method Answer(db: Entry, data: array<byte>, now: nat)
      requires Valid() && db in entries && data.Length >= MAC_LEN
      modifies data, db`uses
      ensures Valid() && Contents() == LookupDb(old(Contents()), db.addr, now, ageing)
      ensures data[..] == if Live(old(Contents()), db.addr, now, ageing)
                          then old(Contents())[db.addr].mac.bytes + old(data[..])[MAC_LEN..] else old(data[..])
    {
      hide Hash, IsChain, Ipv4Addr, Indexed, Expired, Inc32;
      KnownByAddr(chains, index, entries);
      if !Expired(db.stamp, now, ageing) {
        forall i | 0 <= i < MAC_LEN {
          data[i] := db.mac.bytes[i];
        }
        db.uses := Inc32(db.uses);
      }
    }

    /** `__nat25_db_network_lookup_and_replace`: the answer says matched, even when nothing was replaced. */
    method LookupAndReplace(data: array<byte>, a: Addr, now: nat) returns (matched: bool)
      requires Valid() && data.Length >= MAC_LEN
      modifies data, entries`uses, this`history
      ensures Valid()
      ensures matched == (a in old(Contents()))
      ensures Contents() == LookupDb(old(Contents()), a, now, ageing)
      ensures data[..] == if Live(old(Contents()), a, now, ageing)
                          then old(Contents())[a].mac.bytes + old(data[..])[MAC_LEN..] else old(data[..])
      ensures history == old(history) + [OpLookup(a, now)] && (old(Recorded()) ==> Recorded())
      ensures old(Recorded()) && Lookups(old(history)) < MAX_USES ==>
        && (matched <==> UsesLeft(old(history), a, ageing) > 0)
        && (matched ==> LastMac(old(history), a).Some?)
        && data[..] == if matched && !Expired(LastTime(old(history), a), now, ageing)
                       then LastMac(old(history), a).value.bytes + old(data[..])[6..] else old(data[..])
    {
      hide Hash, IsChain, Ipv4Addr, Indexed, Expired, Inc32, Run, LastMac, LastTime, UsesLeft, Lookups, Contents;
      KnownByAddr(chains, index, entries);
      KnownKeys();
      RunNext(history, OpLookup(a, now), ageing);
      if Lookups(history) < MAX_USES {
        StoredIsLast(history, a, ageing);
      }
      history := history + [OpLookup(a, now)];
      var db := Find(a);
      if db == null {
        return false;
      }
      Answer(db, data, now);
      return true;
    }

    method Touch(db: Entry, now: nat)
      requires Valid() && db in entries
      modifies db`stamp
      ensures Valid() && Contents() == TouchDb(old(Contents()), db.addr, now) && db.addr in old(Contents())
    {
      hide Hash, IsChain, Ipv4Addr, Indexed;
      KnownByAddr(chains, index, entries);
      db.stamp := now;
    }

    /** The one-entry shortcut on the sending side: an IPv4 sender found in the table has its entry refreshed. */
    method Shortcut(source: Mac, ip: Ip, now: nat) returns (handled: bool)
      requires Valid()
      modifies this`scdb, this`scdbMac, this`scdbIp, this`history, entries`stamp
      ensures Valid()
      ensures if handled then scdbMac == source && scdb != null && scdb.addr == Ipv4Addr(scdbIp) && (old(scdbMac) != source ==> scdbIp == ip)
              else scdb == null && (scdbMac == source ==> source == ZERO_MAC)
      ensures history == old(history) + (if handled then [OpTouch(Ipv4Addr(scdbIp), now)] else []) && (old(Recorded()) ==> Recorded())
      ensures handled == (if old(scdbMac) == source then old(scdb) != null else Ipv4Addr(ip) in old(Contents()))
      ensures Contents() == if !handled then old(Contents())
        else TouchDb(old(Contents()), Ipv4Addr(if old(scdbMac) == source then old(scdbIp) else ip), now)
    {
      hide Hash, IsChain, Ipv4Addr, Indexed, Run, TouchDb, Contents;
      KnownByAddr(chains, index, entries);
      KnownKeys();
      if scdbMac != source {
        scdb := Find(Ipv4Addr(ip));
        if scdb != null {
          scdbMac, scdbIp := source, ip;
        }
      }
      if scdb != null {
        Touch(scdb, now);
        RunNext(history, OpTouch(Ipv4Addr(scdbIp), now), ageing);
        history := history + [OpTouch(Ipv4Addr(scdbIp), now)];
        return true;
      }
      if scdbMac == source {
        scdbMac, scdbIp := ZERO_MAC, ZERO_IP;
      }
      return false;
    }

    /** The body of the expiry loop. */
    method ExpireEntry(f: Entry, ghost b: nat, ghost k: nat, now: nat) returns (gone: bool)
      requires Valid() && b < HASH_SIZE && k < |chains[b]| && f == chains[b][k]
      modifies this, nethash, entries`next, entries`pprev, entries`uses
      ensures Valid() && f in old(entries) && entries <= old(entries)
      ensures Contents() == ExpireOn(old(Contents()), now, ageing, {f.addr})
      ensures if gone then index == old(index) - {f.addr} && chains == old(chains)[b := Without(old(chains[b]), k)]
              else index == old(index) && chains == old(chains)
    {
      hide Hash, IsChain, Ipv4Addr, Indexed, Expired, Dec32;
      KnownByAddr(chains, index, entries);
      ChainsApart(chains, index, entries, b);
      if Expired(f.stamp, now, ageing) {
        f.uses := Dec32(f.uses);
        if f.uses == 0 {
          Remove(f, b, k);
          return true;
        }
      }
      return false;
    }

    /** One bucket of the expiry scan; `before` is the table the scan started from, `done` the addresses it has seen. */
    method ExpireBucket(i: nat, now: nat, ghost before: Db, ghost done: set<Addr>) returns (ghost seen: set<Addr>)
      requires Valid() && i < HASH_SIZE
      requires Contents() == ExpireOn(before, now, ageing, done)
      requires forall a :: a in done ==> Hash(a) != i
      modifies this, nethash, entries`next, entries`pprev, entries`uses
      ensures Valid() && entries <= old(entries)
      ensures Contents() == ExpireOn(before, now, ageing, seen)
      ensures done <= seen && (forall a :: a in seen && a !in done ==> Hash(a) == i)
      ensures forall a :: a in before && Hash(a) == i ==> a in seen
    {
      hide Hash, IsChain, Ipv4Addr, Indexed, Expired, Dec32, Without, Pending;
      seen := done;
      var f := nethash[i];
      ghost var k := 0;
      PendingFirst(chains, index, entries, i, done);
      ChainHead(nethash[i], i, chains[i], entries);
      while f != null
        invariant Valid() && entries <= old(entries)
        invariant Contents() == ExpireOn(before, now, ageing, seen)
        invariant 0 <= k <= |chains[i]| && f == At(chains[i], k)
        invariant Pending(index, i, chains[i][k..], seen)
        invariant done <= seen && (forall a :: a in seen && a !in done ==> Hash(a) == i)
        decreases |chains[i]| - k
      {
        var g := f.next;
        ghost var a := f.addr;
        ChainTail(nethash[i], i, chains[i], entries, k);
        KnownByAddr(chains, index, entries);
        PendingStep(index, i, chains[i][k..], seen);
        ExpireOneMore(before, now, ageing, seen, a);
        var gone := ExpireEntry(f, i, k, now);
        seen := seen + {a};
        if !gone {
          k := k + 1;
        }
        f := g;
      }
      assert chains[i][k..] == [];
      PendingLast(index, i, seen);
      assert forall a :: a in before && a !in seen ==> a in Contents();
    }

    /** `nat25_db_expire` */
    method Expire(now: nat)
      requires Valid()
      modifies this, nethash, entries
      ensures Valid() && entries <= old(entries)
      ensures Contents() == ExpireDb(old(Contents()), now, ageing)
      ensures history == old(history) + [OpExpire(now)] && (old(Recorded()) ==> Recorded())
    {
      hide Hash, IsChain, Ipv4Addr, Indexed, ExpireOn, Run;
      RunNext(history, OpExpire(now), ageing);
      ghost var longer := history + [OpExpire(now)];
      ghost var before := Contents();
      ghost var seen: set<Addr> := {};
      ExpireNone(before, now, ageing);
      for i := 0 to HASH_SIZE
        invariant Valid() && entries <= old(entries)
        invariant Contents() == ExpireOn(before, now, ageing, seen)
        invariant forall a :: a in seen ==> Hash(a) < i
        invariant forall a :: a in before && Hash(a) < i ==> a in seen
      {
        seen := ExpireBucket(i, now, before, seen);
      }
      ExpireAll(before, now, ageing, seen);
      history := longer;
    }

    /** `nat25_db_cleanup` */
    method Cleanup()
      requires Valid()
      modifies this, nethash, entries
      ensures Valid() && Contents() == map[] && scdb == null
      ensures forall b :: 0 <= b < HASH_SIZE ==> nethash[b] == null
      ensures history == old(history) + [OpCleanup] && (old(Recorded()) ==> Recorded())
    {
      hide Hash, IsChain, Ipv4Addr, Indexed, Run;
      RunNext(history, OpCleanup, ageing);
      ghost var longer := history + [OpCleanup];
      for i := 0 to HASH_SIZE
        invariant Valid() && entries <= old(entries)
        invariant forall b :: 0 <= b < i ==> chains[b] == []
      {
        var f := nethash[i];
        ChainHead(nethash[i], i, chains[i], entries);
        while f != null
          invariant Valid() && entries <= old(entries)
          invariant f == At(chains[i], 0)
          invariant forall b :: 0 <= b < i ==> chains[b] == []
          decreases |chains[i]|
        {
          var g := f.next;
          ChainTail(nethash[i], i, chains[i], entries, 0);
          Remove(f, i, 0);
          f := g;
        }
      }
      EmptyChains(chains, index, entries);
      assert forall b :: 0 <= b < HASH_SIZE ==> IsChain(nethash[b], b, chains[b], entries);
      HeadsOfEmpty(nethash[..], chains, entries);
      history := longer;
    }
  }
}
