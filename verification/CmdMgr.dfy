/** The firmware command manager (`aic_bsp_driver.c`): requests, confirms and timeouts. */
module CmdMgr {
  import opened Machine

  const MAX_QUEUED: int := 8
  const E2A_MSG_LEN_MAX: nat := 1024

  const EINTR: int := -4
  const ENOMEM: int := -12
  const EPIPE: int := -32
  const ETIMEDOUT: int := -110

  datatype Flags = Flags(nonblock: bool, reqCfm: bool, waitPush: bool, waitAck: bool, waitCfm: bool, done: bool)

  /** tkn numbers the accepted commands; unlinked and completed count how often that happened; returned is what the caller got. */
  datatype Cmd = Cmd(
    reqid: nat, flags: Flags, result: int, wantsReply: bool, reply: seq<byte>,
    tkn: nat, unlinked: nat, completed: nat, returned: Option<int>)

  type Id = nat

  /** Commands by their address, the waiting list, and the order in which confirms took commands. */
  datatype Mgr = Mgr(heap: map<Id, Cmd>, list: seq<Id>, queueSz: int, crashed: bool, nextTkn: nat, confirmed: seq<Id>)

  /** RWNX_CMD_WAIT_COMPLETE: nothing more to wait for. */
  predicate WaitComplete(f: Flags) {
    !(f.waitAck || f.waitCfm)
  }

  predicate WellFormed(m: Mgr) {
    forall c :: c in m.list ==> c in m.heap
  }

  function Unlisted(s: seq<Id>, c: Id): seq<Id> {
    if s == [] then [] else if s[0] == c then s[1..] else [s[0]] + Unlisted(s[1..], c)
  }

  // ----- what each section under the lock does -----

  /** `cmd_complete` */
  function Complete(m: Mgr, c: Id): Mgr
    requires c in m.heap
  {
    var k := m.heap[c].(flags := m.heap[c].flags.(done := true), unlinked := m.heap[c].unlinked + 1);
    var r := if !k.flags.nonblock && WaitComplete(k.flags) then k.(result := 0, completed := k.completed + 1) else k;
    m.(heap := m.heap[c := r], list := Unlisted(m.list, c), queueSz := m.queueSz - 1)
  }

  /** The command flags as `rwnx_send_msg` sets them up: blocking, and waiting for a confirm. */
  const REQUEST: Flags := Flags(false, true, false, false, false, false)

  predicate Defers(m: Mgr)
    requires WellFormed(m)
  {
    m.list != [] && var last := m.heap[m.list[|m.list| - 1]].flags; last.waitAck || last.waitPush
  }

  /** What `cmd_mgr_queue` decides before it waits. */
  function QueueError(m: Mgr): int {
    if m.crashed then EPIPE else if m.list != [] && m.queueSz == MAX_QUEUED then ENOMEM else 0
  }

  function Submit(m: Mgr, c: Id, reqid: nat, wantsReply: bool): Mgr
    requires WellFormed(m)
  {
    var err := QueueError(m);
    if err != 0 then m.(heap := m.heap[c := Cmd(reqid, REQUEST, err, wantsReply, [], 0, 0, 0, Some(err))])
    else
      var f := REQUEST.(waitPush := Defers(m), waitCfm := REQUEST.reqCfm);
      m.(heap := m.heap[c := Cmd(reqid, f, EINTR, wantsReply, [], m.nextTkn, 0, 0, None)],
         list := m.list + [c], queueSz := m.queueSz + 1, nextTkn := m.nextTkn + 1)
  }

  /** A listed command takes a confirm when the id is its own, it waits for one, and the callback does not reject it. */
  predicate Takes(m: Mgr, c: Id, id: nat, reject: set<Id>) {
    c in m.heap && m.heap[c].reqid == id && m.heap[c].flags.waitCfm && c !in reject
  }

  function FirstFrom(m: Mgr, i: nat, id: nat, reject: set<Id>): (j: nat)
    requires i <= |m.list|
    ensures i <= j <= |m.list|
    ensures j < |m.list| ==> Takes(m, m.list[j], id, reject)
    ensures forall k :: i <= k < j ==> !Takes(m, m.list[k], id, reject)
    decreases |m.list| - i
  {
    if i == |m.list| || Takes(m, m.list[i], id, reject) then i else FirstFrom(m, i + 1, id, reject)
  }

  function Answered(k: Cmd, param: seq<byte>): Cmd {
    var p := if |param| > E2A_MSG_LEN_MAX then param[..E2A_MSG_LEN_MAX] else param;
    k.(flags := k.flags.(waitCfm := false), reply := if k.wantsReply && p != [] then p else k.reply)
  }

  /** Command c takes the confirm. */
  function Taken(m: Mgr, c: Id, param: seq<byte>): Mgr
    requires c in m.heap
  {
    var k := Answered(m.heap[c], param);
    var n := m.(heap := m.heap[c := k], confirmed := m.confirmed + [c]);
    if WaitComplete(k.flags) then Complete(n, c) else n
  }

  /** `cmd_mgr_msgind` */
  function Confirm(m: Mgr, id: nat, param: seq<byte>, reject: set<Id>): Mgr {
    var i := FirstFrom(m, 0, id, reject);
    if i == |m.list| then m else Taken(m, m.list[i], param)
  }

  /** The caller of c has waited too long; the confirm may still come first, before the lock is taken. */
  function TimeOut(m: Mgr, c: Id): Mgr
    requires c in m.heap
  {
    var n := m.(crashed := true);
    var o := if n.heap[c].flags.done then n else Complete(n.(heap := n.heap[c := n.heap[c].(result := ETIMEDOUT)]), c);
    o.(heap := o.heap[c := o.heap[c].(returned := Some(ETIMEDOUT))])
  }

  /** The caller of c is woken by its completion. */
  function Wake(m: Mgr, c: Id): Mgr
    requires c in m.heap
  {
    m.(heap := m.heap[c := m.heap[c].(returned := Some(0))])
  }

  datatype Event =
    | OnSubmit(c: Id, reqid: nat, wantsReply: bool)
    | OnConfirm(id: nat, param: seq<byte>, reject: set<Id>)
    | OnTimeOut(c: Id)
    | OnWake(c: Id)

  /** A new command is a new object; only a caller still waiting can time out, only a completed one be woken. */
  predicate Enabled(m: Mgr, e: Event) {
    match e
    case OnSubmit(c, _, _) => c !in m.heap
    case OnConfirm(_, _, _) => true
    case OnTimeOut(c) => c in m.heap && m.heap[c].returned.None?
    case OnWake(c) => c in m.heap && m.heap[c].returned.None? && m.heap[c].completed > 0
  }

  function Step(m: Mgr, e: Event): Mgr
    requires WellFormed(m)
  {
    if !Enabled(m, e) then m
    else
      match e
      case OnSubmit(c, reqid, wantsReply) => Submit(m, c, reqid, wantsReply)
      case OnConfirm(id, param, reject) => Confirm(m, id, param, reject)
      case OnTimeOut(c) => TimeOut(m, c)
      case OnWake(c) => Wake(m, c)
  }

  // ----- the invariant -----

  /** A command on the list: it waits for its confirm only, and nothing has happened to it. */
  predicate Waiting(k: Cmd, nextTkn: nat) {
    && k.flags == REQUEST.(waitCfm := true)
    && k.unlinked == 0 && k.completed == 0 && k.returned.None? && k.tkn < nextTkn
  }

  predicate Refused(k: Cmd) {
    (k.returned == Some(EPIPE) || k.returned == Some(ENOMEM)) && k.unlinked == 0 && k.completed == 0 && k.flags == REQUEST
  }

  /** A command that left the list: unlinked once, completed once if it was confirmed and never otherwise. */
  predicate Finished(k: Cmd) {
    && k.flags.(waitCfm := false) == REQUEST.(done := true) && k.unlinked == 1
    && (if k.flags.waitCfm then k.completed == 0 && k.result == ETIMEDOUT && k.returned == Some(ETIMEDOUT)
        else k.completed == 1 && k.result == 0 && (k.returned.None? || k.returned == Some(0) || k.returned == Some(ETIMEDOUT)))
  }

  /** The list is in the order of acceptance; in particular nothing is listed twice. */
  ghost predicate Ordered(heap: map<Id, Cmd>, list: seq<Id>) {
    && (forall i :: 0 <= i < |list| ==> list[i] in heap)
    && (forall i, j :: 0 <= i < j < |list| ==> heap[list[i]].tkn < heap[list[j]].tkn)
  }

  ghost predicate Settled(heap: map<Id, Cmd>, list: seq<Id>, nextTkn: nat) {
    && (forall c :: c in list ==> c in heap && Waiting(heap[c], nextTkn))
    && (forall c :: c in heap && c !in list ==> Refused(heap[c]) || Finished(heap[c]))
  }

  ghost predicate Counted(heap: map<Id, Cmd>, confirmed: seq<Id>, nextTkn: nat) {
    && (forall c :: c in confirmed ==> c in heap && heap[c].completed == 1 && heap[c].tkn < nextTkn)
    && (forall i, j :: 0 <= i < j < |confirmed| ==> confirmed[i] != confirmed[j])
  }

  ghost predicate Inv(m: Mgr) {
    && WellFormed(m)
    && m.queueSz == |m.list| <= MAX_QUEUED
    && Ordered(m.heap, m.list)
    && Settled(m.heap, m.list, m.nextTkn)
    && Counted(m.heap, m.confirmed, m.nextTkn)
  }

  lemma {:induction false} UnlistedIsCut(s: seq<Id>, i: nat)
    requires i < |s| && forall a, b :: 0 <= a < b < |s| ==> s[a] != s[b]
    ensures Unlisted(s, s[i]) == s[..i] + s[i + 1..]
  {
    if i > 0 {
      assert s[1..][i - 1] == s[i];
      UnlistedIsCut(s[1..], i - 1);
      assert s[..i] == [s[0]] + s[1..][..i - 1] && s[i + 1..] == s[1..][i..];
    }
  }

  lemma UnlistedAt(s: seq<Id>, i: nat)
    requires i < |s| && forall a, b :: 0 <= a < b < |s| ==> s[a] != s[b]
    ensures Unlisted(s, s[i]) == s[..i] + s[i + 1..]
    ensures forall c :: c in Unlisted(s, s[i]) <==> c in s && c != s[i]
  {
    hide Unlisted;
    UnlistedIsCut(s, i);
    CutMembers(s, i);
  }

  lemma CutMembers(s: seq<Id>, i: nat)
    requires i < |s| && forall a, b :: 0 <= a < b < |s| ==> s[a] != s[b]
    ensures forall c :: c in s[..i] + s[i + 1..] <==> c in s && c != s[i]
  {
    var r := s[..i] + s[i + 1..];
    forall c | c in s && c != s[i]
      ensures c in r
    {
      var j :| 0 <= j < |s| && s[j] == c;
      assert r[if j < i then j else j - 1] == c;
    }
    forall c | c in r
      ensures c in s && c != s[i]
    {
      var j :| 0 <= j < |r| && r[j] == c;
      assert s[if j < i then j else j + 1] == c;
    }
  }

  /** after is before with one occurrence of c taken out, the others in order. */
  ghost predicate CutOut(before: seq<Id>, after: seq<Id>, c: Id) {
    exists i :: 0 <= i < |before| && before[i] == c && after == before[..i] + before[i + 1..]
  }

  lemma CutOutIsUnlisted(before: seq<Id>, after: seq<Id>, c: Id)
    requires forall i, j :: 0 <= i < j < |before| ==> before[i] != before[j]
    ensures CutOut(before, after, c) <==> c in before && after == Unlisted(before, c)
    ensures CutOut(before, after, c) ==> c !in after
  {
    hide Unlisted;
    forall i | 0 <= i < |before| && before[i] == c
      ensures Unlisted(before, c) == before[..i] + before[i + 1..] && c !in Unlisted(before, c)
    {
      UnlistedAt(before, i);
    }
  }

  lemma OrderedUnlisted(heap: map<Id, Cmd>, list: seq<Id>, i: nat, k: Cmd)
    requires Ordered(heap, list) && i < |list|
    ensures Ordered(heap[list[i] := k], list[..i] + list[i + 1..])
    ensures forall a, b :: 0 <= a < b < |list| ==> list[a] != list[b]
  {
    var n := list[..i] + list[i + 1..];
    forall a | 0 <= a < |n|
      ensures n[a] == list[if a < i then a else a + 1] && n[a] in heap && n[a] != list[i]
    {
      var b := if a < i then a else a + 1;
      assert n[a] == list[b];
      assert heap[list[b]].tkn != heap[list[i]].tkn;
    }
  }

  /** A listed command taken off the list for good. */
  lemma RetireKeeps(m: Mgr, i: nat, k: Cmd, crashed: bool, confirmed: seq<Id>)
    requires Inv(m) && i < |m.list| && Finished(k) && k.tkn == m.heap[m.list[i]].tkn
    requires (confirmed == m.confirmed && k.completed == 0) || (confirmed == m.confirmed + [m.list[i]] && k.completed == 1)
    ensures var c := m.list[i]; Inv(Mgr(m.heap[c := k], Unlisted(m.list, c), m.queueSz - 1, crashed, m.nextTkn, confirmed))
  {
    hide Finished, Refused, Waiting, Ordered, Unlisted;
    var c := m.list[i];
    OrderedUnlisted(m.heap, m.list, i, k);
    UnlistedAt(m.list, i);
    assert c in m.list;
    NotYetCompleted(m, c);
  }

  lemma NotYetCompleted(m: Mgr, c: Id)
    requires Inv(m) && c in m.list
    ensures m.heap[c].completed == 0 && c !in m.confirmed && m.heap[c].tkn < m.nextTkn
  {
  }

  lemma OrderedAppend(heap: map<Id, Cmd>, list: seq<Id>, c: Id, k: Cmd)
    requires Ordered(heap, list) && c !in heap && forall d :: d in list ==> d in heap && heap[d].tkn < k.tkn
    ensures Ordered(heap[c := k], list + [c])
    ensures Ordered(heap[c := k], list)
  {
    var n := list + [c];
    forall a | 0 <= a < |list|
      ensures list[a] != c && n[a] == list[a] && list[a] in list
    {
    }
  }

  lemma SubmitKeeps(m: Mgr, c: Id, reqid: nat, wantsReply: bool)
    requires Inv(m) && c !in m.heap
    ensures Inv(Submit(m, c, reqid, wantsReply))
  {
    hide Ordered, Settled, Counted, Finished;
    var n := Submit(m, c, reqid, wantsReply);
    NeverDefers(m);
    SubmitSettled(m.heap, m.list, m.nextTkn, m.confirmed, c, n.heap[c]);
    if QueueError(m) == 0 {
      OrderedAppend(m.heap, m.list, c, n.heap[c]);
    } else {
      OrderedAway(m.heap, m.list, c, n.heap[c]);
    }
  }

  lemma SubmitSettled(heap: map<Id, Cmd>, list: seq<Id>, nextTkn: nat, confirmed: seq<Id>, c: Id, k: Cmd)
    requires Settled(heap, list, nextTkn) && Counted(heap, confirmed, nextTkn) && c !in heap
    ensures forall d :: d in list ==> d in heap && heap[d].tkn < nextTkn
    ensures Waiting(k, nextTkn + 1) ==> Settled(heap[c := k], list + [c], nextTkn + 1)
    ensures Refused(k) ==> Settled(heap[c := k], list, nextTkn)
    ensures Counted(heap[c := k], confirmed, nextTkn) && Counted(heap[c := k], confirmed, nextTkn + 1)
    ensures c !in list
  {
    hide Finished, Refused;
    assert c !in list && forall d :: d in list + [c] <==> d in list || d == c;
  }

  lemma OrderedAway(heap: map<Id, Cmd>, list: seq<Id>, c: Id, k: Cmd)
    requires Ordered(heap, list) && (c !in list || (c in heap && k.tkn == heap[c].tkn))
    ensures Ordered(heap[c := k], list)
  {
    assert forall a :: 0 <= a < |list| ==> list[a] in list;
  }

  /** No command ever waits for an acknowledgement or a push, so the deferring branch is never taken. */
  lemma NeverDefers(m: Mgr)
    requires Inv(m)
    ensures !Defers(m)
  {
    if m.list != [] {
      assert m.list[|m.list| - 1] in m.list;
    }
  }

  lemma ListedWaits(m: Mgr, c: Id)
    requires Inv(m) && c in m.list
    ensures c in m.heap && Waiting(m.heap[c], m.nextTkn)
  {
  }

  lemma TakenKeeps(m: Mgr, i: nat, param: seq<byte>)
    requires Inv(m) && i < |m.list|
    ensures Inv(Taken(m, m.list[i], param))
  {
    hide Unlisted, Ordered;
    var c := m.list[i];
    assert c in m.list;
    var n := Taken(m, c, param);
    assert n == Mgr(m.heap[c := n.heap[c]], Unlisted(m.list, c), m.queueSz - 1, m.crashed, m.nextTkn, m.confirmed + [c]);
    RetireKeeps(m, i, n.heap[c], m.crashed, m.confirmed + [c]);
  }

  /** The effects of taking a confirm, one by one, are all there is to it. */
  lemma TakenIs(m: Mgr, n: Mgr, c: Id, param: seq<byte>)
    requires Inv(m) && c in m.list
    requires CutOut(m.list, n.list, c) && n.queueSz == m.queueSz - 1 && n.confirmed == m.confirmed + [c]
    requires n.crashed == m.crashed && n.nextTkn == m.nextTkn
    requires n.heap.Keys == m.heap.Keys && forall d :: d in n.heap && d != c ==> n.heap[d] == m.heap[d]
    requires n.heap[c] == m.heap[c].(flags := REQUEST.(done := true), unlinked := 1, completed := 1, result := 0, reply := n.heap[c].reply)
    requires n.heap[c].reply == if !n.heap[c].wantsReply || param == [] then m.heap[c].reply
                                else if |param| <= E2A_MSG_LEN_MAX then param else param[..E2A_MSG_LEN_MAX]
    ensures n == Taken(m, c, param) && Inv(n) && c !in n.list
  {
    hide Ordered, Counted, Unlisted, CutOut;
    NoRepeats(m.heap, m.list);
    ListedWaits(m, c);
    CutOutIsUnlisted(m.list, n.list, c);
    var i :| 0 <= i < |m.list| && m.list[i] == c;
    TakenKeeps(m, i, param);
    assert n.heap == Taken(m, c, param).heap;
  }

  /** The same for a timeout that finds its command listed. */
  lemma TimeOutIs(m: Mgr, n: Mgr, c: Id)
    requires Inv(m) && c in m.list && CutOut(m.list, n.list, c) && n.queueSz == m.queueSz - 1
    requires n.confirmed == m.confirmed && n.crashed && n.nextTkn == m.nextTkn
    requires n.heap.Keys == m.heap.Keys && forall d :: d in n.heap && d != c ==> n.heap[d] == m.heap[d]
    requires n.heap[c] == m.heap[c].(flags := m.heap[c].flags.(done := true), unlinked := 1, result := ETIMEDOUT, returned := Some(ETIMEDOUT))
    ensures n == TimeOut(m, c)
  {
    hide Ordered, Counted, Unlisted, CutOut;
    NoRepeats(m.heap, m.list);
    ListedWaits(m, c);
    CutOutIsUnlisted(m.list, n.list, c);
    assert n.heap == TimeOut(m, c).heap;
  }

  lemma LateTimeOutIs(m: Mgr, c: Id)
    requires c in m.heap && m.heap[c].flags.done
    ensures TimeOut(m, c) == m.(crashed := true, heap := m.heap[c := m.heap[c].(returned := Some(ETIMEDOUT))])
  {
  }

  lemma NotListedIsDone(m: Mgr, c: Id)
    requires Inv(m) && c in m.heap && m.heap[c].returned.None?
    ensures m.heap[c].flags.done <==> c !in m.list
  {
  }

  lemma ConfirmKeeps(m: Mgr, id: nat, param: seq<byte>, reject: set<Id>)
    requires Inv(m)
    ensures Inv(Confirm(m, id, param, reject))
  {
    var i := FirstFrom(m, 0, id, reject);
    if i < |m.list| {
      TakenKeeps(m, i, param);
    }
  }

  lemma TimeOutKeeps(m: Mgr, c: Id)
    requires Inv(m) && c in m.heap && m.heap[c].returned.None?
    ensures Inv(TimeOut(m, c))
  {
    hide Ordered, Unlisted;
    var n := TimeOut(m, c);
    if c in m.list {
      var i :| 0 <= i < |m.list| && m.list[i] == c;
      assert n == Mgr(m.heap[c := n.heap[c]], Unlisted(m.list, c), m.queueSz - 1, true, m.nextTkn, m.confirmed);
      RetireKeeps(m, i, n.heap[c], true, m.confirmed);
    } else {
      OrderedAway(m.heap, m.list, c, n.heap[c]);
    }
  }

  lemma StepKeeps(m: Mgr, e: Event)
    requires Inv(m)
    ensures Inv(Step(m, e))
  {
    hide Submit, Confirm, TimeOut;
    if Enabled(m, e) {
      match e
      case OnSubmit(c, reqid, wantsReply) => SubmitKeeps(m, c, reqid, wantsReply);
      case OnConfirm(id, param, reject) => ConfirmKeeps(m, id, param, reject);
      case OnTimeOut(c) => TimeOutKeeps(m, c);
      case OnWake(c) =>
    }
  }

  // ----- whole runs -----

  const INIT: Mgr := Mgr(map[], [], 0, false, 0, [])

  ghost function Run(events: seq<Event>): (m: Mgr)
    ensures Inv(m)
  {
    if events == [] then INIT
    else
      var m := Run(events[..|events| - 1]);
      StepKeeps(m, events[|events| - 1]);
      Step(m, events[|events| - 1])
  }

  /** In every run: a bounded list counted exactly, commands that wait for confirms only, and nothing done twice. */
  lemma RunsAreSafe(events: seq<Event>)
    ensures var m := Run(events);
      && m.queueSz == |m.list| <= 8
      && !Defers(m)
      && (forall i, j :: 0 <= i < j < |m.list| ==> m.list[i] != m.list[j])
      && (forall c :: c in m.list ==> m.heap[c].flags.waitCfm && !m.heap[c].flags.done)
      && (forall c :: c in m.heap ==> !m.heap[c].flags.waitAck && !m.heap[c].flags.waitPush)
      && (forall c :: c in m.heap ==> m.heap[c].completed <= m.heap[c].unlinked <= 1)
      && (forall c :: c in m.heap && c !in m.list && m.heap[c].returned.None? ==> m.heap[c].completed == 1)
      && (forall c :: c in m.heap && m.heap[c].returned == Some(0) ==> m.heap[c].completed == 1 && m.heap[c].result == 0)
  {
    hide Run, Defers, Ordered;
    var m := Run(events);
    NeverDefers(m);
    NoRepeats(m.heap, m.list);
    assert forall c :: c in m.heap ==> Waiting(m.heap[c], m.nextTkn) || Refused(m.heap[c]) || Finished(m.heap[c]);
  }

  lemma NoRepeats(heap: map<Id, Cmd>, list: seq<Id>)
    requires Ordered(heap, list)
    ensures forall i, j :: 0 <= i < j < |list| ==> list[i] != list[j]
  {
  }

  /**
   * A confirm goes to the oldest waiting command of its id whose callback does not reject it; that one leaves the
   * list completed, and no other is touched.
   */
  lemma ConfirmTakesOldest(m: Mgr, id: nat, param: seq<byte>, reject: set<Id>, c: Id)
    requires Inv(m) && c in m.list && m.heap[c].reqid == id && c !in reject
    requires forall d :: d in m.list && m.heap[d].reqid == id && d !in reject ==> m.heap[c].tkn <= m.heap[d].tkn
    ensures var n := Confirm(m, id, param, reject);
      && c !in n.list && n.confirmed == m.confirmed + [c] && n.queueSz == m.queueSz - 1
      && n.heap[c].completed == 1 && n.heap[c].result == 0 && n.heap[c].flags.done
      && (forall d :: d != c ==> (d in n.list <==> d in m.list))
      && n.heap.Keys == m.heap.Keys && (forall d :: d in m.heap && d != c ==> n.heap[d] == m.heap[d])
  {
    hide Unlisted, Ordered;
    ListedWaits(m, c);
    OldestIsFirst(m, id, reject, c);
    NoRepeats(m.heap, m.list);
    UnlistedAt(m.list, FirstFrom(m, 0, id, reject));
  }

  lemma OldestIsFirst(m: Mgr, id: nat, reject: set<Id>, c: Id)
    requires Inv(m) && c in m.list && Takes(m, c, id, reject)
    requires forall d :: d in m.list && m.heap[d].reqid == id && d !in reject ==> m.heap[c].tkn <= m.heap[d].tkn
    ensures var i := FirstFrom(m, 0, id, reject); i < |m.list| && m.list[i] == c
  {
    var i := FirstFrom(m, 0, id, reject);
    var k :| 0 <= k < |m.list| && m.list[k] == c;
    assert i <= k;
    assert m.list[i] in m.list;
  }

  lemma ConfirmForNobody(m: Mgr, id: nat, param: seq<byte>, reject: set<Id>)
    requires WellFormed(m) && forall c :: c in m.list ==> m.heap[c].reqid != id || c in reject
    ensures Confirm(m, id, param, reject) == m
  {
  }

  /** Once crashed, always crashed: every submission is refused and the list never grows. */
  lemma CrashedForGood(m: Mgr, e: Event)
    requires Inv(m) && m.crashed
    ensures var n := Step(m, e);
      && n.crashed
      && (forall c :: c in n.list ==> c in m.list)
      && (e.OnSubmit? && Enabled(m, e) ==> n.list == m.list && n.heap[e.c].returned == Some(EPIPE))
  {
    hide Unlisted;
    NoRepeats(m.heap, m.list);
    forall i | 0 <= i < |m.list|
      ensures forall c :: c in Unlisted(m.list, m.list[i]) ==> c in m.list
    {
      UnlistedAt(m.list, i);
    }
    match e
    case OnTimeOut(c) =>
      if Enabled(m, e) && !m.heap[c].flags.done {
        assert c in m.list;
      }
    case _ =>
  }

  /** A submission is refused exactly when the manager has crashed or eight commands wait; otherwise it goes last. */
  lemma SubmissionOutcome(m: Mgr, c: Id, reqid: nat, wantsReply: bool)
    requires Inv(m) && c !in m.heap
    ensures var n := Submit(m, c, reqid, wantsReply);
      if m.crashed then n.list == m.list && n.heap[c].returned == Some(-32)
      else if |m.list| == 8 then n.list == m.list && n.heap[c].returned == Some(-12)
      else n.list == m.list + [c] && n.heap[c].returned.None? && n.heap[c].flags.waitCfm && !n.heap[c].flags.waitPush
  {
    NeverDefers(m);
  }

  /**
   * A timeout always crashes the manager and fails its caller, even when the confirm came between the wait and
   * the lock; only then was the command completed, and it is not unlinked a second time.
   */
  lemma TimeOutOutcome(m: Mgr, c: Id)
    requires Inv(m) && c in m.heap && m.heap[c].returned.None?
    ensures var n := TimeOut(m, c);
      && n.crashed && n.heap[c].returned == Some(-110) && n.heap[c].unlinked == 1 && c !in n.list
      && (if c in m.list then n.heap[c].completed == 0 && n.heap[c].result == ETIMEDOUT
          else n.heap[c].completed == 1 && n.heap[c].result == 0 && n.list == m.list)
  {
    hide Unlisted;
    if c in m.list {
      var i :| 0 <= i < |m.list| && m.list[i] == c;
      NoRepeats(m.heap, m.list);
      UnlistedAt(m.list, i);
    }
  }

  /** Three events after which a command that was confirmed has failed its caller and crashed the manager. */
  lemma ConfirmedYetTimedOut()
    ensures var m := Run([OnSubmit(1, 5, false), OnConfirm(5, [], {}), OnTimeOut(1)]);
      m.crashed && m.confirmed == [1] && 1 in m.heap && m.heap[1].completed == 1 && m.heap[1].returned == Some(-110)
  {
    hide *;
    var m := ConfirmedRun();
    var a, b, c := OnSubmit(1, 5, false), OnConfirm(5, [], {}), OnTimeOut(1);
    assert [a, b] + [c] == [a, b, c];
    RunLast([a, b], c);
    StepLateTimeOut(m, 1);
  }

  /** When the caller is woken first, it succeeds. */
  lemma ConfirmedThenWoken()
    ensures var m := Run([OnSubmit(1, 5, false), OnConfirm(5, [], {}), OnWake(1)]);
      !m.crashed && m.confirmed == [1] && 1 in m.heap && m.heap[1].completed == 1 && m.heap[1].returned == Some(0)
  {
    hide *;
    var m := ConfirmedRun();
    var a, b, c := OnSubmit(1, 5, false), OnConfirm(5, [], {}), OnWake(1);
    assert [a, b] + [c] == [a, b, c];
    RunLast([a, b], c);
    StepWake(m, 1);
  }

  lemma StepLateTimeOut(m: Mgr, c: Id)
    requires WellFormed(m) && c in m.heap && m.heap[c].returned.None? && m.heap[c].flags.done
    ensures Step(m, OnTimeOut(c)) == m.(crashed := true, heap := m.heap[c := m.heap[c].(returned := Some(-110))])
  {
    hide TimeOut;
    LateTimeOutIs(m, c);
  }

  lemma StepWake(m: Mgr, c: Id)
    requires WellFormed(m) && c in m.heap && m.heap[c].returned.None? && m.heap[c].completed > 0
    ensures Step(m, OnWake(c)) == m.(heap := m.heap[c := m.heap[c].(returned := Some(0))])
  {
  }

  lemma RunLast(events: seq<Event>, e: Event)
    ensures WellFormed(Run(events)) && Run(events + [e]) == Step(Run(events), e)
  {
    hide Step;
    assert (events + [e])[..|events|] == events;
  }

  lemma ConfirmedRun() returns (m: Mgr)
    ensures m == Run([OnSubmit(1, 5, false), OnConfirm(5, [], {})])
    ensures m.confirmed == [1] && !m.crashed && 1 in m.heap
    ensures m.heap[1].completed == 1 && m.heap[1].flags.done && m.heap[1].returned.None?
  {
    hide Run;
    var a, b := OnSubmit(1, 5, false), OnConfirm(5, [], {});
    RunLast([], a);
    RunLast([a], b);
    assert Run([]) == INIT by { NoEvents(); }
    assert [] + [a] == [a] && [a] + [b] == [a, b];
    var m1 := Run([a]);
    assert m1.list == [1] && m1.heap[1].flags.waitCfm && FirstFrom(m1, 0, 5, {}) == 0;
    m := Run([a, b]);
  }

  lemma NoEvents()
    ensures Run([]) == INIT
  {
  }

  // ----- what the callers get -----

  /** A caller that was still waiting has timed out. */
  ghost function TimedOutBefore(events: seq<Event>): bool {
    events != [] &&
    var pre, e := events[..|events| - 1], events[|events| - 1];
    TimedOutBefore(pre) || (e.OnTimeOut? && Accepted(pre, e.c) && AnswerTo(pre, e.c).None?)
  }

  /** c has been submitted; what became of it is another matter. */
  ghost function Accepted(events: seq<Event>, c: Id): bool {
    events != [] && (Accepted(events[..|events| - 1], c) || (events[|events| - 1].OnSubmit? && events[|events| - 1].c == c))
  }

  /** c has left the list because a confirm came for it. */
  ghost predicate ConfirmedBefore(events: seq<Event>, c: Id) {
    c in Run(events).confirmed
  }

  /**
   * What the caller of c is told, by the first thing that ends its wait: -32 or -12 when its submission is
   * refused, -110 when it times out, and 0 when it is woken, which takes a confirm.
   */
  ghost function AnswerTo(events: seq<Event>, c: Id): Option<int> {
    if events == [] then None
    else
      var pre, e := events[..|events| - 1], events[|events| - 1];
      if AnswerTo(pre, c).Some? then AnswerTo(pre, c)
      else if e.OnSubmit? && e.c == c && !Accepted(pre, c) then
        if TimedOutBefore(pre) then Some(-32) else if |Run(pre).list| == 8 then Some(-12) else None
      else if e.OnTimeOut? && e.c == c && Accepted(pre, c) then Some(-110)
      else if e.OnWake? && e.c == c && ConfirmedBefore(pre, c) then Some(0)
      else None
  }

  ghost predicate AnswersAre(m: Mgr, events: seq<Event>) {
    m.crashed == TimedOutBefore(events) && forall c :: AnswerIs(m, events, c)
  }

  ghost predicate AnswerIs(m: Mgr, events: seq<Event>, c: Id) {
    && (c in m.heap <==> Accepted(events, c))
    && AnswerTo(events, c) == (if c in m.heap then m.heap[c].returned else None)
    && (ConfirmedBefore(events, c) <==> c in m.heap && m.heap[c].completed > 0)
  }

  /** In every run each caller has been told exactly that, and the manager has crashed exactly when somebody timed out. */
  lemma {:induction false} AnswersExactly(events: seq<Event>)
    ensures AnswersAre(Run(events), events)
  {
    hide Step, Inv, Told;
    if events != [] {
      var pre, e := events[..|events| - 1], events[|events| - 1];
      AnswersExactly(pre);
      StepTells(Run(pre), e);
      AnswersNext(pre, e, events);
    }
  }

  lemma AnswersNext(pre: seq<Event>, e: Event, events: seq<Event>)
    requires events != [] && pre == events[..|events| - 1] && e == events[|events| - 1]
    requires AnswersAre(Run(pre), pre) && Told(Run(pre), Run(events), e)
    ensures AnswersAre(Run(events), events)
  {
    hide Run, Inv, Accepted, AnswerTo, ConfirmedBefore, Told;
    if e.OnTimeOut? {
      assert AnswerIs(Run(pre), pre, e.c);
    }
    CrashedNext(Run(pre), Run(events), e);
    forall c
      ensures AnswerIs(Run(events), events, c)
    {
      assert AnswerIs(Run(pre), pre, c);
      AnswerNext(pre, e, events, c);
    }
  }

  lemma CrashedNext(m: Mgr, n: Mgr, e: Event)
    requires Told(m, n, e)
    ensures n.crashed == (m.crashed || (e.OnTimeOut? && e.c in m.heap && m.heap[e.c].returned.None?))
  {
  }

  lemma AnswerNext(pre: seq<Event>, e: Event, events: seq<Event>, c: Id)
    requires events != [] && pre == events[..|events| - 1] && e == events[|events| - 1]
    requires Run(pre).crashed == TimedOutBefore(pre) && AnswerIs(Run(pre), pre, c) && Told(Run(pre), Run(events), e)
    ensures AnswerIs(Run(events), events, c)
  {
    hide Run, Inv;
  }

  /** What one event means for the answers. */
  ghost predicate Told(m: Mgr, n: Mgr, e: Event) {
    && n.crashed == (m.crashed || (e.OnTimeOut? && e.c in m.heap && m.heap[e.c].returned.None?))
    && n.heap.Keys == (if e.OnSubmit? then m.heap.Keys + {e.c} else m.heap.Keys)
    && (forall c :: c in m.heap ==>
         n.heap[c].returned ==
         (if m.heap[c].returned.None? && e.OnTimeOut? && e.c == c then Some(-110)
          else if m.heap[c].returned.None? && e.OnWake? && e.c == c && m.heap[c].completed > 0 then Some(0)
          else m.heap[c].returned))
    && (e.OnSubmit? && e.c !in m.heap ==>
         n.heap[e.c].completed == 0 && n.heap[e.c].returned ==
         (if m.crashed then Some(-32) else if |m.list| == 8 then Some(-12) else None))
    && (forall c :: c in m.heap ==>
         (n.heap[c].completed > 0 <==> m.heap[c].completed > 0 || (c in n.confirmed && c !in m.confirmed)))
    && (forall c :: c in m.confirmed ==> c in n.confirmed)
    && (forall c :: c in n.confirmed ==> c in m.confirmed || c in m.heap)
  }

  lemma StepTells(m: Mgr, e: Event)
    requires Inv(m)
    ensures Told(m, Step(m, e), e)
  {
    hide Submit, Confirm, TimeOut, Told, Inv, Wake;
    if !Enabled(m, e) {
      NothingTold(m, e);
    } else {
      match e
      case OnSubmit(_, _, _) => SubmitTells(m, e);
      case OnConfirm(_, _, _) => ConfirmTells(m, e);
      case OnTimeOut(_) => TimeOutTells(m, e);
      case OnWake(_) => WakeTells(m, e);
    }
  }

  lemma NothingTold(m: Mgr, e: Event)
    requires Inv(m) && !Enabled(m, e)
    ensures Told(m, m, e)
  {
  }

  lemma SubmitTells(m: Mgr, e: Event)
    requires Inv(m) && e.OnSubmit? && e.c !in m.heap
    ensures Told(m, Submit(m, e.c, e.reqid, e.wantsReply), e)
  {
    NeverDefers(m);
  }

  lemma ConfirmTells(m: Mgr, e: Event)
    requires Inv(m) && e.OnConfirm?
    ensures Told(m, Confirm(m, e.id, e.param, e.reject), e)
  {
    hide Unlisted, Ordered, Takes;
    var i := FirstFrom(m, 0, e.id, e.reject);
    if i < |m.list| {
      assert m.list[i] in m.list;
    }
  }

  lemma TimeOutTells(m: Mgr, e: Event)
    requires Inv(m) && e.OnTimeOut? && Enabled(m, e)
    ensures Told(m, TimeOut(m, e.c), e)
  {
    hide Unlisted, Ordered;
    NotListedIsDone(m, e.c);
  }

  lemma WakeTells(m: Mgr, e: Event)
    requires Inv(m) && e.OnWake? && Enabled(m, e)
    ensures Told(m, Wake(m, e.c), e)
  {
  }

  // ----- confirms of one kind complete commands in the order they were accepted -----

  /** Of one kind, c was accepted first. */
  predicate Earlier(heap: map<Id, Cmd>, c: Id, d: Id) {
    c in heap && d in heap && (heap[c].reqid == heap[d].reqid ==> heap[c].tkn < heap[d].tkn)
  }

  ghost predicate InOrder(m: Mgr) {
    && (forall i, j :: 0 <= i < j < |m.confirmed| ==> Earlier(m.heap, m.confirmed[i], m.confirmed[j]))
    && (forall c, d :: c in m.confirmed && d in m.list ==> Earlier(m.heap, c, d))
  }

  lemma {:induction false} CompletedInOrder(events: seq<Event>)
    requires forall e :: e in events && e.OnConfirm? ==> e.reject == {}
    ensures InOrder(Run(events))
  {
    if events != [] {
      var pre, e := events[..|events| - 1], events[|events| - 1];
      assert forall x :: x in pre ==> x in events;
      CompletedInOrder(pre);
      assert e in events;
      StepInOrder(Run(pre), e);
    }
  }

  lemma StepInOrder(m: Mgr, e: Event)
    requires Inv(m) && InOrder(m) && (e.OnConfirm? ==> e.reject == {})
    ensures InOrder(Step(m, e))
  {
    hide Submit, Confirm, TimeOut, Inv, Earlier;
    if Enabled(m, e) {
      match e
      case OnSubmit(c, reqid, wantsReply) => SubmitInOrder(m, c, reqid, wantsReply);
      case OnConfirm(id, param, reject) => ConfirmInOrder(m, id, param);
      case OnTimeOut(c) => TimeOutInOrder(m, c);
      case OnWake(c) => EarlierKept(m.heap, Wake(m, c).heap);
    }
  }

  predicate SameNumbers(before: map<Id, Cmd>, after: map<Id, Cmd>) {
    forall c :: c in before ==> c in after && after[c].tkn == before[c].tkn && after[c].reqid == before[c].reqid
  }

  lemma EarlierKept(before: map<Id, Cmd>, after: map<Id, Cmd>)
    requires SameNumbers(before, after)
    ensures forall c, d :: Earlier(before, c, d) ==> Earlier(after, c, d)
  {
  }

  lemma SubmitInOrder(m: Mgr, c: Id, reqid: nat, wantsReply: bool)
    requires Inv(m) && InOrder(m) && c !in m.heap
    ensures InOrder(Submit(m, c, reqid, wantsReply))
  {
    hide Earlier, Settled, Ordered;
    var n := Submit(m, c, reqid, wantsReply);
    EarlierKept(m.heap, n.heap);
    if QueueError(m) == 0 {
      assert forall d :: d in n.list <==> d in m.list || d == c;
      NewestIsLast(m, c, n.heap[c]);
    }
  }

  lemma NewestIsLast(m: Mgr, c: Id, k: Cmd)
    requires Inv(m) && k.tkn == m.nextTkn && c !in m.heap
    ensures forall d :: d in m.confirmed ==> Earlier(m.heap[c := k], d, c)
  {
  }

  lemma TimeOutInOrder(m: Mgr, c: Id)
    requires Inv(m) && InOrder(m) && c in m.heap && m.heap[c].returned.None?
    ensures InOrder(TimeOut(m, c))
  {
    hide Unlisted, Earlier;
    if c in m.list {
      var i :| 0 <= i < |m.list| && m.list[i] == c;
      NoRepeats(m.heap, m.list);
      UnlistedAt(m.list, i);
    }
    EarlierKept(m.heap, TimeOut(m, c).heap);
  }

  lemma ConfirmInOrder(m: Mgr, id: nat, param: seq<byte>)
    requires Inv(m) && InOrder(m)
    ensures InOrder(Confirm(m, id, param, {}))
  {
    hide Unlisted, Earlier, Ordered, Takes;
    var i := FirstFrom(m, 0, id, {});
    if i < |m.list| {
      var c := m.list[i];
      var n := Confirm(m, id, param, {});
      NoRepeats(m.heap, m.list);
      UnlistedAt(m.list, i);
      FirstIsEarliest(m, id, i);
      EarlierKept(m.heap, n.heap);
      assert c in m.list && n.confirmed == m.confirmed + [c];
      assert forall d :: d in n.list ==> d in m.list && d != c;
    }
  }

  lemma FirstIsEarliest(m: Mgr, id: nat, i: nat)
    requires Inv(m) && i == FirstFrom(m, 0, id, {}) && i < |m.list|
    ensures forall d :: d in m.list && d != m.list[i] ==> Earlier(m.heap, m.list[i], d)
  {
    assert Takes(m, m.list[i], id, {});
    forall d | d in m.list && d != m.list[i]
      ensures Earlier(m.heap, m.list[i], d)
    {
      var j :| 0 <= j < |m.list| && m.list[j] == d;
      if j < i {
        assert !Takes(m, m.list[j], id, {});
      }
    }
  }

  // ----- the code, section by section -----

  class Manager {
    var heap: map<Id, Cmd>
    var list: seq<Id>
    var queueSz: int
    var crashed: bool
    var nextTkn: nat
    ghost var confirmed: seq<Id>
    var pushed: seq<Id>                  // handed to the transport

    ghost function Abs(): Mgr
      reads this
    {
      Mgr(heap, list, queueSz, crashed, nextTkn, confirmed)
    }

    constructor ()
      ensures Abs() == INIT && pushed == []
    {
      heap, list, queueSz, crashed, nextTkn, confirmed, pushed := map[], [], 0, false, 0, [], [];
    }

    /** `cmd_complete`: c leaves the list, the others keep their order, and its caller is woken if nothing is waited for. */
    method Unlink(c: Id)
      requires c in heap && c in list && forall i, j :: 0 <= i < j < |list| ==> list[i] != list[j]
      modifies this`heap, this`list, this`queueSz
      ensures c !in list && queueSz == old(queueSz) - 1
      ensures CutOut(old(list), list, c)
      ensures heap.Keys == old(heap).Keys && forall d :: d in heap && d != c ==> heap[d] == old(heap)[d]
      ensures var k := old(heap)[c];
        heap[c] == if k.flags.nonblock || k.flags.waitAck || k.flags.waitCfm
                   then k.(flags := k.flags.(done := true), unlinked := k.unlinked + 1)
                   else k.(flags := k.flags.(done := true), unlinked := k.unlinked + 1, result := 0, completed := k.completed + 1)
    {
      CutOutIsUnlisted(list, Unlisted(list, c), c);
      list := Unlisted(list, c);
      queueSz := queueSz - 1;
      var k := heap[c];
      k := k.(flags := k.flags.(done := true), unlinked := k.unlinked + 1);
      if !k.flags.nonblock && WaitComplete(k.flags) {
        k := k.(result := 0, completed := k.completed + 1);
      }
      heap := heap[c := k];
    }

    /** `cmd_mgr_queue` up to its wait, for a command made by `rwnx_send_msg`; in any run it is pushed at once. */
    method Queue(c: Id, reqid: nat, wantsReply: bool) returns (err: int)
      requires Inv(Abs()) && c !in heap
      modifies this
      ensures Abs() == Submit(old(Abs()), c, reqid, wantsReply) && Inv(Abs())
      ensures err == if old(crashed) then -32 else if |old(list)| == 8 then -12 else 0
      ensures pushed == if err == 0 then old(pushed) + [c] else old(pushed)
    {
      NeverDefers(Abs());
      SubmitKeeps(Abs(), c, reqid, wantsReply);
      var flags := REQUEST;
      if crashed {
        heap := heap[c := Cmd(reqid, flags, EPIPE, wantsReply, [], 0, 0, 0, Some(EPIPE))];
        return EPIPE;
      }
      var defer := false;
      if list != [] {
        if queueSz == MAX_QUEUED {
          heap := heap[c := Cmd(reqid, flags, ENOMEM, wantsReply, [], 0, 0, 0, Some(ENOMEM))];
          return ENOMEM;
        }
        var last := heap[list[|list| - 1]].flags;
        if last.waitAck || last.waitPush {
          flags := flags.(waitPush := true);
          defer := true;
        }
      }
      if flags.reqCfm {
        flags := flags.(waitCfm := true);
      }
      heap := heap[c := Cmd(reqid, flags, EINTR, wantsReply, [], nextTkn, 0, 0, None)];
      nextTkn := nextTkn + 1;
      list := list + [c];
      queueSz := queueSz + 1;
      if !defer {
        pushed := pushed + [c];
      }
      return 0;
    }

    /** The body of the `cmd_mgr_msgind` loop for the command that takes the confirm: it always completes it. */
    method Take(c: Id, param: seq<byte>)
      requires Inv(Abs()) && c in list
      modifies this`heap, this`list, this`queueSz, this`confirmed
      ensures Inv(Abs()) && confirmed == old(confirmed) + [c]
      ensures c !in list && queueSz == old(queueSz) - 1
      ensures CutOut(old(list), list, c)
      ensures heap.Keys == old(heap).Keys && forall d :: d in heap && d != c ==> heap[d] == old(heap)[d]
      ensures heap[c] == old(heap)[c].(flags := REQUEST.(done := true), unlinked := 1, completed := 1, result := 0, reply := heap[c].reply)
      ensures heap[c].reply == if !heap[c].wantsReply || param == [] then old(heap)[c].reply
                               else if |param| <= 1024 then param else param[..1024]
    {
      hide Ordered, Settled, Counted, CutOut;
      NoRepeats(heap, list);
      ListedWaits(Abs(), c);
      var k := heap[c];
      k := k.(flags := k.flags.(waitCfm := false));
      var p := param;
      if |p| > E2A_MSG_LEN_MAX {
        p := p[..E2A_MSG_LEN_MAX];
      }
      if k.wantsReply && p != [] {
        k := k.(reply := p);
      }
      heap := heap[c := k];
      confirmed := confirmed + [c];
      if WaitComplete(k.flags) {
        Unlink(c);
      }
      TakenIs(old(Abs()), Abs(), c, param);
    }

    /** `cmd_mgr_msgind`; `reject` is the set of commands whose callback answers non-zero. */
    method MsgInd(id: nat, param: seq<byte>, reject: set<Id>) returns (found: bool)
      requires Inv(Abs())
      modifies this`heap, this`list, this`queueSz, this`confirmed
      ensures Abs() == Confirm(old(Abs()), id, param, reject) && Inv(Abs())
      ensures found <==> exists c :: c in old(list) && old(heap)[c].reqid == id && c !in reject
    {
      ConfirmKeeps(Abs(), id, param, reject);
      hide Taken, Ordered, Settled, Counted, CutOut;
      found := false;
      var i := 0;
      while i < |list|
        invariant 0 <= i <= |list| && Abs() == old(Abs())
        invariant forall k :: 0 <= k < i ==> !Takes(Abs(), list[k], id, reject)
        invariant FirstFrom(Abs(), 0, id, reject) == FirstFrom(Abs(), i, id, reject)
      {
        var c := list[i];
        assert c in list;
        var k := heap[c];
        if k.reqid == id && k.flags.waitCfm {
          if c !in reject {
            found := true;
            assert c in old(list) && old(heap)[c].reqid == id;
            Take(c, param);
            TakenIs(old(Abs()), Abs(), c, param);
            return;
          }
        }
        i := i + 1;
      }
    }

    /** The section `cmd_mgr_queue` runs when the wait for c ended without a completion. */
    method TimedOut(c: Id)
      requires Inv(Abs()) && c in heap && heap[c].returned.None?
      modifies this
      ensures Abs() == TimeOut(old(Abs()), c) && Inv(Abs())
      ensures pushed == old(pushed)
    {
      hide Ordered, Settled, Counted, CutOut, TimeOut;
      TimeOutKeeps(Abs(), c);
      NotListedIsDone(Abs(), c);
      NoRepeats(heap, list);
      crashed := true;
      if !heap[c].flags.done {
        ListedWaits(Abs(), c);
        heap := heap[c := heap[c].(result := ETIMEDOUT)];
        Unlink(c);
        heap := heap[c := heap[c].(returned := Some(ETIMEDOUT))];
        TimeOutIs(old(Abs()), Abs(), c);
      } else {
        heap := heap[c := heap[c].(returned := Some(ETIMEDOUT))];
        LateTimeOutIs(old(Abs()), c);
      }
    }
  }
}
