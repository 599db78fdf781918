/** The 500-slot ring behind the Bluetooth character device (`aic_btsdio.c`). */
module BtRing {
  import opened Machine

  const QUEUE_SIZE: nat := 500

  type Packet = seq<byte>

  function Min(a: nat, b: nat): nat {
    if a < b then a else b
  }

  // ----- the queue as a list of packets -----

  function Put(q: seq<Packet>, p: Packet): seq<Packet> {
    if |q| == QUEUE_SIZE - 1 then q else q + [p]
  }

  /** What is left after `n` bytes were asked for: the rest of the first packet stays in front. */
  function Drop(q: seq<Packet>, n: nat): seq<Packet> {
    if q == [] then q else if n >= |q[0]| then q[1..] else q[0 := q[0][n..]]
  }

  /** The bytes one read of at most `n` hands to the user. */
  function Got(q: seq<Packet>, n: nat): seq<byte> {
    if q == [] then [] else q[0][..Min(|q[0]|, n)]
  }

  function Flatten(q: seq<Packet>): seq<byte> {
    if q == [] then [] else q[0] + Flatten(q[1..])
  }

  lemma {:induction false} FlattenAppend(q: seq<Packet>, p: Packet)
    ensures Flatten(q + [p]) == Flatten(q) + p
  {
    if q != [] {
      assert (q + [p])[1..] == q[1..] + [p];
      FlattenAppend(q[1..], p);
    }
  }

  /** A read takes its bytes off the front of the stream, whether or not it ends inside a packet. */
  lemma ReadTakesFromFront(q: seq<Packet>, n: nat)
    ensures Flatten(q) == Got(q, n) + Flatten(Drop(q, n))
    ensures |Drop(q, n)| <= |q|
    ensures n > 0 && q != [] && q[0] != [] ==> Got(q, n) != []
  {
    if q != [] && n < |q[0]| {
      SplitFirst(q, n);
    } else if q != [] {
      assert q[0][..|q[0]|] == q[0];
    }
  }

  lemma SplitFirst(q: seq<Packet>, n: nat)
    requires q != [] && n < |q[0]|
    ensures Flatten(q) == q[0][..n] + Flatten(q[0 := q[0][n..]])
  {
    var r := q[0 := q[0][n..]];
    assert r != [] && r[0] == q[0][n..] && r[1..] == q[1..];
    var a, b, c := q[0][..n], q[0][n..], Flatten(q[1..]);
    assert q[0] == a + b;
    assert (a + b) + c == a + (b + c);
  }

  // ----- any interleaving of writers and readers -----

  datatype Event = Write(packet: Packet) | Read(count: nat)

  /** The queue, the packets accepted so far, and the bytes read so far. */
  datatype Device = Device(queue: seq<Packet>, accepted: seq<Packet>, output: seq<byte>)

  function Run(events: seq<Event>): Device {
    if events == [] then Device([], [], [])
    else
      var d := Run(events[..|events| - 1]);
      match events[|events| - 1]
      case Write(p) => Device(Put(d.queue, p), if |d.queue| == QUEUE_SIZE - 1 then d.accepted else d.accepted + [p], d.output)
      case Read(n) => if n == 0 then d else Device(Drop(d.queue, n), d.accepted, d.output + Got(d.queue, n))
  }

  /** Nothing is lost, repeated or reordered: what was read, then what is queued, is what was accepted. */
  lemma {:induction false} StreamsAgree(events: seq<Event>)
    ensures var d := Run(events); d.output + Flatten(d.queue) == Flatten(d.accepted) && |d.queue| <= 499
  {
    if events != [] {
      var d := Run(events[..|events| - 1]);
      StreamsAgree(events[..|events| - 1]);
      match events[|events| - 1]
      case Write(p) =>
        if |d.queue| < QUEUE_SIZE - 1 {
          FlattenAppend(d.queue, p);
          FlattenAppend(d.accepted, p);
        }
      case Read(n) =>
        ReadTakesFromFront(d.queue, n);
    }
  }

  /** a is what is left of p after some of its bytes, but not all unless it has none. */
  predicate RestOf(a: Packet, p: Packet) {
    |a| <= |p| && a == p[|p| - |a|..] && (a == [] ==> p == [])
  }

  /**
   * The queue holds the last accepted packets, whole and in order but for the first, of which a part may have been
   * read: a packet leaves the queue with its last byte.
   */
  lemma {:induction false} QueueIsLastAccepted(events: seq<Event>)
    ensures var d := Run(events);
            var k := |d.accepted| - |d.queue|;
            && 0 <= k
            && (d.queue != [] ==> RestOf(d.queue[0], d.accepted[k]) && d.queue[1..] == d.accepted[k + 1..])
  {
    if events != [] {
      var d := Run(events[..|events| - 1]);
      QueueIsLastAccepted(events[..|events| - 1]);
      match events[|events| - 1]
      case Write(p) =>
      case Read(n) =>
        if n > 0 && d.queue != [] {
          ReadKeepsLast(d.queue, d.accepted, |d.accepted| - |d.queue|, n);
        }
    }
  }

  lemma ReadKeepsLast(q: seq<Packet>, all: seq<Packet>, k: nat, n: nat)
    requires q != [] && n > 0 && k + |q| == |all| && RestOf(q[0], all[k]) && q[1..] == all[k + 1..]
    ensures var r := Drop(q, n);
            var j := |all| - |r|;
            j >= 0 && (r != [] ==> RestOf(r[0], all[j]) && r[1..] == all[j + 1..])
  {
    var r := Drop(q, n);
    if n < |q[0]| {
      assert r[0] == q[0][n..] && r[1..] == q[1..];
    } else if r != [] {
      assert r[0] == all[k + 1..][0] && r[1..] == all[k + 1..][1..];
    }
  }

  // ----- the ring -----

  /** What a ring holds between its two indices. */
  function Held<T>(s: seq<T>, front: nat, rear: nat): seq<T>
    requires front < |s| && rear < |s|
  {
    if front <= rear then s[front..rear] else s[front..] + s[..rear]
  }

  function Next(i: nat): nat {
    (i + 1) % QUEUE_SIZE
  }

  lemma HeldPush<T>(s: seq<T>, front: nat, rear: nat, x: T)
    requires |s| == QUEUE_SIZE && front < |s| && rear < |s|
    ensures front == Next(rear) <==> |Held(s, front, rear)| == QUEUE_SIZE - 1
    ensures front != Next(rear) ==> Held(s[rear := x], front, Next(rear)) == Held(s, front, rear) + [x]
  {
  }

  lemma HeldPop<T>(s: seq<T>, front: nat, rear: nat)
    requires |s| == QUEUE_SIZE && front < |s| && rear < |s| && front != rear
    ensures var q := Held(s, front, rear); q != [] && q[0] == s[front] && Held(s, Next(front), rear) == q[1..]
  {
    var q := Held(s, front, rear);
    if front < rear {
      assert q[1..] == s[front + 1..rear];
    } else if front + 1 < QUEUE_SIZE {
      assert q[1..] == s[front + 1..] + s[..rear];
    } else {
      assert s[front..] == [s[front]] && q[1..] == s[..rear];
    }
  }

  lemma HeldPatch<T>(s: seq<T>, front: nat, rear: nat, x: T)
    requires |s| == QUEUE_SIZE && front < |s| && rear < |s| && front != rear
    ensures Held(s[front := x], front, rear) == Held(s, front, rear)[0 := x]
  {
  }

  lemma HeldLength<T>(s: seq<T>, front: nat, rear: nat)
    requires |s| == QUEUE_SIZE && front < |s| && rear < |s|
    ensures |Held(s, front, rear)| == if front <= rear then rear - front else rear + QUEUE_SIZE - front
  {
  }

  class Ring {
    const slots: array<Packet>
    var front: nat
    var rear: nat

    ghost predicate Valid()
      reads this
    {
      slots.Length == QUEUE_SIZE && front < QUEUE_SIZE && rear < QUEUE_SIZE
    }

    ghost function Queue(): seq<Packet>
      requires Valid()
      reads this, slots
    {
      Held(slots[..], front, rear)
    }

    constructor ()
      ensures Valid() && Queue() == [] && fresh(slots)
    {
      slots := new Packet[QUEUE_SIZE](_ => []);
      front, rear := 0, 0;
    }

    /** `aic_enqueue` */
    method Enqueue(p: Packet) returns (ret: int)
      requires Valid()
      modifies this`rear, slots
      ensures Valid()
      ensures Queue() == Put(old(Queue()), p)
      ensures ret == if |old(Queue())| == 499 then -1 else 0
    {
      HeldPush(slots[..], front, rear, p);
      if front == Next(rear) {
        return -1;
      }
      ghost var before := slots[..];
      slots[rear] := p;
      assert slots[..] == before[rear := p];
      rear := Next(rear);
      return 0;
    }

    /** `aic_dequeue_try`: the whole first packet is returned even when only part of it leaves the queue. */
    method DequeueTry(n: nat) returns (p: Option<Packet>)
      requires Valid()
      modifies this`front, slots
      ensures Valid()
      ensures p == if old(Queue()) == [] then None else Some(old(Queue())[0])
      ensures Queue() == Drop(old(Queue()), n)
    {
      if front == rear {
        return None;
      }
      HeldPop(slots[..], front, rear);
      var skb := slots[front];
      p := Some(skb);
      if n >= |skb| {
        front := Next(front);
      } else {
        HeldPatch(slots[..], front, rear, skb[n..]);
        ghost var before := slots[..];
        slots[front] := skb[n..];
        assert slots[..] == before[front := skb[n..]];
      }
    }

    /** `aic_clear_queue` */
    method Clear()
      requires Valid()
      modifies this`front, slots
      ensures Valid() && Queue() == []
    {
      while front != rear
        invariant Valid()
        decreases |Queue()|
      {
        HeldPop(slots[..], front, rear);
        HeldPatch(slots[..], front, rear, []);
        ghost var before := slots[..];
        slots[front] := [];
        assert slots[..] == before[front := []];
        HeldPop(slots[..], front, rear);
        front := Next(front);
      }
    }

    /** `aic_queue_cnt` */
    method QueueCnt() returns (n: int)
      requires Valid()
      ensures n == |Queue()|
    {
      HeldLength(slots[..], front, rear);
      if front == rear {
        return 0;
      }
      return if rear > front then rear - front else rear + QUEUE_SIZE - front;
    }

    /** The body of `btchr_read`, once its wait has ended or without one when nothing is asked for. */
    method ReadBytes(count: nat) returns (bytes: seq<byte>)
      requires Valid() && (count > 0 ==> Queue() != [])
      modifies this`front, slots
      ensures Valid()
      ensures bytes == if count == 0 then [] else Got(old(Queue()), count)
      ensures Queue() == if count == 0 then old(Queue()) else Drop(old(Queue()), count)
    {
      bytes := [];
      if count > 0 {
        var skb := DequeueTry(count);
        bytes := skb.value[..Min(|skb.value|, count)];
      }
    }
  }
}
