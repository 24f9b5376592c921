/**
  The virtqueue driver against any device (src/virtio/ownership.rs, src/virtio/mod.rs
  and the receive path of src/virtio/net.rs). Everything read from shared memory, the
  used index and the completion's id and length, is a parameter the device chooses.
 */
module VirtioQueue {
  import opened Base
  import opened VirtioModel

  const WRAP: nat := 0x1_0000
  const F_NEXT: nat := 1
  const F_WRITE: nat := 2
  const RX_BUFFERS: nat := 8
  const RX_BUF_LEN: nat := 2048

  ghost function FirstParts(n: nat): (q: Parts) { Parts(seq(n, i => i), map[], seq(n, _ => FREE)) }

  lemma FirstPartition(next: seq<nat>, pending: seq<nat>, n: nat)
    requires 0 < n <= END && |next| == |pending| == n && (forall i :: 0 <= i < n ==> pending[i] == 0)
    requires forall i :: 0 <= i < n ==> next[i] == if i + 1 < n then i + 1 else END
    ensures Partitioned(next, pending, 0, n, FirstParts(n))
  {
    var q := FirstParts(n);
    forall i | 0 <= i < n ensures LinkIs(next, q.free, i) { assert q.free[i] == i; }
    forall d: nat | Has(q.owner, FREE, d) ensures d in q.free { assert q.free[d] == d; }
    NoPending(pending);
  }

  lemma {:induction false} NoPending(pending: seq<nat>)
    requires forall i :: 0 <= i < |pending| ==> pending[i] == 0
    ensures Sum(pending) == 0
  {
    if pending != [] { NoPending(pending[..|pending| - 1]); }
  }

  class Ownership {
    const next: array<nat>
    const pending: array<nat>
    var freeHead: nat
    var free: nat
    var broken: bool
    ghost var parts: Parts

    ghost predicate Valid()
      reads this, next, pending
    { next != pending && Partitioned(next[..], pending[..], freeHead, free, parts) }

    constructor (size: nat)
      requires 0 < size <= END
      ensures Valid() && fresh(next) && fresh(pending) && next.Length == size && !broken && parts == FirstParts(size)
    {
      next := new nat[size](i => if i + 1 < size then i + 1 else END);
      pending := new nat[size](_ => 0);
      freeHead, free, broken := 0, size, false;
      parts := FirstParts(size);
      new;
      FirstPartition(next[..], pending[..], size);
    }

    method Poison()
      requires Valid()
      modifies this`broken
      ensures Valid() && broken
    {
      broken := true;
    }

    /** The descriptor `count` - 1 links after `head`. */
    method Tail(head: nat, count: nat, ghost cs: seq<nat>) returns (tail: nat)
      requires 0 < count <= |cs| && cs[0] == head && Strung(next[..], cs)
      ensures tail == cs[count - 1] && tail < next.Length
    {
      tail := head;
      assert LinkIs(next[..], cs, 0);
      for k := 1 to count
        invariant tail == cs[k - 1] && tail < next.Length
      {
        assert LinkIs(next[..], cs, k - 1) && LinkIs(next[..], cs, k);
        tail := next[tail];
      }
    }

    /** Takes the first `count` descriptors off the free list as a chain. */
    method Reserve(count: nat) returns (r: Option<nat>)
      requires Valid()
      modifies this, next, pending
      ensures Valid() && broken == old(broken)
      ensures r.Some? <==> !broken && 0 < count <= old(free)
      ensures r.None? ==> parts == old(parts) && next[..] == old(next[..]) && pending[..] == old(pending[..])
      ensures r.Some? ==>
        old(parts).free != [] && r.value == old(parts).free[0] && parts == Reserved(old(parts), count)
        && r.value < next.Length
    {
      if broken || count == 0 || count > free { return None; }
      var head := freeHead;
      FreeHead(next[..], pending[..], freeHead, free, parts);
      var tail := Tail(head, count, parts.free);
      ghost var n0, p0, q0 := next[..], pending[..], parts;
      assert LinkIs(n0, q0.free, count - 1);
      ReservedPartition(n0, p0, freeHead, free, q0, count, n0[tail := END], p0[head := count], Reserved(q0, count));
      freeHead := next[tail];
      next[tail] := END;
      pending[head] := count;
      free := free - count;
      parts := Reserved(q0, count);
      assert next[..] == n0[tail := END] && pending[..] == p0[head := count];
      r := Some(head);
    }

    /**
      Takes a completed chain back. Any completion that does not name the head of a chain of
      `count` descriptors in flight, or not the expected one, stops the queue for good.
     */
    method Complete(id: nat, count: nat, expected: Option<nat>) returns (r: Option<nat>)
      requires Valid()
      modifies this, next, pending
      ensures Valid()
      ensures r.Some? <==> !old(broken) && Fits(old(parts), id, count, expected)
      ensures r.Some? ==> r.value == id && !broken && parts == Completed(old(parts), id)
      ensures r.None? ==> broken && parts == old(parts) && next[..] == old(next[..]) && pending[..] == old(pending[..])
    {
      if broken { return None; }
      InFlightExactly(next[..], pending[..], freeHead, free, parts, id);
      if id >= pending.Length || count == 0 || pending[id] != count || (expected.Some? && id != expected.value) {
        Poison();
        return None;
      }
      TakeBack(id, count);
      r := Some(id);
    }

    /** Puts a chain in flight at the front of the free list. */
    method TakeBack(id: nat, count: nat)
      requires Valid() && id in parts.chains && count == |parts.chains[id]| > 0 && parts.chains[id][0] == id
        && id < pending.Length
      modifies this`freeHead, this`free, this`parts, next, pending
      ensures Valid() && parts == Completed(old(parts), id)
    {
      ghost var n0, p0, q0 := next[..], pending[..], parts;
      ChainHeld(n0, p0, freeHead, free, q0, id);
      var tail := Tail(id, count, q0.chains[id]);
      CompletedPartition(n0, p0, freeHead, free, q0, id, n0[tail := freeHead], p0[id := 0], Completed(q0, id));
      next[tail] := freeHead;
      freeHead := id;
      pending[id] := 0;
      free := free + count;
      parts := Completed(q0, id);
      assert next[..] == n0[tail := old(freeHead)] && pending[..] == p0[id := 0];
    }
  }

  /** `pending` tells exactly which chains are in flight, and how long they are. */
  lemma InFlightExactly(next: seq<nat>, pending: seq<nat>, head: nat, free: nat, q: Parts, id: nat)
    requires Partitioned(next, pending, head, free, q)
    ensures id in q.chains <==> id < |pending| && pending[id] > 0
    ensures id in q.chains ==> |q.chains[id]| == pending[id] && q.chains[id][0] == id
  {
    if id in q.chains { assert InFlight(next, pending, q, id); }
  }

  // ---------------------------------------------------------------- descriptors

  datatype Buf = Buf(addr: nat, len: nat, deviceWrites: bool)

  datatype Desc = Desc(addr: nat, len: nat, flags: nat, next: nat)

  /** The descriptor of buffer `i` of a chain. */
  function DescFor(b: Buf, last: bool, next: nat): (d: Desc) {
    Desc(b.addr, b.len, (if b.deviceWrites then F_WRITE else 0) + (if last then 0 else F_NEXT), if last then 0
      else next)
  }

  ghost predicate ShownAt(desc: seq<Desc>, cs: seq<nat>, bufs: seq<Buf>, i: nat)
    requires i < |cs| == |bufs|
  { cs[i] < |desc| && desc[cs[i]] == DescFor(bufs[i], i + 1 == |cs|, if i + 1 < |cs| then cs[i + 1] else 0) }

  /** The first `n` descriptors of a chain show the device the buffers posted under it. */
  ghost predicate Shown(desc: seq<Desc>, cs: seq<nat>, bufs: seq<Buf>, n: nat)
  {
    n <= |cs| == |bufs| && forall i :: 0 <= i < n ==> ShownAt(desc, cs, bufs, i)
  }

  ghost predicate AllShown(desc: seq<Desc>, chains: map<nat, seq<nat>>, posted: map<nat, seq<Buf>>) {
    forall h :: h in chains ==> h in posted && Shown(desc, chains[h], posted[h], |chains[h]|)
  }

  /** Descriptors other than those owner `o` has are unchanged. */
  ghost predicate OthersSame(desc: seq<Desc>, desc': seq<Desc>, owner: seq<int>, o: int) {
    |desc'| == |desc| == |owner| && forall d :: 0 <= d < |desc| && owner[d] != o ==> desc'[d] == desc[d]
  }

  /** Writing one chain's descriptors leaves what the device sees of the others. */
  lemma OthersShown(next: seq<nat>, pending: seq<nat>, head: nat, free: nat, q: Parts, desc: seq<Desc>,
      desc': seq<Desc>, posted: map<nat, seq<Buf>>, o: nat, h: nat)
    requires Partitioned(next, pending, head, free, q) && OthersSame(desc, desc', q.owner, o) && h in q.chains && h != o
    requires h in posted && Shown(desc, q.chains[h], posted[h], |q.chains[h]|)
    ensures Shown(desc', q.chains[h], posted[h], |q.chains[h]|)
  {
    var cs := q.chains[h];
    assert InFlight(next, pending, q, h);
    forall i | 0 <= i < |cs|
      ensures ShownAt(desc', cs, posted[h], i)
    {
      assert ShownAt(desc, cs, posted[h], i) && At(cs, i, cs[i]);
    }
  }

  /** Descriptor `k` of a chain written. */
  lemma ShownStep(next: seq<nat>, pending: seq<nat>, head: nat, free: nat, q: Parts, o: nat, desc: seq<Desc>,
      bufs: seq<Buf>, k: nat)
    requires Partitioned(next, pending, head, free, q) && o in q.chains && k < |q.chains[o]| == |bufs|
      && Shown(desc, q.chains[o], bufs, k) && |desc| == |next|
    ensures q.chains[o][k] < |desc| && q.owner[q.chains[o][k]] == o
    ensures Shown(desc[q.chains[o][k] := DescFor(bufs[k], k + 1 == |bufs|, if k + 1 < |bufs| then q.chains[o][k + 1]
      else 0)], q.chains[o], bufs, k + 1)
    ensures k + 1 < |bufs| ==> next[q.chains[o][k]] == q.chains[o][k + 1]
  {
    var cs := q.chains[o];
    assert InFlight(next, pending, q, o) && LinkIs(next, cs, k) && At(cs, k, cs[k]);
    var desc' := desc[cs[k] := DescFor(bufs[k], k + 1 == |bufs|, if k + 1 < |bufs| then cs[k + 1] else 0)];
    forall i | 0 <= i < k + 1 ensures ShownAt(desc', cs, bufs, i) {
      if i < k { assert ShownAt(desc, cs, bufs, i) && At(cs, i, cs[i]); }
    }
  }

  /**
    The device's own reading of a chain from descriptor `at`: the value 1 in the flags says that
    the chain goes on at `next`, the value 2 that the device may write to the buffer.
   */
  ghost predicate DeviceReads(desc: seq<Desc>, at: nat, bufs: seq<Buf>)
    decreases |bufs|
  {
    && at < |desc| && bufs != []
    && bufs[0] == Buf(desc[at].addr, desc[at].len, desc[at].flags / 2 % 2 == 1)
    && if desc[at].flags % 2 == 1 then DeviceReads(desc, desc[at].next, bufs[1..]) else |bufs| == 1
  }

  /** The device finds one list of buffers in a chain, and no other. */
  lemma {:induction false} OneReading(desc: seq<Desc>, at: nat, bufs: seq<Buf>, bufs': seq<Buf>)
    requires DeviceReads(desc, at, bufs) && DeviceReads(desc, at, bufs')
    ensures bufs == bufs'
    decreases |bufs|
  {
    if desc[at].flags % 2 == 1 {
      OneReading(desc, desc[at].next, bufs[1..], bufs'[1..]);
      assert bufs == [bufs[0]] + bufs[1..] && bufs' == [bufs'[0]] + bufs'[1..];
    }
  }

  lemma {:induction false} ShownReads(desc: seq<Desc>, cs: seq<nat>, bufs: seq<Buf>, i: nat)
    requires Shown(desc, cs, bufs, |cs|) && i < |cs|
    ensures DeviceReads(desc, cs[i], bufs[i..])
    decreases |cs| - i
  {
    assert ShownAt(desc, cs, bufs, i);
    if i + 1 < |cs| {
      ShownReads(desc, cs, bufs, i + 1);
      assert bufs[i..][1..] == bufs[i + 1..];
    }
  }

  /** In every chain in flight the device finds the buffers posted under it. */
  ghost predicate AllRead(desc: seq<Desc>, chains: map<nat, seq<nat>>, posted: map<nat, seq<Buf>>) {
    forall h :: h in chains ==> h in posted && DeviceReads(desc, h, posted[h])
  }

  lemma AllShownRead(next: seq<nat>, pending: seq<nat>, head: nat, free: nat, q: Parts, desc: seq<Desc>,
      posted: map<nat, seq<Buf>>)
    requires Partitioned(next, pending, head, free, q) && AllShown(desc, q.chains, posted)
    ensures AllRead(desc, q.chains, posted)
  {
    forall h | h in q.chains ensures h in posted && DeviceReads(desc, h, posted[h]) {
      InFlightExactly(next, pending, head, free, q, h);
      assert Shown(desc, q.chains[h], posted[h], |q.chains[h]|);
      ShownReads(desc, q.chains[h], posted[h], 0);
      assert posted[h][0..] == posted[h];
    }
  }

  /** The device's index is ahead of the driver's, by no more than the ring holds. */
  predicate Reported(used: nat, last: nat, size: nat) { used != last && (used + WRAP - last) % WRAP <= size }

  /** A completion names a chain in flight of the length the driver waits for. */
  ghost predicate Fits(q: Parts, id: nat, count: nat, expected: Option<nat>) {
    id in q.chains && 0 < count == |q.chains[id]| && (expected.Some? ==> id == expected.value)
  }

  class Virtqueue {
    const own: Ownership
    const desc: array<Desc>
    const availRing: array<nat>
    var availIdx: nat
    var lastUsed: nat
    ghost var posted: map<nat, seq<Buf>>

    ghost predicate Valid()
      reads this, own, own.next, own.pending, desc, availRing
    {
      && own.Valid() && availRing != own.next && availRing != own.pending
      && desc.Length == availRing.Length == own.next.Length
      && availIdx < WRAP && lastUsed < WRAP && AllShown(desc[..], own.parts.chains, posted)
    }

    constructor (size: nat)
      requires 0 < size <= END
      ensures Valid() && fresh(own) && fresh(own.next) && fresh(own.pending) && fresh(desc) && fresh(availRing)
      ensures own.next.Length == size && !own.broken && own.parts == FirstParts(size) && posted == map[]
    {
      own := new Ownership(size);
      desc := new Desc[size](_ => Desc(0, 0, 0, 0));
      availRing := new nat[size](_ => 0);
      availIdx, lastUsed, posted := 0, 0, map[];
    }

    /** Writes the descriptors of a reserved chain. */
    method Describe(head: nat, bufs: seq<Buf>)
      requires own.Valid() && head in own.parts.chains && |own.parts.chains[head]| == |bufs| > 0
        && desc.Length == own.next.Length
      modifies desc
      ensures Shown(desc[..], own.parts.chains[head], bufs, |bufs|)
        && OthersSame(old(desc[..]), desc[..], own.parts.owner, head)
      ensures DeviceReads(desc[..], head, bufs)
    {
      var idx := head;
      InFlightExactly(own.next[..], own.pending[..], own.freeHead, own.free, own.parts, head);
      for k := 0 to |bufs|
        invariant own.Valid() && (k < |bufs| ==> idx == own.parts.chains[head][k])
        invariant Shown(desc[..], own.parts.chains[head], bufs, k)
          && OthersSame(old(desc[..]), desc[..], own.parts.owner, head)
      {
        ghost var was := desc[..];
        ShownStep(own.next[..], own.pending[..], own.freeHead, own.free, own.parts, head, was, bufs, k);
        var last := k + 1 == |bufs|;
        desc[idx] := DescFor(bufs[k], last, if last then 0 else own.next[idx]);
        assert desc[..] == was[idx := DescFor(bufs[k], last, if last then 0 else own.next[idx])];
        if !last { idx := own.next[idx]; }
      }
      ShownReads(desc[..], own.parts.chains[head], bufs, 0);
      assert bufs[0..] == bufs;
    }

    /**
      submit: publishes a chain that shows the device exactly the given buffers, without
      touching what it sees of any chain in flight.
     */
    method Submit(bufs: seq<Buf>) returns (r: Option<nat>)
      requires Valid()
      modifies this, own, own.next, own.pending, desc, availRing
      ensures Valid() && own.broken == old(own.broken)
      ensures r.Some? <==> !own.broken && 0 < |bufs| <= old(own.free)
      ensures r.None? ==>
        own.parts == old(own.parts) && posted == old(posted) && availIdx == old(availIdx)
        && desc[..] == old(desc[..]) && availRing[..] == old(availRing[..])
      ensures r.Some? ==>
        DeviceReads(desc[..], r.value, bufs) && AllRead(desc[..], own.parts.chains, posted)
        && OthersSame(old(desc[..]), desc[..], own.parts.owner, r.value)
      ensures r.Some? ==>
        old(own.parts).free != [] && r.value == old(own.parts).free[0] && own.parts == Reserved(old(own.parts), |bufs|)
      ensures r.Some? ==>
        posted == old(posted)[r.value := bufs] && availIdx == (old(availIdx) + 1) % 0x1_0000
        && availRing[..] == old(availRing[..])[old(availIdx) % availRing.Length := r.value]
    {
      ghost var before, seen := own.parts, desc[..];
      r := own.Reserve(|bufs|);
      if r.None? { return; }
      Describe(r.value, bufs);
      SubmittedShown(own.next[..], own.pending[..], own.freeHead, own.free, before, own.parts, seen, desc[..], posted,
        bufs);
      Publish(r.value, bufs);
    }

    /** The chain's place in the available ring. */
    method Publish(head: nat, ghost bufs: seq<Buf>)
      requires own.Valid() && availRing != own.next && availRing != own.pending
        && desc.Length == availRing.Length == own.next.Length
      requires availIdx < WRAP && lastUsed < WRAP && AllShown(desc[..], own.parts.chains, posted[head := bufs])
      modifies this`availIdx, this`posted, availRing
      ensures Valid() && posted == old(posted)[head := bufs] && AllRead(desc[..], own.parts.chains, posted)
      ensures availRing[..] == old(availRing[..])[old(availIdx) % availRing.Length := head]
        && availIdx == (old(availIdx) + 1) % WRAP
    {
      availRing[availIdx % availRing.Length] := head;
      availIdx := (availIdx + 1) % WRAP;
      posted := posted[head := bufs];
      AllShownRead(own.next[..], own.pending[..], own.freeHead, own.free, own.parts, desc[..], posted);
    }

    /**
      pop_used_checked: one completion, as the device reports it. Whatever it reports, the
      descriptors stay partitioned; a report that does not fit stops the queue.
     */
    method PopUsed(chainLen: nat, expected: Option<nat>, used: nat, id: nat, len: nat) returns (r: Option<(nat, nat)>)
      requires Valid() && used < WRAP
      modifies this, own, own.next, own.pending
      ensures Valid() && (old(own.broken) ==> own.broken)
      ensures r.Some? <==>
        !old(own.broken) && Reported(used, old(lastUsed), availRing.Length)
        && Fits(old(own.parts), id, chainLen, expected)
      ensures r.Some? ==>
        !own.broken && r.value == (id, len) && own.parts == Completed(old(own.parts), id)
        && lastUsed == (old(lastUsed) + 1) % WRAP
      ensures r.None? ==> own.parts == old(own.parts) && (used != old(lastUsed) ==> own.broken)
      ensures posted == old(posted)
    {
      if own.broken { return None; }
      if (used + WRAP - lastUsed) % WRAP > availRing.Length {
        own.Poison();
        return None;
      }
      if lastUsed == used { return None; }
      lastUsed := (lastUsed + 1) % WRAP;
      var head := own.Complete(id, chainLen, expected);
      if head.None? { return None; }
      r := Some((head.value, len));
    }
  }

  /** What the device sees once a new chain's descriptors are written. */
  lemma SubmittedShown(next: seq<nat>, pending: seq<nat>, head: nat, free: nat, q: Parts, q': Parts, desc: seq<Desc>,
      desc': seq<Desc>, posted: map<nat, seq<Buf>>, bufs: seq<Buf>)
    requires 0 < |bufs| <= |q.free| && q' == Reserved(q, |bufs|) && Partitioned(next, pending, head, free, q')
    requires AllShown(desc, q.chains, posted) && OthersSame(desc, desc', q'.owner, q.free[0])
      && Shown(desc', q'.chains[q.free[0]], bufs, |bufs|)
    ensures AllShown(desc', q'.chains, posted[q.free[0] := bufs])
  {
    var o := q.free[0];
    forall h | h in q'.chains
      ensures h in posted[o := bufs] && Shown(desc', q'.chains[h], posted[o := bufs][h], |q'.chains[h]|)
    {
      if h != o { OthersShown(next, pending, head, free, q', desc, desc', posted, o, h); }
    }
  }

  // ---------------------------------------------------------------- the network driver's receive buffers

  function RxBuf(base: nat, i: nat): (b: Buf) { Buf(base + i * RX_BUF_LEN, RX_BUF_LEN, true) }

  ghost predicate RxUnder(q: Parts, posted: map<nat, seq<Buf>>, base: nat, h: nat)
    requires h in q.chains
  { h < RX_BUFFERS && q.chains[h] == [h] && h in posted && posted[h] == [RxBuf(base, h)] }

  /** Every buffer in flight is posted under the descriptor of its own number. */
  ghost predicate RxPosted(q: Parts, posted: map<nat, seq<Buf>>, base: nat)
  {
    forall h :: h in q.chains ==> RxUnder(q, posted, base, h)
  }

  /** The free list is `i`, `i` + 1, and so on below `n`; nothing once all are taken. */
  ghost predicate Ascending(free: seq<nat>, i: nat, n: nat)
  {
    |free| == (if i < n then n - i else 0) && forall k :: 0 <= k < |free| ==> free[k] == i + k
  }

  /** The chains in flight are headed by the descriptors below both `n` and `i`. */
  ghost predicate InFlightBelow(chains: map<nat, seq<nat>>, n: nat, i: nat)
  {
    forall h: nat :: h in chains <==> h < i && h < n
  }

  lemma PostedStep(q: Parts, posted: map<nat, seq<Buf>>, base: nat, i: nat, n: nat)
    requires RxPosted(q, posted, base) && i < RX_BUFFERS && i < n && Ascending(q.free, i, n)
    ensures RxPosted(Reserved(q, 1), posted[i := [RxBuf(base, i)]], base) && Ascending(Reserved(q, 1).free, i + 1, n)
  {
    var q', p' := Reserved(q, 1), posted[i := [RxBuf(base, i)]];
    forall h | h in q'.chains ensures RxUnder(q', p', base, h) {
      if h != i { assert RxUnder(q, posted, base, h); }
    }
  }

  /** A one-descriptor chain taken back and reserved again: the free list is last in, first out. */
  lemma Recycled(next: seq<nat>, pending: seq<nat>, head: nat, free: nat, q: Parts, h: nat)
    requires Partitioned(next, pending, head, free, q) && h in q.chains && q.chains[h] == [h]
    ensures Completed(q, h).free != [] && Completed(q, h).free[0] == h && Reserved(Completed(q, h), 1) == q
  {
    assert InFlight(next, pending, q, h) && At(q.chains[h], 0, h);
    var c := Completed(q, h);
    var r := Reserved(c, 1);
    assert c.free == [h] + q.free && r.free == q.free && c.free[..1] == [h];
    assert r.chains == q.chains;
    Claimed(q.owner, [h], FREE, c.owner);
    Claimed(c.owner, [h], h, r.owner);
    assert r.owner == q.owner;
  }

  /** The offset worked out from a completed head is that of the buffer posted under it. */
  lemma RxOffset(q: Parts, posted: map<nat, seq<Buf>>, base: nat, h: nat)
    requires RxPosted(q, posted, base) && h in q.chains
    ensures q.chains[h] == [h] && h in posted
      && posted[h] == [Buf(base + h % RX_BUFFERS * RX_BUF_LEN, RX_BUF_LEN, true)]
    ensures posted[h := [Buf(base + h % RX_BUFFERS * RX_BUF_LEN, RX_BUF_LEN, true)]] == posted
  {
    assert RxUnder(q, posted, base, h);
  }

  // ---------------------------------------------------------------- the bytes of a frame

  /** How many bytes of a frame are copied: what the device says it wrote, without its header, as far as they fit. */
  function FrameLen(written: nat, hdr: nat, outLen: nat): (n: nat) {
    var frame := if written < hdr then 0 else written - hdr;
    if frame < outLen then frame else outLen
  }

  /** The `n` bytes from `at` lie in the buffer. */
  predicate Inside(b: Buf, at: nat, n: nat) { b.addr <= at && at + n <= b.addr + b.len }

  /** The bytes copied lie in the posted buffer if and only if they are no more than it holds after the header. */
  lemma FrameInside(b: Buf, written: nat, hdr: nat, outLen: nat)
    requires b.len == RX_BUF_LEN && hdr <= RX_BUF_LEN
    ensures Inside(b, b.addr + hdr, FrameLen(written, hdr, outLen)) <==>
      FrameLen(written, hdr, outLen) <= RX_BUF_LEN - hdr
  {}

  /** Whatever length a device reports: exactly when the caller's buffer is no longer than that. */
  lemma EveryFrameInside(b: Buf, hdr: nat, outLen: nat)
    requires b.len == RX_BUF_LEN && hdr <= RX_BUF_LEN
    ensures (forall written :: 0 <= written < 0x1_0000_0000 ==> Inside(b, b.addr + hdr, FrameLen(written, hdr, outLen)))
      <==> outLen <= RX_BUF_LEN - hdr
  {
    if outLen > RX_BUF_LEN - hdr {
      var written := RX_BUF_LEN + 1;
      assert FrameLen(written, hdr, outLen) == RX_BUF_LEN + 1 - hdr;
      assert !Inside(b, b.addr + hdr, FrameLen(written, hdr, outLen));
    }
  }

  /**
    A report of 4096 bytes with room for 2048: the last bytes would lie past the buffer. The
    driver's own caller has room for 128.
   */
  lemma LongReport(b: Buf, hdr: nat)
    requires b.len == RX_BUF_LEN && (hdr == 10 || hdr == 12)
    ensures FrameLen(4096, hdr, 2048) == 2048 && !Inside(b, b.addr + hdr, FrameLen(4096, hdr, 2048))
    ensures forall written :: 0 <= written < 0x1_0000_0000 ==> Inside(b, b.addr + hdr, FrameLen(written, hdr, 128))
  {
    EveryFrameInside(b, hdr, 128);
  }

  class NetRx {
    const rx: Virtqueue
    const base: nat
    const hdr: nat
    var failed: bool

    ghost predicate Valid()
      reads this, rx, rx.own, rx.own.next, rx.own.pending, rx.desc, rx.availRing
    { rx.Valid() && RxPosted(rx.own.parts, rx.posted, base) && (hdr == 10 || hdr == 12) }

    /** init: posts buffer i with the i-th submit, as far as the queue has descriptors. */
    constructor (size: nat, base: nat, modern: bool)
      requires 0 < size <= END
      ensures Valid() && !failed && !rx.own.broken && this.base == base && fresh(rx)
        && hdr == (if modern then 12 else 10)
      ensures InFlightBelow(rx.own.parts.chains, size, RX_BUFFERS)
    {
      rx := new Virtqueue(size);
      this.base, this.hdr := base, if modern then 12 else 10;
      failed := false;
      new;
      for i := 0 to RX_BUFFERS
        invariant fresh(rx) && fresh(rx.own) && fresh(rx.own.next) && fresh(rx.own.pending) && fresh(rx.desc)
          && fresh(rx.availRing)
        invariant Valid() && !rx.own.broken && !failed && Ascending(rx.own.parts.free, i, size)
          && InFlightBelow(rx.own.parts.chains, size, i)
      {
        PostNext(i, size);
      }
    }

    /** Buffer `i` posted, if there is a descriptor left. */
    method PostNext(i: nat, ghost size: nat)
      requires Valid() && !rx.own.broken && i < RX_BUFFERS && Ascending(rx.own.parts.free, i, size)
        && InFlightBelow(rx.own.parts.chains, size, i)
      modifies rx, rx.own, rx.own.next, rx.own.pending, rx.desc, rx.availRing
      ensures Valid() && !rx.own.broken && Ascending(rx.own.parts.free, i + 1, size)
        && InFlightBelow(rx.own.parts.chains, size, i + 1)
    {
      if i < size { PostedStep(rx.own.parts, rx.posted, base, i, size); }
      var _ := rx.Submit([RxBuf(base, i)]);
    }

    /**
      recv_frame: which bytes of the receive area are copied to a caller with room for
      `outLen`. They begin after the header in the buffer that was posted under the completed
      descriptor, which is posted under it again, and lie in it exactly if there are no more
      than it holds.
     */
    method Recv(used: nat, id: nat, len: nat, outLen: nat) returns (r: Option<(nat, nat)>)
      requires Valid() && used < WRAP
      modifies this, rx, rx.own, rx.own.next, rx.own.pending, rx.desc, rx.availRing
      ensures Valid() && (failed <==> old(failed) || rx.own.broken)
      ensures r.Some? <==>
        !old(failed) && !old(rx.own.broken) && Reported(used, old(rx.lastUsed), rx.availRing.Length)
        && Fits(old(rx.own.parts), id, 1, None)
      ensures r.Some? ==> id in old(rx.own.parts).chains && id in old(rx.posted) && |old(rx.posted)[id]| == 1
      ensures r.Some? ==>
        base + r.value.0 == old(rx.posted)[id][0].addr + hdr && r.value.1 == FrameLen(len, hdr, outLen)
      ensures r.Some? ==>
        (Inside(old(rx.posted)[id][0], base + r.value.0, r.value.1) <==> r.value.1 <= RX_BUF_LEN - hdr)
      ensures rx.own.parts == old(rx.own.parts) && (r.Some? ==> rx.posted == old(rx.posted))
    {
      if failed { return None; }
      ghost var q0 := rx.own.parts;
      var done := Pop(used, id, len);
      if done.None? {
        if rx.own.broken { failed := true; }
        return None;
      }
      var off := done.value.0 % RX_BUFFERS * RX_BUF_LEN;
      var n := FrameLen(done.value.1, hdr, outLen);
      Repost(off, q0, id);
      r := Some((off + hdr, n));
    }

    /** The completion taken, with what `Repost` needs to know of it. */
    method Pop(used: nat, id: nat, len: nat) returns (r: Option<(nat, nat)>)
      requires Valid() && used < WRAP
      modifies rx, rx.own, rx.own.next, rx.own.pending
      ensures rx.Valid() && rx.posted == old(rx.posted)
      ensures r.Some? <==>
        !old(rx.own.broken) && Reported(used, old(rx.lastUsed), rx.availRing.Length)
        && Fits(old(rx.own.parts), id, 1, None)
      ensures r.None? ==> rx.own.parts == old(rx.own.parts)
      ensures r.Some? ==>
        r.value == (id, len) && !rx.own.broken && Taken(old(rx.own.parts), rx.own.parts, rx.posted, base, id)
    {
      ghost var q0 := rx.own.parts;
      if id in q0.chains {
        RxOffset(q0, rx.posted, base, id);
        Recycled(rx.own.next[..], rx.own.pending[..], rx.own.freeHead, rx.own.free, q0, id);
      }
      r := rx.PopUsed(1, None, used, id, len);
    }

    method Repost(off: nat, ghost q0: Parts, ghost id: nat)
      requires rx.Valid() && (hdr == 10 || hdr == 12) && !rx.own.broken && RxPosted(q0, rx.posted, base)
        && Taken(q0, rx.own.parts, rx.posted, base, id) && off == id % RX_BUFFERS * RX_BUF_LEN
      modifies rx, rx.own, rx.own.next, rx.own.pending, rx.desc, rx.availRing
      ensures Valid() && !rx.own.broken && rx.own.parts == q0 && rx.posted == old(rx.posted)
    {
      var _ := rx.Submit([Buf(base + off, RX_BUF_LEN, true)]);
    }
  }

  /** `q1` is `q0` with the one-descriptor chain `h` taken back; its buffer may be posted again. */
  ghost predicate Taken(q0: Parts, q1: Parts, posted: map<nat, seq<Buf>>, base: nat, h: nat) {
    && h in q0.chains && q1.free != [] && q1.free[0] == h && Reserved(q1, 1) == q0
    && h in posted && posted[h] == [Buf(base + h % RX_BUFFERS * RX_BUF_LEN, RX_BUF_LEN, true)]
    && posted[h := [Buf(base + h % RX_BUFFERS * RX_BUF_LEN, RX_BUF_LEN, true)]] == posted
  }
}
