/**
  Who owns each descriptor of a virtqueue (src/virtio/ownership.rs): the free list
  and the chains in flight share one `next` array. Kept as values here; the parts
  are the free list, the chains by head, and the owner of every descriptor.
 */
module VirtioModel {

  const END: nat := 0xffff
  const FREE: int := -1

  datatype Parts = Parts(free: seq<nat>, chains: map<nat, seq<nat>>, owner: seq<int>)

  ghost predicate LinkIs(next: seq<nat>, cs: seq<nat>, i: nat)
    requires i < |cs|
  { cs[i] < |next| && next[cs[i]] == if i + 1 < |cs| then cs[i + 1] else END }

  /** `cs` is what following `next` from its first element gives, up to the end mark. */
  ghost predicate Strung(next: seq<nat>, cs: seq<nat>) { forall i :: 0 <= i < |cs| ==> LinkIs(next, cs, i) }

  ghost predicate At(cs: seq<nat>, i: nat, d: nat) { i < |cs| && cs[i] == d }

  ghost predicate NoDup(cs: seq<nat>) { forall i: nat, j: nat, d: nat :: At(cs, i, d) && At(cs, j, d) ==> i == j }

  /** The owner of every descriptor of `cs` is `o`. */
  ghost predicate OwnedBy(owner: seq<int>, cs: seq<nat>, o: int)
  {
    forall i: nat, d: nat :: At(cs, i, d) ==> d < |owner| && owner[d] == o
  }

  ghost predicate Has(owner: seq<int>, o: int, d: nat) { d < |owner| && owner[d] == o }

  /** Everything `o` owns is in `cs`. */
  ghost predicate Holds(owner: seq<int>, cs: seq<nat>, o: int)
  {
    forall d: nat {:trigger Has(owner, o, d)} :: Has(owner, o, d) ==> d in cs
  }

  ghost predicate ListOk(next: seq<nat>, owner: seq<int>, cs: seq<nat>, o: int) {
    Strung(next, cs) && NoDup(cs) && OwnedBy(owner, cs, o) && Holds(owner, cs, o)
  }

  /** The chain under head `h` is in flight. */
  ghost predicate InFlight(next: seq<nat>, pending: seq<nat>, q: Parts, h: nat)
    requires h in q.chains
  {
    h < |pending| && |q.chains[h]| == pending[h] > 0 && q.chains[h][0] == h && ListOk(next, q.owner, q.chains[h], h)
  }

  ghost predicate Known(q: Parts, d: nat)
    requires d < |q.owner|
  { q.owner[d] == FREE || (q.owner[d] >= 0 && q.owner[d] as nat in q.chains) }

  function Sum(s: seq<nat>): (n: nat) { if s == [] then 0 else Sum(s[..|s| - 1]) + s[|s| - 1] }

  /**
    The descriptors are partitioned: each is in the free list or in exactly one chain in
    flight, both strung on `next`; `pending` holds the chains' lengths at their heads.
   */
  ghost predicate Partitioned(next: seq<nat>, pending: seq<nat>, head: nat, free: nat, q: Parts) {
    && 0 < |next| == |pending| == |q.owner| <= END && free == |q.free|
    && head == (if q.free == [] then END else q.free[0])
    && ListOk(next, q.owner, q.free, FREE)
    && (forall h :: h in q.chains ==> InFlight(next, pending, q, h))
    && (forall h :: 0 <= h < |pending| && h !in q.chains ==> pending[h] == 0)
    && (forall d :: 0 <= d < |q.owner| ==> Known(q, d))
    && free + Sum(pending) == |next|
  }

  lemma {:induction false} SumSet(s: seq<nat>, i: nat, v: nat)
    requires i < |s|
    ensures Sum(s[i := v]) + s[i] == Sum(s) + v
  {
    var n := |s| - 1;
    if i < n {
      SumSet(s[..n], i, v);
      assert s[i := v][..n] == s[..n][i := v];
    } else {
      assert s[i := v][..n] == s[..n];
    }
  }

  // ---------------------------------------------------------------- changes to some descriptors

  /** Links and owners differ for the descriptors `t` only. */
  ghost predicate Apart(next: seq<nat>, next': seq<nat>, owner: seq<int>, owner': seq<int>, t: set<nat>) {
    && |next'| == |next| == |owner| == |owner'|
    && (forall d :: 0 <= d < |next| && d !in t ==> next'[d] == next[d])
    && (forall d :: 0 <= d < |owner| && d !in t ==> owner'[d] == owner[d])
  }

  /** A list none of whose descriptors changed, and whose owner gained none. */
  lemma OtherList(next: seq<nat>, next': seq<nat>, owner: seq<int>, owner': seq<int>, cs: seq<nat>, o: int, t: set<nat>)
    requires ListOk(next, owner, cs, o) && Apart(next, next', owner, owner', t)
    requires (forall d :: d in t && d < |owner| ==> owner[d] != o && owner'[d] != o)
    ensures ListOk(next', owner', cs, o)
  {
    forall i | 0 <= i < |cs| ensures LinkIs(next', cs, i) { assert LinkIs(next, cs, i) && At(cs, i, cs[i]); }
    forall i: nat, d: nat | At(cs, i, d) ensures d < |owner'| && owner'[d] == o { assert owner[d] == o; }
    forall d: nat | Has(owner', o, d) ensures d in cs { assert Has(owner, o, d); }
  }

  function Claim(owner: seq<int>, cs: seq<nat>, o: int): (r: seq<int>)
    ensures |r| == |owner|
    decreases cs
  { if cs == [] then owner else Claim(if cs[0] < |owner| then owner[cs[0] := o] else owner, cs[1..], o) }

  lemma {:induction false} ClaimAt(owner: seq<int>, cs: seq<nat>, o: int, d: nat)
    requires d < |owner|
    ensures Claim(owner, cs, o)[d] == if d in cs then o else owner[d]
    decreases cs
  {
    if cs != [] { ClaimAt(if cs[0] < |owner| then owner[cs[0] := o] else owner, cs[1..], o, d); }
  }

  lemma Claimed(owner: seq<int>, cs: seq<nat>, o: int, r: seq<int>)
    requires r == Claim(owner, cs, o)
    ensures forall d :: 0 <= d < |owner| ==> r[d] == if d in cs then o else owner[d]
  {
    forall d | 0 <= d < |owner| ensures r[d] == if d in cs then o else owner[d] { ClaimAt(owner, cs, o, d); }
  }

  function Elements(cs: seq<nat>): (s: set<nat>) { set d | d in cs }

  lemma InElements(cs: seq<nat>, i: nat, d: nat)
    requires At(cs, i, d)
    ensures d in cs && d in Elements(cs)
  {}

  lemma Where(cs: seq<nat>, d: nat) returns (i: nat)
    requires d in cs
    ensures At(cs, i, d)
  {
    i :| i < |cs| && cs[i] == d;
  }

  /** The first `n` of a list, cut off with an end mark. */
  lemma CutFront(next: seq<nat>, next': seq<nat>, cs: seq<nat>, n: nat)
    requires Strung(next, cs) && NoDup(cs) && 0 < n <= |cs| && cs[n - 1] < |next| && next' == next[cs[n - 1] := END]
    ensures Strung(next', cs[..n]) && Strung(next', cs[n..]) && NoDup(cs[..n]) && NoDup(cs[n..])
  {
    var a, b := cs[..n], cs[n..];
    assert forall i: nat, d: nat :: At(a, i, d) ==> At(cs, i, d);
    assert forall i: nat, d: nat :: At(b, i, d) ==> At(cs, i + n, d);
    forall i | 0 <= i < |a| ensures LinkIs(next', a, i) {
      assert LinkIs(next, cs, i) && At(cs, i, cs[i]) && At(cs, n - 1, cs[n - 1]);
    }
    forall i | 0 <= i < |b| ensures LinkIs(next', b, i) {
      assert LinkIs(next, cs, i + n) && At(cs, i + n, cs[i + n]) && At(cs, n - 1, cs[n - 1]);
    }
  }

  /** A list put before another. */
  lemma Prepend(next: seq<nat>, next': seq<nat>, a: seq<nat>, b: seq<nat>)
    requires Strung(next, a) && Strung(next, b) && NoDup(a) && NoDup(b) && a != [] && (forall d :: d in a ==> d !in b)
    requires a[|a| - 1] < |next| && next' == next[a[|a| - 1] := if b == [] then END else b[0]]
    ensures Strung(next', a + b) && NoDup(a + b)
  {
    var cs, n := a + b, |a|;
    forall i | 0 <= i < |cs| ensures LinkIs(next', cs, i) {
      if i < n {
        assert LinkIs(next, a, i) && At(a, i, a[i]) && At(a, n - 1, a[n - 1]);
      } else {
        assert LinkIs(next, b, i - n) && cs[i] == b[i - n] && a[n - 1] in a && b[i - n] in b;
      }
    }
    forall i: nat, j: nat, d: nat | At(cs, i, d) && At(cs, j, d) ensures i == j {
      ConcatAt(a, b, i, d);
      ConcatAt(a, b, j, d);
    }
  }

  lemma ConcatAt(a: seq<nat>, b: seq<nat>, i: nat, d: nat)
    requires At(a + b, i, d)
    ensures if i < |a| then At(a, i, d) && d in a else At(b, i - |a|, d) && d in b
  {}

  // ---------------------------------------------------------------- reserve and complete

  ghost function Reserved(q: Parts, n: nat): (r: Parts)
    requires 0 < n <= |q.free|
  { Parts(q.free[n..], q.chains[q.free[0] := q.free[..n]], Claim(q.owner, q.free[..n], q.free[0])) }

  /** The head of a chain to be is free, so it heads no chain and owns nothing. */
  lemma FreeHead(next: seq<nat>, pending: seq<nat>, head: nat, free: nat, q: Parts)
    requires Partitioned(next, pending, head, free, q) && q.free != []
    ensures head < |next| && q.owner[head] == FREE && head !in q.chains && pending[head] == 0
      && forall d :: 0 <= d < |q.owner| ==> q.owner[d] != head
  {
    assert At(q.free, 0, head);
    if head in q.chains {
      assert InFlight(next, pending, q, head) && At(q.chains[head], 0, head);
    }
    forall d | 0 <= d < |q.owner| ensures q.owner[d] != head { assert Known(q, d); }
  }

  /** What owns the front of the free list and the rest of it once the front is claimed. */
  lemma ClaimFront(owner: seq<int>, cs: seq<nat>, n: nat, o: int, owner': seq<int>)
    requires NoDup(cs) && OwnedBy(owner, cs, FREE) && Holds(owner, cs, FREE) && n <= |cs| && o != FREE
      && owner' == Claim(owner, cs[..n], o)
    requires forall d :: 0 <= d < |owner| ==> owner[d] != o
    ensures OwnedBy(owner', cs[n..], FREE) && Holds(owner', cs[n..], FREE) && OwnedBy(owner', cs[..n], o)
      && Holds(owner', cs[..n], o)
    ensures forall d :: d in cs[..n] ==> d < |owner| && owner[d] == FREE
  {
    var a, b := cs[..n], cs[n..];
    assert cs == a + b;
    Claimed(owner, a, o, owner');
    forall d: nat | Has(owner', FREE, d) ensures d in b { assert Has(owner, FREE, d); }
    forall d: nat | Has(owner', o, d) ensures d in a { }
    forall d | d in a ensures d < |owner| && owner[d] == FREE { var i := Where(a, d); assert At(cs, i, d); }
    forall i: nat, d: nat | At(b, i, d) ensures d < |owner'| && owner'[d] == FREE { NotInFront(owner, cs, n, i, d); }
    forall i: nat, d: nat | At(a, i, d) ensures d < |owner'| && owner'[d] == o { InElements(a, i, d); }
  }

  lemma NotInFront(owner: seq<int>, cs: seq<nat>, n: nat, i: nat, d: nat)
    requires NoDup(cs) && OwnedBy(owner, cs, FREE) && n <= |cs| && At(cs[n..], i, d)
    ensures d !in cs[..n] && d < |owner| && owner[d] == FREE
  {
    assert At(cs, i + n, d);
    if d in cs[..n] {
      var j := InFront(cs, n, d);
    }
  }

  lemma InFront(cs: seq<nat>, n: nat, d: nat) returns (j: nat)
    requires n <= |cs| && d in cs[..n]
    ensures j < n && At(cs, j, d)
  {
    j := Where(cs[..n], d);
  }

  lemma ReservedLists(next: seq<nat>, pending: seq<nat>, head: nat, free: nat, q: Parts, n: nat, next': seq<nat>,
      q': Parts)
    requires Partitioned(next, pending, head, free, q) && 0 < n <= free && q' == Reserved(q, n)
    requires q.free[n - 1] < |next| && next' == next[q.free[n - 1] := END]
    ensures ListOk(next', q'.owner, q'.free, FREE) && ListOk(next', q'.owner, q.free[..n], head)
    ensures Apart(next, next', q.owner, q'.owner, Elements(q.free[..n])) && forall d :: d in Elements(q.free[..n]) ==>
      d < |q.owner| && q.owner[d] == FREE && q'.owner[d] == head
  {
    FreeHead(next, pending, head, free, q);
    CutFront(next, next', q.free, n);
    ClaimFront(q.owner, q.free, n, head, q'.owner);
    Claimed(q.owner, q.free[..n], head, q'.owner);
    assert q.free[..n][n - 1] in q.free[..n];
  }

  lemma ReservedPartition(next: seq<nat>, pending: seq<nat>, head: nat, free: nat, q: Parts, n: nat, next': seq<nat>,
      pending': seq<nat>, q': Parts)
    requires Partitioned(next, pending, head, free, q) && 0 < n <= free && q' == Reserved(q, n) && head < |pending|
    requires q.free[n - 1] < |next| && next' == next[q.free[n - 1] := END] && pending' == pending[head := n]
    ensures Partitioned(next', pending', if n < free then q.free[n] else END, free - n, q')
  {
    FreeHead(next, pending, head, free, q);
    ReservedLists(next, pending, head, free, q, n, next', q');
    ReservedOthers(next, pending, head, free, q, n, next', pending', q');
    assert InFlight(next', pending', q', head);
    Claimed(q.owner, q.free[..n], head, q'.owner);
    forall d | 0 <= d < |q'.owner| ensures Known(q', d) { assert Known(q, d); }
    SumSet(pending, head, n);
  }

  lemma ReservedOthers(next: seq<nat>, pending: seq<nat>, head: nat, free: nat, q: Parts, n: nat, next': seq<nat>,
      pending': seq<nat>, q': Parts)
    requires Partitioned(next, pending, head, free, q) && 0 < n <= free && q' == Reserved(q, n) && head < |pending|
      && pending' == pending[head := n]
    requires Apart(next, next', q.owner, q'.owner, Elements(q.free[..n])) && forall d :: d in Elements(q.free[..n]) ==>
      d < |q.owner| && q.owner[d] == FREE && q'.owner[d] == head
    ensures forall h :: h in q'.chains && h != head ==> InFlight(next', pending', q', h)
  {
    forall h | h in q'.chains && h != head ensures InFlight(next', pending', q', h) {
      assert InFlight(next, pending, q, h);
      OtherList(next, next', q.owner, q'.owner, q.chains[h], h, Elements(q.free[..n]));
    }
  }

  ghost function Completed(q: Parts, h: nat): (r: Parts)
    requires h in q.chains
  { Parts(q.chains[h] + q.free, q.chains - {h}, Claim(q.owner, q.chains[h], FREE)) }

  lemma ChainHeld(next: seq<nat>, pending: seq<nat>, head: nat, free: nat, q: Parts, h: nat)
    requires Partitioned(next, pending, head, free, q) && h in q.chains
    ensures h < |next| && q.chains[h] != [] && q.chains[h][|q.chains[h]| - 1] < |next|
      && ListOk(next, q.owner, q.chains[h], h)
    ensures forall d :: d in q.chains[h] ==> d !in q.free
  {
    var c := q.chains[h];
    assert InFlight(next, pending, q, h) && LinkIs(next, c, |c| - 1);
    forall d | d in c ensures d !in q.free {
      var i := Where(c, d);
      if d in q.free { var j := Where(q.free, d); }
    }
  }

  lemma ClaimBack(owner: seq<int>, c: seq<nat>, fl: seq<nat>, h: int, owner': seq<int>)
    requires OwnedBy(owner, c, h) && Holds(owner, c, h) && OwnedBy(owner, fl, FREE) && Holds(owner, fl, FREE)
      && h != FREE && owner' == Claim(owner, c, FREE)
    ensures OwnedBy(owner', c + fl, FREE) && Holds(owner', c + fl, FREE) && forall d :: 0 <= d < |owner| ==>
      owner'[d] != h
  {
    Claimed(owner, c, FREE, owner');
    forall i: nat, d: nat | At(c + fl, i, d) ensures d < |owner'| && owner'[d] == FREE { ConcatAt(c, fl, i, d); }
    forall d: nat | Has(owner', FREE, d) ensures d in c + fl { assert d in c || Has(owner, FREE, d); }
    forall d | 0 <= d < |owner| ensures owner'[d] != h { assert Has(owner, h, d) || owner[d] != h; }
  }

  lemma CompletedPartition(next: seq<nat>, pending: seq<nat>, head: nat, free: nat, q: Parts, h: nat, next': seq<nat>,
      pending': seq<nat>, q': Parts)
    requires Partitioned(next, pending, head, free, q) && h in q.chains && q' == Completed(q, h) && h < |pending|
    requires q.chains[h] != [] && q.chains[h][|q.chains[h]| - 1] < |next|
      && next' == next[q.chains[h][|q.chains[h]| - 1] := head] && pending' == pending[h := 0]
    ensures Partitioned(next', pending', h, free + |q.chains[h]|, q')
  {
    var c := q.chains[h];
    ChainHeld(next, pending, head, free, q, h);
    assert InFlight(next, pending, q, h);
    Prepend(next, next', c, q.free);
    ClaimBack(q.owner, c, q.free, h, q'.owner);
    CompletedOthers(next, pending, head, free, q, h, next', pending', q');
    Claimed(q.owner, c, FREE, q'.owner);
    forall d | 0 <= d < |q'.owner|
      ensures Known(q', d)
    {
      assert Known(q, d) && (Has(q.owner, h, d) || q.owner[d] != h);
    }
    SumSet(pending, h, 0);
  }

  lemma CompletedOthers(next: seq<nat>, pending: seq<nat>, head: nat, free: nat, q: Parts, h: nat, next': seq<nat>,
      pending': seq<nat>, q': Parts)
    requires Partitioned(next, pending, head, free, q) && h in q.chains && q' == Completed(q, h) && h < |pending|
      && OwnedBy(q.owner, q.chains[h], h)
    requires q.chains[h] != [] && q.chains[h][|q.chains[h]| - 1] < |next|
      && next' == next[q.chains[h][|q.chains[h]| - 1] := head] && pending' == pending[h := 0]
    ensures forall k :: k in q'.chains ==> InFlight(next', pending', q', k)
  {
    var c := q.chains[h];
    assert c[|c| - 1] in c;
    Claimed(q.owner, c, FREE, q'.owner);
    forall d | d in c ensures d < |q.owner| && q.owner[d] == h { var i := Where(c, d); }
    forall k | k in q'.chains ensures InFlight(next', pending', q', k) {
      assert InFlight(next, pending, q, k);
      OtherList(next, next', q.owner, q'.owner, q.chains[k], k, Elements(c));
    }
  }
}
