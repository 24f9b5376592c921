/**
  The ASID generation allocator (src/arch/arm64/asid_pool.rs). The bitmap of used
  tags is the set of its 1 bits. `Pool` is the value of the allocator, and the
  class `Asids` performs the operations in place.
 */
module AsidPool {
  import opened Base

  const BOOT_TAG: nat := 255
  const GENERATION_LIMIT: nat := 0xFFFF_FFFF_FFFF_FFFF

  datatype Space = Space(root: nat, tag: nat, generation: nat)
  const EMPTY := Space(0, 0, 0)

  datatype Active = Active(root: nat, tag: nat)

  datatype Pool = Pool(spaces: seq<Space>, active: seq<Active>, used: set<nat>, limit: nat, next: nat, generation: nat)

  function NewPool(bits: nat, spaces: nat, cpus: nat): (p: Pool)
    requires bits > 0
  {
    Pool(seq(spaces, _ => EMPTY), seq(cpus, _ => Active(0, 0)), {0, BOOT_TAG}, Pow2(bits) - 1, 1, 1)
  }

  /** First slot at or after `i` with this root. */
  function SlotFrom(spaces: seq<Space>, root: nat, i: nat): (k: nat)
    requires i <= |spaces|
    ensures i <= k <= |spaces|
    ensures k < |spaces| ==> spaces[k].root == root
    ensures forall j :: i <= j < k ==> spaces[j].root != root
    decreases |spaces| - i
  {
    if i == |spaces| || spaces[i].root == root then i else SlotFrom(spaces, root, i + 1)
  }

  function Slot(spaces: seq<Space>, root: nat): (k: nat)
    ensures k <= |spaces|
    ensures k < |spaces| ==> spaces[k].root == root
    ensures forall j :: 0 <= j < k ==> spaces[j].root != root
  { SlotFrom(spaces, root, 0) }

  predicate Known(p: Pool, root: nat) { Slot(p.spaces, root) < |p.spaces| }

  function Register(p: Pool, root: nat): (r: (Pool, bool)) {
    var k := Slot(p.spaces, 0);
    if k < |p.spaces| then (p.(spaces := p.spaces[k := p.spaces[k].(root := root)]), true) else (p, false)
  }

  function After(p: Pool): (n: nat) { if p.next == p.limit then 1 else p.next + 1 }

  /** Up to `tries` turns of the allocation loop. */
  function Allocate(p: Pool, tries: nat): (r: (Pool, Option<nat>))
    decreases tries
  {
    if tries == 0 then (p, None)
    else
      var p' := p.(next := After(p));
      if p.next !in p.used then (p'.(used := p.used + {p.next}), Some(p.next)) else Allocate(p', tries - 1)
  }

  /** Keep the tag CPU `c` runs with: it stays used and its space joins the new generation. */
  function Renew(p: Pool, a: Active): (r: Pool) {
    if a.root == 0 then p
    else
      var k := Slot(p.spaces, a.root);
      var p' := p.(used := p.used + {a.tag});
      if k < |p.spaces| then p'.(spaces := p.spaces[k := Space(a.root, a.tag, p.generation)]) else p'
  }

  function RenewFirst(p: Pool, n: nat): (r: Pool)
    requires n <= |p.active|
    ensures r.active == p.active && r.generation == p.generation && r.limit == p.limit && r.next == p.next
      && |r.spaces| == |p.spaces|
    decreases n
  {
    if n == 0 then p else Renew(RenewFirst(p, n - 1), p.active[n - 1])
  }

  function Rollover(p: Pool): (r: Pool)
    ensures r.active == p.active && r.generation == p.generation + 1 && r.limit == p.limit && |r.spaces| == |p.spaces|
  {
    RenewFirst(p.(generation := p.generation + 1, used := {0, BOOT_TAG}, next := 1), |p.active|)
  }

  /**
    What activate returns: a tag or none, and whether every TLB must be flushed first; Halted when
    the generation counter is exhausted.
   */
  datatype Outcome = Tag(tag: nat, flush: bool) | NoTag(flush: bool) | Halted

  /** The tag found for slot `k` after the rollover has made room. */
  function Retry(p: Pool, k: nat): (r: (Pool, Option<nat>))
    requires k < |p.spaces|
    ensures |r.0.spaces| == |p.spaces|
  {
    if p.spaces[k].generation == p.generation then (p, Some(p.spaces[k].tag))
    else AllocateSame(p, p.limit); Allocate(p, p.limit)
  }

  lemma {:induction false} AllocateSame(p: Pool, tries: nat)
    ensures var r := Allocate(p, tries).0; r == p.(used := r.used, next := r.next)
    decreases tries
  {
    if tries > 0 && p.next in p.used { AllocateSame(p.(next := After(p)), tries - 1); }
  }

  function Install(p: Pool, cpu: nat, k: nat, tag: nat): (r: Pool)
    requires cpu < |p.active| && k < |p.spaces|
  {
    p.(spaces := p.spaces[k := p.spaces[k].(tag := tag, generation := p.generation)],
       active := p.active[cpu := Active(p.spaces[k].root, tag)])
  }

  function Activate(p: Pool, cpu: nat, root: nat): (r: (Pool, Outcome))
    requires cpu < |p.active| && (root == 0 || Known(p, root))
  {
    if root == 0 then (p.(active := p.active[cpu := Active(0, 0)]), Tag(0, false))
    else
      var k := Slot(p.spaces, root);
      if p.spaces[k].generation == p.generation then
        (p.(active := p.active[cpu := Active(root, p.spaces[k].tag)]), Tag(p.spaces[k].tag, false))
      else
        var (p1, tag) := Allocate(p, p.limit);
        AllocateSame(p, p.limit);
        if tag.Some? then (Install(p1, cpu, k, tag.value), Tag(tag.value, false))
        else if p.generation >= GENERATION_LIMIT then (p1, Halted)
        else
          var (p2, tag2) := Retry(Rollover(p1), k);
          RolloverSame(p1);
          AllocateSame(Rollover(p1), p.limit);
          if tag2.Some? then (Install(p2, cpu, k, tag2.value), Tag(tag2.value, true)) else (p2, NoTag(true))
  }

  function Release(p: Pool, root: nat): (r: Pool)
    requires Known(p, root)
  { p.(spaces := p.spaces[Slot(p.spaces, root) := EMPTY]) }

  // ---------------------------------------------------------------- invariant

  ghost predicate SpaceOk(p: Pool, s: Space) {
    && s.generation <= p.generation
    && (s.root == 0 ==> s == EMPTY)
    && (s.generation == p.generation ==> Usable(p, s.tag) && s.tag in p.used)
  }

  /** A tag that may be given to a user root. */
  ghost predicate Usable(p: Pool, tag: nat) { 1 <= tag <= p.limit && tag != BOOT_TAG }

  ghost predicate ActiveOk(p: Pool, a: Active) {
    if a.root == 0 then a.tag == 0
    else Known(p, a.root) && p.spaces[Slot(p.spaces, a.root)] == Space(a.root, a.tag, p.generation)
  }

  ghost predicate Inv(p: Pool) {
    && 1 <= p.next <= p.limit && p.generation >= 1 && 0 in p.used && BOOT_TAG in p.used
    && (forall i :: 0 <= i < |p.spaces| ==> SpaceOk(p, p.spaces[i]))
    && (forall i, j :: 0 <= i < j < |p.spaces| && p.spaces[i].root == p.spaces[j].root ==> p.spaces[i].root == 0)
    && (forall i, j :: 0 <= i < j < |p.spaces| && p.spaces[i].generation == p.spaces[j].generation == p.generation ==>
      p.spaces[i].tag != p.spaces[j].tag)
    && (forall c :: 0 <= c < |p.active| ==> ActiveOk(p, p.active[c]))
  }

  lemma SlotUnique(spaces: seq<Space>, k: nat)
    requires k < |spaces| && forall j :: 0 <= j < |spaces| && j != k ==> spaces[j].root != spaces[k].root
    ensures Slot(spaces, spaces[k].root) == k
  {}

  lemma NewPoolInv(bits: nat, spaces: nat, cpus: nat)
    requires bits > 0
    ensures Inv(NewPool(bits, spaces, cpus))
    ensures var p := NewPool(bits, spaces, cpus);
      && p.limit + 1 == Pow2(bits) && p.used == {0, 255} && p.next == 1 && p.generation == 1
      && |p.spaces| == spaces && |p.active| == cpus
      && (forall i :: 0 <= i < spaces ==> p.spaces[i].root == 0) && forall c :: 0 <= c < cpus ==> p.active[c].root == 0
  {}

  ghost predicate FirstEmpty(p: Pool, k: nat) {
    k < |p.spaces| && p.spaces[k].root == 0 && forall i :: 0 <= i < k ==> p.spaces[i].root != 0
  }

  lemma RegisterInv(p: Pool, root: nat)
    requires Inv(p) && root != 0 && !Known(p, root)
    ensures Inv(Register(p, root).0)
    ensures Register(p, root).1 ==> Known(Register(p, root).0, root)
    ensures Register(p, root).1 <==> exists k :: 0 <= k < |p.spaces| && p.spaces[k].root == 0
    ensures !Register(p, root).1 ==> Register(p, root).0 == p
    ensures Register(p, root).1 ==> exists k: nat ::
      FirstEmpty(p, k) && Register(p, root).0 == p.(spaces := p.spaces[k := Space(root, 0, 0)])
  {
    var (p', ok) := Register(p, root);
    if ok {
      var k := Slot(p.spaces, 0);
      forall c | 0 <= c < |p'.active| ensures ActiveOk(p', p'.active[c]) {
        assert ActiveOk(p, p.active[c]);
        if p.active[c].root != 0 { SlotUnique(p'.spaces, Slot(p.spaces, p.active[c].root)); }
      }
      SlotUnique(p'.spaces, k);
      assert SpaceOk(p, p.spaces[k]) && FirstEmpty(p, k);
    }
  }

  lemma ReleaseInv(p: Pool, root: nat)
    requires Inv(p) && root != 0 && Known(p, root) && forall c :: 0 <= c < |p.active| ==> p.active[c].root != root
    ensures Inv(Release(p, root)) && !Known(Release(p, root), root)
    ensures exists k ::
      0 <= k < |p.spaces| && p.spaces[k].root == root
      && Release(p, root) == p.(spaces := p.spaces[k := Space(0, 0, 0)])
  {
    var p' := Release(p, root);
    assert p.spaces[Slot(p.spaces, root)].root == root;
    forall c | 0 <= c < |p'.active| ensures ActiveOk(p', p'.active[c]) {
      assert ActiveOk(p, p.active[c]);
      if p.active[c].root != 0 { SlotUnique(p'.spaces, Slot(p.spaces, p.active[c].root)); }
    }
  }
  /** The allocation loop returns an unused tag, and fails only when every tag up to the limit is used. */
  lemma {:induction false} AllocateSpec(p: Pool, tries: nat)
    requires 1 <= p.next <= p.limit && tries <= p.limit
    ensures var (p', tag) := Allocate(p, tries);
      && 1 <= p'.next <= p.limit
      && (tag.Some? ==> 1 <= tag.value <= p.limit && tag.value !in p.used && p'.used == p.used + {tag.value})
      && (tag.None? ==> p'.used == p.used && forall k :: 0 <= k < tries ==> Turn(p, k) in p.used)
    decreases tries
  {
    if tries > 0 && p.next in p.used {
      var p1 := p.(next := After(p));
      AllocateSpec(p1, tries - 1);
      if Allocate(p, tries).1.None? {
        forall k | 0 <= k < tries ensures Turn(p, k) in p.used {
          if k > 0 { assert Turn(p, k) == Turn(p1, k - 1); }
        }
      }
    }
  }

  /** The tag the loop tries at turn `k`. */
  ghost function Turn(p: Pool, k: nat): (tag: nat)
    requires 1 <= p.next <= p.limit && k < p.limit
  { if p.next + k <= p.limit then p.next + k else p.next + k - p.limit }

  lemma AllocateComplete(p: Pool)
    requires 1 <= p.next <= p.limit
    ensures Allocate(p, p.limit).1.None? <==> forall t :: 1 <= t <= p.limit ==> t in p.used
  {
    AllocateSpec(p, p.limit);
    if Allocate(p, p.limit).1.None? {
      forall t | 1 <= t <= p.limit ensures t in p.used {
        var k := if t >= p.next then t - p.next else t + p.limit - p.next;
        assert Turn(p, k) == t;
      }
    }
  }

  lemma {:induction false} RenewSame(p: Pool, n: nat)
    requires n <= |p.active|
    ensures forall i :: 0 <= i < |p.spaces| ==> RenewFirst(p, n).spaces[i].root == p.spaces[i].root
    decreases n
  {
    if n > 0 { RenewSame(p, n - 1); }
  }

  /** A rollover moves no root to another slot. */
  lemma RolloverSame(p: Pool)
    ensures forall i :: 0 <= i < |p.spaces| ==> Rollover(p).spaces[i].root == p.spaces[i].root
  {
    RenewSame(p.(generation := p.generation + 1, used := {0, BOOT_TAG}, next := 1), |p.active|);
  }

  /** One of the first `n` CPUs has this root loaded. */
  ghost predicate LoadedIn(p: Pool, root: nat, n: nat)
    requires n <= |p.active|
  { exists c :: 0 <= c < n && p.active[c].root == root }

  ghost function Renewed(p: Pool, n: nat): (r: Pool)
    requires n <= |p.active|
    ensures r.active == p.active && r.generation == p.generation + 1 && r.limit == p.limit && r.next == 1
      && |r.spaces| == |p.spaces|
  { RenewFirst(p.(generation := p.generation + 1, used := {0, BOOT_TAG}, next := 1), n) }

  ghost function RenewedSpace(p: Pool, s: Space, n: nat): (r: Space)
    requires n <= |p.active|
  { if s.root != 0 && LoadedIn(p, s.root, n) then s.(generation := p.generation + 1) else s }

  /** `Renewed` for one CPU more: the slot its root had, and still has, joins the new generation with the CPU's tag. */
  lemma RenewNext(p: Pool, n: nat)
    requires Inv(p) && n < |p.active|
    ensures var q, a := Renewed(p, n), p.active[n];
      if a.root == 0 then Renewed(p, n + 1) == q
      else var k := Slot(p.spaces, a.root);
        && 0 < a.tag <= p.limit && k < |p.spaces| && p.spaces[k] == Space(a.root, a.tag, p.spaces[k].generation)
        && Slot(q.spaces, a.root) == k
        && Renewed(p, n + 1) == q.(used := q.used + {a.tag},
          spaces := q.spaces[k := Space(a.root, a.tag, p.generation + 1)])
  {
    var q, a := Renewed(p, n), p.active[n];
    assert ActiveOk(p, a);
    if a.root != 0 {
      assert SpaceOk(p, p.spaces[Slot(p.spaces, a.root)]);
      RenewSame(p.(generation := p.generation + 1, used := {0, BOOT_TAG}, next := 1), n);
      SlotUnique(q.spaces, Slot(p.spaces, a.root));
    }
  }

  /**
    The spaces loaded on the first `n` CPUs keep root and tag and join the new generation; the
    others are untouched.
   */
  lemma {:induction false} RenewSlot(p: Pool, n: nat, i: nat)
    requires Inv(p) && n <= |p.active| && i < |p.spaces|
    ensures Renewed(p, n).spaces[i] == RenewedSpace(p, p.spaces[i], n)
    decreases n
  {
    if n > 0 {
      RenewSlot(p, n - 1, i);
      RenewNext(p, n - 1);
      LoadedNext(p, p.spaces[i].root, n - 1);
      var a := p.active[n - 1];
      if a.root != 0 && i != Slot(p.spaces, a.root) { assert p.spaces[i].root != a.root; }
    }
  }

  lemma LoadedNext(p: Pool, root: nat, n: nat)
    requires n < |p.active|
    ensures LoadedIn(p, root, n + 1) <==> LoadedIn(p, root, n) || p.active[n].root == root
  {}

  /** One of the first `n` CPUs runs a user root with this tag. */
  ghost predicate TagIn(p: Pool, t: nat, n: nat)
    requires n <= |p.active|
  { exists c :: 0 <= c < n && p.active[c].root != 0 && p.active[c].tag == t }

  /** After a rollover exactly the reserved tags and the tags loaded on some CPU are used. */
  lemma {:induction false} RenewUsed(p: Pool, n: nat, t: nat)
    requires n <= |p.active|
    ensures t in Renewed(p, n).used <==> t == 0 || t == BOOT_TAG || TagIn(p, t, n)
    decreases n
  {
    if n > 0 {
      RenewUsed(p, n - 1, t);
      var a := p.active[n - 1];
      assert TagIn(p, t, n) <==> TagIn(p, t, n - 1) || (a.root != 0 && a.tag == t);
    }
  }

  /** Slot `i` and its tag after a rollover, told from the pool before it. */
  lemma RolloverSpace(p: Pool, i: nat)
    requires Inv(p) && i < |p.spaces|
    ensures Rollover(p).spaces[i] == RenewedSpace(p, p.spaces[i], |p.active|)
    ensures SpaceOk(Rollover(p), Rollover(p).spaces[i])
    ensures Rollover(p).spaces[i].generation == p.generation + 1 ==> p.spaces[i].generation == p.generation
  {
    RenewSlot(p, |p.active|, i);
    assert SpaceOk(p, p.spaces[i]);
    if p.spaces[i].root != 0 && LoadedIn(p, p.spaces[i].root, |p.active|) {
      var c :| 0 <= c < |p.active| && p.active[c].root == p.spaces[i].root;
      assert ActiveOk(p, p.active[c]);
      SlotUnique(p.spaces, i);
      assert TagIn(p, p.spaces[i].tag, |p.active|);
      RenewUsed(p, |p.active|, p.spaces[i].tag);
    }
  }

  lemma RolloverActive(p: Pool, c: nat)
    requires Inv(p) && c < |p.active|
    ensures ActiveOk(Rollover(p), p.active[c])
  {
    var r := Rollover(p);
    assert ActiveOk(p, p.active[c]);
    if p.active[c].root != 0 {
      var k := Slot(p.spaces, p.active[c].root);
      assert LoadedIn(p, p.spaces[k].root, |p.active|);
      RolloverSpace(p, k);
      RolloverSame(p);
      SlotUnique(r.spaces, k);
    }
  }

  lemma RolloverInv(p: Pool)
    requires Inv(p)
    ensures Inv(Rollover(p))
  {
    var r := Rollover(p);
    RenewUsed(p, |p.active|, 0);
    RenewUsed(p, |p.active|, BOOT_TAG);
    forall i | 0 <= i < |r.spaces|
      ensures SpaceOk(r, r.spaces[i]) && r.spaces[i].root == p.spaces[i].root && r.spaces[i].tag == p.spaces[i].tag
      ensures r.spaces[i].generation == r.generation ==> p.spaces[i].generation == p.generation
    {
      RolloverSpace(p, i);
    }
    forall c | 0 <= c < |r.active| ensures ActiveOk(r, r.active[c]) { RolloverActive(p, c); }
  }

  /**
    A root whose tag is stale is loaded nowhere, so the rollover does not renew it: the "already
    renewed" case of activate never arises.
   */
  lemma StaleIsNotRenewed(p: Pool, k: nat)
    requires Inv(p) && k < |p.spaces| && p.spaces[k].root != 0 && p.spaces[k].generation != p.generation
    ensures Rollover(p).spaces[k] == p.spaces[k] && Rollover(p).spaces[k].generation != Rollover(p).generation
  {
    RenewSlot(p, |p.active|, k);
    assert SpaceOk(p, p.spaces[k]);
    if LoadedIn(p, p.spaces[k].root, |p.active|) {
      var c :| 0 <= c < |p.active| && p.active[c].root == p.spaces[k].root;
      assert ActiveOk(p, p.active[c]);
      SlotUnique(p.spaces, k);
      assert false;
    }
  }

  /** Giving slot `k`, which is stale, an unused tag and loading it on `cpu`. */
  lemma InstallInv(p: Pool, cpu: nat, k: nat, tag: nat)
    requires Inv(p.(used := p.used - {tag})) && tag in p.used && Usable(p, tag)
    requires cpu < |p.active| && k < |p.spaces| && p.spaces[k].root != 0 && p.spaces[k].generation != p.generation
    ensures Inv(Install(p, cpu, k, tag))
  {
    var p0, p' := p.(used := p.used - {tag}), Install(p, cpu, k, tag);
    forall i | 0 <= i < |p'.spaces| ensures SpaceOk(p', p'.spaces[i]) { assert SpaceOk(p0, p0.spaces[i]); }
    forall i, j | 0 <= i < j < |p'.spaces| && p'.spaces[i].generation == p'.spaces[j].generation == p'.generation
      ensures p'.spaces[i].tag != p'.spaces[j].tag
    {
      assert SpaceOk(p0, p0.spaces[i]) && SpaceOk(p0, p0.spaces[j]);
    }
    SlotUnique(p'.spaces, k);
    forall c | 0 <= c < |p'.active| ensures ActiveOk(p', p'.active[c]) {
      assert ActiveOk(p0, p0.active[c]);
      if c != cpu && p0.active[c].root != 0 { SlotUnique(p'.spaces, Slot(p0.spaces, p0.active[c].root)); }
    }
  }

  lemma AllocateInv(p: Pool)
    requires Inv(p)
    ensures var (p', tag) := Allocate(p, p.limit);
      && (tag.None? ==> Inv(p'))
      && (tag.Some? ==> Inv(p'.(used := p'.used - {tag.value})) && tag.value in p'.used && Usable(p', tag.value))
  {
    AllocateSpec(p, p.limit);
    AllocateSame(p, p.limit);
    var (p', tag) := Allocate(p, p.limit);
    var p0 := if tag.Some? then p'.(used := p'.used - {tag.value}) else p';
    assert p0.used == p.used;
    forall i | 0 <= i < |p0.spaces| ensures SpaceOk(p0, p0.spaces[i]) { assert SpaceOk(p, p.spaces[i]); }
    forall c | 0 <= c < |p0.active| ensures ActiveOk(p0, p0.active[c]) { assert ActiveOk(p, p.active[c]); }
  }

  lemma ReloadInv(p: Pool, cpu: nat, a: Active)
    requires Inv(p) && cpu < |p.active| && ActiveOk(p, a)
    ensures Inv(p.(active := p.active[cpu := a]))
  {
    var p' := p.(active := p.active[cpu := a]);
    forall i | 0 <= i < |p'.spaces| ensures SpaceOk(p', p'.spaces[i]) { assert SpaceOk(p, p.spaces[i]); }
    forall c | 0 <= c < |p'.active|
      ensures ActiveOk(p', p'.active[c])
    {
      if c != cpu { assert ActiveOk(p, p.active[c]); }
    }
  }

  /** Every activation keeps the pool consistent, whatever it returns. */
  lemma ActivateInv(p: Pool, cpu: nat, root: nat)
    requires Inv(p) && cpu < |p.active| && (root == 0 || Known(p, root))
    ensures Inv(Activate(p, cpu, root).0)
  {
    var k := Slot(p.spaces, root);
    if root == 0 {
      ReloadInv(p, cpu, Active(0, 0));
    } else if p.spaces[k].generation == p.generation {
      ReloadInv(p, cpu, Active(root, p.spaces[k].tag));
    } else {
      var (p1, tag) := Allocate(p, p.limit);
      AllocateInv(p);
      AllocateSame(p, p.limit);
      if tag.Some? {
        InstallInv(p1, cpu, k, tag.value);
      } else if p.generation < GENERATION_LIMIT {
        RolloverInv(p1);
        StaleIsNotRenewed(p1, k);
        var q := Rollover(p1);
        AllocateInv(q);
        AllocateSame(q, q.limit);
        var (p2, tag2) := Retry(q, k);
        if tag2.Some? { InstallInv(p2, cpu, k, tag2.value); }
      }
    }
  }

  /** A rollover makes a tag unusable exactly if some CPU runs with it. */
  lemma RolloverUsed(p: Pool, t: nat)
    requires Inv(p) && Usable(p, t)
    ensures t in Rollover(p).used <==> TagIn(p, t, |p.active|)
    ensures TagIn(p, t, |p.active|) ==> t in p.used
  {
    RenewUsed(p, |p.active|, t);
    if TagIn(p, t, |p.active|) {
      var c :| 0 <= c < |p.active| && p.active[c].root != 0 && p.active[c].tag == t;
      assert ActiveOk(p, p.active[c]);
    }
  }

  /**
    Activation finds no tag if and only if the root needs one and every tag that
    may be given to a user root is loaded on some CPU.
   */
  lemma NoTagExactly(p: Pool, cpu: nat, root: nat)
    requires Inv(p) && cpu < |p.active| && root != 0 && Known(p, root) && p.generation < GENERATION_LIMIT
    ensures Activate(p, cpu, root).1.NoTag? <==>
      p.spaces[Slot(p.spaces, root)].generation != p.generation && forall t :: Usable(p, t) ==> TagIn(p, t, |p.active|)
  {
    var k := Slot(p.spaces, root);
    if p.spaces[k].generation != p.generation {
      var (p1, tag) := Allocate(p, p.limit);
      AllocateComplete(p);
      AllocateSpec(p, p.limit);
      AllocateSame(p, p.limit);
      AllocateInv(p);
      forall t | Usable(p, t) ensures TagIn(p, t, |p.active|) ==> t in p.used { RolloverUsed(p, t); }
      if tag.None? {
        NoTagAfter(p1, k);
        assert forall t :: TagIn(p1, t, |p.active|) <==> TagIn(p, t, |p.active|);
      }
    }
  }

  /** The second search, after a rollover, fails exactly if every tag is loaded. */
  lemma NoTagAfter(p: Pool, k: nat)
    requires Inv(p) && k < |p.spaces| && p.spaces[k].root != 0 && p.spaces[k].generation != p.generation
    ensures Retry(Rollover(p), k).1.None? <==> forall t :: Usable(p, t) ==> TagIn(p, t, |p.active|)
  {
    var q := Rollover(p);
    StaleIsNotRenewed(p, k);
    RolloverInv(p);
    AllocateComplete(q);
    forall t | Usable(p, t) ensures t in q.used <==> TagIn(p, t, |p.active|) { RolloverUsed(p, t); }
  }

  ghost function UpTo(n: nat): (r: set<nat>)
    ensures |r| == n && forall t :: t in r <==> 1 <= t <= n
  { if n == 0 then {} else UpTo(n - 1) + {n} }

  /** The tags CPUs run with. */
  ghost function ActiveTags(active: seq<Active>): (r: set<nat>)
    ensures |r| <= |active|
    ensures forall c :: 0 <= c < |active| ==> active[c].tag in r
  {
    if active == [] then {} else
      var r := ActiveTags(active[..|active| - 1]);
      assert forall c :: 0 <= c < |active| - 1 ==> active[c] == active[..|active| - 1][c];
      r + {active[|active| - 1].tag}
  }

  lemma SubsetSize<T>(a: set<T>, b: set<T>)
    requires a <= b
    ensures |a| <= |b|
  {
    assert b == a + (b - a);
  }

  /** With more tags than CPUs, leaving out the two reserved ones, activation always finds a tag. */
  lemma EnoughTags(p: Pool, cpu: nat, root: nat)
    requires Inv(p) && cpu < |p.active| && (root == 0 || Known(p, root)) && p.generation < GENERATION_LIMIT
    requires |p.active| + 1 < p.limit
    ensures Activate(p, cpu, root).1.Tag?
  {
    if root != 0 && Activate(p, cpu, root).1.NoTag? {
      NoTagExactly(p, cpu, root);
      var tags := ActiveTags(p.active);
      var all := UpTo(p.limit);
      forall t | t in all ensures t in tags + {BOOT_TAG} {
        if t != BOOT_TAG { assert Usable(p, t) && TagIn(p, t, |p.active|); }
      }
      SubsetSize(all, tags + {BOOT_TAG});
      assert false;
    }
  }
}
