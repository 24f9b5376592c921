/** The ASID allocator as one object updated in place; its assertions are proved never to fire. */
module AsidObject {
  import opened Base
  import opened AsidPool
  import M = AsidPool

  class Asids {
    var spaces: seq<Space>
    var active: seq<Active>
    var used: set<nat>
    var limit: nat
    var next: nat
    var generation: nat

    ghost function View(): (p: Pool)
      reads this
    { Pool(spaces, active, used, limit, next, generation) }

    ghost predicate Valid()
      reads this
    { Inv(View()) }

    constructor (bits: nat, spaceCount: nat, cpuCount: nat)
      requires 0 < bits <= 16
      ensures Valid() && View() == NewPool(bits, spaceCount, cpuCount)
    {
      spaces, active := seq(spaceCount, _ => EMPTY), seq(cpuCount, _ => Active(0, 0));
      used, limit, next, generation := {0, BOOT_TAG}, Pow2(bits) - 1, 1, 1;
      new;
      NewPoolInv(bits, spaceCount, cpuCount);
    }

    method FindRoot(root: nat) returns (k: nat)
      ensures k == Slot(spaces, root)
    {
      k := 0;
      while k < |spaces| && spaces[k].root != root
        invariant 0 <= k <= |spaces|
        invariant Slot(spaces, root) == SlotFrom(spaces, root, k)
      {
        k := k + 1;
      }
    }

    method Register(root: nat) returns (ok: bool)
      requires Valid() && root != 0 && !Known(View(), root)
      modifies this
      ensures Valid() && (View(), ok) == M.Register(old(View()), root)
    {
      RegisterInv(View(), root);
      var k := FindRoot(0);
      ok := k < |spaces|;
      if ok { spaces := spaces[k := spaces[k].(root := root)]; }
    }

    method Allocate() returns (tag: Option<nat>)
      modifies this`used, this`next
      ensures (View(), tag) == M.Allocate(old(View()), limit)
    {
      ghost var before := View();
      var i := 0;
      while i < limit
        invariant 0 <= i <= limit == old(limit)
        invariant M.Allocate(before, limit) == M.Allocate(View(), limit - i)
      {
        var t := next;
        next := if t == limit then 1 else t + 1;
        if t !in used {
          used := used + {t};
          return Some(t);
        }
        i := i + 1;
      }
      tag := None;
    }

    method Rollover()
      requires Valid() && generation < GENERATION_LIMIT
      modifies this
      ensures Valid() && View() == M.Rollover(old(View()))
    {
      ghost var before := View();
      RolloverInv(before);
      generation := generation + 1;
      used, next := {0, BOOT_TAG}, 1;
      var c := 0;
      while c < |active|
        invariant 0 <= c <= |active|
        invariant active == old(active)
        invariant View() == Renewed(before, c)
      {
        var a := active[c];
        RenewNext(before, c);
        if a.root != 0 {
          // the tag is a user tag and the root is registered
          assert 0 < a.tag <= limit;
          used := used + {a.tag};
          var k := FindRoot(a.root);
          spaces := spaces[k := Space(a.root, a.tag, generation)];
        }
        c := c + 1;
      }
    }

    method Activate(cpu: nat, root: nat) returns (o: Outcome)
      requires Valid() && cpu < |active| && (root == 0 || Known(View(), root))
      modifies this
      ensures Valid() && (View(), o) == M.Activate(old(View()), cpu, root)
    {
      ActivateInv(View(), cpu, root);
      if root == 0 {
        active := active[cpu := Active(0, 0)];
        return Tag(0, false);
      }
      var k := FindRoot(root);
      var flush := false;
      if spaces[k].generation != generation {
        ghost var p := View();
        AllocateInv(p);
        AllocateSame(p, p.limit);
        var tag := Allocate();
        if tag.None? {
          if generation >= GENERATION_LIMIT { return Halted; }
          ghost var p1 := View();
          RolloverSame(p1);
          Rollover();
          AllocateSame(View(), limit);
          flush := true;
          if spaces[k].generation == generation { tag := Some(spaces[k].tag); } else { tag := Allocate(); }
        }
        if tag.None? { return NoTag(flush); }
        spaces := spaces[k := spaces[k].(tag := tag.value, generation := generation)];
      }
      active := active[cpu := Active(root, spaces[k].tag)];
      o := Tag(spaces[k].tag, flush);
    }

    /** The tag of a root in the current generation. */
    method CurrentTag(root: nat) returns (tag: Option<nat>)
      requires Valid()
      ensures tag.Some? <==>
        exists k :: 0 <= k < |spaces| && spaces[k].root == root && spaces[k].generation == generation
      ensures tag.Some? ==> Space(root, tag.value, generation) in spaces && (root != 0 ==> Usable(View(), tag.value))
    {
      var k := 0;
      while k < |spaces|
        invariant 0 <= k <= |spaces|
        invariant forall j :: 0 <= j < k ==> !(spaces[j].root == root && spaces[j].generation == generation)
      {
        if spaces[k].root == root && spaces[k].generation == generation {
          assert SpaceOk(View(), spaces[k]);
          return Some(spaces[k].tag);
        }
        k := k + 1;
      }
      tag := None;
    }

    method Release(root: nat)
      requires Valid() && root != 0 && Known(View(), root) && forall c :: 0 <= c < |active| ==> active[c].root != root
      modifies this
      ensures Valid() && View() == M.Release(old(View()), root)
    {
      ReleaseInv(View(), root);
      var k := FindRoot(root);
      spaces := spaces[k := EMPTY];
    }
  }
}
