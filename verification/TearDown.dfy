/** Which nodes lie under a table, in the order free_level meets them (src/arch/amd64/memory.rs). */
module TearDown {
  import opened Frames
  import opened PageTables

  /** The prefix of the node `l` levels up at which `k` lies. */
  function Above(k: Key, l: nat): (p: nat)
    decreases l - k.level
  { if k.level >= l then k.prefix else Above(Parent(k), l) }

  lemma {:induction false} AboveNext(k: Key, l: nat)
    requires k.level <= l
    ensures Above(k, l + 1) == Above(k, l) / ENTRIES
    decreases l - k.level
  {
    if k.level < l { AboveNext(Parent(k), l); }
  }

  /** A node of the tree has all the tables above it. */
  lemma {:induction false} AncestorIn(mem: seq<Frame>, owner: seq<Owner>, root: nat, sp: Space, kernel: nat, k: Key,
      l: nat)
    requires SpaceOk(mem, owner, root, sp, kernel) && k in sp && k.level <= l <= 3
    ensures Key(l, Above(k, l)) in sp
    decreases l - k.level
  {
    assert NodeOk(mem, owner, root, sp, k);
    if k.level < l { AncestorIn(mem, owner, root, sp, kernel, Parent(k), l); }
  }

  ghost predicate Below(k: Key, i: nat, c: Key)
  {
    k.level > 0 && c.level < k.level && k.prefix * ENTRIES <= Above(c, k.level - 1) < k.prefix * ENTRIES + i
  }

  /** The nodes under the first `i` entries of table `k`. */
  ghost function BelowTo(sp: Space, k: Key, i: nat): (s: set<Key>) { set c | c in sp && Below(k, i, c) }

  lemma BelowSkip(mem: seq<Frame>, owner: seq<Owner>, root: nat, sp: Space, kernel: nat, k: Key, i: nat)
    requires SpaceOk(mem, owner, root, sp, kernel) && 0 < k.level <= 3 && Child(k, i) !in sp
    ensures BelowTo(sp, k, i + 1) == BelowTo(sp, k, i)
  {
    forall c | c in sp && Below(k, i + 1, c) ensures Below(k, i, c) {
      AncestorIn(mem, owner, root, sp, kernel, c, k.level - 1);
    }
  }

  lemma BelowStep(sp: Space, k: Key, i: nat)
    requires 0 < k.level <= 3 && Child(k, i) in sp && i < ENTRIES
    ensures BelowTo(sp, k, i + 1) == BelowTo(sp, k, i) + BelowTo(sp, Child(k, i), ENTRIES) + {Child(k, i)}
    ensures Child(k, i) !in BelowTo(sp, k, i) + BelowTo(sp, Child(k, i), ENTRIES)
      && BelowTo(sp, k, i) !! BelowTo(sp, Child(k, i), ENTRIES)
  {
    var d := Child(k, i);
    forall c | c in sp && c.level < d.level ensures Below(d, ENTRIES, c) <==> Above(c, d.level) == d.prefix {
      AboveNext(c, d.level - 1);
      UnderPrefix(Above(c, d.level - 1), d.prefix);
    }
    forall c | c in sp && Below(k, i + 1, c) ensures c in BelowTo(sp, k, i) + BelowTo(sp, d, ENTRIES) + {d} { }
    forall c | c in sp && Below(d, ENTRIES, c) ensures Below(k, i + 1, c) && !Below(k, i, c) { }
  }

  lemma BelowWithin(sp: Space, k: Key, i: nat)
    requires 0 < k.level && i < ENTRIES
    ensures BelowTo(sp, k, i + 1) <= BelowTo(sp, k, ENTRIES) && k !in BelowTo(sp, k, ENTRIES)
  {}

  lemma UnderPrefix(x: nat, p: nat)
    ensures p * ENTRIES <= x < p * ENTRIES + ENTRIES <==> x / ENTRIES == p
  {}

  /** Every node is under the top table or is it. */
  lemma AllBelow(mem: seq<Frame>, owner: seq<Owner>, root: nat, sp: Space, kernel: nat)
    requires SpaceOk(mem, owner, root, sp, kernel)
    ensures TOP in sp ==> sp.Keys == BelowTo(sp, TOP, ENTRIES) + {TOP}
    ensures TOP !in sp ==> sp == map[]
  {
    forall c | c in sp ensures TOP in sp && (c == TOP || Below(TOP, ENTRIES, c)) {
      assert NodeOk(mem, owner, root, sp, c);
      AncestorIn(mem, owner, root, sp, kernel, c, 3);
      assert NodeOk(mem, owner, root, sp, Key(3, Above(c, 3)));
      if c.level < 3 {
        AboveNext(c, 2);
        UnderPrefix(Above(c, 2), SLOT);
      }
    }
  }

  // ---------------------------------------------------------------- the state on the way

  /** Frame `f` once the nodes `gone` are free. */
  ghost predicate FreedAt(mem: seq<Frame>, free: set<nat>, mem0: seq<Frame>, free0: set<nat>, owner: seq<Owner>,
      root: nat, gone: set<Key>, f: nat) {
    f < |owner| == |mem| == |mem0| && if owner[f].Part? && owner[f].root == root && owner[f].key in gone
    then f in free && mem[f] == Zero else mem[f] == mem0[f] && (f in free <==> f in free0)
  }

  ghost predicate Freed(mem: seq<Frame>, free: set<nat>, mem0: seq<Frame>, free0: set<nat>, owner: seq<Owner>,
      root: nat, gone: set<Key>) {
    && |owner| == |mem| == |mem0| && (forall f: nat :: f in free ==> f < |owner|)
    && forall f: nat :: f < |owner| ==> FreedAt(mem, free, mem0, free0, owner, root, gone, f)
  }

  lemma FreedOne(mem: seq<Frame>, free: set<nat>, mem0: seq<Frame>, free0: set<nat>, owner: seq<Owner>, root: nat,
      gone: set<Key>, f: nat)
    requires Freed(mem, free, mem0, free0, owner, root, gone) && f < |owner| && owner[f].Part? && owner[f].root == root
      && owner[f].key !in gone
    requires forall g: nat :: g < |owner| && owner[g] == owner[f] ==> g == f
    ensures Freed(mem[f := Zero], free + {f}, mem0, free0, owner, root, gone + {owner[f].key})
  {
    var mem', free', gone' := mem[f := Zero], free + {f}, gone + {owner[f].key};
    forall g: nat | g < |owner| ensures FreedAt(mem', free', mem0, free0, owner, root, gone', g) {
      assert FreedAt(mem, free, mem0, free0, owner, root, gone, g);
    }
  }
}
