/**
  The private half of a user address space (src/arch/amd64/memory.rs): a tree of
  tables under one entry of the root, four levels deep. A space is kept beside the
  memory as a map from tree position to the frame there; every frame has one owner.
 */
module PageTables {
  import opened Frames

  /** The root's entry for the user window. */
  const SLOT: nat := 200

  /** A tree position: the table (or, at level 0, the page) for the addresses with this prefix. */
  datatype Key = Key(level: nat, prefix: nat)

  datatype Node = Node(frame: nat, writable: bool, noExec: bool)

  type Space = map<Key, Node>

  datatype Owner = Nobody | Root(root: nat) | Part(root: nat, key: Key)

  const TOP: Key := Key(3, SLOT)

  function Child(k: Key, i: nat): (c: Key)
    requires k.level > 0
  { Key(k.level - 1, k.prefix * ENTRIES + i) }

  function Parent(k: Key): (p: Key) { Key(k.level + 1, k.prefix / ENTRIES) }

  function Index(k: Key): (i: nat) { k.prefix % ENTRIES }

  lemma ChildParent(k: Key, i: nat)
    requires k.level > 0 && i < ENTRIES
    ensures Parent(Child(k, i)) == k && Index(Child(k, i)) == i
  {}

  lemma ParentChild(c: Key)
    ensures Index(c) < ENTRIES && Child(Parent(c), Index(c)) == c
  {}

  function EntryOf(f: Frame, i: nat): (e: Entry) { if f.Table? && i < |f.entries| then f.entries[i] else Absent }

  function WithEntry(f: Frame, i: nat, e: Entry): (r: Frame)
    requires !f.Data? && WellSized(f) && i < ENTRIES
    ensures r.Table? && WellSized(r) && forall j: nat :: j < ENTRIES ==>
      EntryOf(r, j) == if j == i then e else EntryOf(f, j)
  { Table((if f.Zero? then seq(ENTRIES, _ => Absent) else f.entries)[i := e]) }

  function EntryFor(n: Node): (e: Entry) { Entry(n.frame, n.writable, true, n.noExec, false) }

  function Want(sp: Space, c: Key): (e: Entry) { if c in sp then EntryFor(sp[c]) else Absent }

  ghost predicate ChildIs(mem: seq<Frame>, sp: Space, k: Key, i: nat)
    requires k in sp && k.level > 0
  { sp[k].frame < |mem| && EntryOf(mem[sp[k].frame], i) == Want(sp, Child(k, i)) }

  /** A table's entries are exactly the tree's children. */
  ghost predicate Filled(mem: seq<Frame>, sp: Space, k: Key)
    requires k in sp && k.level > 0
  { sp[k].frame < |mem| && !mem[sp[k].frame].Data? && forall i: nat :: i < ENTRIES ==> ChildIs(mem, sp, k, i) }

  ghost predicate NodeOk(mem: seq<Frame>, owner: seq<Owner>, root: nat, sp: Space, k: Key)
    requires k in sp
  {
    && k.level <= 3 && sp[k].frame < |mem| == |owner| && owner[sp[k].frame] == Part(root, k)
    && (if k.level == 3 then k.prefix == SLOT else Parent(k) in sp)
    && (if k.level == 0 then !mem[sp[k].frame].Table? else sp[k].writable && !sp[k].noExec && Filled(mem, sp, k))
  }

  /** An entry outside the user window is the kernel's. */
  ghost predicate SharedAt(mem: seq<Frame>, root: nat, kernel: nat, i: nat) {
    root < |mem| && kernel < |mem| && EntryOf(mem[root], i) == EntryOf(mem[kernel], i)
  }

  ghost predicate RootOk(mem: seq<Frame>, owner: seq<Owner>, root: nat, sp: Space, kernel: nat) {
    && root < |mem| == |owner| && owner[root] == Root(root) && !mem[root].Data?
    && EntryOf(mem[root], SLOT) == Want(sp, TOP)
    && forall i: nat :: i < ENTRIES && i != SLOT ==> SharedAt(mem, root, kernel, i)
  }

  ghost predicate SpaceOk(mem: seq<Frame>, owner: seq<Owner>, root: nat, sp: Space, kernel: nat) {
    && RootOk(mem, owner, root, sp, kernel)
    && forall k {:trigger NodeOk(mem, owner, root, sp, k)} :: k in sp ==> NodeOk(mem, owner, root, sp, k)
  }

  predicate Belongs(owner: seq<Owner>, f: nat, root: nat) { f < |owner| && !owner[f].Nobody? && owner[f].root == root }

  /** What belongs to a space is as it was. */
  ghost predicate KeptAt(mem: seq<Frame>, owner: seq<Owner>, mem': seq<Frame>, owner': seq<Owner>, f: nat) {
    f < |mem| == |owner| == |mem'| == |owner'| && mem'[f] == mem[f] && owner'[f] == owner[f]
  }

  lemma Untouched(mem: seq<Frame>, owner: seq<Owner>, mem': seq<Frame>, owner': seq<Owner>, root: nat, sp: Space,
      kernel: nat)
    requires SpaceOk(mem, owner, root, sp, kernel) && |mem| == |owner| == |mem'| == |owner'| && kernel < |mem|
      && mem'[kernel] == mem[kernel]
    requires forall f: nat :: Belongs(owner, f, root) ==> KeptAt(mem, owner, mem', owner', f)
    ensures SpaceOk(mem', owner', root, sp, kernel)
  {
    assert Belongs(owner, root, root) && KeptAt(mem, owner, mem', owner', root);
    forall i: nat | i < ENTRIES && i != SLOT
      ensures SharedAt(mem', root, kernel, i)
    {
      assert SharedAt(mem, root, kernel, i);
    }
    forall k | k in sp ensures NodeOk(mem', owner', root, sp, k) {
      assert NodeOk(mem, owner, root, sp, k) && Belongs(owner, sp[k].frame, root);
      NodeKept(mem, owner, mem', owner', root, sp, k);
    }
  }

  lemma NodeKept(mem: seq<Frame>, owner: seq<Owner>, mem': seq<Frame>, owner': seq<Owner>, root: nat, sp: Space, k: Key)
    requires k in sp && NodeOk(mem, owner, root, sp, k) && KeptAt(mem, owner, mem', owner', sp[k].frame)
    ensures NodeOk(mem', owner', root, sp, k)
  {
    if k.level > 0 {
      forall i: nat | i < ENTRIES ensures ChildIs(mem', sp, k, i) { assert ChildIs(mem, sp, k, i); }
    }
  }

  // ---------------------------------------------------------------- a node added

  /** Where the entry for tree position `c` is. */
  function Holder(root: nat, sp: Space, c: Key): (f: nat)
  {
    if c.level == 3 || Parent(c) !in sp then root else sp[Parent(c)].frame
  }

  /** `c` can be added: not there, its table is. */
  ghost predicate Vacant(sp: Space, c: Key) {
    c !in sp && c.level <= 3 && (if c.level == 3 then c.prefix == SLOT else Parent(c) in sp)
  }

  /** The node's frame is unowned and holds what a node of its level may hold. */
  ghost predicate Fresh(mem: seq<Frame>, owner: seq<Owner>, kernel: nat, c: Key, n: Node) {
    && n.frame < |mem| == |owner| && owner[n.frame] == Nobody && n.frame != kernel && n.frame != 0
    && (if c.level == 0 then !mem[n.frame].Table? else mem[n.frame] == Zero && n.writable && !n.noExec)
  }

  lemma HolderOk(mem: seq<Frame>, owner: seq<Owner>, root: nat, sp: Space, kernel: nat, c: Key)
    requires SpaceOk(mem, owner, root, sp, kernel) && c.level <= 3
      && (if c.level == 3 then c.prefix == SLOT else Parent(c) in sp)
    ensures Holder(root, sp, c) < |mem| == |owner| && !mem[Holder(root, sp, c)].Data?
      && Belongs(owner, Holder(root, sp, c), root)
    ensures owner[Holder(root, sp, c)] == if c.level == 3 then Root(root) else Part(root, Parent(c))
    ensures EntryOf(mem[Holder(root, sp, c)], Index(c)) == Want(sp, c)
  {
    ParentChild(c);
    if c.level < 3 {
      assert NodeOk(mem, owner, root, sp, Parent(c)) && ChildIs(mem, sp, Parent(c), Index(c));
    }
  }

  /** Memory after a node's entry is written. */
  ghost predicate EntryWritten(mem: seq<Frame>, mem': seq<Frame>, f: nat, i: nat, e: Entry) {
    f < |mem| && i < ENTRIES && !mem[f].Data? && WellSized(mem[f]) && mem' == mem[f := WithEntry(mem[f], i, e)]
  }

  lemma AddNode(mem: seq<Frame>, owner: seq<Owner>, root: nat, sp: Space, kernel: nat, c: Key, n: Node,
      mem': seq<Frame>, owner': seq<Owner>, sp': Space)
    requires SpaceOk(mem, owner, root, sp, kernel) && Vacant(sp, c) && Fresh(mem, owner, kernel, c, n)
      && kernel < |mem| && owner[kernel] == Nobody
    requires EntryWritten(mem, mem', Holder(root, sp, c), Index(c), EntryFor(n))
      && owner' == owner[n.frame := Part(root, c)] && sp' == sp[c := n]
    ensures SpaceOk(mem', owner', root, sp', kernel)
  {
    HolderOk(mem, owner, root, sp, kernel, c);
    forall i: nat | i < ENTRIES && i != SLOT
      ensures SharedAt(mem', root, kernel, i)
    {
      assert SharedAt(mem, root, kernel, i);
    }
    if c.level < 3 { assert NodeOk(mem, owner, root, sp, Parent(c)); }
    forall k | k in sp' ensures NodeOk(mem', owner', root, sp', k) {
      if k == c {
        AddedNode(mem, owner, root, sp, kernel, c, n, mem', owner', sp');
      } else {
        assert NodeOk(mem, owner, root, sp, k);
        OldNode(mem, owner, root, sp, c, n, mem', owner', sp', k);
      }
    }
  }

  lemma UnderTable(mem: seq<Frame>, owner: seq<Owner>, root: nat, sp: Space, kernel: nat, c: Key, i: nat)
    requires SpaceOk(mem, owner, root, sp, kernel) && 0 < c.level <= 3 && i < ENTRIES
    ensures Child(c, i) in sp ==> c in sp
  {
    ChildParent(c, i);
    if Child(c, i) in sp { assert NodeOk(mem, owner, root, sp, Child(c, i)); }
  }

  lemma AddedNode(mem: seq<Frame>, owner: seq<Owner>, root: nat, sp: Space, kernel: nat, c: Key, n: Node,
      mem': seq<Frame>, owner': seq<Owner>, sp': Space)
    requires SpaceOk(mem, owner, root, sp, kernel) && Vacant(sp, c) && Fresh(mem, owner, kernel, c, n)
      && sp' == sp[c := n] && owner' == owner[n.frame := Part(root, c)]
    requires |mem'| == |mem| && mem'[n.frame] == mem[n.frame]
    ensures NodeOk(mem', owner', root, sp', c)
  {
    if c.level > 0 {
      forall i: nat | i < ENTRIES ensures ChildIs(mem', sp', c, i) {
        UnderTable(mem, owner, root, sp, kernel, c, i);
      }
    }
  }

  lemma OldNode(mem: seq<Frame>, owner: seq<Owner>, root: nat, sp: Space, c: Key, n: Node, mem': seq<Frame>,
      owner': seq<Owner>, sp': Space, k: Key)
    requires k in sp && NodeOk(mem, owner, root, sp, k) && Vacant(sp, c) && n.frame < |mem| == |owner|
      && owner[n.frame] == Nobody && (c.level < 3 ==> NodeOk(mem, owner, root, sp, Parent(c)))
    requires EntryWritten(mem, mem', Holder(root, sp, c), Index(c), EntryFor(n))
      && owner' == owner[n.frame := Part(root, c)] && sp' == sp[c := n]
    requires Holder(root, sp, c) < |owner|
      && owner[Holder(root, sp, c)] == if c.level == 3 then Root(root) else Part(root, Parent(c))
    ensures NodeOk(mem', owner', root, sp', k)
  {
    if k.level > 0 {
      forall i: nat | i < ENTRIES ensures ChildIs(mem', sp', k, i) {
        assert ChildIs(mem, sp, k, i);
        ChildParent(k, i);
        ParentChild(c);
      }
    }
  }

  /** Bytes written into a page, mapped or about to be. */
  lemma DataWritten(mem: seq<Frame>, owner: seq<Owner>, root: nat, sp: Space, kernel: nat, f: nat, d: Frame)
    requires SpaceOk(mem, owner, root, sp, kernel) && f < |mem| && kernel < |mem| && f != kernel && d.Data?
    requires owner[f] == Nobody || (owner[f].Part? && owner[f].key.level == 0)
    ensures SpaceOk(mem[f := d], owner, root, sp, kernel)
  {
    var mem' := mem[f := d];
    forall i: nat | i < ENTRIES && i != SLOT
      ensures SharedAt(mem', root, kernel, i)
    {
      assert SharedAt(mem, root, kernel, i);
    }
    forall k | k in sp ensures NodeOk(mem', owner, root, sp, k) {
      assert NodeOk(mem, owner, root, sp, k);
      if k.level > 0 {
        forall i: nat | i < ENTRIES ensures ChildIs(mem', sp, k, i) { assert ChildIs(mem, sp, k, i); }
      }
    }
  }
}
