/**
  A directory whose last table entry lies in two sectors, seen between the two
  writes that link it to a new cluster (src/fs/fat.rs, set, insert). It happens
  on FAT12 only, to an entry whose first byte is the last of a sector.
 */
module FatTear {
  import opened Base
  import opened FatTable
  import opened FatNames
  import opened FatDirectory
  import opened FatVolume
  import opened FatTrace
  import opened FatCrash

  /** Some record's chain has cluster `c`. */
  ghost predicate InRecord(d: Disk, kind: Kind, rs: seq<Record>, c: nat, k: nat) {
    k < |rs| && Chain(kind, d.fat, rs[k].cluster).Some? && c in Chain(kind, d.fat, rs[k].cluster).value
  }

  /** Every cluster in use belongs to the directory, to one of its entries or to somebody else, except `next`. */
  ghost predicate Accounted(d: Disk, kind: Kind, ch: seq<nat>, foreign: set<nat>, rs: seq<Record>, next: nat) {
    forall c :: 2 <= c < |d.fat| && d.fat[c] != 0 && c != next ==>
      c in ch || c in foreign || exists k: nat :: InRecord(d, kind, rs, c, k)
  }

  /** A new cluster of end markers that nobody names yet. */
  ghost predicate Fresh(d: Disk, g: Geo, ch: seq<nat>, foreign: set<nat>, rs: seq<Record>, next: nat) {
    && 2 <= next < |d.fat| && next < |d.area| && next !in ch && next !in foreign && Clear(d, g.kind, rs, {next})
    && IsEof(g.kind, d.fat[next]) && !IsEof(g.kind, next) && forall i :: 0 <= i < |d.area[next]| ==>
      d.area[next][i][0] == 0
  }

  /** The directory's last entry reads `v`. */
  ghost function Relinked(d: Disk, last: nat, v: nat): (t: Disk)
    requires last < |d.fat|
  { d.(fat := d.fat[last := v]) }

  // ---------------------------------------------------------------- values that do no harm

  lemma LastOff(d: Disk, g: Geo, dir: Dir, ch: seq<nat>, foreign: set<nat>, last: nat, v: nat)
    requires Sound(d, g, dir, ch, foreign) && dir.At? && ch != [] && last == ch[|ch| - 1]
    ensures last < |d.fat| && 2 <= last && OffOnly(d, Relinked(d, last, v), {last}) && last !in foreign
      && Clear(d, g.kind, Records(Slots(d, ch), g.kind), {last})
    ensures Linked(g.kind, d.fat, ch) && NoDup(ch) && ch[0] == dir.cluster
  {
    FollowLinked(g.kind, d.fat, dir.cluster, |d.fat|);
    LinkedChain(g.kind, d.fat, ch);
    assert last in Members(ch) + foreign;
    OwnClear(d, g, Members(ch) + foreign, {last}, Records(Slots(d, ch), g.kind));
  }

  /** An entry that still reads as end of chain leaves the directory as it is. */
  lemma StillEnds(d: Disk, g: Geo, dir: Dir, ch: seq<nat>, foreign: set<nat>, last: nat, v: nat)
    requires Sound(d, g, dir, ch, foreign) && dir.At? && ch != [] && last == ch[|ch| - 1] && last < |d.fat|
      && IsEof(g.kind, v)
    ensures Showing(Relinked(d, last, v), g, dir, foreign, Items(d, g, ch))
  {
    var t, rs := Relinked(d, last, v), Records(Slots(d, ch), g.kind);
    LastOff(d, g, dir, ch, foreign, last, v);
    EndsLinked(g.kind, d.fat, ch, v);
    LinkedChain(g.kind, t.fat, ch);
    RecordsKept(d, t, g, Members(ch) + foreign, {last}, rs);
  }

  lemma EndsLinked(kind: Kind, fat: seq<nat>, ch: seq<nat>, v: nat)
    requires Linked(kind, fat, ch) && NoDup(ch) && IsEof(kind, v)
    ensures Linked(kind, fat[ch[|ch| - 1] := v], ch)
  {}

  /** An entry that already reads as the new cluster shows the grown directory. */
  lemma AlreadyLinked(d: Disk, g: Geo, dir: Dir, ch: seq<nat>, foreign: set<nat>, last: nat, next: nat)
    requires Sound(d, g, dir, ch, foreign) && dir.At? && ch != [] && last == ch[|ch| - 1] && last < |d.fat|
      && |ch| < g.dirLimit
    requires Fresh(d, g, ch, foreign, Records(Slots(d, ch), g.kind), next)
    ensures Showing(Relinked(d, last, next), g, dir, foreign, Items(d, g, ch))
  {
    var d0 := d.(fat := d.fat[next := 0]);
    assert last in ch && last != next;
    Unseen(d, d0, g, dir, ch, foreign, {next});
    GrowUnseen(d0, Relinked(d, last, next), g, dir, ch, foreign, last, next);
  }

  // ---------------------------------------------------------------- values that break the directory

  lemma BrokenPath(d: Disk, kind: Kind, dir: Dir, ch: seq<nat>, last: nat, v: nat, ch': seq<nat>)
    requires dir.At? && Linked(kind, d.fat, ch) && NoDup(ch) && ch[0] == dir.cluster && last == ch[|ch| - 1]
      && !IsEof(kind, v)
    requires DirChain(kind, Relinked(d, last, v).fat, dir) == Some(ch')
    ensures |ch| < |ch'| && ch' == ch + ch'[|ch|..] && ch'[|ch|] == v && Linked(kind, Relinked(d, last, v).fat, ch')
  {
    var fat := Relinked(d, last, v).fat;
    FollowLinked(kind, fat, dir.cluster, |fat|);
    forall i | 0 <= i < |ch|
      ensures 2 <= ch[i] < |fat| && !IsEof(kind, fat[ch[i]]) && fat[ch[i]] == Follower(ch, v, i)
    {
    }
    assert Path(kind, fat, dir.cluster, ch, v);
    PathPrefix(kind, fat, dir.cluster, ch, v, ch', |ch|);
    forall i | 0 <= i < |ch| ensures ch'[i] == ch[i] { PathPrefix(kind, fat, dir.cluster, ch, v, ch', i); }
  }

  /** The records of longer slots begin with those of shorter ones. */
  lemma MoreSlots(slots: seq<Slot>, more: seq<Slot>, kind: Kind)
    ensures Records(slots, kind) <= Records(slots + more, kind)
  {
    var all := slots + more;
    if End(slots) < |slots| {
      EndIs(all, End(slots));
      assert all[..End(slots)] == slots[..End(slots)];
    } else {
      var n := End(more);
      EndIs(all, |slots| + n);
      assert all[..|slots| + n] == slots + more[..n] && slots[..End(slots)] == slots;
      WalkConcat(slots, more[..n], Idle, 0, kind);
    }
  }

  /** A directory that runs on into cluster `v` shows something else, or nothing, whoever has `v`. */
  lemma RunsOn(d: Disk, g: Geo, dir: Dir, ch: seq<nat>, foreign: set<nat>, last: nat, v: nat, next: nat)
    requires Sound(d, g, dir, ch, foreign) && dir.At? && ch != [] && last == ch[|ch| - 1] && last < |d.fat|
      && !IsEof(g.kind, v) && v != next
    requires Accounted(d, g.kind, ch, foreign, Records(Slots(d, ch), g.kind), next)
    ensures !Showing(Relinked(d, last, v), g, dir, foreign, Items(d, g, ch))
  {
    var t := Relinked(d, last, v);
    if Showing(t, g, dir, foreign, Items(d, g, ch)) {
      var ch' := DirChain(g.kind, t.fat, dir).value;
      LastOff(d, g, dir, ch, foreign, last, v);
      BrokenPath(d, g.kind, dir, ch, last, v, ch');
      IntoUsed(d, g, dir, ch, last, v, ch');
      assert v in ch' && v !in foreign;
      var rs := Records(Slots(d, ch), g.kind);
      var k: nat :| InRecord(d, g.kind, rs, v, k);
      SharedCluster(d, t, g, dir, ch, foreign, last, v, ch', k);
    }
  }

  /** The chain cannot run into a free cluster or back into itself. */
  lemma IntoUsed(d: Disk, g: Geo, dir: Dir, ch: seq<nat>, last: nat, v: nat, ch': seq<nat>)
    requires Linked(g.kind, d.fat, ch) && last == ch[|ch| - 1] && Linked(g.kind, Relinked(d, last, v).fat, ch')
    requires |ch| < |ch'| && ch' == ch + ch'[|ch|..] && ch'[|ch|] == v
    ensures 2 <= v < |d.fat| && d.fat[v] != 0 && v !in ch
  {
    var fat := Relinked(d, last, v).fat;
    LinkedChain(g.kind, fat, ch');
    assert forall i :: 0 <= i < |ch| ==> ch[i] == ch'[i];
    assert fat[ch'[|ch|]] == fat[v];
    if |ch| < |ch'| - 1 { assert fat[ch'[|ch|]] == ch'[|ch| + 1]; }
  }

  /** It cannot run into a cluster of an entry either. */
  lemma SharedCluster(d: Disk, t: Disk, g: Geo, dir: Dir, ch: seq<nat>, foreign: set<nat>, last: nat, v: nat,
      ch': seq<nat>, k: nat)
    requires Sound(d, g, dir, ch, foreign) && last < |d.fat| && t == Relinked(d, last, v) && OffOnly(d, t, {last})
      && Clear(d, g.kind, Records(Slots(d, ch), g.kind), {last})
    requires |ch| < |ch'| && ch' == ch + ch'[|ch|..] && v in ch'
    requires Sound(t, g, dir, ch', foreign) && Items(t, g, ch') == Items(d, g, ch)
    ensures !InRecord(d, g.kind, Records(Slots(d, ch), g.kind), v, k)
  {
    var rs, rs' := Records(Slots(d, ch), g.kind), Records(Slots(t, ch'), g.kind);
    GatherConcat(t.area, ch, ch'[|ch|..]);
    MoreSlots(Slots(d, ch), Gather(t.area, ch'[|ch|..]), g.kind);
    if k < |rs| {
      assert |rs'| == |rs| && rs'[k] == rs[k];
      assert ClearRecord(d, g.kind, rs[k], {last});
      RecordKept(d, t, g, {}, {last}, rs[k]);
      assert SoundRecord(t, g, Members(ch') + foreign, rs'[k]);
    }
  }

  /**
    Between the two writes of the link the directory shows its items if and only if
    the half-written entry still reads as end of chain, or already as the new cluster.
   */
  lemma HalfLinkShows(d: Disk, g: Geo, dir: Dir, ch: seq<nat>, foreign: set<nat>, last: nat, next: nat)
    requires Sound(d, g, dir, ch, foreign) && dir.At? && ch != [] && last == ch[|ch| - 1] && last < |d.fat|
      && |ch| < g.dirLimit
    requires Fresh(d, g, ch, foreign, Records(Slots(d, ch), g.kind), next)
      && Accounted(d, g.kind, ch, foreign, Records(Slots(d, ch), g.kind), next)
    ensures var v := Torn(last, d.fat[last], next);
      Showing(Relinked(d, last, v), g, dir, foreign, Items(d, g, ch)) <==> IsEof(g.kind, v) || v == next
  {
    var v := Torn(last, d.fat[last], next);
    if IsEof(g.kind, v) {
      StillEnds(d, g, dir, ch, foreign, last, v);
    } else if v == next {
      AlreadyLinked(d, g, dir, ch, foreign, last, next);
    } else {
      RunsOn(d, g, dir, ch, foreign, last, v, next);
    }
  }

  /**
    The condition told from the two numbers alone: the new cluster's low byte or low four bits, as
    its place decides.
   */
  lemma HalfLinkValue(last: nat, next: nat)
    requires next < Eof(Fat12) - 7
    ensures var v := Torn(last, Eof(Fat12), next);
      IsEof(Fat12, v) || v == next <==>
        if last % 2 == 0 then next % 256 >= 0xf8 || next / 256 == 15 else next % 16 >= 8 || next / 16 == 255
  {
    DivMod(0xfff, 256, 15, 255);
    DivMod(0xfff, 16, 255, 15);
    Euclid(next, 256);
    Euclid(next, 16);
  }

  /**
    Entry 341 ends a sector. Half linked to cluster 0x157 it reads 0xff7, and a directory that
    ends there cannot be read at all.
   */
  lemma HalfLinked341(d: Disk, g: Geo, dir: Dir, ch: seq<nat>)
    requires g.kind == Fat12 && |d.fat| <= 0xff7 && dir.At? && DirChain(Fat12, d.fat, dir) == Some(ch) && ch != []
      && ch[|ch| - 1] == 341 < |d.fat| && d.fat[341] == 0xfff
    ensures Straddles(Fat12, 341) && Torn(341, 0xfff, 0x157) == 0xff7
      && DirChain(Fat12, Relinked(d, 341, 0xff7).fat, dir) == None
  {
    var r := DirChain(Fat12, Relinked(d, 341, 0xff7).fat, dir);
    FollowLinked(Fat12, d.fat, dir.cluster, |d.fat|);
    LinkedChain(Fat12, d.fat, ch);
    if r.Some? { BrokenPath(d, Fat12, dir, ch, 341, 0xff7, r.value); }
  }

  /** For one, a directory of the single cluster 341. */
  lemma HalfLinkedAlone(area: seq<seq<Slot>>, g: Geo)
    requires g.kind == Fat12
    ensures var fat := seq(0x200, c => if c == 341 then 0xfff else 0);
      DirChain(Fat12, fat, At(341, false)) == Some([341])
        && DirChain(Fat12, fat[341 := Torn(341, fat[341], 0x157)], At(341, false)) == None
  {
    var fat: seq<nat> := seq(0x200, c => if c == 341 then 0xfff else 0);
    LinkedChain(Fat12, fat, [341]);
    HalfLinked341(Disk(fat, area), g, At(341, false), [341]);
  }
}
