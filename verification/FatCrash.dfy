/**
  What a reader finds on the disk in the middle of an insertion, an update or a
  deletion (src/fs/fat.rs, insert, update, delete): in every state the directory
  shows its old items or its new ones, each with a chain of its own.
 */
module FatCrash {
  import opened Base
  import opened FatTable
  import opened FatNames
  import opened FatDirectory
  import opened FatShort
  import opened FatVolume
  import opened FatTrace

  /** Only the contents of the directory's own clusters differ. */
  ghost predicate InPlace(d: Disk, t: Disk, ch: seq<nat>) { t.fat == d.fat && OffOnly(d, t, Members(ch)) }

  lemma InPlaceTrans(d: Disk, t: Disk, u: Disk, ch: seq<nat>)
    requires InPlace(d, t, ch) && InPlace(t, u, ch)
    ensures InPlace(d, u, ch)
  {}

  /** A directory write shows exactly what the records of the new slots describe. */
  lemma WriteShows(d: Disk, t: Disk, g: Geo, dir: Dir, ch: seq<nat>, foreign: set<nat>, rs: seq<Record>)
    requires SoundDir(d, g, dir, ch, foreign) && InPlace(d, t, ch)
    requires rs == Records(Slots(t, ch), g.kind) && SoundRecords(d, g, Members(ch) + foreign, rs)
    ensures Sound(t, g, dir, ch, foreign) && Items(t, g, ch) == ItemsOf(d, rs, g.kind)
      && Showing(t, g, dir, foreign, ItemsOf(d, rs, g.kind))
  {
    DirWrite(d, t, g, dir, ch, foreign, rs);
  }

  // ---------------------------------------------------------------- insert

  /** The first `j` slots of the entry set are on disk. */
  ghost predicate Inserting(d: Disk, t: Disk, ch: seq<nat>, a: nat, es: seq<Slot>, j: nat) {
    InPlace(d, t, ch) && Partial(Slots(d, ch), End(Slots(d, ch)), a, es, j, Slots(t, ch))
  }

  /** Until the last slot of the set is written the directory shows its old items. */
  lemma InsertingShows(d: Disk, t: Disk, g: Geo, dir: Dir, ch: seq<nat>, foreign: set<nat>, a: nat, es: seq<Slot>,
      j: nat)
    requires Sound(d, g, dir, ch, foreign) && Tidy(Slots(d, ch), g.kind)
      && FreeRun(Slots(d, ch), End(Slots(d, ch)), a, |es|)
    requires j < |es| && Longs(es, |es| - 1) && Inserting(d, t, ch, a, es, j)
    ensures Showing(t, g, dir, foreign, Items(d, g, ch))
  {
    InsertInvisible(Slots(d, ch), a, es, j, Slots(t, ch), g.kind);
    WriteShows(d, t, g, dir, ch, foreign, Records(Slots(d, ch), g.kind));
  }

  datatype Entry = Entry(name: Name, short: Short, first: nat, size: nat, attr: byte)

  /** A name the driver stores exactly: valid text without U+FFFF. */
  ghost predicate Storable(name: Name) { Text(name) && ValidName(name) && 0xffff !in Units(name) }

  ghost function SlotsOf(x: Entry, kind: Kind): (es: seq<Slot>)
    requires Storable(x.name)
  { EntrySet(x.name, x.short, x.first, x.size, x.attr, kind) }

  ghost function NewItem(d: Disk, x: Entry, kind: Kind): (i: Item) {
    Item(x.name, Alias(x.short, 0), x.short, x.attr, x.size, Content(d, x.first, kind))
  }

  /**
    The entry may be inserted: its name is storable, its short name chosen for it, its chain `cs`
    its own and long enough.
   */
  ghost predicate Insertable(d: Disk, g: Geo, rs: seq<Record>, x: Entry, cs: seq<nat>, own: set<nat>) {
    && Storable(x.name) && Chosen(x.name, rs, x.short) && (forall i :: 0 <= i < |rs| ==> !Matches(rs[i], x.name))
    && GoodAttr(x.attr) && Fits(x.first, x.size, g.kind)
    && Chain(g.kind, d.fat, x.first) == Some(cs) && (forall i :: 0 <= i < |cs| ==> cs[i] in own)
    && (!IsDir(x.attr) ==> x.size <= 32 * Pos(|cs|, g.per))
  }

  /** The record read back from the entry's slots. */
  lemma EntryRecord(x: Entry, a: nat, kind: Kind) returns (w: Record)
    requires Storable(x.name) && GoodShort(x.short) && GoodAttr(x.attr) && Fits(x.first, x.size, kind)
    ensures var es := SlotsOf(x, kind);
      && Walk(es, Idle, a, kind) == (Idle, [w]) && (forall i :: 0 <= i < |es| ==> es[i][0] != 0) && Longs(es, |es| - 1)
      && IsShort(es[|es| - 1])
      && w.start == a && w.offset == a + |es| - 1
    ensures w.name == x.name && w.alias == Alias(x.short, 0) && w.short == x.short && w.attr == x.attr
      && w.cluster == x.first && w.size == x.size
  {
    WalkEntrySet(x.name, x.short, x.first, x.size, x.attr, kind, a);
    EntrySetLive(x.name, x.short, x.first, x.size, x.attr, kind);
    w := Written(x.name, x.short, x.first, x.size, x.attr, a);
  }

  /** The chain of the new entry is not yet anybody's. */
  lemma NewSound(d: Disk, g: Geo, taken: set<nat>, own: set<nat>, cs: seq<nat>, rs: seq<Record>, p: seq<Record>,
      q: seq<Record>, w: Record)
    requires SoundRecords(d, g, taken + own, rs) && taken !! own && rs == p + q
    requires Chain(g.kind, d.fat, w.cluster) == Some(cs) && (forall i :: 0 <= i < |cs| ==> cs[i] in own)
      && (!IsDir(w.attr) ==> w.size <= 32 * Pos(|cs|, g.per))
    ensures SoundRecords(d, g, taken, p + [w] + q)
  {
    TakenLess(d, g, taken + own, taken + Members(cs), rs);
    assert SoundRecord(d, g, taken, w);
    PublishSound(d, g, taken, cs, rs, p, q, w);
  }

  /** The records after the insertion, and that the directory is as well kept as before. */
  lemma InsertedRecords(slots: seq<Slot>, now: seq<Slot>, d: Disk, g: Geo, cs: seq<nat>, own: set<nat>, a: nat,
      x: Entry) returns (w: Record, p: seq<Record>, q: seq<Record>)
    requires Tidy(slots, g.kind) && Coherent(Records(slots, g.kind))
      && Insertable(d, g, Records(slots, g.kind), x, cs, own)
    requires FreeRun(slots, End(slots), a, |SlotsOf(x, g.kind)|)
      && Partial(slots, End(slots), a, SlotsOf(x, g.kind), |SlotsOf(x, g.kind)|, now)
    ensures Records(slots, g.kind) == p + q && Records(now, g.kind) == p + [w] + q
      && |p| == RecordsBefore(slots, a, g.kind) && Tidy(now, g.kind) && Coherent(Records(now, g.kind))
    ensures w.name == x.name && w.alias == Alias(x.short, 0) && w.short == x.short && w.attr == x.attr
      && w.cluster == x.first && w.size == x.size
  {
    var rs, es := Records(slots, g.kind), SlotsOf(x, g.kind);
    assert GoodShort(x.short) by {
      ChosenBuilt(x.name, rs, x.short);
      ShapedGood(x.short);
    }
    w := EntryRecord(x, a, g.kind);
    p, q := InsertDone(slots, a, es, w, now, g.kind);
    InsertTidy(slots, a, es, w, now, p, q, g.kind);
    InsertCoherent(rs, p, q, w, p + [w] + q);
  }

  /** The list with `x` inserted before number `k`. */
  ghost function WithItem(xs: seq<Item>, k: nat, x: Item): (ys: seq<Item>)
    requires k <= |xs|
  { xs[..k] + [x] + xs[k..] }

  /**
    Once its last slot is written the directory shows the new item among the old ones, and is as
    well kept as before.
   */
  lemma InsertedShows(d: Disk, t: Disk, g: Geo, dir: Dir, ch: seq<nat>, foreign: set<nat>, own: set<nat>, cs: seq<nat>,
      a: nat, x: Entry)
    requires Sound(d, g, dir, ch, foreign + own) && foreign !! own && Tidy(Slots(d, ch), g.kind)
      && Coherent(Records(Slots(d, ch), g.kind))
    requires Insertable(d, g, Records(Slots(d, ch), g.kind), x, cs, own)
    requires FreeRun(Slots(d, ch), End(Slots(d, ch)), a, |SlotsOf(x, g.kind)|)
      && Inserting(d, t, ch, a, SlotsOf(x, g.kind), |SlotsOf(x, g.kind)|)
    ensures RecordsBefore(Slots(d, ch), a, g.kind) <= |Items(d, g, ch)|
    ensures Showing(t, g, dir, foreign,
      WithItem(Items(d, g, ch), RecordsBefore(Slots(d, ch), a, g.kind), NewItem(d, x, g.kind)))
    ensures Tidy(Slots(t, ch), g.kind) && Coherent(Records(Slots(t, ch), g.kind))
  {
    var w, rp, rq := InsertedRecords(Slots(d, ch), Slots(t, ch), d, g, cs, own, a, x);
    PublishedShows(d, t, g, dir, ch, foreign, own, cs, rp + rq, rp, rq, w);
    ItemsJoin(d, rp, w, rq, g.kind);
  }

  lemma SoundDirLess(d: Disk, g: Geo, dir: Dir, ch: seq<nat>, foreign: set<nat>, own: set<nat>)
    requires SoundDir(d, g, dir, ch, foreign + own) && foreign !! own
    ensures SoundDir(d, g, dir, ch, foreign) && Members(ch) + (foreign + own) == (Members(ch) + foreign) + own
      && Members(ch) + foreign !! own
  {}

  lemma PublishedShows(d: Disk, t: Disk, g: Geo, dir: Dir, ch: seq<nat>, foreign: set<nat>, own: set<nat>, cs: seq<nat>,
      rs: seq<Record>, p: seq<Record>, q: seq<Record>, w: Record)
    requires SoundDir(d, g, dir, ch, foreign + own) && foreign !! own
      && SoundRecords(d, g, Members(ch) + (foreign + own), rs) && InPlace(d, t, ch)
    requires rs == p + q && Records(Slots(t, ch), g.kind) == p + [w] + q
    requires Chain(g.kind, d.fat, w.cluster) == Some(cs) && (forall i :: 0 <= i < |cs| ==> cs[i] in own)
      && (!IsDir(w.attr) ==> w.size <= 32 * Pos(|cs|, g.per))
    ensures Showing(t, g, dir, foreign, ItemsOf(d, p + [w] + q, g.kind))
  {
    SoundDirLess(d, g, dir, ch, foreign, own);
    NewSound(d, g, Members(ch) + foreign, own, cs, rs, p, q, w);
    WriteShows(d, t, g, dir, ch, foreign, p + [w] + q);
  }

  // ---------------------------------------------------------------- update

  /** The items after record `k` has been given the chain from `first` and a new size. */
  ghost function WithContent(d: Disk, xs: seq<Item>, k: nat, first: nat, size: nat, kind: Kind): (ys: seq<Item>)
    requires k < |xs|
  { xs[k := xs[k].(size := size, content := Content(d, first, kind))] }

  ghost predicate Replaceable(d: Disk, g: Geo, rs: seq<Record>, k: nat, first: nat, size: nat, cs: seq<nat>,
      own: set<nat>) {
    && k < |rs| && !IsDir(rs[k].attr) && Fits(first, size, g.kind)
    && Chain(g.kind, d.fat, first) == Some(cs) && (forall i :: 0 <= i < |cs| ==> cs[i] in own)
    && size <= 32 * Pos(|cs|, g.per)
  }

  lemma ReplacedSound(d: Disk, g: Geo, taken: set<nat>, own: set<nat>, cs: seq<nat>, rs: seq<Record>, k: nat, w: Record)
    requires SoundRecords(d, g, taken + own, rs) && taken !! own && k < |rs|
    requires Chain(g.kind, d.fat, w.cluster) == Some(cs) && (forall i :: 0 <= i < |cs| ==> cs[i] in own)
      && (!IsDir(w.attr) ==> w.size <= 32 * Pos(|cs|, g.per))
    ensures SoundRecords(d, g, taken, rs[k := w])
  {
    TakenLess(d, g, taken + own, taken + Members(cs), rs);
    assert SoundRecord(d, g, taken, w);
    ReplaceSound(d, g, taken, cs, rs, k, w);
  }

  /** The chain a record gave up is off everything that shows. */
  lemma GivenUp(d: Disk, g: Geo, taken: set<nat>, own: set<nat>, cs: seq<nat>, rs: seq<Record>, k: nat, w: Record)
    requires SoundRecords(d, g, taken + own, rs) && k < |rs|
    requires Chain(g.kind, d.fat, w.cluster) == Some(cs) && (forall i :: 0 <= i < |cs| ==> cs[i] in own)
    ensures Chain(g.kind, d.fat, rs[k].cluster).Some?
    ensures var off := Members(Chain(g.kind, d.fat, rs[k].cluster).value);
      Clear(d, g.kind, rs[k := w], off) && off !! taken + own
  {
    assert SoundRecord(d, g, taken + own, rs[k]);
    var off := Members(Chain(g.kind, d.fat, rs[k].cluster).value);
    var rs' := rs[k := w];
    forall i | 0 <= i < |rs'| ensures ClearRecord(d, g.kind, rs'[i], off) {
      if i != k { OthersClear(d, g, taken + own, rs, k, i); }
    }
  }

  lemma UpdatedRecords(slots: seq<Slot>, now: seq<Slot>, k: nat, first: nat, size: nat, kind: Kind)
    requires Tidy(slots, kind) && Coherent(Records(slots, kind)) && k < |Records(slots, kind)|
      && Fits(first, size, kind)
    requires var i := Records(slots, kind)[k].offset;
      i < |slots| && now == slots[i := Rewritten(slots[i], first, size, kind)]
    ensures Records(now, kind) == Records(slots, kind)[k := Records(slots, kind)[k].(cluster := first, size := size)]
    ensures Tidy(now, kind) && Coherent(Records(now, kind))
  {
    var rs := Records(slots, kind);
    var i := rs[k].offset;
    UpdateDone(slots, k, first, size, now, kind);
    UpdateCoherent(rs, k, first, size);
    RecordsSpan(slots, kind);
    RewrittenParts(slots[i], first, size, kind);
    assert now[i][11] == now[i][..20][11] && slots[i][11] == slots[i][..20][11];
    assert Describes(slots, rs[k], kind) && Spans(slots, rs[k]);
    UpdateTidy(slots, k, i, now, rs[k].(cluster := first, size := size), kind);
  }

  /** After the one sector write of an update the directory shows the old items with the new contents in place. */
  lemma UpdatedShows(d: Disk, t: Disk, g: Geo, dir: Dir, ch: seq<nat>, foreign: set<nat>, own: set<nat>, cs: seq<nat>,
      k: nat, first: nat, size: nat)
    requires Sound(d, g, dir, ch, foreign + own) && foreign !! own && Tidy(Slots(d, ch), g.kind)
      && Coherent(Records(Slots(d, ch), g.kind))
    requires InPlace(d, t, ch) && Replaceable(d, g, Records(Slots(d, ch), g.kind), k, first, size, cs, own)
    requires var i := Records(Slots(d, ch), g.kind)[k].offset;
      i < |Slots(d, ch)| && Slots(t, ch) == Slots(d, ch)[i := Rewritten(Slots(d, ch)[i], first, size, g.kind)]
    ensures Showing(t, g, dir, foreign, WithContent(d, Items(d, g, ch), k, first, size, g.kind))
    ensures Tidy(Slots(t, ch), g.kind) && Coherent(Records(Slots(t, ch), g.kind))
    ensures Records(Slots(t, ch), g.kind) == Records(Slots(d, ch),
      g.kind)[k := Records(Slots(d, ch), g.kind)[k].(cluster := first, size := size)]
  {
    UpdatedRecords(Slots(d, ch), Slots(t, ch), k, first, size, g.kind);
    RewrittenShows(d, t, g, dir, ch, foreign, own, cs, Records(Slots(d, ch), g.kind), k, first, size);
  }

  lemma RewrittenShows(d: Disk, t: Disk, g: Geo, dir: Dir, ch: seq<nat>, foreign: set<nat>, own: set<nat>, cs: seq<nat>,
      rs: seq<Record>, k: nat, first: nat, size: nat)
    requires SoundDir(d, g, dir, ch, foreign + own) && foreign !! own
      && SoundRecords(d, g, Members(ch) + (foreign + own), rs) && InPlace(d, t, ch)
    requires Replaceable(d, g, rs, k, first, size, cs, own)
      && Records(Slots(t, ch), g.kind) == rs[k := rs[k].(cluster := first, size := size)]
    ensures Showing(t, g, dir, foreign, WithContent(d, ItemsOf(d, rs, g.kind), k, first, size, g.kind))
  {
    var w := rs[k].(cluster := first, size := size);
    SoundDirLess(d, g, dir, ch, foreign, own);
    ReplacedSound(d, g, Members(ch) + foreign, own, cs, rs, k, w);
    WriteShows(d, t, g, dir, ch, foreign, rs[k := w]);
    assert ItemsOf(d, rs[k := w], g.kind) == WithContent(d, ItemsOf(d, rs, g.kind), k, first, size, g.kind);
  }

  // ---------------------------------------------------------------- delete

  lemma AliasedRecords(slots: seq<Slot>, now: seq<Slot>, k: nat, b: nat, kind: Kind)
    requires Tidy(slots, kind) && k < |Records(slots, kind)|
    requires var r := Records(slots, kind)[k]; r.start < b <= r.offset && Erased(slots, r.start, b, now)
    ensures var rs := Records(slots, kind);
      Records(now, kind) == rs[k := rs[k].(name := rs[k].alias, start := rs[k].offset)]
  {
    var rs := Records(slots, kind);
    var w := rs[k].(name := rs[k].alias, start := rs[k].offset);
    DeleteCut(slots, k, b, now, kind);
    assert rs[..k] + [w] + rs[k + 1..] == rs[k := w];
  }

  lemma AliasedShows(d: Disk, t: Disk, g: Geo, dir: Dir, ch: seq<nat>, foreign: set<nat>, rs: seq<Record>, k: nat,
      w: Record, xs: seq<Item>)
    requires SoundDir(d, g, dir, ch, foreign) && SoundRecords(d, g, Members(ch) + foreign, rs) && InPlace(d, t, ch)
      && k < |rs| && xs == ItemsOf(d, rs, g.kind)
    requires w == rs[k].(name := rs[k].alias, start := rs[k].offset) && Records(Slots(t, ch), g.kind) == rs[k := w]
    ensures Showing(t, g, dir, foreign, xs[k := xs[k].(name := xs[k].alias)])
  {
    RenamedSound(d, g, Members(ch) + foreign, rs, k, w);
    WriteShows(d, t, g, dir, ch, foreign, rs[k := w]);
    assert ItemsOf(d, rs[k := w], g.kind) == xs[k := xs[k].(name := xs[k].alias)];
  }

  /** While the entry is being erased, it shows under its alias with its contents. */
  lemma DeletingShows(d: Disk, t: Disk, g: Geo, dir: Dir, ch: seq<nat>, foreign: set<nat>, k: nat, b: nat)
    requires Sound(d, g, dir, ch, foreign) && Tidy(Slots(d, ch), g.kind) && k < |Records(Slots(d, ch), g.kind)|
      && InPlace(d, t, ch)
    requires var r := Records(Slots(d, ch), g.kind)[k];
      r.start < b <= r.offset && Erased(Slots(d, ch), r.start, b, Slots(t, ch))
    ensures var xs := Items(d, g, ch); Showing(t, g, dir, foreign, xs[k := xs[k].(name := xs[k].alias)])
  {
    var rs := Records(Slots(d, ch), g.kind);
    AliasedRecords(Slots(d, ch), Slots(t, ch), k, b, g.kind);
    AliasedShows(d, t, g, dir, ch, foreign, rs, k, rs[k].(name := rs[k].alias, start := rs[k].offset), Items(d, g, ch));
  }

  lemma DeletedRecords(slots: seq<Slot>, now: seq<Slot>, k: nat, kind: Kind)
    requires Tidy(slots, kind) && k < |Records(slots, kind)|
    requires var r := Records(slots, kind)[k]; r.start <= r.offset && Erased(slots, r.start, r.offset + 1, now)
    ensures Records(now, kind) == Records(slots, kind)[..k] + Records(slots, kind)[k + 1..] && Tidy(now, kind)
  {
    var rs := Records(slots, kind);
    DeleteCut(slots, k, rs[k].offset + 1, now, kind);
    assert rs[..k] + [] + rs[k + 1..] == rs[..k] + rs[k + 1..];
    RecordsSpan(slots, kind);
    DeleteTidy(slots, k, now, kind);
  }

  /** Once erased the entry is gone, and every other item is as it was. */
  lemma DeletedShows(d: Disk, t: Disk, g: Geo, dir: Dir, ch: seq<nat>, foreign: set<nat>, k: nat)
    requires Sound(d, g, dir, ch, foreign) && Tidy(Slots(d, ch), g.kind) && k < |Records(Slots(d, ch), g.kind)|
      && InPlace(d, t, ch)
    requires var r := Records(Slots(d, ch), g.kind)[k];
      r.start <= r.offset && Erased(Slots(d, ch), r.start, r.offset + 1, Slots(t, ch))
    ensures var rs, xs := Records(Slots(d, ch), g.kind), Items(d, g, ch);
      Showing(t, g, dir, foreign, xs[..k] + xs[k + 1..]) && Records(Slots(t, ch), g.kind) == rs[..k] + rs[k + 1..]
        && Tidy(Slots(t, ch), g.kind)
  {
    DeletedRecords(Slots(d, ch), Slots(t, ch), k, g.kind);
    RemovedShows(d, t, g, dir, ch, foreign, Records(Slots(d, ch), g.kind), k, Items(d, g, ch));
  }

  lemma RemovedShows(d: Disk, t: Disk, g: Geo, dir: Dir, ch: seq<nat>, foreign: set<nat>, rs: seq<Record>, k: nat,
      xs: seq<Item>)
    requires SoundDir(d, g, dir, ch, foreign) && SoundRecords(d, g, Members(ch) + foreign, rs) && InPlace(d, t, ch)
      && k < |rs| && xs == ItemsOf(d, rs, g.kind)
    requires Records(Slots(t, ch), g.kind) == rs[..k] + rs[k + 1..]
    ensures Showing(t, g, dir, foreign, xs[..k] + xs[k + 1..])
  {
    RemovedSound(d, g, Members(ch) + foreign, rs, k);
    WriteShows(d, t, g, dir, ch, foreign, rs[..k] + rs[k + 1..]);
    ItemsWithout(d, rs, k, g.kind);
  }

  lemma ItemsWithout(d: Disk, rs: seq<Record>, k: nat, kind: Kind)
    requires k < |rs|
    ensures ItemsOf(d, rs[..k] + rs[k + 1..], kind) == ItemsOf(d, rs, kind)[..k] + ItemsOf(d, rs, kind)[k + 1..]
  {}

  // ---------------------------------------------------------------- from sector writes to slots

  /** The image with the first `j` slots of `es` in place. */
  function Placed(slots: seq<Slot>, a: nat, es: seq<Slot>, j: nat): (r: seq<Slot>)
    requires j <= |es| && a + |es| <= |slots|
    ensures |r| == |slots| && forall i :: 0 <= i < |slots| ==> r[i] == if a <= i < a + j then es[i - a] else slots[i]
  { slots[..a] + es[..j] + slots[a + j..] }

  /** The image with an end marker after `n` slots from `a` if they take the old one. */
  function Ended(slots: seq<Slot>, a: nat, n: nat): (r: seq<Slot>)
    ensures |r| == |slots|
  { if End(slots) < a + n < |slots| then slots[a + n := slots[a + n][0 := 0]] else slots }

  lemma PlacedPartial(slots: seq<Slot>, a: nat, es: seq<Slot>, j: nat)
    requires j <= |es| && a + |es| <= |slots|
    ensures Partial(slots, End(slots), a, es, j, Placed(Ended(slots, a, |es|), a, es, j))
  {
    PartialOn(slots, End(slots), Ended(slots, a, |es|), a, es, j);
  }

  lemma PartialOn(slots: seq<Slot>, e: nat, base: seq<Slot>, a: nat, es: seq<Slot>, j: nat)
    requires j <= |es| && a + |es| <= |slots| == |base|
      && (forall k :: 0 <= k < |slots| && (k != a + |es| || a + |es| <= e) ==> base[k] == slots[k])
    requires e < a + |es| < |slots| ==> base[a + |es|][0] == 0
    ensures Partial(slots, e, a, es, j, Placed(base, a, es, j))
  {}

  /** Writing long-name entries sector by sector: some first part of them is in place. */
  lemma MixedLongs(slots: seq<Slot>, a: nat, es: seq<Slot>, j: nat, k: nat, b: nat, now: seq<Slot>)
    requires j <= k <= |es| && a + |es| <= |slots| && Mixed(Placed(slots, a, es, j), Placed(slots, a, es, k), b, now)
    ensures exists l :: j <= l <= k && now == Placed(slots, a, es, l)
  {
    var l := if b <= a + j then j else if b >= a + k then k else b - a;
    assert now == Placed(slots, a, es, l);
  }

  /** A state on the way from `j` slots of the set in place to `k`. */
  lemma StoringPlaced(d: Disk, d1: Disk, t: Disk, ch: seq<nat>, a: nat, es: seq<Slot>, j: nat, k: nat)
    requires j <= k <= |es| && a + |es| <= |Slots(d, ch)|
    requires InPlace(d, d1, ch) && Slots(d1, ch) == Placed(Ended(Slots(d, ch), a, |es|), a, es, j)
    requires Storing(d1, t, ch, Placed(Ended(Slots(d, ch), a, |es|), a, es, k))
    ensures exists l :: j <= l <= k && Inserting(d, t, ch, a, es, l)
  {
    var slots := Ended(Slots(d, ch), a, |es|);
    InPlaceTrans(d, d1, t, ch);
    var b :| Mixed(Slots(d1, ch), Placed(slots, a, es, k), b, Slots(t, ch));
    MixedLongs(slots, a, es, j, k, b, Slots(t, ch));
    var l :| j <= l <= k && Slots(t, ch) == Placed(slots, a, es, l);
    PlacedPartial(Slots(d, ch), a, es, l);
    assert Inserting(d, t, ch, a, es, l);
  }

  /** The directory's slots are as they were. */
  ghost predicate SameSlots(d: Disk, t: Disk, ch: seq<nat>) { InPlace(d, t, ch) && Slots(t, ch) == Slots(d, ch) }

  ghost predicate SomeInserting(d: Disk, t: Disk, ch: seq<nat>, a: nat, es: seq<Slot>) {
    SameSlots(d, t, ch) || exists j :: 0 <= j <= |es| && Inserting(d, t, ch, a, es, j)
  }

  ghost predicate TraceInserting(start: seq<Disk>, trace: seq<Disk>, d: Disk, ch: seq<nat>, a: nat, es: seq<Slot>) {
    |start| <= |trace| && trace[..|start|] == start && forall i :: |start| <= i < |trace| ==>
      SomeInserting(d, trace[i], ch, a, es)
  }

  lemma TraceStored(start: seq<Disk>, before: seq<Disk>, trace: seq<Disk>, d: Disk, d1: Disk, ch: seq<nat>, a: nat,
      es: seq<Slot>, j: nat, k: nat)
    requires j <= k <= |es| && a + |es| <= |Slots(d, ch)|
    requires InPlace(d, d1, ch) && Slots(d1, ch) == Placed(Ended(Slots(d, ch), a, |es|), a, es, j)
    requires TraceInserting(start, before, d, ch, a, es)
      && TraceStoring(before, trace, d1, ch, Placed(Ended(Slots(d, ch), a, |es|), a, es, k))
    ensures TraceInserting(start, trace, d, ch, a, es)
  {
    forall i | |start| <= i < |trace| ensures SomeInserting(d, trace[i], ch, a, es) {
      if i < |before| {
        assert trace[i] == before[i];
      } else {
        StoringPlaced(d, d1, trace[i], ch, a, es, j, k);
      }
    }
    assert trace[..|start|] == trace[..|before|][..|start|];
  }

  /** Writing the end marker: the slots are the old ones, or the marker is in place. */
  lemma MarkerState(d: Disk, t: Disk, ch: seq<nat>, a: nat, es: seq<Slot>)
    requires a + |es| < |Slots(d, ch)| && End(Slots(d, ch)) < a + |es|
      && Storing(d, t, ch, Ended(Slots(d, ch), a, |es|))
    ensures SomeInserting(d, t, ch, a, es)
  {
    var slots, i := Slots(d, ch), a + |es|;
    StoringOne(d, t, ch, i, slots[i][0 := 0]);
    if Slots(t, ch) != slots {
      PlacedPartial(slots, a, es, 0);
      assert Placed(Ended(slots, a, |es|), a, es, 0) == Ended(slots, a, |es|);
      assert Inserting(d, t, ch, a, es, 0);
    }
  }

  lemma TraceMarker(start: seq<Disk>, trace: seq<Disk>, d: Disk, ch: seq<nat>, a: nat, es: seq<Slot>)
    requires a + |es| < |Slots(d, ch)| && End(Slots(d, ch)) < a + |es|
      && TraceStoring(start, trace, d, ch, Ended(Slots(d, ch), a, |es|))
    ensures TraceInserting(start, trace, d, ch, a, es)
  {
    forall i | |start| <= i < |trace|
      ensures SomeInserting(d, trace[i], ch, a, es)
    {
      MarkerState(d, trace[i], ch, a, es);
    }
  }

  lemma PlacedNone(slots: seq<Slot>, a: nat, es: seq<Slot>)
    requires a + |es| <= |slots|
    ensures Placed(slots, a, es, 0) == slots
  {}

  lemma PlacedEnd(d: Disk, t: Disk, ch: seq<nat>, a: nat, es: seq<Slot>)
    requires a + |es| <= |Slots(d, ch)| && InPlace(d, t, ch)
      && Slots(t, ch) == Placed(Ended(Slots(d, ch), a, |es|), a, es, |es|)
    ensures Inserting(d, t, ch, a, es, |es|)
  {
    PlacedPartial(Slots(d, ch), a, es, |es|);
  }

  lemma PlacedDiff(slots: seq<Slot>, a: nat, es: seq<Slot>, j: nat, k: nat, now: seq<Slot>, image: seq<Slot>)
    requires j <= k <= |es| && a + |es| <= |slots| && now == Placed(slots, a, es, j) && image == Placed(slots, a, es, k)
    ensures |image| == |now| && forall i :: 0 <= i < |image| && !(a + j <= i < a + j + (k - j)) ==> image[i] == now[i]
  {}

  // ---------------------------------------------------------------- whole operations

  /** In every state since `start` the directory shows `xs`. */
  ghost predicate TraceShow(start: seq<Disk>, trace: seq<Disk>, g: Geo, dir: Dir, foreign: set<nat>, xs: seq<Item>) {
    |start| <= |trace| && trace[..|start|] == start && forall i :: |start| <= i < |trace| ==>
      Showing(trace[i], g, dir, foreign, xs)
  }

  lemma ShowingLess(d: Disk, g: Geo, dir: Dir, foreign: set<nat>, less: set<nat>, xs: seq<Item>)
    requires Showing(d, g, dir, foreign, xs) && less <= foreign
    ensures Showing(d, g, dir, less, xs)
  {
    SoundLess(d, g, dir, DirChain(g.kind, d.fat, dir).value, foreign, less);
  }

  /** Writes to free clusters show in no state. */
  lemma TraceUnseen(start: seq<Disk>, trace: seq<Disk>, d: Disk, off: set<nat>, g: Geo, dir: Dir, ch: seq<nat>,
      foreign: set<nat>)
    requires TraceOff(start, trace, d, off) && Sound(d, g, dir, ch, foreign) && AllFreeClusters(d.fat, off)
    ensures TraceShow(start, trace, g, dir, foreign, Items(d, g, ch))
  {
    forall i | |start| <= i < |trace| ensures Showing(trace[i], g, dir, foreign, Items(d, g, ch)) {
      UnseenFree(d, trace[i], g, dir, ch, foreign, off);
    }
  }

  /** Table and contents agree on the clusters `cs`. */
  ghost predicate KeptOn(d: Disk, t: Disk, cs: set<nat>) {
    |t.fat| == |d.fat| && |t.area| == |d.area| && (forall c :: c in cs && c < |d.fat| ==> t.fat[c] == d.fat[c])
      && (forall c :: c in cs && c < |d.area| ==> t.area[c] == d.area[c])
  }

  /** Nothing shows while only clusters that were free are written. */
  lemma FreeWrites(start: seq<Disk>, trace: seq<Disk>, d: Disk, t: Disk, off: set<nat>, g: Geo, dir: Dir, ch: seq<nat>,
      foreign: set<nat>)
    requires TraceOff(start, trace, d, off) && Sound(d, g, dir, ch, foreign) && AllFreeClusters(d.fat, off)
      && OffOnly(d, t, off)
    ensures TraceShow(start, trace, g, dir, foreign, Items(d, g, ch)) && Showing(t, g, dir, foreign, Items(d, g, ch))
      && KeptOn(d, t, foreign)
    ensures Sound(t, g, dir, ch, foreign) && Slots(t, ch) == Slots(d, ch)
  {
    TraceUnseen(start, trace, d, off, g, dir, ch, foreign);
    UnseenFree(d, t, g, dir, ch, foreign, off);
    FreeKept(d, t, g, dir, ch, foreign, off);
  }

  lemma FreeKept(d: Disk, t: Disk, g: Geo, dir: Dir, ch: seq<nat>, foreign: set<nat>, off: set<nat>)
    requires SoundDir(d, g, dir, ch, foreign) && AllFreeClusters(d.fat, off) && OffOnly(d, t, off)
    ensures KeptOn(d, t, foreign)
  {
    assert forall c :: c in foreign ==> c !in off;
  }

  lemma LastUsed(kind: Kind, fat: seq<nat>, dir: Dir, ch: seq<nat>)
    requires dir.At? && DirChain(kind, fat, dir) == Some(ch)
    ensures ch != [] && 2 <= ch[|ch| - 1] < |fat| && fat[ch[|ch| - 1]] != 0
  {
    FollowLinked(kind, fat, dir.cluster, |fat|);
  }

  lemma GrowShows(d: Disk, t: Disk, g: Geo, dir: Dir, ch: seq<nat>, foreign: set<nat>, last: nat, next: nat)
    requires Sound(d, g, dir, ch, foreign) && dir.At? && ch != [] && last == ch[|ch| - 1]
      && Extended(d, t, g.kind, last, next) && |ch| < g.dirLimit
    ensures Showing(t, g, dir, foreign, Items(d, g, ch)) && KeptOn(d, t, foreign)
    ensures Sound(t, g, dir, ch + [next], foreign) && Slots(t, ch + [next]) == Slots(d, ch) + t.area[next]
    ensures Records(Slots(t, ch + [next]), g.kind) == Records(Slots(d, ch), g.kind)
  {
    GrowUnseen(d, t, g, dir, ch, foreign, last, next);
    assert last in ch;
    assert forall c :: c in foreign ==> c != last && c != next;
  }

  /**
    `t` is `d`, which shows `xs`, with the last cluster of the directory half
    linked to `next`: its entry, one of `ends`, lies in two sectors and only the
    first of them has been written.
   */
  ghost predicate HalfLinked(d: Disk, t: Disk, g: Geo, dir: Dir, foreign: set<nat>, xs: seq<Item>, ends: set<nat>,
      next: nat) {
    Showing(d, g, dir, foreign, xs) && dir.At? && var ch := DirChain(g.kind, d.fat, dir).value;
    ch != [] && var last := ch[|ch| - 1];
    last in ends && last < |d.fat| && Straddles(g.kind, last)
      && t == d.(fat := d.fat[last := Torn(last, d.fat[last], next)])
  }

  ghost predicate HalfGrown(t: Disk, g: Geo, dir: Dir, foreign: set<nat>, xs: seq<Item>, ends: set<nat>) {
    exists d: Disk, next: nat :: HalfLinked(d, t, g, dir, foreign, xs, ends, next)
  }

  /**
    The clusters at whose entries growing a directory may be cut in half: those that lie in two
    sectors and end the directory or are free.
   */
  ghost function Breakable(g: Geo, fat: seq<nat>, dir: Dir, ch: seq<nat>): (ends: set<nat>) {
    set c | 2 <= c < |fat| && Straddles(g.kind, c) && dir.At? && (fat[c] == 0 || (ch != [] && c == ch[|ch| - 1]))
  }

  /** There are none on FAT16 and FAT32, nor in the fixed root. */
  lemma Unbreakable(g: Geo, fat: seq<nat>, dir: Dir, ch: seq<nat>)
    requires g.kind != Fat12 || dir.FixedRoot?
    ensures Breakable(g, fat, dir, ch) == {}
  {
    forall c | c in Breakable(g, fat, dir, ch) ensures false { StraddlesExactly(g.kind, c); }
  }

  lemma BreakableLess(g: Geo, fat: seq<nat>, fat': seq<nat>, dir: Dir, ch: seq<nat>)
    requires FewerFree(fat, fat')
    ensures Breakable(g, fat', dir, ch) <= Breakable(g, fat, dir, ch)
  {}

  lemma BreakableGrown(g: Geo, fat: seq<nat>, fat': seq<nat>, dir: Dir, ch: seq<nat>, ch': seq<nat>, next: nat)
    requires FewerFree(fat, fat') && next < |fat| && fat[next] == 0 && ch' == ch + [next]
    ensures Breakable(g, fat', dir, ch') <= Breakable(g, fat, dir, ch)
  {}

  lemma LastBreakable(g: Geo, fat: seq<nat>, dir: Dir, ch: seq<nat>)
    requires dir.At? && DirChain(g.kind, fat, dir) == Some(ch)
    ensures ch != [] && Straddles(g.kind, ch[|ch| - 1]) ==> ch[|ch| - 1] in Breakable(g, fat, dir, ch)
  {
    FollowLinked(g.kind, fat, dir.cluster, |fat|);
  }

  lemma HalfGrownMore(t: Disk, g: Geo, dir: Dir, foreign: set<nat>, less: set<nat>, xs: seq<Item>, ends: set<nat>,
      more: set<nat>)
    requires HalfGrown(t, g, dir, foreign, xs, ends) && ends <= more && less <= foreign
    ensures HalfGrown(t, g, dir, less, xs, more)
  {
    var d: Disk, next: nat :| HalfLinked(d, t, g, dir, foreign, xs, ends, next);
    ShowingLess(d, g, dir, foreign, less, xs);
    assert HalfLinked(d, t, g, dir, less, xs, more, next);
  }

  /** In every state since `start` the directory shows `xs`, or is half grown. */
  ghost predicate TraceGrown(start: seq<Disk>, trace: seq<Disk>, g: Geo, dir: Dir, foreign: set<nat>, xs: seq<Item>,
      ends: set<nat>) {
    && |start| <= |trace| && trace[..|start|] == start
    && forall i :: |start| <= i < |trace| ==>
      Showing(trace[i], g, dir, foreign, xs) || HalfGrown(trace[i], g, dir, foreign, xs, ends)
  }

  lemma ShowGrown(start: seq<Disk>, trace: seq<Disk>, g: Geo, dir: Dir, foreign: set<nat>, xs: seq<Item>,
      ends: set<nat>)
    requires TraceShow(start, trace, g, dir, foreign, xs)
    ensures TraceGrown(start, trace, g, dir, foreign, xs, ends)
  {}

  /** Whatever is written to an entry that is not foreign, the foreign clusters stay. */
  lemma SettingKept(before: seq<Disk>, trace: seq<Disk>, kind: Kind, d: Disk, t: Disk, last: nat, next: nat, u: Disk,
      foreign: set<nat>)
    requires KeptOn(d, t, foreign) && TraceSetting(before, trace, kind, t, last, next, u) && last !in foreign
    ensures KeptOn(d, u, foreign)
  {
    if |before| < |trace| { assert Setting(kind, t, last, next, trace[|trace| - 1]); }
  }

  lemma TraceGrownJoin(start: seq<Disk>, mid: seq<Disk>, trace: seq<Disk>, g: Geo, dir: Dir, foreign: set<nat>,
      xs: seq<Item>, ends: set<nat>)
    requires TraceGrown(start, mid, g, dir, foreign, xs, ends) && TraceGrown(mid, trace, g, dir, foreign, xs, ends)
    ensures TraceGrown(start, trace, g, dir, foreign, xs, ends)
  {
    assert trace[..|start|] == trace[..|mid|][..|start|];
    forall i | |start| <= i < |trace|
      ensures Showing(trace[i], g, dir, foreign, xs) || HalfGrown(trace[i], g, dir, foreign, xs, ends)
    {
      if i < |mid| { assert trace[i] == mid[i]; }
    }
  }

  /** Linking the directory's last cluster to a new one, in every state. */
  lemma GrowTrace(start: seq<Disk>, before: seq<Disk>, trace: seq<Disk>, d: Disk, t: Disk, g: Geo, dir: Dir,
      ch: seq<nat>, foreign: set<nat>, last: nat, next: nat, ends: set<nat>)
    requires TraceShow(start, before, g, dir, foreign, Items(d, g, ch)) && Sound(d, g, dir, ch, foreign) && dir.At?
      && |ch| < g.dirLimit
    requires ch != [] && last == ch[|ch| - 1] && last < |d.fat| && TraceSetting(before, trace, g.kind, d, last, next, t)
    requires Straddles(g.kind, last) ==> last in ends
    requires Showing(d.(fat := d.fat[last := next]), g, dir, foreign, Items(d, g, ch))
    ensures TraceGrown(start, trace, g, dir, foreign, Items(d, g, ch), ends) && (forall c :: c in foreign ==> c != last)
  {
    var xs := Items(d, g, ch);
    assert last in ch;
    forall i | |start| <= i < |trace|
      ensures Showing(trace[i], g, dir, foreign, xs) || HalfGrown(trace[i], g, dir, foreign, xs, ends)
    {
      if i < |before| {
        assert trace[i] == before[i];
      } else {
        assert Setting(g.kind, d, last, next, trace[i]);
        if trace[i] != d.(fat := d.fat[last := next]) {
          assert HalfLinked(d, trace[i], g, dir, foreign, xs, ends, next);
        }
      }
    }
    assert trace[..|start|] == trace[..|before|][..|start|];
  }

  lemma KeptChain(d: Disk, t: Disk, own: set<nat>, first: nat, cs: seq<nat>, kind: Kind)
    requires KeptOn(d, t, own) && Chain(kind, d.fat, first) == Some(cs) && forall i :: 0 <= i < |cs| ==> cs[i] in own
    ensures Chain(kind, t.fat, first) == Some(cs) && Gather(t.area, cs) == Gather(d.area, cs)
      && Content(t, first, kind) == Content(d, first, kind)
  {
    ChainKept(kind, d.fat, t.fat, first, cs);
    GatherKept(d.area, t.area, cs);
  }

  lemma LinkUsed(fat: seq<nat>, last: nat, v: nat)
    requires last < |fat| && fat[last] != 0 && v != 0
    ensures Zeros(fat[last := v]) == Zeros(fat)
  {}

  /** The directory is sound, has only end markers after its end and no orphans, and its records have distinct names. */
  ghost predicate WellKept(d: Disk, g: Geo, dir: Dir, ch: seq<nat>, foreign: set<nat>) {
    Sound(d, g, dir, ch, foreign) && Tidy(Slots(d, ch), g.kind) && Coherent(Records(Slots(d, ch), g.kind))
  }

  lemma KeptTrans(d: Disk, t: Disk, u: Disk, cs: set<nat>)
    requires KeptOn(d, t, cs) && KeptOn(t, u, cs)
    ensures KeptOn(d, u, cs)
  {}

  /** What stays as it was while a directory is grown. */
  ghost predicate SameListing(d: Disk, t: Disk, g: Geo, dir: Dir, ch: seq<nat>, ch': seq<nat>, foreign: set<nat>) {
    && WellKept(t, g, dir, ch', foreign) && KeptOn(d, t, foreign)
    && Records(Slots(t, ch'), g.kind) == Records(Slots(d, ch), g.kind) && Items(t, g, ch') == Items(d, g, ch)
  }

  lemma GrownListing(d: Disk, t: Disk, u: Disk, g: Geo, dir: Dir, ch: seq<nat>, ch1: seq<nat>, ch2: seq<nat>,
      foreign: set<nat>, more: seq<Slot>)
    requires SameListing(d, t, g, dir, ch, ch1, foreign) && Sound(u, g, dir, ch2, foreign) && KeptOn(t, u, foreign)
      && Showing(u, g, dir, foreign, Items(t, g, ch1))
    requires Slots(u, ch2) == Slots(t, ch1) + more && more != [] && forall i :: 0 <= i < |more| ==> more[i][0] == 0
    ensures SameListing(d, u, g, dir, ch, ch2, foreign)
  {
    KeptTrans(d, t, u, foreign);
    GrownRecords(Slots(t, ch1), more, g.kind);
  }

  /** In every state since `start` the directory shows `xs` or `ys`. */
  ghost predicate TraceEither(start: seq<Disk>, trace: seq<Disk>, g: Geo, dir: Dir, foreign: set<nat>, xs: seq<Item>,
      ys: seq<Item>) {
    |start| <= |trace| && trace[..|start|] == start && forall i :: |start| <= i < |trace| ==>
      Showing(trace[i], g, dir, foreign, xs) || Showing(trace[i], g, dir, foreign, ys)
  }

  /** In every state since `start` the directory shows `xs` or `ys`, or is half grown. */
  ghost predicate TraceAdding(start: seq<Disk>, trace: seq<Disk>, g: Geo, dir: Dir, foreign: set<nat>, xs: seq<Item>,
      ys: seq<Item>, ends: set<nat>) {
    && |start| <= |trace| && trace[..|start|] == start
    && forall i :: |start| <= i < |trace| ==> Adding(trace[i], g, dir, foreign, xs, ys, ends)
  }

  ghost predicate Adding(t: Disk, g: Geo, dir: Dir, foreign: set<nat>, xs: seq<Item>, ys: seq<Item>, ends: set<nat>) {
    Showing(t, g, dir, foreign, xs) || Showing(t, g, dir, foreign, ys) || HalfGrown(t, g, dir, foreign, xs, ends)
  }

  /** Where no entry can be cut in half, every state shows `xs` or `ys`. */
  lemma NeverHalf(start: seq<Disk>, trace: seq<Disk>, g: Geo, dir: Dir, foreign: set<nat>, xs: seq<Item>, ys: seq<Item>)
    requires TraceAdding(start, trace, g, dir, foreign, xs, ys, {})
    ensures TraceEither(start, trace, g, dir, foreign, xs, ys)
  {
    forall i | |start| <= i < |trace|
      ensures Showing(trace[i], g, dir, foreign, xs) || Showing(trace[i], g, dir, foreign, ys)
    {
      assert Adding(trace[i], g, dir, foreign, xs, ys, {});
    }
  }

  lemma AddingGrown(start: seq<Disk>, mid: seq<Disk>, trace: seq<Disk>, g: Geo, dir: Dir, foreign: set<nat>,
      less: set<nat>, xs: seq<Item>, ys: seq<Item>, ends: set<nat>)
    requires TraceGrown(start, mid, g, dir, foreign, xs, ends) && less <= foreign
      && TraceEither(mid, trace, g, dir, less, xs, ys)
    ensures TraceAdding(start, trace, g, dir, less, xs, ys, ends)
  {
    assert trace[..|start|] == trace[..|mid|][..|start|];
    forall i | |start| <= i < |trace| ensures Adding(trace[i], g, dir, less, xs, ys, ends) {
      if i < |mid| {
        assert trace[i] == mid[i];
        AddingLess(mid[i], g, dir, foreign, less, xs, ys, ends);
      }
    }
  }

  lemma AddingLess(t: Disk, g: Geo, dir: Dir, foreign: set<nat>, less: set<nat>, xs: seq<Item>, ys: seq<Item>,
      ends: set<nat>)
    requires (Showing(t, g, dir, foreign, xs) || HalfGrown(t, g, dir, foreign, xs, ends)) && less <= foreign
    ensures Adding(t, g, dir, less, xs, ys, ends)
  {
    if Showing(t, g, dir, foreign, xs) {
      ShowingLess(t, g, dir, foreign, less, xs);
    } else {
      HalfGrownMore(t, g, dir, foreign, less, xs, ends, ends);
    }
  }

  /** States that show `xs`, then an addition, perhaps with fewer entries at risk. */
  lemma TraceAddingJoin(start: seq<Disk>, mid: seq<Disk>, trace: seq<Disk>, g: Geo, dir: Dir, foreign: set<nat>,
      xs: seq<Item>, ys: seq<Item>, ends: set<nat>, more: set<nat>)
    requires TraceShow(start, mid, g, dir, foreign, xs) && TraceAdding(mid, trace, g, dir, foreign, xs, ys, ends)
      && ends <= more
    ensures TraceAdding(start, trace, g, dir, foreign, xs, ys, more)
  {
    assert trace[..|start|] == trace[..|mid|][..|start|];
    forall i | |start| <= i < |trace| ensures Adding(trace[i], g, dir, foreign, xs, ys, more) {
      if i < |mid| {
        assert trace[i] == mid[i];
      } else {
        assert Adding(trace[i], g, dir, foreign, xs, ys, ends);
        if HalfGrown(trace[i], g, dir, foreign, xs, ends) {
          HalfGrownMore(trace[i], g, dir, foreign, foreign, xs, ends, more);
        }
      }
    }
  }

  lemma TraceAddingThen(start: seq<Disk>, mid: seq<Disk>, trace: seq<Disk>, g: Geo, dir: Dir, foreign: set<nat>,
      xs: seq<Item>, ys: seq<Item>, ends: set<nat>)
    requires TraceAdding(start, mid, g, dir, foreign, xs, ys, ends) && TraceShow(mid, trace, g, dir, foreign, xs)
    ensures TraceAdding(start, trace, g, dir, foreign, xs, ys, ends)
  {
    assert trace[..|start|] == trace[..|mid|][..|start|];
    forall i | |start| <= i < |trace| ensures Adding(trace[i], g, dir, foreign, xs, ys, ends) {
      if i < |mid| { assert trace[i] == mid[i]; }
    }
  }

  lemma ShowAdding(start: seq<Disk>, trace: seq<Disk>, g: Geo, dir: Dir, foreign: set<nat>, xs: seq<Item>,
      ends: set<nat>)
    requires TraceShow(start, trace, g, dir, foreign, xs)
    ensures TraceAdding(start, trace, g, dir, foreign, xs, xs, ends)
  {}

  lemma EitherAdding(start: seq<Disk>, trace: seq<Disk>, g: Geo, dir: Dir, foreign: set<nat>, xs: seq<Item>,
      ys: seq<Item>, ends: set<nat>)
    requires TraceEither(start, trace, g, dir, foreign, xs, ys)
    ensures TraceAdding(start, trace, g, dir, foreign, xs, ys, ends)
  {}

  lemma TraceEitherJoin(start: seq<Disk>, mid: seq<Disk>, trace: seq<Disk>, g: Geo, dir: Dir, foreign: set<nat>,
      xs: seq<Item>, ys: seq<Item>)
    requires TraceShow(start, mid, g, dir, foreign, xs) && TraceEither(mid, trace, g, dir, foreign, xs, ys)
    ensures TraceEither(start, trace, g, dir, foreign, xs, ys)
  {
    assert trace[..|start|] == trace[..|mid|][..|start|];
    forall i | |start| <= i < |trace|
      ensures Showing(trace[i], g, dir, foreign, xs) || Showing(trace[i], g, dir, foreign, ys)
    {
      if i < |mid| { assert trace[i] == mid[i]; }
    }
  }

  /** Everything an insertion into free slots needs. */
  ghost predicate Inserts(d: Disk, g: Geo, dir: Dir, ch: seq<nat>, foreign: set<nat>, own: set<nat>, cs: seq<nat>,
      a: nat, x: Entry) {
    && WellKept(d, g, dir, ch, foreign + own) && foreign !! own
    && Insertable(d, g, Records(Slots(d, ch), g.kind), x, cs, own)
    && FreeRun(Slots(d, ch), End(Slots(d, ch)), a, |SlotsOf(x, g.kind)|)
  }

  ghost function After(d: Disk, g: Geo, ch: seq<nat>, a: nat, x: Entry): (ys: seq<Item>) {
    var k, xs := if a <= |Slots(d, ch)| then RecordsBefore(Slots(d, ch), a, g.kind) else 0, Items(d, g, ch);
    if k <= |xs| then WithItem(xs, k, NewItem(d, x, g.kind)) else xs
  }

  lemma InsertState(d: Disk, t: Disk, g: Geo, dir: Dir, ch: seq<nat>, foreign: set<nat>, own: set<nat>, cs: seq<nat>,
      a: nat, x: Entry, j: nat)
    requires Inserts(d, g, dir, ch, foreign, own, cs, a, x) && j <= |SlotsOf(x, g.kind)|
      && Inserting(d, t, ch, a, SlotsOf(x, g.kind), j)
    ensures Showing(t, g, dir, foreign, if j < |SlotsOf(x, g.kind)| then Items(d, g, ch) else After(d, g, ch, a, x))
  {
    if j < |SlotsOf(x, g.kind)| {
      EntrySetLongs(Records(Slots(d, ch), g.kind), x, g.kind);
      InsertHalfway(d, t, g, dir, ch, foreign + own, foreign, a, SlotsOf(x, g.kind), j);
    } else {
      InsertedShows(d, t, g, dir, ch, foreign, own, cs, a, x);
    }
  }

  lemma InsertHalfway(d: Disk, t: Disk, g: Geo, dir: Dir, ch: seq<nat>, foreign: set<nat>, less: set<nat>, a: nat,
      es: seq<Slot>, j: nat)
    requires Sound(d, g, dir, ch, foreign) && Tidy(Slots(d, ch), g.kind)
      && FreeRun(Slots(d, ch), End(Slots(d, ch)), a, |es|)
    requires j < |es| && Longs(es, |es| - 1) && Inserting(d, t, ch, a, es, j) && less <= foreign
    ensures Showing(t, g, dir, less, Items(d, g, ch))
  {
    InsertingShows(d, t, g, dir, ch, foreign, a, es, j);
    ShowingLess(t, g, dir, foreign, less, Items(d, g, ch));
  }

  lemma EntrySetLongs(rs: seq<Record>, x: Entry, kind: Kind)
    requires Storable(x.name) && Coherent(rs) && Chosen(x.name, rs, x.short)
      && (forall i :: 0 <= i < |rs| ==> !Matches(rs[i], x.name)) && GoodAttr(x.attr)
    ensures Longs(SlotsOf(x, kind), |SlotsOf(x, kind)| - 1)
  {
    ChosenBuilt(x.name, rs, x.short);
    ShapedGood(x.short);
    EntrySetLive(x.name, x.short, x.first, x.size, x.attr, kind);
  }

  lemma InsertTrace(mid: seq<Disk>, trace: seq<Disk>, d: Disk, g: Geo, dir: Dir, ch: seq<nat>, foreign: set<nat>,
      own: set<nat>, cs: seq<nat>, a: nat, x: Entry)
    requires Inserts(d, g, dir, ch, foreign, own, cs, a, x) && TraceInserting(mid, trace, d, ch, a, SlotsOf(x, g.kind))
    ensures TraceEither(mid, trace, g, dir, foreign, Items(d, g, ch), After(d, g, ch, a, x))
  {
    forall i | |mid| <= i < |trace|
      ensures Showing(trace[i], g, dir, foreign, Items(d, g, ch))
        || Showing(trace[i], g, dir, foreign, After(d, g, ch, a, x))
    {
      assert SomeInserting(d, trace[i], ch, a, SlotsOf(x, g.kind));
      if SameSlots(d, trace[i], ch) {
        WriteShows(d, trace[i], g, dir, ch, foreign + own, Records(Slots(d, ch), g.kind));
        ShowingLess(trace[i], g, dir, foreign + own, foreign, Items(d, g, ch));
      } else {
        var j :| 0 <= j <= |SlotsOf(x, g.kind)| && Inserting(d, trace[i], ch, a, SlotsOf(x, g.kind), j);
        InsertState(d, trace[i], g, dir, ch, foreign, own, cs, a, x, j);
      }
    }
  }

  // ---------------------------------------------------------------- items that names tell apart

  ghost predicate BuiltItem(x: Item) {
    && |x.short| == 11 && Shaped(x.short) && x.alias == Alias(x.short, 0)
    && (Simple(x.name) ==> x.short == Direct(x.name))
  }

  ghost predicate ApartItems(x: Item, y: Item) { x.short != y.short && !Same(x.name, y.name) }

  /** The items of a directory the driver built. */
  ghost predicate Distinct(xs: seq<Item>) { Family(xs, BuiltItem, ApartItems) }

  ghost predicate Describes1(x: Item, r: Record) { x.name == r.name && x.alias == r.alias && x.short == r.short }

  /** Items and records with the same names. */
  ghost predicate Agree(xs: seq<Item>, rs: seq<Record>)
  {
    |xs| == |rs| && forall i :: 0 <= i < |xs| ==> Describes1(xs[i], rs[i])
  }

  lemma DistinctRecords(xs: seq<Item>, rs: seq<Record>)
    requires Agree(xs, rs)
    ensures Distinct(xs) <==> Coherent(rs)
  {
    forall i | 0 <= i < |xs| ensures BuiltItem(xs[i]) == Built(rs[i]) { assert Describes1(xs[i], rs[i]); }
    forall i, j | 0 <= i < |xs| && 0 <= j < |xs| ensures ApartItems(xs[i], xs[j]) == Apart(rs[i], rs[j]) {
      assert Describes1(xs[i], rs[i]) && Describes1(xs[j], rs[j]);
    }
    FamilySame(xs, rs, BuiltItem, ApartItems, Built, Apart);
  }

  lemma FamilySame<T,
      U>(xs: seq<T>, ys: seq<U>, good: T -> bool, apart: (T, T) -> bool, good': U -> bool, apart': (U, U) -> bool)
    requires |xs| == |ys| && (forall i :: 0 <= i < |xs| ==> good(xs[i]) == good'(ys[i]))
    requires forall i, j :: 0 <= i < |xs| && 0 <= j < |xs| ==> apart(xs[i], xs[j]) == apart'(ys[i], ys[j])
    ensures Family(xs, good, apart) <==> Family(ys, good', apart')
  {}

  lemma AgreeInsert(xs: seq<Item>, rs: seq<Record>, k: nat, x: Item, w: Record)
    requires Agree(xs, rs) && k <= |rs| && Describes1(x, w)
    ensures Agree(WithItem(xs, k, x), rs[..k] + [w] + rs[k..])
  {
    var ys, qs := WithItem(xs, k, x), rs[..k] + [w] + rs[k..];
    forall i | 0 <= i < |ys| ensures Describes1(ys[i], qs[i]) {
      if i != k { assert Describes1(xs[if i < k then i else i - 1], rs[if i < k then i else i - 1]); }
    }
  }

  lemma ItemsAgree(d: Disk, rs: seq<Record>, kind: Kind)
    ensures Agree(ItemsOf(d, rs, kind), rs)
  {}

  /** `ys` is `xs` with one more item of this name, attribute, size and contents, and names tell its items apart. */
  ghost predicate Added(xs: seq<Item>, ys: seq<Item>, name: Name, attr: byte, size: nat, content: Option<seq<Slot>>) {
    Distinct(ys) && exists k: nat, short: Short :: AddedAt(xs, ys, name, attr, size, content, k, short)
  }

  ghost predicate AddedAt(xs: seq<Item>, ys: seq<Item>, name: Name, attr: byte, size: nat, content: Option<seq<Slot>>,
      k: nat, short: Short) {
    k <= |xs| && ys == WithItem(xs, k, Item(name, Alias(short, 0), short, attr, size, content))
  }

  /** What an insertion makes of a list of items, whether or not it is completed. */
  lemma AfterAdded(d: Disk, g: Geo, dir: Dir, ch: seq<nat>, foreign: set<nat>, own: set<nat>, cs: seq<nat>, a: nat,
      x: Entry)
    requires Inserts(d, g, dir, ch, foreign, own, cs, a, x)
    ensures Added(Items(d, g, ch), After(d, g, ch, a, x), x.name, x.attr, x.size, Content(d, x.first, g.kind))
  {
    BeforeRun(Slots(d, ch), a, |SlotsOf(x, g.kind)|, g.kind);
    ListAdded(d, g, Records(Slots(d, ch), g.kind), x, cs, own, RecordsBefore(Slots(d, ch), a, g.kind));
  }

  lemma ListAdded(d: Disk, g: Geo, rs: seq<Record>, x: Entry, cs: seq<nat>, own: set<nat>, k: nat)
    requires Coherent(rs) && Insertable(d, g, rs, x, cs, own) && k <= |rs|
    ensures Added(ItemsOf(d, rs, g.kind), WithItem(ItemsOf(d, rs, g.kind), k, NewItem(d, x, g.kind)), x.name, x.attr,
      x.size, Content(d, x.first, g.kind))
  {
    var w, xs, y := Record(x.name, Alias(x.short, 0), x.short, x.attr, x.first, x.size, 0, 0), ItemsOf(d, rs, g.kind),
      NewItem(d, x, g.kind);
    ItemsAgree(d, rs, g.kind);
    InsertDistinct(xs, rs, k, y, w);
    assert AddedAt(xs, WithItem(xs, k, y), x.name, x.attr, x.size, Content(d, x.first, g.kind), k, x.short);
  }

  lemma InsertDistinct(xs: seq<Item>, rs: seq<Record>, k: nat, x: Item, w: Record)
    requires Agree(xs, rs) && k <= |rs| && Describes1(x, w) && Coherent(rs) && ValidName(w.name)
    requires |w.short| == 11 && Chosen(w.name, rs, w.short) && w.alias == Alias(w.short, 0)
      && forall i :: 0 <= i < |rs| ==> !Matches(rs[i], w.name)
    ensures Distinct(WithItem(xs, k, x))
  {
    CoherentInsert(rs, k, w, rs[..k] + [w] + rs[k..]);
    AgreeInsert(xs, rs, k, x, w);
    DistinctRecords(WithItem(xs, k, x), rs[..k] + [w] + rs[k..]);
  }

  lemma CoherentInsert(rs: seq<Record>, k: nat, w: Record, rs': seq<Record>)
    requires k <= |rs| && rs' == rs[..k] + [w] + rs[k..] && Coherent(rs) && ValidName(w.name)
    requires |w.short| == 11 && Chosen(w.name, rs, w.short) && w.alias == Alias(w.short, 0)
      && forall i :: 0 <= i < |rs| ==> !Matches(rs[i], w.name)
    ensures Coherent(rs')
  {
    SplitAt(rs, k);
    InsertCoherent(rs, rs[..k], rs[k..], w, rs');
  }

  lemma SplitAt<T>(xs: seq<T>, k: nat)
    requires k <= |xs|
    ensures xs == xs[..k] + xs[k..]
  {}

  lemma InsertKeeps(d: Disk, g: Geo, dir: Dir, ch: seq<nat>, foreign: set<nat>, own: set<nat>, cs: seq<nat>, a: nat,
      x: Entry, t: Disk)
    requires Inserts(d, g, dir, ch, foreign, own, cs, a, x)
      && Inserting(d, t, ch, a, SlotsOf(x, g.kind), |SlotsOf(x, g.kind)|)
    ensures WellKept(t, g, dir, ch, foreign)
  {
    InsertedShows(d, t, g, dir, ch, foreign, own, cs, a, x);
  }

  lemma InPlaceKept(d: Disk, t: Disk, g: Geo, dir: Dir, ch: seq<nat>, foreign: set<nat>)
    requires SoundDir(d, g, dir, ch, foreign) && InPlace(d, t, ch)
    ensures KeptOn(d, t, foreign)
  {}

  lemma InsertingKept(d: Disk, t: Disk, g: Geo, dir: Dir, ch: seq<nat>, foreign: set<nat>, a: nat, es: seq<Slot>)
    requires SoundDir(d, g, dir, ch, foreign) && SomeInserting(d, t, ch, a, es)
    ensures KeptOn(d, t, foreign)
  {
    InPlaceKept(d, t, g, dir, ch, foreign);
  }

  lemma StartsAtEnd(slots: seq<Slot>, a: nat, n: nat)
    requires FreeRun(slots, End(slots), a, n)
    ensures a <= End(slots)
  {
    assert a > 0 ==> !Free(slots, End(slots), a - 1);
  }

  /** The entry may still be inserted after the directory has grown. */
  lemma StillInsertable(d: Disk, t: Disk, g: Geo, rs: seq<Record>, x: Entry, cs: seq<nat>, own: set<nat>)
    requires Insertable(d, g, rs, x, cs, own) && KeptOn(d, t, own)
    ensures Insertable(t, g, rs, x, cs, own) && Content(t, x.first, g.kind) == Content(d, x.first, g.kind)
  {
    KeptChain(d, t, own, x.first, cs, g.kind);
  }

  // ---------------------------------------------------------------- chains taken and given up

  /** A chain written to free clusters belongs to nobody yet. */
  lemma Adopt(d: Disk, t: Disk, g: Geo, dir: Dir, ch: seq<nat>, foreign: set<nat>, off: set<nat>)
    requires WellKept(d, g, dir, ch, foreign) && OffOnly(d, t, off) && AllFreeClusters(d.fat, off)
      && forall c :: c in off ==> 2 <= c < |t.fat| && t.fat[c] != 0
    ensures WellKept(t, g, dir, ch, foreign + off) && foreign !! off && SameListing(d, t, g, dir, ch, ch, foreign)
  {
    var rs, taken := Records(Slots(d, ch), g.kind), Members(ch) + foreign;
    FreeIsClear(d, g, dir, ch, foreign, off, rs, taken);
    FreeKept(d, t, g, dir, ch, foreign, off);
    UnseenFree(d, t, g, dir, ch, foreign, off);
    AvoidMore(d, t, g, taken, off, rs);
    assert Members(ch) + (foreign + off) == taken + off;
  }

  lemma AvoidMore(d: Disk, t: Disk, g: Geo, taken: set<nat>, off: set<nat>, rs: seq<Record>)
    requires SoundRecords(d, g, taken, rs) && OffOnly(d, t, off) && Clear(d, g.kind, rs, off)
    ensures SoundRecords(t, g, taken + off, rs)
  {
    RecordsKept(d, t, g, taken, off, rs);
    forall i | 0 <= i < |rs| ensures SoundRecord(t, g, taken + off, rs[i]) {
      assert ClearRecord(d, g.kind, rs[i], off) && SoundRecord(t, g, taken, rs[i]);
      RecordKept(d, t, g, taken, off, rs[i]);
    }
    forall i, j | 0 <= i < |rs| && 0 <= j < |rs| && i != j ensures OwnChains(t, g.kind, rs[i], rs[j]) { }
  }

  /** Clusters the records avoid are in no record's chain. */
  lemma OwnClear(d: Disk, g: Geo, taken: set<nat>, off: set<nat>, rs: seq<Record>)
    requires SoundRecords(d, g, taken, rs) && off <= taken
    ensures Clear(d, g.kind, rs, off)
  {
    forall i | 0 <= i < |rs| ensures ClearRecord(d, g.kind, rs[i], off) { assert SoundRecord(d, g, taken, rs[i]); }
  }

  /** The clusters `off` are neither the directory's, nor an entry's, nor foreign. */
  ghost predicate Unnamed(d: Disk, g: Geo, ch: seq<nat>, foreign: set<nat>, off: set<nat>) {
    Clear(d, g.kind, Records(Slots(d, ch), g.kind), off) && (forall c :: c in ch ==> c !in off) && foreign !! off
  }

  /** Freeing clusters that are nobody's shows in no state. */
  lemma Released(start: seq<Disk>, trace: seq<Disk>, d: Disk, t: Disk, off: set<nat>, g: Geo, dir: Dir, ch: seq<nat>,
      foreign: set<nat>)
    requires WellKept(d, g, dir, ch, foreign) && TraceOff(start, trace, d, off) && OffOnly(d, t, off)
    requires Unnamed(d, g, ch, foreign, off)
    ensures TraceShow(start, trace, g, dir, foreign, Items(d, g, ch)) && SameListing(d, t, g, dir, ch, ch, foreign)
  {
    forall i | |start| <= i < |trace| ensures Showing(trace[i], g, dir, foreign, Items(d, g, ch)) {
      Unseen(d, trace[i], g, dir, ch, foreign, off);
    }
    Unseen(d, t, g, dir, ch, foreign, off);
  }

  /** Freeing a chain that was never published. */
  lemma Abandoned(start: seq<Disk>, trace: seq<Disk>, d: Disk, t: Disk, cs: seq<nat>, g: Geo, dir: Dir, ch: seq<nat>,
      foreign: set<nat>, own: set<nat>)
    requires WellKept(d, g, dir, ch, foreign + own) && foreign !! own && (forall i :: 0 <= i < |cs| ==> cs[i] in own)
    requires TraceOff(start, trace, d, Members(cs)) && OffOnly(d, t, Members(cs))
    ensures TraceShow(start, trace, g, dir, foreign, Items(d, g, ch)) && SameListing(d, t, g, dir, ch, ch, foreign)
  {
    assert Members(cs) <= own;
    OwnClear(d, g, Members(ch) + (foreign + own), Members(cs), Records(Slots(d, ch), g.kind));
    SoundLess(d, g, dir, ch, foreign + own, foreign);
    Released(start, trace, d, t, Members(cs), g, dir, ch, foreign);
  }

  lemma TraceEitherThen(start: seq<Disk>, mid: seq<Disk>, trace: seq<Disk>, g: Geo, dir: Dir, foreign: set<nat>,
      xs: seq<Item>, ys: seq<Item>, zs: seq<Item>)
    requires TraceEither(start, mid, g, dir, foreign, xs, ys) && TraceShow(mid, trace, g, dir, foreign, zs)
      && (zs == xs || zs == ys)
    ensures TraceEither(start, trace, g, dir, foreign, xs, ys)
  {
    assert trace[..|start|] == trace[..|mid|][..|start|];
    forall i | |start| <= i < |trace|
      ensures Showing(trace[i], g, dir, foreign, xs) || Showing(trace[i], g, dir, foreign, ys)
    {
      if i < |mid| { assert trace[i] == mid[i]; }
    }
  }

  /** Contents that read back as `data`. */
  ghost predicate Reads(content: Option<seq<Slot>>, data: seq<byte>) {
    content.Some? && |data| <= 32 * |content.value| && Bytes(content.value, |data|) == data
  }

  /** A cluster number and a file size fit an entry. */
  lemma SizesFit(kind: Kind, first: nat, clusters: nat, size: nat)
    requires first < clusters <= Eof(kind) - 7 && size <= MAX_FILE
    ensures Fits(first, size, kind)
  {}

  lemma ChainBound(kind: Kind, fat: seq<nat>, first: nat, cs: seq<nat>)
    requires Chain(kind, fat, first) == Some(cs) && |fat| > 0
    ensures first < |fat|
  {
    if first != 0 { FollowLinked(kind, fat, first, |fat|); }
  }

  lemma SameListingLess(d: Disk, t: Disk, g: Geo, dir: Dir, ch: seq<nat>, ch': seq<nat>, foreign: set<nat>,
      own: set<nat>)
    requires SameListing(d, t, g, dir, ch, ch', foreign + own)
    ensures SameListing(d, t, g, dir, ch, ch', foreign)
  {
    SoundLess(t, g, dir, ch', foreign + own, foreign);
  }

  lemma SameListingTrans(d: Disk, t: Disk, u: Disk, g: Geo, dir: Dir, ch: seq<nat>, ch1: seq<nat>, ch2: seq<nat>,
      foreign: set<nat>)
    requires SameListing(d, t, g, dir, ch, ch1, foreign) && SameListing(t, u, g, dir, ch1, ch2, foreign)
    ensures SameListing(d, u, g, dir, ch, ch2, foreign)
  {}

  lemma KeptLess(d: Disk, t: Disk, more: set<nat>, cs: set<nat>)
    requires KeptOn(d, t, more) && cs <= more
    ensures KeptOn(d, t, cs)
  {}

  /** The directory shows and keeps what it did, whatever its chain is now. */
  ghost predicate Unchanged(d: Disk, t: Disk, g: Geo, dir: Dir, ch: seq<nat>, foreign: set<nat>) {
    DirChain(g.kind, t.fat, dir).Some? && SameListing(d, t, g, dir, ch, DirChain(g.kind, t.fat, dir).value, foreign)
  }

  const ARCHIVE: byte := 0x20

  /** Contents that read back as `data` and that the driver follows to their end. */
  ghost predicate Holds(g: Geo, content: Option<seq<Slot>>, data: seq<byte>) {
    Reads(content, data) && |data| <= MAX_FILE && |content.value| <= Pos(g.fileLimit, g.per)
  }

  lemma PackHolds(d: Disk, first: nat, cs: seq<nat>, data: seq<byte>, g: Geo)
    requires Chain(g.kind, d.fat, first) == Some(cs) && |data| <= 32 * Pos(|cs|, g.per)
      && Gather(d.area, cs) == Pack(data, 0, Pos(|cs|, g.per))
    requires |data| <= MAX_FILE && |cs| <= g.fileLimit
    ensures Holds(g, Content(d, first, g.kind), data)
  {
    ReadBack(data, Pos(|cs|, g.per));
    PosMono(|cs|, g.fileLimit, g.per);
  }

  /** `ys` is `xs` and a file of this name that reads as `data`. */
  ghost predicate AddedFile(g: Geo, xs: seq<Item>, ys: seq<Item>, name: Name, data: seq<byte>) {
    exists content :: Added(xs, ys, name, 0x20, |data|, content) && Holds(g, content, data)
  }

  /** An item that a typed name means. */
  predicate Means(x: Item, name: Name) { Same(x.name, name) || Same(x.alias, name) }

  /**
    `ys` is `xs` with the contents of number `k`, a file, replaced by ones that read as `data`,
    everything else as it was.
   */
  ghost predicate Replaced1(g: Geo, xs: seq<Item>, ys: seq<Item>, k: nat, data: seq<byte>) {
    k < |xs| == |ys| && !IsDir(xs[k].attr) && Holds(g, ys[k].content, data)
      && ys == xs[k := xs[k].(size := |data|, content := ys[k].content)]
  }

  /** An image that differs in one slot is on disk or not. */
  lemma StoringOne(d: Disk, t: Disk, ch: seq<nat>, i: nat, slot: Slot)
    requires i < |Slots(d, ch)| && Storing(d, t, ch, Slots(d, ch)[i := slot])
    ensures InPlace(d, t, ch) && (Slots(t, ch) == Slots(d, ch) || Slots(t, ch) == Slots(d, ch)[i := slot])
  {
    var b: nat :| Mixed(Slots(d, ch), Slots(d, ch)[i := slot], b, Slots(t, ch));
    MixedOne(Slots(d, ch), i, slot, b, Slots(t, ch));
  }

  lemma MixedOne(slots: seq<Slot>, i: nat, slot: Slot, b: nat, now: seq<Slot>)
    requires i < |slots| && Mixed(slots, slots[i := slot], b, now)
    ensures now == if b <= i then slots else slots[i := slot]
  {}

  /** Everything an update of record `k` needs. */
  ghost predicate Updates(d: Disk, g: Geo, dir: Dir, ch: seq<nat>, foreign: set<nat>, own: set<nat>, cs: seq<nat>,
      k: nat, first: nat, size: nat) {
    WellKept(d, g, dir, ch, foreign + own) && foreign !! own
      && Replaceable(d, g, Records(Slots(d, ch), g.kind), k, first, size, cs, own)
  }

  ghost function Updated(d: Disk, g: Geo, ch: seq<nat>, k: nat, first: nat, size: nat): (ys: seq<Item>) {
    if k < |Items(d, g, ch)| then WithContent(d, Items(d, g, ch), k, first, size, g.kind) else Items(d, g, ch)
  }

  lemma UpdateState(d: Disk, t: Disk, g: Geo, dir: Dir, ch: seq<nat>, foreign: set<nat>, own: set<nat>, cs: seq<nat>,
      k: nat, first: nat, size: nat, i: nat)
    requires Updates(d, g, dir, ch, foreign, own, cs, k, first, size)
      && i == Records(Slots(d, ch), g.kind)[k].offset < |Slots(d, ch)|
    requires Storing(d, t, ch, Slots(d, ch)[i := Rewritten(Slots(d, ch)[i], first, size, g.kind)])
    ensures Showing(t, g, dir, foreign, Items(d, g, ch))
      || Showing(t, g, dir, foreign, Updated(d, g, ch, k, first, size))
  {
    StoringOne(d, t, ch, i, Rewritten(Slots(d, ch)[i], first, size, g.kind));
    if Slots(t, ch) == Slots(d, ch) {
      WriteShows(d, t, g, dir, ch, foreign + own, Records(Slots(d, ch), g.kind));
      ShowingLess(t, g, dir, foreign + own, foreign, Items(d, g, ch));
    } else {
      UpdatedShows(d, t, g, dir, ch, foreign, own, cs, k, first, size);
    }
  }

  lemma UpdateTrace(mid: seq<Disk>, trace: seq<Disk>, d: Disk, g: Geo, dir: Dir, ch: seq<nat>, foreign: set<nat>,
      own: set<nat>, cs: seq<nat>, k: nat, first: nat, size: nat, i: nat)
    requires Updates(d, g, dir, ch, foreign, own, cs, k, first, size)
      && i == Records(Slots(d, ch), g.kind)[k].offset < |Slots(d, ch)|
    requires TraceStoring(mid, trace, d, ch, Slots(d, ch)[i := Rewritten(Slots(d, ch)[i], first, size, g.kind)])
    ensures TraceEither(mid, trace, g, dir, foreign, Items(d, g, ch), Updated(d, g, ch, k, first, size))
  {
    forall j | |mid| <= j < |trace|
      ensures Showing(trace[j], g, dir, foreign, Items(d, g, ch))
        || Showing(trace[j], g, dir, foreign, Updated(d, g, ch, k, first, size))
    {
      UpdateState(d, trace[j], g, dir, ch, foreign, own, cs, k, first, size, i);
    }
  }

  /** Record `k` of the directory starts at cluster `first`. */
  ghost predicate EntryIs(t: Disk, g: Geo, ch: seq<nat>, k: nat, first: nat) {
    k < |Records(Slots(t, ch), g.kind)| && Records(Slots(t, ch), g.kind)[k].cluster == first
  }

  /** The finished update: the new listing, and the old chain now nobody's. */
  lemma UpdateDoneShows(d: Disk, t: Disk, g: Geo, dir: Dir, ch: seq<nat>, foreign: set<nat>, own: set<nat>,
      cs: seq<nat>, k: nat, first: nat, size: nat, i: nat)
    requires Updates(d, g, dir, ch, foreign, own, cs, k, first, size)
      && i == Records(Slots(d, ch), g.kind)[k].offset < |Slots(d, ch)|
    requires InPlace(d, t, ch) && Slots(t, ch) == Slots(d, ch)[i := Rewritten(Slots(d, ch)[i], first, size, g.kind)]
    ensures WellKept(t, g, dir, ch, foreign) && Items(t, g, ch) == Updated(d, g, ch, k, first, size)
    ensures EntryIs(t, g, ch, k, first)
    ensures Chain(g.kind, t.fat, Records(Slots(d, ch), g.kind)[k].cluster).Some?
    ensures Unnamed(t, g, ch, foreign, Members(Chain(g.kind, t.fat, Records(Slots(d, ch), g.kind)[k].cluster).value))
  {
    UpdatedShows(d, t, g, dir, ch, foreign, own, cs, k, first, size);
    OldChainClear(d, t, g, dir, ch, foreign, own, cs, Records(Slots(d, ch), g.kind), k, first, size);
  }

  lemma OldChainClear(d: Disk, t: Disk, g: Geo, dir: Dir, ch: seq<nat>, foreign: set<nat>, own: set<nat>, cs: seq<nat>,
      rs: seq<Record>, k: nat, first: nat, size: nat)
    requires SoundRecords(d, g, Members(ch) + (foreign + own), rs) && Replaceable(d, g, rs, k, first, size, cs, own)
      && t.fat == d.fat
    ensures Chain(g.kind, t.fat, rs[k].cluster).Some?
    ensures var off := Members(Chain(g.kind, t.fat, rs[k].cluster).value);
      Clear(t, g.kind, rs[k := rs[k].(cluster := first, size := size)], off) && foreign !! off
        && forall c :: c in ch ==> c !in off
  {
    var w := rs[k].(cluster := first, size := size);
    assert Members(ch) + (foreign + own) == (Members(ch) + foreign) + own;
    GivenUp(d, g, Members(ch) + foreign, own, cs, rs, k, w);
    var off := Members(Chain(g.kind, d.fat, rs[k].cluster).value);
    var rs' := rs[k := w];
    forall i | 0 <= i < |rs'|
      ensures ClearRecord(t, g.kind, rs'[i], off)
    {
      assert ClearRecord(d, g.kind, rs'[i], off);
    }
    assert forall c :: c in ch ==> c in Members(ch);
  }

  lemma RecordSlot(slots: seq<Slot>, k: nat, kind: Kind)
    requires k < |Records(slots, kind)|
    ensures var r := Records(slots, kind)[k]; r.start <= r.offset < |slots| && slots[r.offset][..11] == r.short
  {
    RecordsSpan(slots, kind);
    assert Describes(slots, Records(slots, kind)[k], kind) && Spans(slots, Records(slots, kind)[k]);
  }

  // ---------------------------------------------------------------- deletion in every state

  function Marked(slots: seq<Slot>, a: nat, b: nat): (r: seq<Slot>)
    requires a <= b <= |slots|
    ensures Erased(slots, a, b, r)
    decreases b - a
  { if a == b then slots else Marked(slots, a, b - 1)[b - 1 := slots[b - 1][0 := DELETED]] }

  lemma MixedErased(slots: seq<Slot>, a: nat, e: nat, b: nat, now: seq<Slot>)
    requires a <= e <= |slots| && Mixed(slots, Marked(slots, a, e), b, now)
    ensures Erased(slots, a, if b <= a then a else if b >= e then e else b, now)
  {}

  ghost function Without(xs: seq<Item>, k: nat): (ys: seq<Item>)
    requires k < |xs|
  { xs[..k] + xs[k + 1..] }

  ghost function Aliased(xs: seq<Item>, k: nat): (ys: seq<Item>)
    requires k < |xs|
  { xs[k := xs[k].(name := xs[k].alias)] }

  /** Number `k` is there, there under its alias, or gone; everything else is as it was. */
  ghost predicate Deleting(t: Disk, g: Geo, dir: Dir, foreign: set<nat>, xs: seq<Item>, k: nat)
    requires k < |xs|
  {
    Showing(t, g, dir, foreign, xs) || Showing(t, g, dir, foreign, Aliased(xs, k))
      || Showing(t, g, dir, foreign, Without(xs, k))
  }

  ghost predicate TraceDeleting(start: seq<Disk>, trace: seq<Disk>, g: Geo, dir: Dir, foreign: set<nat>, xs: seq<Item>,
      k: nat) {
    k < |xs| && |start| <= |trace| && trace[..|start|] == start && forall i :: |start| <= i < |trace| ==>
      Deleting(trace[i], g, dir, foreign, xs, k)
  }

  lemma DeleteState(d: Disk, t: Disk, g: Geo, dir: Dir, ch: seq<nat>, foreign: set<nat>, k: nat)
    requires WellKept(d, g, dir, ch, foreign) && k < |Records(Slots(d, ch), g.kind)|
    requires var r := Records(Slots(d, ch), g.kind)[k];
      r.start <= r.offset < |Slots(d, ch)| && Storing(d, t, ch, Marked(Slots(d, ch), r.start, r.offset + 1))
    ensures Deleting(t, g, dir, foreign, Items(d, g, ch), k)
  {
    var r := Records(Slots(d, ch), g.kind)[k];
    var b: nat :| Mixed(Slots(d, ch), Marked(Slots(d, ch), r.start, r.offset + 1), b, Slots(t, ch));
    MixedErased(Slots(d, ch), r.start, r.offset + 1, b, Slots(t, ch));
    if b <= r.start {
      assert Slots(t, ch) == Slots(d, ch);
      WriteShows(d, t, g, dir, ch, foreign, Records(Slots(d, ch), g.kind));
    } else if b <= r.offset {
      DeletingShows(d, t, g, dir, ch, foreign, k, b);
    } else {
      DeletedShows(d, t, g, dir, ch, foreign, k);
    }
  }

  lemma DeleteTrace(mid: seq<Disk>, trace: seq<Disk>, d: Disk, g: Geo, dir: Dir, ch: seq<nat>, foreign: set<nat>,
      k: nat)
    requires WellKept(d, g, dir, ch, foreign) && k < |Records(Slots(d, ch), g.kind)|
    requires var r := Records(Slots(d, ch), g.kind)[k];
      r.start <= r.offset < |Slots(d, ch)|
      && TraceStoring(mid, trace, d, ch, Marked(Slots(d, ch), r.start, r.offset + 1))
    ensures TraceDeleting(mid, trace, g, dir, foreign, Items(d, g, ch), k)
  {
    forall i | |mid| <= i < |trace|
      ensures Deleting(trace[i], g, dir, foreign, Items(d, g, ch), k)
    {
      DeleteState(d, trace[i], g, dir, ch, foreign, k);
    }
  }

  lemma TraceDeletingThen(start: seq<Disk>, mid: seq<Disk>, trace: seq<Disk>, g: Geo, dir: Dir, foreign: set<nat>,
      xs: seq<Item>, k: nat)
    requires TraceDeleting(start, mid, g, dir, foreign, xs, k) && TraceShow(mid, trace, g, dir, foreign, Without(xs, k))
    ensures TraceDeleting(start, trace, g, dir, foreign, xs, k)
  {
    assert trace[..|start|] == trace[..|mid|][..|start|];
    forall i | |start| <= i < |trace| ensures Deleting(trace[i], g, dir, foreign, xs, k) {
      if i < |mid| { assert trace[i] == mid[i]; }
    }
  }

  /** The finished deletion: the record is gone and its chain is nobody's. */
  lemma DeleteDoneShows(d: Disk, t: Disk, g: Geo, dir: Dir, ch: seq<nat>, foreign: set<nat>, k: nat)
    requires WellKept(d, g, dir, ch, foreign) && k < |Records(Slots(d, ch), g.kind)| && InPlace(d, t, ch)
    requires var r := Records(Slots(d, ch), g.kind)[k];
      r.start <= r.offset < |Slots(d, ch)| && Slots(t, ch) == Marked(Slots(d, ch), r.start, r.offset + 1)
    ensures WellKept(t, g, dir, ch, foreign) && Items(t, g, ch) == Without(Items(d, g, ch), k)
    ensures Chain(g.kind, t.fat, Records(Slots(d, ch), g.kind)[k].cluster).Some?
    ensures Unnamed(t, g, ch, foreign, Members(Chain(g.kind, t.fat, Records(Slots(d, ch), g.kind)[k].cluster).value))
  {
    var rs := Records(Slots(d, ch), g.kind);
    DeletedShows(d, t, g, dir, ch, foreign, k);
    RemoveCoherent(rs, k);
    GoneChainClear(d, t, g, ch, foreign, rs, k);
  }

  lemma GoneChainClear(d: Disk, t: Disk, g: Geo, ch: seq<nat>, foreign: set<nat>, rs: seq<Record>, k: nat)
    requires SoundRecords(d, g, Members(ch) + foreign, rs) && k < |rs| && t.fat == d.fat
    ensures Chain(g.kind, t.fat, rs[k].cluster).Some?
    ensures var off := Members(Chain(g.kind, t.fat, rs[k].cluster).value);
      Clear(t, g.kind, rs[..k] + rs[k + 1..], off) && foreign !! off && forall c :: c in ch ==> c !in off
  {
    assert SoundRecord(d, g, Members(ch) + foreign, rs[k]);
    var off, rs' := Members(Chain(g.kind, d.fat, rs[k].cluster).value), rs[..k] + rs[k + 1..];
    forall i | 0 <= i < |rs'| ensures ClearRecord(t, g.kind, rs'[i], off) {
      var j := if i < k then i else i + 1;
      assert rs'[i] == rs[j];
      OthersClear(d, g, Members(ch) + foreign, rs, k, j);
    }
    assert forall c :: c in ch ==> c in Members(ch);
  }

  // ---------------------------------------------------------------- reading back

  lemma BytesPrefix(slots: seq<Slot>, more: seq<Slot>, size: nat)
    requires size <= 32 * |slots|
    ensures Bytes(slots + more, size) == Bytes(slots, size)
  {
    forall i | 0 <= i < size
      ensures Bytes(slots + more, size)[i] == Bytes(slots, size)[i]
    {
      DivMod(i, 32, i / 32, i % 32);
    }
  }

  /** The clusters that hold `size` bytes hold all that reading needs. */
  lemma EnoughClusters(area: seq<seq<Slot>>, cs: seq<nat>, n: nat, per: nat, size: nat)
    requires n <= |cs| && Wide(area, cs, per) && size <= 32 * Pos(n, per)
    ensures size <= 32 * |Gather(area, cs[..n])| && size <= 32 * |Gather(area, cs)|
      && Bytes(Gather(area, cs[..n]), size) == Bytes(Gather(area, cs), size)
  {
    GatherLength(area, cs[..n], per);
    assert cs == cs[..n] + cs[n..];
    GatherConcat(area, cs[..n], cs[n..]);
    BytesPrefix(Gather(area, cs[..n]), Gather(area, cs[n..]), size);
  }

  lemma ChainAreaWide(d: Disk, g: Geo, first: nat, cs: seq<nat>)
    requires Formatted(d, g) && Chain(g.kind, d.fat, first) == Some(cs)
    ensures Wide(d.area, cs, g.per)
  {
    if first != 0 { FollowLinked(g.kind, d.fat, first, |d.fat|); }
  }

  // ---------------------------------------------------------------- new directories

  const DIRECTORY: byte := 0x10

  function DotShort(n: nat): (s: Short)
    requires n == 1 || n == 2
  { if n == 1 then [46, 32, 32, 32, 32, 32, 32, 32, 32, 32, 32] else [46, 46, 32, 32, 32, 32, 32, 32, 32, 32, 32] }

  /** The first cluster of a new directory: itself, its parent, and end markers. */
  function DotSlots(cluster: nat, parent: nat, per: nat, kind: Kind): (slots: seq<Slot>)
    requires per >= 2
    ensures |slots| == per
  {
    [ShortSlot(DotShort(1), DIRECTORY, cluster, 0, kind),
      ShortSlot(DotShort(2), DIRECTORY, parent, 0, kind)] + ZeroSlots(per - 2)
  }

  lemma DotAlias(n: nat)
    requires n == 1 || n == 2
    ensures Alias(DotShort(n), 0) == if n == 1 then [46] else [46, 46]
  {
    var s := DotShort(n);
    var a, b := s[..8], s[8..];
    assert Trimmed(a) == n by { assert a[n - 1] == 46; }
    assert Trimmed(b) == 0;
    AliasParts(s);
    assert PartText(a[..n], false) == if n == 1 then [46] else [46, 46];
  }

  ghost predicate EmptyDir(content: Option<seq<Slot>>, kind: Kind)
  {
    content.Some? && Records(content.value, kind) == [] && Tidy(content.value, kind)
  }

  /** `ys` is `xs` and an empty directory of this name. */
  /**
    A dot entry, byte by byte: as many dots and then spaces, the directory attribute, no size, and
    the cluster number, whose upper half exists on FAT32 only.
   */
  ghost predicate DotSlot(e: Slot, dots: nat, number: nat, kind: Kind) {
    && (forall i :: 0 <= i < 11 ==> e[i] == if i < dots then 46 else 32)
    && e[11] == 0x10 && e[28] == 0 && e[29] == 0 && e[30] == 0 && e[31] == 0
    && e[26] as nat + 256 * e[27] as nat
      + (if kind == Fat32 then 0x1_0000 * e[20] as nat + 0x100_0000 * e[21] as nat else 0) == number
  }

  /** The first entry names the directory itself, the second its parent, and a root as 0. */
  ghost predicate DotsOf(slots: seq<Slot>, own: nat, dir: Dir, kind: Kind) {
    && |slots| >= 2 && DotSlot(slots[0], 1, own, kind)
    && DotSlot(slots[1], 2, if dir.FixedRoot? || dir.root then 0 else dir.cluster, kind)
  }

  /** The contents of a new directory at cluster `own` below `dir`. */
  ghost predicate NewDir(content: Option<seq<Slot>>, own: nat, dir: Dir, kind: Kind) {
    EmptyDir(content, kind) && DotsOf(content.value, own, dir, kind)
  }

  lemma DotBytes(n: nat, number: nat, kind: Kind)
    requires (n == 1 || n == 2) && Fits(number, 0, kind)
    ensures DotSlot(ShortSlot(DotShort(n), DIRECTORY, number, 0, kind), n, number, kind)
  {
    var e := ShortSlot(DotShort(n), DIRECTORY, number, 0, kind);
    ShortSlotParts(DotShort(n), DIRECTORY, number, 0, kind);
    forall i | 0 <= i < 11 ensures e[i] == if i < n then 46 else 32 { assert e[..11][i] == e[i]; }
    DivMod(number, 0x1_0000, number / 0x1_0000, number % 0x1_0000);
  }

  /** Below the root of any volume, FAT32 included, the parent's number is 0. */
  lemma RootIsZero(slots: seq<Slot>, own: nat, v: Geometry)
    requires DotsOf(slots, own, RootOf(v), v.kind)
    ensures DotSlot(slots[1], 2, 0, v.kind)
    ensures RootOf(v) == if v.kind == Fat32 then At(v.rootCluster, true) else FixedRoot
  {}

  lemma NewDirDots(own: nat, dir: Dir, per: nat, kind: Kind)
    requires per >= 2 && Fits(own, 0, kind) && (dir.At? ==> Fits(dir.cluster, 0, kind))
    ensures var parent := if dir.FixedRoot? || dir.root then 0 else dir.cluster;
      NewDir(Some(DotSlots(own, parent, per, kind)), own, dir, kind)
  {
    var parent := if dir.FixedRoot? || dir.root then 0 else dir.cluster;
    DotsAreEmpty(own, parent, per, kind);
    DotBytes(1, own, kind);
    DotBytes(2, parent, kind);
  }

  /** The directory has an entry of this name, attribute, first cluster and size. */
  ghost predicate Entered(t: Disk, g: Geo, dir: Dir, name: Name, attr: byte, first: nat, size: nat) {
    var ch := DirChain(g.kind, t.fat, dir);
    ch.Some? && exists k :: EnteredAt(Records(Slots(t, ch.value), g.kind), k, name, attr, first, size)
  }

  ghost predicate EnteredAt(rs: seq<Record>, k: nat, name: Name, attr: byte, first: nat, size: nat) {
    k < |rs| && rs[k].name == name && rs[k].attr == attr && rs[k].cluster == first && rs[k].size == size
  }

  /** The entry that was inserted is read back, with its cluster. */
  lemma InsertEnters(d: Disk, g: Geo, dir: Dir, ch: seq<nat>, foreign: set<nat>, own: set<nat>, cs: seq<nat>, a: nat,
      x: Entry, t: Disk)
    requires Inserts(d, g, dir, ch, foreign, own, cs, a, x) && DirChain(g.kind, t.fat, dir) == Some(ch)
      && Inserting(d, t, ch, a, SlotsOf(x, g.kind), |SlotsOf(x, g.kind)|)
    ensures Entered(t, g, dir, x.name, x.attr, x.first, x.size)
  {
    var w, p, q := InsertedRecords(Slots(d, ch), Slots(t, ch), d, g, cs, own, a, x);
    assert (p + [w] + q)[|p|] == w;
    assert EnteredAt(Records(Slots(t, ch), g.kind), |p|, x.name, x.attr, x.first, x.size);
  }

  /** A directory of this name was made: an entry, and behind it the dot entries and nothing else. */
  ghost predicate DirMade(t: Disk, g: Geo, dir: Dir, name: Name) {
    exists own: nat :: Entered(t, g, dir, name, 0x10, own, 0) && NewDir(Content(t, own, g.kind), own, dir, g.kind)
  }

  lemma DirIsMade(d: Disk, t: Disk, g: Geo, dir: Dir, name: Name, own: set<nat>, c: nat, cs: seq<nat>)
    requires Entered(t, g, dir, name, DIRECTORY, c, 0) && NewDir(Content(d, c, g.kind), c, dir, g.kind)
    requires KeptOn(d, t, own) && Chain(g.kind, d.fat, c) == Some(cs) && forall i :: 0 <= i < |cs| ==> cs[i] in own
    ensures DirMade(t, g, dir, name)
  {
    KeptChain(d, t, own, c, cs, g.kind);
  }

  ghost predicate AddedDir(xs: seq<Item>, ys: seq<Item>, name: Name, dir: Dir, kind: Kind) {
    exists content, own :: Added(xs, ys, name, 0x10, 0, content) && NewDir(content, own, dir, kind)
  }

  lemma DirAdded(xs: seq<Item>, ys: seq<Item>, name: Name, content: Option<seq<Slot>>, own: nat, dir: Dir, kind: Kind)
    requires NewDir(content, own, dir, kind)
    ensures Added(xs, ys, name, DIRECTORY, 0, content) ==> AddedDir(xs, ys, name, dir, kind)
  {}

  /** A new directory is empty and well kept. */
  lemma DotsAreEmpty(cluster: nat, parent: nat, per: nat, kind: Kind)
    requires per >= 2
    ensures EmptyDir(Some(DotSlots(cluster, parent, per, kind)), kind)
  {
    var slots := DotSlots(cluster, parent, per, kind);
    DotHidden(1, cluster, kind);
    DotHidden(2, parent, kind);
    EmptyAfterTwo(slots[0], slots[1], ZeroSlots(per - 2), kind);
  }

  lemma DotHidden(n: nat, cluster: nat, kind: Kind)
    requires n == 1 || n == 2
    ensures Dotted(ShortSlot(DotShort(n), DIRECTORY, cluster, 0, kind))
  {
    ShortSlotParts(DotShort(n), DIRECTORY, cluster, 0, kind);
    DotAlias(n);
  }

  /** A slot in use that reads as no record. */
  ghost predicate Dotted(e: Slot) { e[0] != 0 && IsShort(e) && Hidden(e) }

  lemma EmptyAfterTwo(one: Slot, two: Slot, rest: seq<Slot>, kind: Kind)
    requires Dotted(one) && Dotted(two) && forall i :: 0 <= i < |rest| ==> rest[i][0] == 0
    ensures EmptyDir(Some([one, two] + rest), kind)
  {
    var slots := [one, two] + rest;
    EndIs(slots, 2);
    RecordsRun(slots, kind);
    QuietRun(slots, 0, 2, Idle, kind);
  }
}
