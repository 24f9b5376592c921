/**
  What reading a file by name gives (src/fs/fat.rs, lookup, data), told from the
  items a directory shows, and how it changes when an item is added, replaced or
  removed, in every state of the disk on the way.
 */
module FatReading {
  import opened Base
  import opened FatNames
  import opened FatShort
  import opened FatVolume
  import opened FatCrash

  /** A file that the driver reads: not too large, with a chain that is long enough and not too long. */
  predicate Readable(g: Geo, x: Item) {
    && !IsDir(x.attr) && x.size <= MAX_FILE
    && x.content.Some? && x.size <= 32 * |x.content.value| && |x.content.value| <= Pos(g.fileLimit, g.per)
  }

  function ReadItem(g: Geo, x: Item): (r: Option<seq<byte>>)
  {
    if Readable(g, x) then Some(Bytes(x.content.value, x.size)) else None
  }

  /** The contents of the first item the name means. */
  function Reading(g: Geo, xs: seq<Item>, name: Name): (r: Option<seq<byte>>) {
    if xs == [] then None else if Means(xs[0], name) then ReadItem(g, xs[0]) else Reading(g, xs[1..], name)
  }

  ghost predicate Meant(xs: seq<Item>, q: Name) { exists i :: 0 <= i < |xs| && Means(xs[i], q) }

  /** The driver can load the directory: its chain is whole and within the limit. */
  ghost predicate Loads(d: Disk, g: Geo, dir: Dir) {
    var ch := DirChain(g.kind, d.fat, dir);
    ch.Some? && InLimit(g, dir, ch.value)
  }

  ghost function ItemsAt(d: Disk, g: Geo, dir: Dir): (xs: seq<Item>)
    requires Loads(d, g, dir)
  { Items(d, g, DirChain(g.kind, d.fat, dir).value) }

  /** What a driver that mounts the disk reads. */
  ghost function ReadAt(d: Disk, g: Geo, dir: Dir, name: Name): (r: Option<seq<byte>>) {
    if Loads(d, g, dir) then Reading(g, ItemsAt(d, g, dir), name) else None
  }

  // ---------------------------------------------------------------- lists

  lemma {:induction false} ReadingAt(g: Geo, xs: seq<Item>, q: Name, k: nat)
    requires k < |xs| && Means(xs[k], q) && forall j :: 0 <= j < k ==> !Means(xs[j], q)
    ensures Reading(g, xs, q) == ReadItem(g, xs[k])
    decreases k
  {
    if k > 0 { ReadingAt(g, xs[1..], q, k - 1); }
  }

  lemma {:induction false} ReadingNone(g: Geo, xs: seq<Item>, q: Name)
    requires !Meant(xs, q)
    ensures Reading(g, xs, q) == None
  {
    if xs != [] {
      assert !Means(xs[0], q);
      assert forall i :: 0 <= i < |xs| - 1 ==> xs[1..][i] == xs[i + 1];
      ReadingNone(g, xs[1..], q);
    }
  }

  /** An item the name does not mean makes no difference. */
  lemma {:induction false} ReadingSkip(g: Geo, p: seq<Item>, x: Item, r: seq<Item>, q: Name)
    requires !Means(x, q)
    ensures Reading(g, p + [x] + r, q) == Reading(g, p + r, q)
  {
    if p == [] {
      assert (p + [x] + r)[1..] == r && p + r == r;
    } else {
      ReadingSkip(g, p[1..], x, r, q);
      assert (p + [x] + r)[1..] == p[1..] + [x] + r && (p + r)[1..] == p[1..] + r;
    }
  }

  function RecordOf(x: Item): (r: Record) { Record(x.name, x.alias, x.short, x.attr, 0, x.size, 0, 0) }

  /** In a directory the driver built a name means at most one item. */
  lemma OneMeans(xs: seq<Item>, q: Name, i: nat, j: nat)
    requires Distinct(xs) && i < |xs| && j < |xs| && Means(xs[i], q) && Means(xs[j], q)
    ensures i == j
  {
    var rs := seq(|xs|, k requires 0 <= k < |xs| => RecordOf(xs[k]));
    DistinctRecords(xs, rs);
    LookupUnique(rs, q, i, j);
  }

  lemma ReadingThe(g: Geo, xs: seq<Item>, q: Name, k: nat)
    requires Distinct(xs) && k < |xs| && Means(xs[k], q)
    ensures Reading(g, xs, q) == ReadItem(g, xs[k])
  {
    forall j | 0 <= j < k ensures !Means(xs[j], q) { if Means(xs[j], q) { OneMeans(xs, q, j, k); } }
    ReadingAt(g, xs, q, k);
  }

  lemma HoldsRead(g: Geo, x: Item, data: seq<byte>)
    requires Holds(g, x.content, data) && x.size == |data| && !IsDir(x.attr)
    ensures ReadItem(g, x) == Some(data)
  {}

  // ---------------------------------------------------------------- added, replaced, removed

  /** A new file reads as its data, under its name and its alias; every other name reads as before. */
  lemma AddedRead(g: Geo, xs: seq<Item>, ys: seq<Item>, name: Name, data: seq<byte>, q: Name)
    requires AddedFile(g, xs, ys, name, data)
    ensures Reading(g, ys, name) == Some(data)
    ensures if Meant(xs, q) then Reading(g, ys, q) == Reading(g, xs, q)
      else Reading(g, ys, q) == None || Reading(g, ys, q) == Some(data)
  {
    var content :| Added(xs, ys, name, ARCHIVE, |data|, content) && Holds(g, content, data);
    var k: nat, short: Short :| AddedAt(xs, ys, name, ARCHIVE, |data|, content, k, short);
    var x := ys[k];
    FileRead(g, x, name, data);
    ReadingThe(g, ys, name, k);
    if Means(x, q) {
      ReadingThe(g, ys, q, k);
      NotMeant(xs, x, k, q);
    } else {
      assert ys == xs[..k] + [x] + xs[k..];
      ReadingSkip(g, xs[..k], x, xs[k..], q);
      SplitAt(xs, k);
      if !Meant(xs, q) { ReadingNone(g, xs, q); }
    }
  }

  ghost predicate IsFile(g: Geo, x: Item, name: Name, data: seq<byte>) {
    x.name == name && x.size == |data| && x.attr == ARCHIVE && Holds(g, x.content, data)
  }

  lemma FileRead(g: Geo, x: Item, name: Name, data: seq<byte>)
    requires IsFile(g, x, name, data)
    ensures Means(x, name) && ReadItem(g, x) == Some(data)
  {
    HoldsRead(g, x, data);
  }

  /** What the new item means, no old item did. */
  lemma NotMeant(xs: seq<Item>, x: Item, k: nat, q: Name)
    requires k <= |xs| && Distinct(WithItem(xs, k, x)) && Means(x, q)
    ensures !Meant(xs, q)
  {
    var ys := WithItem(xs, k, x);
    if Meant(xs, q) {
      var i :| 0 <= i < |xs| && Means(xs[i], q);
      var j := if i < k then i else i + 1;
      assert ys[j] == xs[i] && ys[k] == x;
      OneMeans(ys, q, j, k);
    }
  }

  lemma AddedMore(g: Geo, xs: seq<Item>, ys: seq<Item>, name: Name, data: seq<byte>)
    ensures AddedFile(g, xs, ys, name, data) ==> |ys| == |xs| + 1
  {}

  lemma SameNames(xs: seq<Item>, ys: seq<Item>)
    requires |xs| == |ys| && forall i :: 0 <= i < |xs| ==>
      xs[i].name == ys[i].name && xs[i].alias == ys[i].alias && xs[i].short == ys[i].short
    ensures Distinct(xs) <==> Distinct(ys)
  {
    var rs := seq(|xs|, k requires 0 <= k < |xs| => RecordOf(xs[k]));
    DistinctRecords(xs, rs);
    DistinctRecords(ys, rs);
  }

  lemma {:induction false} ReadingElse(g: Geo, xs: seq<Item>, ys: seq<Item>, k: nat, q: Name)
    requires k < |xs| == |ys| && ys == xs[k := ys[k]] && !Means(xs[k], q) && !Means(ys[k], q)
    ensures Reading(g, ys, q) == Reading(g, xs, q)
  {
    SplitAt3(xs, k);
    SplitAt3(ys, k);
    assert ys[..k] == xs[..k] && ys[k + 1..] == xs[k + 1..];
    ReadingSkip(g, xs[..k], xs[k], xs[k + 1..], q);
    ReadingSkip(g, xs[..k], ys[k], xs[k + 1..], q);
  }

  lemma SplitAt3<T>(xs: seq<T>, k: nat)
    requires k < |xs|
    ensures xs == xs[..k] + [xs[k]] + xs[k + 1..]
  {}

  /** A replaced file reads as the new data, under each of its names; every other name reads as before. */
  lemma ReplacedRead(g: Geo, xs: seq<Item>, ys: seq<Item>, k: nat, data: seq<byte>, q: Name)
    requires Distinct(xs) && Replaced1(g, xs, ys, k, data)
    ensures Reading(g, ys, q) == if Means(xs[k], q) then Some(data) else Reading(g, xs, q)
  {
    SameNames(xs, ys);
    if Means(xs[k], q) {
      ReadingThe(g, ys, q, k);
      HoldsRead(g, ys[k], data);
    } else {
      ReadingElse(g, xs, ys, k, q);
    }
  }

  /** A removed item reads no more, under any of its names; every other name reads as before. */
  lemma WithoutRead(g: Geo, xs: seq<Item>, k: nat, q: Name)
    requires Distinct(xs) && k < |xs|
    ensures Reading(g, Without(xs, k), q) == if Means(xs[k], q) then None else Reading(g, xs, q)
  {
    if Means(xs[k], q) {
      OnlyOne(xs, k, q);
      ReadingNone(g, Without(xs, k), q);
    } else {
      SplitAt3(xs, k);
      ReadingSkip(g, xs[..k], xs[k], xs[k + 1..], q);
    }
  }

  lemma OnlyOne(xs: seq<Item>, k: nat, q: Name)
    requires Distinct(xs) && k < |xs| && Means(xs[k], q)
    ensures !Meant(Without(xs, k), q)
  {
    forall j | 0 <= j < |xs| && j != k ensures !Means(xs[j], q) { if Means(xs[j], q) { OneMeans(xs, q, j, k); } }
    NoneLeft(x => Means(x, q), xs, k, Without(xs, k));
  }

  lemma NoneLeft<T>(means: T -> bool, xs: seq<T>, k: nat, ys: seq<T>)
    requires k < |xs| && ys == xs[..k] + xs[k + 1..] && forall j :: 0 <= j < |xs| && j != k ==> !means(xs[j])
    ensures forall i :: 0 <= i < |ys| ==> !means(ys[i])
  {
    forall i | 0 <= i < |ys| ensures !means(ys[i]) { assert ys[i] == xs[if i < k then i else i + 1]; }
  }

  /** An item left with its alias alone reads as before by its alias and not at all by its name. */
  lemma AliasedRead(g: Geo, xs: seq<Item>, k: nat, q: Name)
    requires Distinct(xs) && k < |xs|
    ensures Reading(g, Aliased(xs, k), q) == if Means(xs[k], q)
      && !Same(xs[k].alias, q) then None else Reading(g, xs, q)
  {
    var ys := Aliased(xs, k);
    if !Means(xs[k], q) {
      ReadingElse(g, xs, ys, k, q);
    } else if Same(xs[k].alias, q) {
      forall j | 0 <= j < k
        ensures !Means(ys[j], q) && !Means(xs[j], q)
      {
        if Means(xs[j], q) { OneMeans(xs, q, j, k); }
      }
      ReadingAt(g, xs, q, k);
      ReadingAt(g, ys, q, k);
    } else {
      forall j | 0 <= j < |ys| ensures !Means(ys[j], q) { if j != k && Means(xs[j], q) { OneMeans(xs, q, j, k); } }
      ReadingNone(g, ys, q);
    }
  }

  // ---------------------------------------------------------------- power cuts

  lemma ShownRead(t: Disk, g: Geo, dir: Dir, foreign: set<nat>, xs: seq<Item>, q: Name)
    requires Showing(t, g, dir, foreign, xs)
    ensures Loads(t, g, dir) && ItemsAt(t, g, dir) == xs && ReadAt(t, g, dir, q) == Reading(g, xs, q)
  {}

  /**
    Power fails while a file is created: a driver that mounts the disk reads every
    name that meant something as before, and the new file not at all or completely.
   */
  lemma CutCreate(t: Disk, g: Geo, dir: Dir, foreign: set<nat>, xs: seq<Item>, ys: seq<Item>, name: Name,
      data: seq<byte>, q: Name)
    requires Showing(t, g, dir, foreign, xs) || Showing(t, g, dir, foreign, ys)
    requires ys == xs || AddedFile(g, xs, ys, name, data)
    ensures if Meant(xs, q) then ReadAt(t, g, dir, q) == Reading(g, xs, q)
      else ReadAt(t, g, dir, q) == None || ReadAt(t, g, dir, q) == Some(data)
  {
    if Showing(t, g, dir, foreign, xs) || ys == xs {
      ShownRead(t, g, dir, foreign, xs, q);
      if !Meant(xs, q) { ReadingNone(g, xs, q); }
    } else {
      ShownRead(t, g, dir, foreign, ys, q);
      AddedRead(g, xs, ys, name, data, q);
    }
  }

  /**
    Power fails while a file is replaced: it reads as its old contents or as its new ones,
    everything else as before.
   */
  lemma CutReplace(t: Disk, g: Geo, dir: Dir, foreign: set<nat>, xs: seq<Item>, ys: seq<Item>, k: nat, data: seq<byte>,
      q: Name)
    requires Showing(t, g, dir, foreign, xs) || Showing(t, g, dir, foreign, ys)
    requires Distinct(xs) && (ys == xs || Replaced1(g, xs, ys, k, data))
    ensures ReadAt(t, g, dir, q) == Reading(g, xs, q)
      || (k < |xs| && Means(xs[k], q) && ReadAt(t, g, dir, q) == Some(data))
  {
    if Showing(t, g, dir, foreign, xs) || ys == xs {
      ShownRead(t, g, dir, foreign, xs, q);
    } else {
      ShownRead(t, g, dir, foreign, ys, q);
      ReplacedRead(g, xs, ys, k, data, q);
    }
  }

  /** Power fails while an item is deleted: it reads as before or not at all, everything else as before. */
  lemma CutDelete(t: Disk, g: Geo, dir: Dir, foreign: set<nat>, xs: seq<Item>, k: nat, q: Name)
    requires Distinct(xs) && k < |xs| && Deleting(t, g, dir, foreign, xs, k)
    ensures ReadAt(t, g, dir, q) == Reading(g, xs, q) || (Means(xs[k], q) && ReadAt(t, g, dir, q) == None)
  {
    if Showing(t, g, dir, foreign, xs) {
      ShownRead(t, g, dir, foreign, xs, q);
    } else if Showing(t, g, dir, foreign, Aliased(xs, k)) {
      ShownRead(t, g, dir, foreign, Aliased(xs, k), q);
      AliasedRead(g, xs, k, q);
    } else {
      ShownRead(t, g, dir, foreign, Without(xs, k), q);
      WithoutRead(g, xs, k, q);
    }
  }

  /**
    What a driver that mounts `t` reads under the name `q`, when power failed while a file with
    this data was being created.
   */
  ghost predicate CreateCutAt(d: Disk, t: Disk, g: Geo, dir: Dir, xs: seq<Item>, data: seq<byte>, q: Name) {
    if Meant(xs, q) then ReadAt(t, g, dir, q) == ReadAt(d, g, dir, q)
    else ReadAt(t, g, dir, q) == None || ReadAt(t, g, dir, q) == Some(data)
  }

  /** The same in every state since `start`, and for every name. */
  ghost predicate CreateCuts(start: seq<Disk>, trace: seq<Disk>, d: Disk, g: Geo, dir: Dir, xs: seq<Item>,
      data: seq<byte>) {
    |start| <= |trace| && forall i, q :: |start| <= i < |trace| ==> CreateCutAt(d, trace[i], g, dir, xs, data, q)
  }

  lemma CutsCreate(start: seq<Disk>, trace: seq<Disk>, d: Disk, g: Geo, dir: Dir, foreign: set<nat>, xs: seq<Item>,
      ys: seq<Item>, name: Name, data: seq<byte>)
    requires Loads(d, g, dir) && ItemsAt(d, g, dir) == xs && (ys == xs || AddedFile(g, xs, ys, name, data))
      && TraceEither(start, trace, g, dir, foreign, xs, ys)
    ensures CreateCuts(start, trace, d, g, dir, xs, data)
  {
    forall i, q | |start| <= i < |trace| ensures CreateCutAt(d, trace[i], g, dir, xs, data, q) {
      CutCreate(trace[i], g, dir, foreign, xs, ys, name, data, q);
    }
  }

  /** The two names mean one item. */
  ghost predicate SameItem(xs: seq<Item>, name: Name, q: Name)
  {
    exists k :: 0 <= k < |xs| && Means(xs[k], name) && Means(xs[k], q)
  }

  /** Every name of the item that `name` means reads as before or as `new`, every other name as before. */
  ghost predicate ChangeCutAt(d: Disk, t: Disk, g: Geo, dir: Dir, xs: seq<Item>, name: Name, new_: Option<seq<byte>>,
      q: Name) {
    ReadAt(t, g, dir, q) == ReadAt(d, g, dir, q) || (SameItem(xs, name, q) && ReadAt(t, g, dir, q) == new_)
  }

  ghost predicate ChangeCuts(start: seq<Disk>, trace: seq<Disk>, d: Disk, g: Geo, dir: Dir, xs: seq<Item>, name: Name,
      new_: Option<seq<byte>>) {
    |start| <= |trace| && forall i, q :: |start| <= i < |trace| ==> ChangeCutAt(d, trace[i], g, dir, xs, name, new_, q)
  }

  lemma CutsReplace(start: seq<Disk>, trace: seq<Disk>, d: Disk, g: Geo, dir: Dir, foreign: set<nat>, xs: seq<Item>,
      ys: seq<Item>, k: nat, name: Name, data: seq<byte>)
    requires Loads(d, g, dir) && ItemsAt(d, g, dir) == xs && Distinct(xs)
      && TraceEither(start, trace, g, dir, foreign, xs, ys)
    requires ys == xs || (Replaced1(g, xs, ys, k, data) && Means(xs[k], name))
    ensures ChangeCuts(start, trace, d, g, dir, xs, name, Some(data))
  {
    forall i, q | |start| <= i < |trace| ensures ChangeCutAt(d, trace[i], g, dir, xs, name, Some(data), q) {
      if ys == xs { ShownRead(trace[i], g, dir, foreign, xs, q); }
        else { CutReplace(trace[i], g, dir, foreign, xs, ys, k, data, q); }
    }
  }

  lemma CutsDelete(start: seq<Disk>, trace: seq<Disk>, d: Disk, g: Geo, dir: Dir, foreign: set<nat>, xs: seq<Item>,
      k: nat, name: Name)
    requires Loads(d, g, dir) && ItemsAt(d, g, dir) == xs && Distinct(xs) && k < |xs| && Means(xs[k], name)
      && TraceDeleting(start, trace, g, dir, foreign, xs, k)
    ensures ChangeCuts(start, trace, d, g, dir, xs, name, None)
  {
    forall i, q | |start| <= i < |trace|
      ensures ChangeCutAt(d, trace[i], g, dir, xs, name, None, q)
    {
      CutDelete(trace[i], g, dir, foreign, xs, k, q);
    }
  }
}
