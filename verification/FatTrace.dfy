/**
  What the driver's loops keep while they work on the table, on clusters and on
  directory sectors (src/fs/fat.rs, chain, allocate, free, write_cluster,
  store_dir), stated of the disk states they pass through.
 */
module FatTrace {
  import opened Base
  import opened FatTable
  import opened FatNames
  import opened FatVolume

  ghost function Zeros(fat: seq<nat>): (s: set<nat>) { set c | 2 <= c < |fat| && fat[c] == 0 }

  ghost function ZerosBelow(fat: seq<nat>, n: nat): (s: set<nat>) { set c | 2 <= c < n && c < |fat| && fat[c] == 0 }

  lemma ZerosFreed(fat: seq<nat>, c: nat)
    requires 2 <= c < |fat| && fat[c] != 0
    ensures Zeros(fat[c := 0]) == Zeros(fat) + {c} && |Zeros(fat[c := 0])| == |Zeros(fat)| + 1
  {}

  /** The table has changed at most at the clusters `cs`. */
  ghost predicate FatOnly(fat: seq<nat>, fat': seq<nat>, cs: set<nat>)
  {
    |fat'| == |fat| && forall c :: 0 <= c < |fat| && c !in cs ==> fat'[c] == fat[c]
  }

  lemma FatOnlyThen(a: seq<nat>, b: seq<nat>, c: seq<nat>, first: set<nat>, second: set<nat>, cs: set<nat>)
    requires FatOnly(a, b, first) && FatOnly(b, c, second) && first <= cs && second <= cs
    ensures FatOnly(a, c, cs)
  {}

  /** No cluster has become free. */
  ghost predicate FewerFree(fat: seq<nat>, fat': seq<nat>)
  {
    |fat'| == |fat| && forall c :: 2 <= c < |fat| && fat'[c] == 0 ==> fat[c] == 0
  }

  lemma TakenFewer(d: Disk, t: Disk, off: set<nat>)
    requires OffOnly(d, t, off) && forall c :: c in off ==> 2 <= c < |t.fat| && t.fat[c] != 0
    ensures FewerFree(d.fat, t.fat)
  {}

  /** The disk states after the first `n` differ from `d` in the clusters `off` only. */
  ghost predicate NewOff(trace: seq<Disk>, n: nat, d: Disk, off: set<nat>)
  {
    forall i :: n <= i < |trace| ==> OffOnly(d, trace[i], off)
  }

  function Successor(kind: Kind, cs: seq<nat>, i: nat): (v: nat) { if i + 1 < |cs| then cs[i + 1] else Eof(kind) }

  /** `cs` linked one to the next up to number `k`, the rest still free. */
  ghost predicate PartLinked(kind: Kind, fat: seq<nat>, fat': seq<nat>, cs: seq<nat>, k: nat) {
    && k <= |cs| && |fat'| == |fat| && (forall i :: 0 <= i < |cs| ==> cs[i] < |fat|)
    && (forall i {:trigger fat'[cs[i]]} :: 0 <= i < k ==> fat'[cs[i]] == Successor(kind, cs, i))
    && (forall i {:trigger fat'[cs[i]]} :: k <= i < |cs| ==> fat'[cs[i]] == 0)
  }

  ghost function Follower(out: seq<nat>, c: nat, i: nat): (v: nat) { if i + 1 < |out| then out[i + 1] else c }

  /** `out` is what following from `first` has passed, and `c` comes next. */
  ghost predicate Path(kind: Kind, fat: seq<nat>, first: nat, out: seq<nat>, c: nat) {
    && NoDup(out) && (forall i :: 0 <= i < |out| ==> 2 <= out[i] < |fat| && !IsEof(kind, fat[out[i]]))
    && (forall i {:trigger fat[out[i]]} :: 0 <= i < |out| ==> fat[out[i]] == Follower(out, c, i))
    && first == if out == [] then c else out[0]
  }

  lemma {:induction false} PathPrefix(kind: Kind, fat: seq<nat>, first: nat, out: seq<nat>, c: nat, cs: seq<nat>,
      i: nat)
    requires Path(kind, fat, first, out, c) && Linked(kind, fat, cs) && cs[0] == first && i <= |out|
    ensures i < |cs| && cs[i] == if i < |out| then out[i] else c
  {
    if i > 0 { PathPrefix(kind, fat, first, out, c, cs, i - 1); }
  }

  lemma PathStuck(kind: Kind, fat: seq<nat>, first: nat, out: seq<nat>, c: nat, max: nat)
    requires Path(kind, fat, first, out, c) && first != 0 && (c < 2 || c >= |fat| || |out| >= max || c in out)
    ensures match Chain(kind, fat, first) case None => true case Some(cs) => |cs| > max
  {
    var r := Chain(kind, fat, first);
    if r.Some? {
      var cs := r.value;
      FollowLinked(kind, fat, first, |fat|);
      PathPrefix(kind, fat, first, out, c, cs, |out|);
      if c in out {
        var k :| 0 <= k < |out| && out[k] == c;
        PathPrefix(kind, fat, first, out, c, cs, k);
        LinkedDistinct(kind, fat, cs, k, |out|);
      }
    }
  }

  lemma PathLonger(fat: seq<nat>, out: seq<nat>, c: nat)
    requires NoDup(out) && (forall i :: 0 <= i < |out| ==> out[i] < |fat|) && c < |fat| && c !in out
    ensures NoDup(out + [c]) && |out| < |fat|
  {
    NoDupShort(out + [c], |fat|);
  }

  lemma PathAt(kind: Kind, fat: seq<nat>, first: nat, out: seq<nat>, c: nat, i: nat)
    requires Path(kind, fat, first, out, c) && i < |out|
    ensures 2 <= (out + [c])[i] < |fat| && fat[(out + [c])[i]] == (out + [c])[i + 1]
      && !IsEof(kind, fat[(out + [c])[i]])
  {
    assert fat[out[i]] == Follower(out, c, i);
  }

  lemma PathStep(kind: Kind, fat: seq<nat>, first: nat, out: seq<nat>, c: nat)
    requires Path(kind, fat, first, out, c) && 2 <= c < |fat| && c !in out
    ensures |out| < |fat| && first == (out + [c])[0]
    ensures if IsEof(kind, fat[c]) then Linked(kind, fat, out + [c]) else Path(kind, fat, first, out + [c], fat[c])
  {
    PathLonger(fat, out, c);
    forall i | 0 <= i < |out|
      ensures 2 <= (out + [c])[i] < |fat| && fat[(out + [c])[i]] == (out + [c])[i + 1]
        && !IsEof(kind, fat[(out + [c])[i]])
    {
      PathAt(kind, fat, first, out, c, i);
    }
  }

  /** A chain of at most `max` clusters, or nothing. */
  ghost function ChainUpTo(kind: Kind, fat: seq<nat>, first: nat, max: nat): (r: Option<seq<nat>>) {
    match Chain(kind, fat, first) case None => None case Some(cs) => if |cs| <= max then Some(cs) else None
  }

  /** The free clusters among `cs`, in order. */
  ghost function Frees(fat: seq<nat>, cs: seq<nat>): (r: seq<nat>)
    requires forall i :: 0 <= i < |cs| ==> cs[i] < |fat|
    ensures |r| <= |cs|
  {
    if cs == [] then [] else Frees(fat, cs[..|cs| - 1]) + if fat[cs[|cs| - 1]] == 0 then [cs[|cs| - 1]] else []
  }

  /** The free ones among the first `o` of the clusters `cs`. */
  ghost predicate Picked(fat: seq<nat>, cs: seq<nat>, o: nat, sel: seq<nat>) {
    o <= |cs| && (forall i :: 0 <= i < |cs| ==> cs[i] < |fat|) && sel == Frees(fat, cs[..o])
  }

  lemma PickedNone(fat: seq<nat>, cs: seq<nat>)
    requires forall i :: 0 <= i < |cs| ==> cs[i] < |fat|
    ensures Picked(fat, cs, 0, [])
  {}

  lemma PickedNext(fat: seq<nat>, cs: seq<nat>, o: nat, sel: seq<nat>)
    requires o < |cs| && Picked(fat, cs, o, sel)
    ensures cs[o] < |fat| && Picked(fat, cs, o + 1, if fat[cs[o]] == 0 then sel + [cs[o]] else sel)
  {
    assert cs[..o + 1][..o] == cs[..o];
  }

  lemma {:induction false} FreesMembers(fat: seq<nat>, cs: seq<nat>)
    requires NoDup(cs) && forall i :: 0 <= i < |cs| ==> cs[i] < |fat|
    ensures forall c :: c in Frees(fat, cs) <==> c in cs && fat[c] == 0
    ensures NoDup(Frees(fat, cs))
  {
    if cs != [] {
      var init, c := cs[..|cs| - 1], cs[|cs| - 1];
      FreesMembers(fat, init);
      assert cs == init + [c] && c !in init;
    }
  }

  /** Every cluster once, in the order the allocator looks at them. */
  ghost predicate Round(order: seq<nat>, n: nat) {
    |order| == n && NoDup(order) && (forall i :: 0 <= i < n ==> 2 <= order[i] < n + 2) && forall c :: 2 <= c < n + 2 ==>
      c in order
  }

  /** The clusters from the hint to the last, then those before the hint. */
  ghost function Order(hint: nat, n: nat): (order: seq<nat>)
    requires 2 <= hint < n + 2
    ensures |order| == n && forall i :: 0 <= i < n ==> 2 <= order[i] < n + 2
  { seq(n, o => if hint + o < n + 2 then hint + o else hint + o - n) }

  lemma OrderRound(hint: nat, n: nat)
    requires 2 <= hint < n + 2
    ensures Round(Order(hint, n), n)
  {
    forall c | 2 <= c < n + 2 ensures c in Order(hint, n) {
      assert Order(hint, n)[if c >= hint then c - hint else c - hint + n] == c;
    }
  }

  lemma OrderAt(hint: nat, n: nat, o: nat)
    requires 2 <= hint < n + 2 && o < n
    ensures 2 + (hint - 2 + o) % n == Order(hint, n)[o]
  {
    var x := hint - 2 + o;
    if x < n { DivMod(x, n, 0, x); } else { DivMod(x, n, 1, x - n); }
  }

  lemma FreesOf(fat: seq<nat>, cs: seq<nat>, sel: seq<nat>)
    requires NoDup(cs) && (forall i :: 0 <= i < |cs| ==> 2 <= cs[i] < |fat|) && sel == Frees(fat, cs)
    ensures NoDup(sel) && forall i :: 0 <= i < |sel| ==> 2 <= sel[i] < |fat| && fat[sel[i]] == 0
  {
    FreesMembers(fat, cs);
    forall i | 0 <= i < |sel| ensures 2 <= sel[i] < |fat| && fat[sel[i]] == 0 { assert sel[i] in sel; }
  }

  lemma FreesWhole(fat: seq<nat>, order: seq<nat>, sel: seq<nat>)
    requires |fat| > 2 && Round(order, |fat| - 2) && sel == Frees(fat, order)
    ensures |sel| == |Zeros(fat)|
  {
    FreesMembers(fat, order);
    MembersSize(sel);
    assert Zeros(fat) == Members(sel);
  }

  /** The free clusters among the first `o` looked at. */
  lemma SelectDone(fat: seq<nat>, order: seq<nat>, o: nat, sel: seq<nat>)
    requires |fat| > 2 && Round(order, |fat| - 2) && Picked(fat, order, o, sel)
    ensures NoDup(sel) && forall i :: 0 <= i < |sel| ==> 2 <= sel[i] < |fat| && fat[sel[i]] == 0
    ensures o == |order| ==> |sel| == |Zeros(fat)|
  {
    FreesOf(fat, order[..o], sel);
    if o == |order| {
      assert order[..o] == order;
      FreesWhole(fat, order, sel);
    }
  }

  lemma {:induction false} MembersSize(cs: seq<nat>)
    requires NoDup(cs)
    ensures |Members(cs)| == |cs|
  {
    if cs != [] {
      var init, c := cs[..|cs| - 1], cs[|cs| - 1];
      MembersSize(init);
      assert cs == init + [c];
      assert Members(cs) == Members(init) + {c};
      assert c !in init;
    }
  }

  /** Linking the next cluster of a new chain. */
  lemma LinkStep(kind: Kind, fat: seq<nat>, fat': seq<nat>, cs: seq<nat>, k: nat)
    requires NoDup(cs) && k < |cs| && PartLinked(kind, fat, fat', cs, k)
    ensures PartLinked(kind, fat, fat'[cs[k] := Successor(kind, cs, k)], cs, k + 1)
  {}

  lemma LinkDone(kind: Kind, fat: seq<nat>, fat': seq<nat>, cs: seq<nat>)
    requires cs != [] && PartLinked(kind, fat, fat', cs, |cs|) && |fat| <= Eof(kind) - 7
      && forall i :: 0 <= i < |cs| ==> cs[i] >= 2
    ensures Linked(kind, fat', cs)
  {
    forall i | 0 <= i < |cs| ensures fat'[cs[i]] == Successor(kind, cs, i) && cs[i] < |fat| { }
    forall i | 0 <= i < |cs| - 1
      ensures fat'[cs[i]] == cs[i + 1] && !IsEof(kind, fat'[cs[i]])
    {
      assert cs[i + 1] < |fat|;
    }
    assert fat'[cs[|cs| - 1]] == Successor(kind, cs, |cs| - 1);
  }

  lemma {:induction false} ZerosLinked(kind: Kind, fat: seq<nat>, fat': seq<nat>, cs: seq<nat>)
    requires NoDup(cs) && PartLinked(kind, fat, fat', cs, |cs|) && forall i :: 0 <= i < |cs| ==>
      cs[i] >= 2 && fat[cs[i]] == 0
    requires forall c :: 0 <= c < |fat| && c !in Members(cs) ==> fat'[c] == fat[c]
    ensures |Zeros(fat')| == |Zeros(fat)| - |cs| && forall c :: c in Members(cs) ==> fat'[c] != 0
  {
    MembersSize(cs);
    forall i | 0 <= i < |cs|
      ensures fat'[cs[i]] != 0 && cs[i] in Zeros(fat)
    {
      assert fat'[cs[i]] == Successor(kind, cs, i);
    }
    assert Members(cs) <= Zeros(fat);
    assert Zeros(fat') == Zeros(fat) - Members(cs);
  }

  lemma OffEntry(d: Disk, d': Disk, off: set<nat>, c: nat, v: nat)
    requires OffOnly(d, d', off) && c in off && c < |d'.fat|
    ensures OffOnly(d, d'.(fat := d'.fat[c := v]), off)
  {}

  lemma OffArea(d: Disk, d': Disk, off: set<nat>, c: nat, x: seq<Slot>)
    requires OffOnly(d, d', off) && c in off && c < |d'.area| && |x| == |d'.area[c]|
    ensures OffOnly(d, d'.(area := d'.area[c := x]), off)
  {}

  lemma SpliceNext(x: seq<Slot>, data: seq<Slot>, a: nat, b: nat)
    requires a <= b <= |data| == |x|
    ensures Splice(Splice(x, 0, data[..a]), a, data[a..b]) == Splice(x, 0, data[..b])
  {}

  lemma MembersAll(cs: seq<nat>, off: set<nat>)
    requires off == Members(cs)
    ensures forall i :: 0 <= i < |cs| ==> cs[i] in off
  {}

  /** The states since `start` differ from `d` in `off` only. */
  ghost predicate TraceOff(start: seq<Disk>, trace: seq<Disk>, d: Disk, off: set<nat>) {
    |start| <= |trace| && trace[..|start|] == start && NewOff(trace, |start|, d, off)
  }

  lemma TraceOffStep(start: seq<Disk>, trace: seq<Disk>, d: Disk, off: set<nat>, d': Disk)
    requires TraceOff(start, trace, d, off) && OffOnly(d, d', off)
    ensures TraceOff(start, trace + [d'], d, off)
  {}

  // ---------------------------------------------------------------- table entries on disk

  /** Entry `c` of `d` set to `v`, or half set because it lies in two sectors. */
  ghost predicate Setting(kind: Kind, d: Disk, c: nat, v: nat, t: Disk) {
    && c < |d.fat|
    && (t == d.(fat := d.fat[c := v]) || (Straddles(kind, c) && t == d.(fat := d.fat[c := Torn(c, d.fat[c], v)])))
  }

  /** The states since `start` are those of a write to entry `c` of `d`, and `t` is the last of them. */
  ghost predicate TraceSetting(start: seq<Disk>, trace: seq<Disk>, kind: Kind, d: Disk, c: nat, v: nat, t: Disk) {
    && |start| <= |trace| && trace[..|start|] == start && trace != [] && trace[|trace| - 1] == t
    && (|trace| == |start| ==> t == d) && forall i :: |start| <= i < |trace| ==> Setting(kind, d, c, v, trace[i])
  }

  lemma TraceSettingStep(start: seq<Disk>, trace: seq<Disk>, kind: Kind, d: Disk, c: nat, v: nat, t: Disk, t': Disk)
    requires TraceSetting(start, trace, kind, d, c, v, t) && Setting(kind, d, c, v, t')
    ensures TraceSetting(start, trace + [t'], kind, d, c, v, t')
  {}

  /** Whatever is written to an entry of `off`, only `off` differs. */
  lemma SettingOff(kind: Kind, d0: Disk, d: Disk, off: set<nat>, c: nat, v: nat, t: Disk)
    requires OffOnly(d0, d, off) && c in off && Setting(kind, d, c, v, t)
    ensures OffOnly(d0, t, off) && t.area == d.area
  {
    OffEntry(d0, d, off, c, v);
    OffEntry(d0, d, off, c, Torn(c, d.fat[c], v));
  }

  lemma TraceSettingOff(start: seq<Disk>, before: seq<Disk>, trace: seq<Disk>, kind: Kind, d0: Disk, d: Disk,
      off: set<nat>, c: nat, v: nat, t: Disk)
    requires TraceOff(start, before, d0, off) && OffOnly(d0, d, off) && c in off
      && TraceSetting(before, trace, kind, d, c, v, t)
    ensures TraceOff(start, trace, d0, off) && OffOnly(d0, t, off) && t.area == d.area
  {
    forall i | |before| <= i < |trace|
      ensures OffOnly(d0, trace[i], off) && trace[i].area == d.area
    {
      SettingOff(kind, d0, d, off, c, v, trace[i]);
    }
    forall i | |start| <= i < |before| ensures OffOnly(d0, trace[i], off) { assert trace[i] == before[i]; }
    assert trace[..|start|] == trace[..|before|][..|start|];
  }

  ghost predicate Freed(fat: seq<nat>, cs: seq<nat>) { forall i :: 0 <= i < |cs| ==> cs[i] < |fat| && fat[cs[i]] == 0 }

  lemma Rounded(len: nat, per: nat, count: nat)
    requires per >= 16 && count == (len + 32 * per - 1) / (32 * per)
    ensures len <= 32 * Pos(count, per) && (count > 0 ==> 32 * Pos(count - 1, per) < len)
  {
    var b, x := 32 * per, len + 32 * per - 1;
    assert x == b * count + x % b;
    PosIs(count, per);
    assert 32 * Pos(count, per) == b * count;
    if count > 0 {
      PosIs(count - 1, per);
      assert 32 * Pos(count - 1, per) == b * (count - 1) == b * count - b;
    }
  }

  lemma PackedNext(area: seq<seq<Slot>>, cs: seq<nat>, i: nat, per: nat, data: seq<byte>)
    requires NoDup(cs) && i < |cs| && cs[i] < |area| && Packed(area, cs[..i], per, data, 0)
    ensures Packed(area[cs[i] := Pack(data, Pos(i, per), per)], cs[..i + 1], per, data, 0)
  {
    var area' := area[cs[i] := Pack(data, Pos(i, per), per)];
    forall j | 0 <= j < i + 1 ensures cs[j] < |area'| && area'[cs[j]] == Pack(data, 0 + Pos(j, per), per) {
      assert j < i ==> cs[..i][j] == cs[j];
    }
  }

  // ---------------------------------------------------------------- directories on disk

  /** Slots of an image written up to `b`. */
  ghost predicate Mixed(old_: seq<Slot>, data: seq<Slot>, b: nat, now: seq<Slot>) {
    |old_| == |data| == |now| && forall i :: 0 <= i < |data| ==> now[i] == if i < b then data[i] else old_[i]
  }

  /** The disk with the image `data` partly written to the directory. */
  ghost predicate Storing(d: Disk, t: Disk, ch: seq<nat>, data: seq<Slot>) {
    t.fat == d.fat && OffOnly(d, t, Members(ch)) && exists b :: Mixed(Slots(d, ch), data, b, Slots(t, ch))
  }

  ghost predicate TraceStoring(start: seq<Disk>, trace: seq<Disk>, d: Disk, ch: seq<nat>, data: seq<Slot>) {
    |start| <= |trace| && trace[..|start|] == start && forall i :: |start| <= i < |trace| ==>
      Storing(d, trace[i], ch, data)
  }

  function DirWidth(g: Geo, dir: Dir): (w: nat) { if dir.FixedRoot? then g.rootSlots else g.per }

  lemma {:induction false} PosMono(a: nat, b: nat, width: nat)
    requires a <= b
    ensures Pos(a, width) <= Pos(b, width)
  {
    if a < b { PosMono(a, b - 1, width); }
  }

  /** Where sector `index` of a chain's contents lies. */
  lemma SectorAt(index: nat, m: nat, per: nat, begin: nat)
    requires m > 0 && per == 16 * m && begin == 16 * index
    ensures begin / per == index / m && begin % per == 16 * (index % m)
  {
    var q, r := index / m, index % m;
    assert begin == per * q + 16 * r by {
      assert index == m * q + r;
      assert 16 * (m * q) == per * q;
    }
    DivMod(begin, per, q, 16 * r);
  }

  lemma SectorPos(index: nat, m: nat, per: nat, q: nat, r: nat)
    requires m > 0 && per == 16 * m && q == index / m && r == index % m
    ensures Pos(q, per) + 16 * r == 16 * index && 16 * r + 16 <= per
  {
    assert index == m * q + r;
    PosIs(q, per);
    assert q * per == 16 * (m * q);
  }

  lemma ChainWide(d: Disk, g: Geo, dir: Dir, ch: seq<nat>)
    requires Formatted(d, g) && DirChain(g.kind, d.fat, dir) == Some(ch)
    ensures NoDup(ch) && Wide(d.area, ch, DirWidth(g, dir)) && ch != [] && |Slots(d, ch)| == Pos(|ch|, DirWidth(g, dir))
    ensures forall i :: 0 <= i < |ch| ==> 1 <= ch[i] < |d.area|
  {
    if dir.At? {
      FollowLinked(g.kind, d.fat, dir.cluster, |d.fat|);
      LinkedChain(g.kind, d.fat, ch);
    }
    GatherLength(d.area, ch, DirWidth(g, dir));
  }

  lemma MixedNext(old_: seq<Slot>, data: seq<Slot>, a: nat, b: nat, now: seq<Slot>)
    requires a <= b <= |data| && Mixed(old_, data, a, now)
    ensures Mixed(old_, data, b, Splice(now, a, data[a..b]))
  {}

  /** One sector of the image written. */
  lemma StoreStep(d: Disk, t: Disk, ch: seq<nat>, width: nat, data: seq<Slot>, q: nat, off: nat, a: nat, b: nat,
      t': Disk)
    requires NoDup(ch) && Wide(t.area, ch, width) && q < |ch| && ch[q] < |t.area| && a <= b <= |data|
      && off + (b - a) <= width && Pos(q, width) + off == a
    requires t.fat == d.fat && OffOnly(d, t, Members(ch)) && Mixed(Slots(d, ch), data, a, Slots(t, ch))
    requires off + |data[a..b]| <= |t.area[ch[q]]|
      && t' == t.(area := t.area[ch[q] := Splice(t.area[ch[q]], off, data[a..b])])
    ensures t'.fat == d.fat && OffOnly(d, t', Members(ch)) && Mixed(Slots(d, ch), data, b, Slots(t', ch))
      && Storing(d, t', ch, data)
  {
    GatherSplice(t.area, ch, width, q, off, data[a..b], t'.area);
    MixedNext(Slots(d, ch), data, a, b, Slots(t, ch));
    assert ch[q] in Members(ch);
    OffArea(d, t, Members(ch), ch[q], Splice(t.area[ch[q]], off, data[a..b]));
  }

  lemma MixedStart(old_: seq<Slot>, data: seq<Slot>, start: nat, len: nat, a: nat)
    requires |old_| == |data| && (forall i :: 0 <= i < |data| && !(start <= i < start + len) ==> data[i] == old_[i])
      && a <= start
    ensures Mixed(old_, data, a, old_)
  {}

  lemma MixedEnd(old_: seq<Slot>, data: seq<Slot>, start: nat, len: nat, a: nat, now: seq<Slot>)
    requires Mixed(old_, data, a, now)
      && (forall i :: 0 <= i < |data| && !(start <= i < start + len) ==> data[i] == old_[i]) && a >= start + len
    ensures now == data
  {}

  lemma StoringSelf(d: Disk, ch: seq<nat>, data: seq<Slot>, a: nat)
    requires Mixed(Slots(d, ch), data, a, Slots(d, ch))
    ensures Storing(d, d, ch, data)
  {}
}
