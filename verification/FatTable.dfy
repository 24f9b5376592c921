/**
  The packed file allocation table (src/fs/fat.rs): reading and writing an entry
  in the cached bytes, for 12-, 16- and 32-bit tables, keeping the copies on disk
  equal to the cache, and the geometry that probe accepts. Section 4 of the
  Microsoft FAT Specification.
 */
module FatTable {
  import opened Base

  const SECTOR: nat := 512
  const MAX_METADATA: nat := 8 * 1024 * 1024

  datatype Kind = Fat12 | Fat16 | Fat32

  function U16(b: seq<byte>, n: nat): (v: nat)
    requires n + 2 <= |b|
    ensures v < 0x1_0000
  { b[n] as nat + 256 * b[n + 1] as nat }

  function U32(b: seq<byte>, n: nat): (v: nat)
    requires n + 4 <= |b|
    ensures v < 0x1_0000_0000
  { U16(b, n) + 0x1_0000 * U16(b, n + 2) }

  function Le16(v: nat): (r: seq<byte>)
    ensures |r| == 2 && U16(r, 0) == v % 0x1_0000
  { [(v % 256) as byte, (v / 256 % 256) as byte] }

  function Le32(v: nat): (r: seq<byte>)
    ensures |r| == 4 && U16(r, 0) == v % 0x1_0000 && U16(r, 2) == v / 0x1_0000 % 0x1_0000
  { Le16(v) + Le16(v / 0x1_0000) }

  function Put(b: seq<byte>, n: nat, v: seq<byte>): (r: seq<byte>)
    requires n + |v| <= |b|
    ensures |r| == |b|
    ensures forall i :: 0 <= i < |b| ==> r[i] == if n <= i < n + |v| then v[i - n] else b[i]
  { b[..n] + v + b[n + |v|..] }

  /** Number of distinct values of an entry. */
  function Span(kind: Kind): (m: nat)
    ensures m > 0
  {
    match kind
    case Fat12 => 0x1000
    case Fat16 => 0x1_0000
    case Fat32 => 0x1000_0000
  }

  function Eof(kind: Kind): (v: nat) { Span(kind) - 1 }

  predicate IsEof(kind: Kind, v: nat) { v >= Eof(kind) - 7 }

  function Offset(kind: Kind, n: nat): (off: nat) {
    match kind
    case Fat12 => n + n / 2
    case Fat16 => n * 2
    case Fat32 => n * 4
  }

  function Width(kind: Kind): (len: nat)
    ensures len == 2 || len == 4
  { if kind == Fat32 then 4 else 2 }

  /** Entry `n` lies inside the table. */
  predicate Inside(kind: Kind, fat: seq<byte>, n: nat) { Offset(kind, n) + Width(kind) <= |fat| }

  function Get(kind: Kind, fat: seq<byte>, n: nat): (v: nat)
    requires Inside(kind, fat, n)
  {
    match kind
    case Fat12 => var v := U16(fat, n + n / 2); if n % 2 == 0 then v % 0x1000 else v / 16
    case Fat16 => U16(fat, n * 2)
    case Fat32 => U32(fat, n * 4) % 0x1000_0000
  }

  /** The word stored for entry `n`: the new value in the entry's bits, the old word elsewhere. */
  function Word(kind: Kind, fat: seq<byte>, n: nat, value: nat): (w: seq<byte>)
    requires Inside(kind, fat, n)
    ensures |w| == Width(kind)
  {
    match kind
    case Fat12 =>
      var was := U16(fat, n + n / 2);
      if n % 2 == 0 then Le16(was / 0x1000 * 0x1000 + value % 0x1000) else Le16(was % 16 + value % 0x1000 * 16)
    case Fat16 => Le16(value)
    case Fat32 => Le32(U32(fat, n * 4) / 0x1000_0000 * 0x1000_0000 + value % 0x1000_0000)
  }

  function Set(kind: Kind, fat: seq<byte>, n: nat, value: nat): (r: seq<byte>)
    requires Inside(kind, fat, n)
    ensures |r| == |fat|
    ensures forall i :: 0 <= i < |fat| && !(Offset(kind, n) <= i < Offset(kind, n) + Width(kind)) ==> r[i] == fat[i]
  {
    Put(fat, Offset(kind, n), Word(kind, fat, n, value))
  }

  lemma PutU16(b: seq<byte>, n: nat, v: seq<byte>, m: nat)
    requires n + |v| <= |b| && m + 2 <= |b|
    ensures n <= m && m + 2 <= n + |v| ==> U16(Put(b, n, v), m) == U16(v, m - n)
    ensures m + 2 <= n || n + |v| <= m ==> U16(Put(b, n, v), m) == U16(b, m)
  {}

  lemma SetGet16(fat: seq<byte>, n: nat, value: nat, m: nat)
    requires Inside(Fat16, fat, n) && Inside(Fat16, fat, m)
    ensures Get(Fat16, Set(Fat16, fat, n, value), m) == if m == n then value % 0x1_0000 else Get(Fat16, fat, m)
  {
    PutU16(fat, n * 2, Le16(value), m * 2);
  }

  lemma Whole32(w: nat)
    requires w < 0x1_0000_0000
    ensures w % 0x1_0000 + 0x1_0000 * (w / 0x1_0000 % 0x1_0000) == w
  {
    DivMod(w / 0x1_0000, 0x1_0000, 0, w / 0x1_0000);
  }

  lemma Put32(b: seq<byte>, n: nat, w: nat, m: nat)
    requires w < 0x1_0000_0000 && n + 4 <= |b| && m + 4 <= |b|
    ensures m == n ==> U32(Put(b, n, Le32(w)), m) == w
    ensures m + 4 <= n || n + 4 <= m ==> U32(Put(b, n, Le32(w)), m) == U32(b, m)
  {
    Whole32(w);
    PutU16(b, n, Le32(w), m);
    PutU16(b, n, Le32(w), m + 2);
  }

  /** Four high and 28 low bits of a word. */
  lemma Join28(high: nat, low: nat)
    requires high < 16 && low < 0x1000_0000
    ensures var w := high * 0x1000_0000 + low; w % 0x1000_0000 == low && w / 0x1000_0000 == high && w < 0x1_0000_0000
  {
    DivMod(high * 0x1000_0000 + low, 0x1000_0000, high, low);
  }

  lemma SetGet32(fat: seq<byte>, n: nat, value: nat, m: nat)
    requires Inside(Fat32, fat, n) && Inside(Fat32, fat, m)
    ensures Get(Fat32, Set(Fat32, fat, n, value), m) == if m == n then value % 0x1000_0000 else Get(Fat32, fat, m)
    ensures U32(Set(Fat32, fat, n, value), n * 4) / 0x1000_0000 == U32(fat, n * 4) / 0x1000_0000
  {
    var high, low := U32(fat, n * 4) / 0x1000_0000, value % 0x1000_0000;
    var w := high * 0x1000_0000 + low;
    Join28(high, low);
    var r := Put(fat, n * 4, Le32(w));
    assert Set(Fat32, fat, n, value) == r;
    assert U32(r, n * 4) == w by { Put32(fat, n * 4, w, n * 4); }
    assert m != n ==> U32(r, m * 4) == U32(fat, m * 4) by { Put32(fat, n * 4, w, m * 4); }
  }

  /** A 12-bit entry told by its bytes. */
  lemma Bytes12(fat: seq<byte>, n: nat)
    requires Inside(Fat12, fat, n)
    ensures var a, b := fat[n + n / 2] as nat, fat[n + n / 2 + 1] as nat;
      Get(Fat12, fat, n) == if n % 2 == 0 then a + 256 * (b % 16) else a / 16 + 16 * b
  {
    var a, b := fat[n + n / 2] as nat, fat[n + n / 2 + 1] as nat;
    DivMod(a + 256 * b, 0x1000, b / 16, a + 256 * (b % 16));
    DivMod(a + 256 * b, 16, a / 16 + 16 * b, a % 16);
  }

  lemma Le16At(v: nat)
    requires v < 0x1_0000
    ensures U16(Le16(v), 0) == v && Le16(v)[0] as nat == v % 256 && Le16(v)[1] as nat == v / 256
  {
    DivMod(v / 256, 256, 0, v / 256);
  }

  lemma Even12(was: nat, v: nat)
    requires was < 0x1_0000 && v < 0x1000
    ensures var w := Le16(was / 0x1000 * 0x1000 + v); U16(w, 0) % 0x1000 == v && w[1] as nat / 16 == was / 256 / 16
  {
    var h, m, l := was / 0x1000, was % 0x1000 / 256, was % 0x1000 % 256;
    DivMod(was, 256, 16 * h + m, l);
    DivMod(16 * h + m, 16, h, m);
    var x := h * 0x1000 + v;
    Le16At(x);
    DivMod(x, 0x1000, h, v);
    DivMod(x, 256, 16 * h + v / 256, v % 256);
    DivMod(16 * h + v / 256, 16, h, v / 256);
  }

  lemma Odd12(was: nat, v: nat)
    requires was < 0x1_0000 && v < 0x1000
    ensures var w := Le16(was % 16 + v * 16); U16(w, 0) / 16 == v && w[0] as nat % 16 == was % 256 % 16
  {
    var x := was % 16 + v * 16;
    Le16At(x);
    DivMod(x, 16, v, was % 16);
    DivMod(x, 256, v / 16, was % 16 + 16 * (v % 16));
    DivMod(was % 16 + 16 * (v % 16), 16, v % 16, was % 16);
    DivMod(was % 256, 16, was % 256 / 16, was % 256 % 16);
    DivMod(was, 16, 16 * (was / 256) + was % 256 / 16, was % 256 % 16);
  }

  /**
    The byte an even entry shares with the next keeps its high half; the one an odd entry shares
    with the previous keeps its low half.
   */
  lemma SharedByte(fat: seq<byte>, n: nat, value: nat)
    requires Inside(Fat12, fat, n)
    ensures var w, off := Word(Fat12, fat, n, value), n + n / 2;
      if n % 2 == 0 then w[1] as nat / 16 == fat[off + 1] as nat / 16 else w[0] as nat % 16 == fat[off] as nat % 16
  {
    var off := n + n / 2;
    var was := U16(fat, off);
    DivMod(was, 256, fat[off + 1] as nat, fat[off] as nat);
    if n % 2 == 0 { Even12(was, value % 0x1000); } else { Odd12(was, value % 0x1000); }
  }

  lemma SetGet12Same(fat: seq<byte>, n: nat, value: nat)
    requires Inside(Fat12, fat, n)
    ensures Get(Fat12, Set(Fat12, fat, n, value), n) == value % 0x1000
  {
    var off := n + n / 2;
    PutU16(fat, off, Word(Fat12, fat, n, value), off);
    Even12(U16(fat, off), value % 0x1000);
    Odd12(U16(fat, off), value % 0x1000);
  }

  lemma SetGet12Near(fat: seq<byte>, n: nat, value: nat, m: nat)
    requires Inside(Fat12, fat, n) && Inside(Fat12, fat, m)
    requires if n % 2 == 0 then m == n + 1 else m + 1 == n
    ensures Get(Fat12, Set(Fat12, fat, n, value), m) == Get(Fat12, fat, m)
  {
    var r := Set(Fat12, fat, n, value);
    SharedByte(fat, n, value);
    Bytes12(fat, m);
    Bytes12(r, m);
    assert m + m / 2 == if n % 2 == 0 then n + n / 2 + 1 else n + n / 2 - 1;
  }

  lemma SetGet12(fat: seq<byte>, n: nat, value: nat, m: nat)
    requires Inside(Fat12, fat, n) && Inside(Fat12, fat, m)
    ensures Get(Fat12, Set(Fat12, fat, n, value), m) == if m == n then value % 0x1000 else Get(Fat12, fat, m)
  {
    if m == n {
      SetGet12Same(fat, n, value);
    } else if (m == n + 1 && n % 2 == 0) || (m + 1 == n && n % 2 == 1) {
      SetGet12Near(fat, n, value, m);
    } else {
      PutU16(fat, n + n / 2, Word(Fat12, fat, n, value), m + m / 2);
    }
  }

  /** Writing entry `n` stores the value's low bits there and changes no other entry. */
  lemma SetThenGet(kind: Kind, fat: seq<byte>, n: nat, value: nat, m: nat)
    requires Inside(kind, fat, n) && Inside(kind, fat, m)
    ensures Inside(kind, Set(kind, fat, n, value), m)
    ensures Get(kind, Set(kind, fat, n, value), m) == if m == n then value % Span(kind) else Get(kind, fat, m)
  {
    match kind
    case Fat12 => SetGet12(fat, n, value, m);
    case Fat16 => SetGet16(fat, n, value, m);
    case Fat32 => SetGet32(fat, n, value, m);
  }

  // ---------------------------------------------------------------- one sector at a time

  /** The entry lies in two sectors, so that writing it takes two writes. */
  predicate Straddles(kind: Kind, n: nat) { Offset(kind, n) / SECTOR != (Offset(kind, n) + Width(kind) - 1) / SECTOR }

  /** Only a 12-bit entry whose first byte ends a sector does. */
  lemma StraddlesExactly(kind: Kind, n: nat)
    ensures Straddles(kind, n) <==> kind == Fat12 && (n + n / 2) % SECTOR == SECTOR - 1
  {
    match kind
    case Fat12 => SectorEnd(n + n / 2);
    case Fat16 =>
      Euclid(n, 256);
      DivMod(n * 2, SECTOR, n / 256, n % 256 * 2);
      DivMod(n * 2 + 1, SECTOR, n / 256, n % 256 * 2 + 1);
    case Fat32 =>
      Euclid(n, 128);
      DivMod(n * 4, SECTOR, n / 128, n % 128 * 4);
      DivMod(n * 4 + 3, SECTOR, n / 128, n % 128 * 4 + 3);
  }

  lemma SectorEnd(off: nat)
    ensures off / SECTOR != (off + 1) / SECTOR <==> off % SECTOR == SECTOR - 1
  {
    var q, r := off / SECTOR, off % SECTOR;
    if r == SECTOR - 1 { DivMod(off + 1, SECTOR, q + 1, 0); } else { DivMod(off + 1, SECTOR, q, r + 1); }
  }

  /** What entry `n` reads as while only the first of its two bytes has changed from `was` to `value`. */
  function Torn(n: nat, was: nat, value: nat): (v: nat) {
    if n % 2 == 0 then was / 256 * 256 + value % 256 else was / 16 * 16 + value % 16
  }

  /** The table with the first byte of entry `n` written. */
  function HalfSet(fat: seq<byte>, n: nat, value: nat): (r: seq<byte>)
    requires Inside(Fat12, fat, n)
    ensures |r| == |fat|
  { Put(fat, n + n / 2, Word(Fat12, fat, n, value)[..1]) }

  lemma FirstEven(h: nat, value: nat)
    requires h < 16 && value < 0x1000
    ensures Le16(h * 0x1000 + value)[0] as nat == value % 256
  {
    Le16At(h * 0x1000 + value);
    DivMod(h * 0x1000 + value, 256, 16 * h + value / 256, value % 256);
  }

  lemma FirstOdd(low: nat, value: nat)
    requires low < 16 && value < 0x1000
    ensures Le16(low + value * 16)[0] as nat == low + 16 * (value % 16)
  {
    Le16At(low + value * 16);
    DivMod(low + value * 16, 256, value / 16, low + 16 * (value % 16));
  }

  /** The first byte of the word stored for a 12-bit entry. */
  lemma FirstByte(fat: seq<byte>, n: nat, value: nat)
    requires Inside(Fat12, fat, n) && value < 0x1000
    ensures var a, w := fat[n + n / 2] as nat, Word(Fat12, fat, n, value)[0] as nat;
      w == if n % 2 == 0 then value % 256 else a % 16 + 16 * (value % 16)
  {
    var a, b := fat[n + n / 2] as nat, fat[n + n / 2 + 1] as nat;
    DivMod(value, 0x1000, 0, value);
    if n % 2 == 0 {
      FirstEven((a + 256 * b) / 0x1000, value);
    } else {
      DivMod(a + 256 * b, 16, a / 16 + 16 * b, a % 16);
      FirstOdd(a % 16, value);
    }
  }

  lemma HalfSetSame(fat: seq<byte>, n: nat, value: nat)
    requires Inside(Fat12, fat, n) && value < 0x1000
    ensures Get(Fat12, HalfSet(fat, n, value), n) == Torn(n, Get(Fat12, fat, n), value)
  {
    var r, a, b := HalfSet(fat, n, value), fat[n + n / 2] as nat, fat[n + n / 2 + 1] as nat;
    FirstByte(fat, n, value);
    Bytes12(fat, n);
    Bytes12(r, n);
    if n % 2 == 0 {
      DivMod(a + 256 * (b % 16), 256, b % 16, a);
    } else {
      DivMod(a / 16 + 16 * b, 16, b, a / 16);
      DivMod(a % 16 + 16 * (value % 16), 16, value % 16, a % 16);
    }
  }

  /** Half a write shows in the entry itself only. */
  lemma HalfSetGet(fat: seq<byte>, n: nat, value: nat, m: nat)
    requires Inside(Fat12, fat, n) && Inside(Fat12, fat, m) && value < 0x1000
    ensures Get(Fat12, HalfSet(fat, n, value), m) == if m == n then Torn(n, Get(Fat12, fat, n), value)
      else Get(Fat12, fat, m)
  {
    if m == n {
      HalfSetSame(fat, n, value);
    } else {
      var r := HalfSet(fat, n, value);
      SharedByte(fat, n, value);
      Bytes12(fat, m);
      Bytes12(r, m);
      if n % 2 == 1 && m + 1 == n {
        assert m + m / 2 + 1 == n + n / 2;
      } else {
        assert m + m / 2 != n + n / 2 && m + m / 2 + 1 != n + n / 2;
      }
    }
  }

  /** The bytes of the table when its sectors before number `k` are those of `now` and the others those of `was`. */
  ghost predicate UpToSector(was: seq<byte>, now: seq<byte>, k: nat, mixed: seq<byte>) {
    |was| == |now| == |mixed| && forall i :: 0 <= i < |was| ==> mixed[i] == if i < k * SECTOR then now[i] else was[i]
  }

  /**
    Between the sector writes of an entry: the table after the first of them is
    the half-set one if the entry straddles, and else the new one.
   */
  lemma BetweenSectors(kind: Kind, fat: seq<byte>, n: nat, value: nat, mixed: seq<byte>)
    requires Inside(kind, fat, n) && UpToSector(fat, Set(kind, fat, n, value), Offset(kind, n) / SECTOR + 1, mixed)
    ensures
      if Straddles(kind, n) then kind == Fat12 && mixed == HalfSet(fat, n, value)
      else mixed == Set(kind, fat, n, value)
  {
    var off, len := Offset(kind, n), Width(kind);
    StraddlesExactly(kind, n);
    Euclid(off, SECTOR);
    Euclid(off + len - 1, SECTOR);
  }

  ghost predicate ListsAt(kind: Kind, fat: seq<byte>, es: seq<nat>, n: nat)
  {
    n < |es| ==> Inside(kind, fat, n) && Get(kind, fat, n) == es[n]
  }

  /** `es` are the entries of the packed table. */
  ghost predicate Lists(kind: Kind, fat: seq<byte>, es: seq<nat>) { forall n: nat :: ListsAt(kind, fat, es, n) }

  /** Writing an entry of the packed table changes that number of the list. */
  lemma ListsSet(kind: Kind, fat: seq<byte>, es: seq<nat>, n: nat, value: nat)
    requires Lists(kind, fat, es) && n < |es| && value < Span(kind)
    ensures Inside(kind, fat, n) && Lists(kind, Set(kind, fat, n, value), es[n := value])
  {
    assert ListsAt(kind, fat, es, n);
    DivMod(value, Span(kind), 0, value);
    var now, es' := Set(kind, fat, n, value), es[n := value];
    forall m: nat ensures ListsAt(kind, now, es', m) {
      assert ListsAt(kind, fat, es, m);
      if m < |es| { SetThenGet(kind, fat, n, value, m); }
    }
  }

  /** Half of the write changes it to the torn value. */
  lemma ListsHalfSet(fat: seq<byte>, es: seq<nat>, n: nat, value: nat)
    requires Lists(Fat12, fat, es) && n < |es| && value < 0x1000
    ensures Inside(Fat12, fat, n) && Lists(Fat12, HalfSet(fat, n, value), es[n := Torn(n, es[n], value)])
  {
    assert ListsAt(Fat12, fat, es, n);
    var now, es' := HalfSet(fat, n, value), es[n := Torn(n, es[n], value)];
    forall m: nat ensures ListsAt(Fat12, now, es', m) {
      assert ListsAt(Fat12, fat, es, m);
      if m < |es| { HalfSetGet(fat, n, value, m); }
    }
  }

  // ---------------------------------------------------------------- geometry

  datatype Geometry = Geometry(
    kind: Kind, fatLba: nat, fatSectors: nat, fats: nat, active: nat, mirrored: bool,
    rootLba: nat, rootEntries: nat, rootCluster: nat, dataLba: nat, spc: nat, clusters: nat)

  const EXFAT: seq<byte> := [0x45, 0x58, 0x46, 0x41, 0x54, 0x20, 0x20, 0x20]

  predicate Recognized(b: seq<byte>)
    requires |b| == SECTOR
  {
    b[510] == 0x55 && b[511] == 0xaa && (b[0] == 0xeb || b[0] == 0xe9) && U16(b, 11) == 512 && b[3..11] != EXFAT
  }

  function Total(b: seq<byte>): (n: nat)
    requires |b| == SECTOR
  { if U16(b, 19) != 0 then U16(b, 19) else U32(b, 32) }

  function FatSectors(b: seq<byte>): (n: nat)
    requires |b| == SECTOR
  { if U16(b, 22) != 0 then U16(b, 22) else U32(b, 36) }

  function RootSectors(b: seq<byte>): (n: nat)
    requires |b| == SECTOR
  { (U16(b, 17) * 32 + 511) / 512 }

  function Overhead(b: seq<byte>): (n: int)
    requires |b| == SECTOR
  { U16(b, 14) + b[16] as nat * FatSectors(b) + RootSectors(b) }

  predicate GoodShape(b: seq<byte>, length: nat)
    requires |b| == SECTOR
  {
    && b[13] in {1, 2, 4, 8, 16, 32, 64, 128} && U16(b, 14) != 0 && 1 <= b[16] <= 2 && FatSectors(b) != 0
    && Total(b) <= length && Total(b) > Overhead(b)
  }

  function KindOf(clusters: nat): (k: Kind) {
    if clusters < 4085 then Fat12 else if clusters < 65525 then Fat16 else Fat32
  }

  function Needed(kind: Kind, clusters: nat): (n: nat) {
    match kind
    case Fat12 => ((clusters + 2) * 3 + 1) / 2
    case Fat16 => (clusters + 2) * 2
    case Fat32 => (clusters + 2) * 4
  }

  /** The geometry probe accepts at sector `start` of a region of `length` sectors, given its boot sector. */
  function Probe(b: seq<byte>, start: nat, length: nat): (r: Option<Geometry>)
    requires |b| == SECTOR
  {
    if !Recognized(b) || !GoodShape(b, length) then None
    else
      var spc, fats, fatSectors := b[13] as nat, b[16] as nat, FatSectors(b);
      var clusters := (Total(b) - Overhead(b)) / spc;
      var kind := KindOf(clusters);
      var fatLba := start + U16(b, 14);
      var rootLba := fatLba + fats * fatSectors;
      if clusters == 0 || clusters > 0x0fff_ffee then None
      else if fatSectors * 512 < Needed(kind, clusters) || fatSectors * 512 > MAX_METADATA then None
      else if kind == Fat32 then
        if U16(b, 17) != 0 || U16(b, 22) != 0 || U16(b, 42) != 0 then None
        else
          var root := U32(b, 44) % 0x1000_0000;
          var mirrored := U16(b, 40) / 0x80 % 2 == 0;
          var active := if mirrored then 0 else U16(b, 40) % 16;
          if root < 2 || root >= clusters + 2 || active >= fats then None
          else Some(Geometry(kind, fatLba, fatSectors, fats, active, mirrored, rootLba, 0, root,
            rootLba + RootSectors(b), spc, clusters))
      else if U16(b, 17) == 0 || U16(b, 22) == 0 then None
      else Some(Geometry(kind, fatLba, fatSectors, fats, 0, true, rootLba, U16(b, 17), 0, rootLba + RootSectors(b), spc,
        clusters))
  }

  predicate ValidCluster(g: Geometry, n: nat) { 2 <= n < g.clusters + 2 }

  /** Entry `n` of a table large enough for its cluster count is inside it. */
  lemma EntryInside(kind: Kind, fat: seq<byte>, clusters: nat, n: nat)
    requires |fat| >= Needed(kind, clusters) && n < clusters + 2
    ensures Inside(kind, fat, n)
  {
    if kind == Fat12 { DivMod(n, 2, n / 2, n % 2); }
  }

  /** `spc` sectors for each whole cluster fit into the data region. */
  lemma WholeClusters(region: nat, spc: nat)
    requires spc > 0
    ensures region / spc * spc <= region
  {
    assert region == region / spc * spc + region % spc;
  }

  /**
    For every boot sector probe accepts: each cluster has an entry inside the
    table and its number fits an entry and never reads as end of chain; the
    table copies, the fixed root and the data follow each other inside the
    region; and a FAT32 root and active table exist.
   */
  lemma ProbeSound(b: seq<byte>, start: nat, length: nat, fat: seq<byte>, n: nat)
    requires |b| == SECTOR && Probe(b, start, length).Some?
    requires var g := Probe(b, start, length).value; |fat| == g.fatSectors * 512 && ValidCluster(g, n)
    ensures var g := Probe(b, start, length).value;
      && Inside(g.kind, fat, n) && !IsEof(g.kind, n) && n < Span(g.kind)
      && start < g.fatLba && g.rootLba == g.fatLba + g.fats * g.fatSectors
      && g.rootLba * 512 + g.rootEntries * 32 <= g.dataLba * 512
      && g.dataLba + g.clusters * g.spc <= start + length
      && g.active < g.fats <= 2 && (g.kind == Fat32 ==> ValidCluster(g, g.rootCluster))
  {
    var g := Probe(b, start, length).value;
    EntryInside(g.kind, fat, g.clusters, n);
    WholeClusters(Total(b) - Overhead(b), g.spc);
    var bytes := U16(b, 17) * 32 + 511;
    assert bytes == bytes / 512 * 512 + bytes % 512;
  }

  // ---------------------------------------------------------------- the copies on disk

  /** The cached table and the sectors it is stored in. `budget` counts the writes the device will still accept. */
  class Table {
    const g: Geometry
    var fat: seq<byte>
    var disk: seq<seq<byte>>
    var failed: bool
    var budget: nat

    ghost predicate Valid()
      reads this
    {
      && 1 <= g.fats <= 2 && g.active < g.fats
      && |fat| == g.fatSectors * SECTOR && |fat| >= Needed(g.kind, g.clusters)
      && |disk| >= g.fatLba + g.fatSectors + g.fatSectors
    }

    function CopyLba(copy: nat): (lba: nat) { if copy == 0 then g.fatLba else g.fatLba + g.fatSectors }

    ghost function Sector(i: nat): (s: seq<byte>)
      reads this`fat
      requires (i + 1) * SECTOR <= |fat|
    { fat[i * SECTOR..(i + 1) * SECTOR] }

    /** Sector `i` of copy `copy` equals the cache. */
    ghost predicate Stored(copy: nat, i: nat)
      reads this
      requires Valid() && i < g.fatSectors
    { disk[CopyLba(copy) + i] == Sector(i) }

    /** Every copy the driver maintains equals the cache. */
    ghost predicate Synced()
      reads this
      requires Valid()
    {
      forall copy, i :: 0 <= copy < g.fats && (g.mirrored || copy == g.active) && 0 <= i < g.fatSectors ==>
        Stored(copy, i)
    }

    constructor (g: Geometry, fat: seq<byte>, disk: seq<seq<byte>>, budget: nat)
      requires 1 <= g.fats <= 2 && g.active < g.fats && |fat| == g.fatSectors * SECTOR
      requires |fat| >= Needed(g.kind, g.clusters) && |disk| >= g.fatLba + g.fatSectors + g.fatSectors
      ensures Valid() && this.g == g && this.fat == fat && this.disk == disk && this.budget == budget && !failed
    {
      this.g, this.fat, this.disk, this.budget, this.failed := g, fat, disk, budget, false;
    }

    method WriteSector(lba: nat, data: seq<byte>) returns (ok: bool)
      requires lba < |disk|
      modifies this`disk, this`failed, this`budget
      ensures ok <==> !old(failed) && old(budget) > 0
      ensures disk == if ok then old(disk)[lba := data] else old(disk)
      ensures (failed <==> !ok) && budget == old(budget) - (if ok then 1 else 0)
    {
      if failed { return false; }
      if budget == 0 {
        failed := true;
        return false;
      }
      budget := budget - 1;
      disk := disk[lba := data];
      ok := true;
    }

    ghost predicate Holds(i: nat, off: nat, len: nat) { off / SECTOR <= i <= (off + len - 1) / SECTOR }

    /** Writes the sectors of one copy that hold bytes [off, off + len). */
    method StoreCopy(copy: nat, off: nat, len: nat) returns (ok: bool)
      requires Valid() && copy < g.fats && 0 < len && off + len <= |fat|
      modifies this`disk, this`failed, this`budget
      ensures Valid() && |disk| == |old(disk)|
      ensures ok ==> failed == old(failed) && forall i :: 0 <= i < g.fatSectors && Holds(i, off, len) ==>
        Stored(copy, i)
      ensures !ok ==> failed && (old(failed) || budget == 0)
      ensures forall c, i ::
        0 <= c < 2 && 0 <= i < g.fatSectors && (c != copy || !Holds(i, off, len)) && old(Stored(c, i)) ==>
          Stored(c, i)
    {
      var i, last := off / SECTOR, (off + len - 1) / SECTOR;
      assert last < g.fatSectors by { DivMod(|fat|, SECTOR, g.fatSectors, 0); }
      while i <= last
        invariant off / SECTOR <= i <= last + 1
        invariant |disk| == |old(disk)| && failed == old(failed)
        invariant forall j :: 0 <= j < g.fatSectors && off / SECTOR <= j < i ==> Stored(copy, j)
        invariant forall c, j ::
          0 <= c < 2 && 0 <= j < g.fatSectors && (c != copy || !Holds(j, off, len)) && old(Stored(c, j)) ==>
            Stored(c, j)
      {
        label write:
        ok := WriteSector(CopyLba(copy) + i, fat[i * SECTOR..(i + 1) * SECTOR]);
        if !ok { return; }
        assert Stored(copy, i);
        forall j | 0 <= j < g.fatSectors && off / SECTOR <= j < i
          ensures Stored(copy, j)
        {
          assert old@write(Stored(copy, j));
        }
        i := i + 1;
      }
      ok := true;
    }

    method GetEntry(cluster: nat) returns (r: Option<nat>)
      requires Valid()
      ensures r == if ValidCluster(g, cluster) then Some(Get(g.kind, fat, cluster)) else None
    {
      if !ValidCluster(g, cluster) { return None; }
      EntryInside(g.kind, fat, g.clusters, cluster);
      r := Some(Get(g.kind, fat, cluster));
    }

    /**
      Writes an entry to the cache and to every maintained copy. On success the
      sectors that hold the entry equal the cache in every maintained copy, so
      copies that equalled the cache still do.
     */
    method SetEntry(cluster: nat, value: nat) returns (ok: bool)
      requires Valid()
      modifies this
      ensures Valid()
      ensures (old(failed) || !ValidCluster(g, cluster)) ==>
        !ok && fat == old(fat) && disk == old(disk) && failed == old(failed)
      ensures !old(failed) && ValidCluster(g, cluster) ==>
        Inside(g.kind, old(fat), cluster) && fat == Set(g.kind, old(fat), cluster, value)
      ensures !ok ==> old(failed) || !ValidCluster(g, cluster) || (failed && budget == 0)
      ensures ok ==> !failed && (old(Synced()) ==> Synced())
      ensures ok ==>
        forall copy, i ::
          0 <= copy < g.fats && (g.mirrored || copy == g.active) && 0 <= i < g.fatSectors
          && Holds(i, Offset(g.kind, cluster), Width(g.kind)) ==>
            Stored(copy, i)
    {
      if failed || !ValidCluster(g, cluster) { return false; }
      EntryInside(g.kind, fat, g.clusters, cluster);
      var off, len := Offset(g.kind, cluster), Width(g.kind);
      fat := Set(g.kind, fat, cluster, value);
      forall c, i | 0 <= c < 2 && 0 <= i < g.fatSectors && !Holds(i, off, len) && old(Stored(c, i))
        ensures Stored(c, i)
      {
        SectorApart(i, off, len);
      }
      ok := true;
      if g.mirrored || g.active == 0 {
        ok := StoreCopy(0, off, len);
        if !ok { return; }
      }
      if g.fats == 2 && (g.mirrored || g.active == 1) {
        ok := StoreCopy(1, off, len);
        if !ok { return; }
      }
    }
  }

  /** A sector that holds none of the bytes [off, off + len) ends before them or begins after them. */
  lemma SectorApart(i: nat, off: nat, len: nat)
    requires 0 < len && !(off / SECTOR <= i <= (off + len - 1) / SECTOR)
    ensures (i + 1) * SECTOR <= off || off + len <= i * SECTOR
  {}
}
