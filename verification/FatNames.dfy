/**
  Directory entries with VFAT long names (src/fs/fat.rs, sections 6 and 7 of the
  Microsoft FAT Specification): how a name is written as a run of 32-byte slots
  and how the slots are read back.

  A name is a sequence of Unicode scalar values. The OEM code page is left
  symbolic: an OEM byte b >= 128 of a short name reads as the value OEM + b,
  which is no scalar value. Letter case is ASCII case.
 */
module FatNames {
  import opened Base
  import opened FatTable

  type Name = seq<nat>

  type Slot = s: seq<byte> | |s| == 32 witness seq(32, _ => 0)

  const OEM: nat := 0x11_0000
  const LFN: byte := 0x0f
  const DELETED: byte := 0xe5
  const DATE: nat := 0x21

  // ---------------------------------------------------------------- UTF-16

  predicate Scalar(c: nat) { c < 0xd800 || 0xe000 <= c < 0x11_0000 }

  function Encode(c: nat): (u: seq<nat>)
    ensures 1 <= |u| <= 2
  {
    if c < 0x1_0000 then [c] else [0xd800 + (c - 0x1_0000) / 0x400, 0xdc00 + (c - 0x1_0000) % 0x400]
  }

  function Units(name: Name): (u: seq<nat>)
    ensures |u| >= |name|
  { if name == [] then [] else Encode(name[0]) + Units(name[1..]) }

  predicate High(u: nat) { 0xd800 <= u < 0xdc00 }
  predicate Low(u: nat) { 0xdc00 <= u < 0xe000 }

  /** String::from_utf16: refuses unpaired surrogates. */
  function Decode(u: seq<nat>): (r: Option<Name>)
    decreases |u|
  {
    if u == [] then Some([])
    else if !High(u[0]) && !Low(u[0]) then
      match Decode(u[1..]) case Some(n) => Some([u[0]] + n) case None => None
    else if High(u[0]) && |u| > 1 && Low(u[1]) then
      match Decode(u[2..])
      case Some(n) => Some([0x1_0000 + (u[0] - 0xd800) * 0x400 + (u[1] - 0xdc00)] + n)
      case None => None
    else None
  }

  ghost predicate Text(name: Name) { forall i :: 0 <= i < |name| ==> Scalar(name[i]) }

  lemma {:induction false} DecodeUnits(name: Name)
    requires Text(name)
    ensures Decode(Units(name)) == Some(name)
    decreases |name|
  {
    if name != [] {
      DecodeUnits(name[1..]);
      var c, u := name[0], Units(name);
      assert name == [c] + name[1..];
      if c < 0x1_0000 {
        assert u[1..] == Units(name[1..]);
      } else {
        assert u[2..] == Units(name[1..]);
        DivMod(c - 0x1_0000, 0x400, (c - 0x1_0000) / 0x400, (c - 0x1_0000) % 0x400);
      }
    }
  }

  // ---------------------------------------------------------------- names

  predicate Forbidden(c: nat) { c < 32 || c in {34, 42, 47, 58, 60, 62, 63, 92, 124} }

  predicate ValidName(name: Name) {
    && name != [] && name != [46] && name != [46, 46]
    && name[|name| - 1] != 32 && name[|name| - 1] != 46
    && |Units(name)| <= 255
    && forall i :: 0 <= i < |name| ==> !Forbidden(name[i])
  }

  function Upper(c: nat): (u: nat) { if 97 <= c <= 122 then c - 32 else c }

  predicate Same(a: Name, b: Name) { |a| == |b| && forall i :: 0 <= i < |a| ==> Upper(a[i]) == Upper(b[i]) }

  /** Length of a name part without its trailing spaces. */
  function Trimmed(p: seq<byte>): (n: nat)
    ensures n <= |p|
    ensures n > 0 ==> p[n - 1] != 32
    ensures forall i :: n <= i < |p| ==> p[i] == 32
  {
    if p == [] then 0 else if p[|p| - 1] != 32 then |p| else Trimmed(p[..|p| - 1])
  }

  function OemChar(b: byte, lower: bool): (c: nat) {
    if b >= 128 then OEM + (if lower then 256 else 0) + b as nat
    else if lower && 65 <= b <= 90 then b as nat + 32
    else b as nat
  }

  function PartText(p: seq<byte>, lower: bool): (t: Name)
    ensures |t| == |p|
  { seq(|p|, i requires 0 <= i < |p| => OemChar(p[i], lower)) }

  /** The 8.3 name a short entry stands for; `case` is its lower-case flag byte. */
  function Alias(short: seq<byte>, case_: byte): (t: Name)
    requires |short| == 11
  {
    var first := if short[0] == 5 then [DELETED] + short[1..8] else short[..8];
    var base, ext := first[..Trimmed(first)], short[8..][..Trimmed(short[8..])];
    PartText(base, case_ / 8 % 2 == 1) + if ext == [] then [] else [46] + PartText(ext, case_ / 16 % 2 == 1)
  }

  function Rotated(sum: nat): (r: nat) { sum / 2 + sum % 2 * 128 }

  function Checksum(bytes: seq<byte>): (sum: nat)
    ensures sum < 256
  {
    if bytes == [] then 0 else (Rotated(Checksum(bytes[..|bytes| - 1])) + bytes[|bytes| - 1] as nat) % 256
  }

  function Bit(x: nat, i: nat): (b: nat) { if i == 0 then x % 2 else Bit(x / 2, i - 1) }

  function Weight(i: nat): (w: nat) { if i == 0 then 1 else 2 * Weight(i - 1) }

  lemma {:induction false} TopBit(y: nat, n: nat, c: nat, i: nat)
    requires y < Weight(n) && c < 2 && i <= n
    ensures Bit(if c == 0 then y else y + Weight(n), i) == if i == n then c else Bit(y, i)
  {
    if i > 0 { TopBit(y / 2, n - 1, c, i - 1); }
  }

  /** The rotation moves every bit of a byte one place down, and the lowest to the top. */
  lemma RotatedBits(x: nat, i: nat)
    requires x < 256 && i < 8
    ensures Rotated(x) < 256 && Bit(Rotated(x), i) == Bit(x, if i == 7 then 0 else i + 1)
  {
    assert Weight(2) == 4;
    assert Weight(4) == 16;
    assert Weight(6) == 64;
    TopBit(x / 2, 7, x % 2, i);
  }

  /** One turn of the fold. */
  ghost predicate SumStep(bytes: seq<byte>, sums: seq<nat>, k: nat) {
    k < |bytes| == |sums| - 1 && sums[k + 1] == (sums[k] / 2 + sums[k] % 2 * 128 + bytes[k] as nat) % 256
  }

  /** The sum is the last of the partial sums, taken from the first byte on. */
  lemma {:induction false} ChecksumFolds(bytes: seq<byte>, sums: seq<nat>)
    requires |sums| == |bytes| + 1 && sums[0] == 0 && forall k: nat :: k < |bytes| ==> SumStep(bytes, sums, k)
    ensures Checksum(bytes) == sums[|bytes|]
    decreases |bytes|
  {
    if bytes != [] {
      var n := |bytes| - 1;
      var front, less := bytes[..n], sums[..n + 1];
      forall k: nat | k < n ensures SumStep(front, less, k) { assert SumStep(bytes, sums, k); }
      ChecksumFolds(front, less);
      assert SumStep(bytes, sums, n);
    }
  }

  /** The sum of the short name of README.TXT. */
  lemma ReadmeSum(bytes: seq<byte>)
    requires bytes == [82, 69, 65, 68, 77, 69, 32, 32, 84, 88, 84]
    ensures Checksum(bytes) == 115
  {
    ChecksumFolds(bytes, [0, 82, 110, 120, 128, 141, 11, 165, 242, 205, 62, 115]);
  }

  // ---------------------------------------------------------------- writing

  /** Where the unit `i` of a long-name entry lies. */
  function UnitAt(i: nat): (n: nat)
    requires i < 13
    ensures 1 <= n <= 30
  { if i < 5 then 1 + 2 * i else if i < 11 then 4 + 2 * i else 6 + 2 * i }

  /** Byte `j` of the units, each stored low byte first. */
  function UnitByte(us: seq<nat>, j: nat): (b: byte)
    requires j / 2 < |us|
  { Le16(us[j / 2])[j % 2] }

  function LongByte(first: byte, sum: byte, us: seq<nat>, i: nat): (b: byte)
    requires |us| == 13 && i < 32
  {
    if i == 0 then first
    else if i == 11 then LFN
    else if i == 13 then sum
    else if i == 12 || i == 26 || i == 27 then 0
    else UnitByte(us, if i < 11 then i - 1 else if i < 26 then i - 4 else i - 6)
  }

  /** A long-name entry: 13 units at offsets 1, 14 and 28. */
  function LongSlot(first: byte, sum: byte, us: seq<nat>): (e: Slot)
    requires |us| == 13
    ensures e[0] == first && e[11] == LFN && e[12] == 0 && e[13] == sum && U16(e, 26) == 0
  { seq(32, i requires 0 <= i < 32 => LongByte(first, sum, us, i)) }

  function SlotUnits(e: Slot): (us: seq<nat>)
    ensures |us| == 13
  { seq(13, i requires 0 <= i < 13 => U16(e, UnitAt(i))) }

  function ClusterHigh(first: nat, kind: Kind): (v: nat) { if kind == Fat32 then first / 0x1_0000 else 0 }

  function ShortSlot(short: seq<byte>, attr: byte, first: nat, size: nat, kind: Kind): (e: Slot)
    requires |short| == 11
  {
    short + [attr, 0, 0, 0, 0] + Le16(DATE) + Le16(DATE) + Le16(ClusterHigh(first, kind)) + [0,
      0] + Le16(DATE) + Le16(first) + Le32(size)
  }

  /** `units` followed by a zero and then 0xffff, up to `n` units. */
  function Padded(units: seq<nat>, n: nat): (p: seq<nat>)
    ensures |p| == n
  {
    seq(n, i => if 0 <= i < |units| then units[i] else if i == |units| then 0 else 0xffff)
  }

  /** Long-name entries with ordinals k, k - 1, ..., 1; `top` marks the first of the set. */
  function LongSlots(p: seq<nat>, k: nat, top: bool, sum: byte): (es: seq<Slot>)
    requires |p| >= 13 * k && k <= 20
    ensures |es| == k
  {
    if k == 0 then []
    else [LongEntry(p, k, top, sum)] + LongSlots(p, k - 1, false, sum)
  }

  function LongCount(name: Name, short: seq<byte>): (n: nat)
    requires |short| == 11
  { if name == Alias(short, 0) then 0 else (|Units(name)| + 12) / 13 }

  function EntrySet(name: Name, short: seq<byte>, first: nat, size: nat, attr: byte, kind: Kind): (es: seq<Slot>)
    requires |short| == 11 && |Units(name)| <= 255
    ensures |es| == LongCount(name, short) + 1
  {
    var n := LongCount(name, short);
    LongSlots(Padded(Units(name), 13 * n), n, true,
      Checksum(short) as byte) + [ShortSlot(short, attr, first, size, kind)]
  }

  // ---------------------------------------------------------------- reading

  datatype Record = Record(name: Name, alias: Name, short: seq<byte>, attr: byte, cluster: nat, size: nat, offset: nat,
    start: nat)

  /** How much of a long name has been read: nothing usable, or the units of the ordinals above `remaining`. */
  datatype Scan = Idle | Part(total: nat, remaining: nat, sum: byte, start: nat, units: seq<nat>)

  predicate Top(e: Slot) { e[0] as nat / 64 % 2 == 1 }
  predicate Spare(e: Slot) { e[0] as nat / 128 == 1 || e[0] as nat / 32 % 2 == 1 }
  function Ordinal(e: Slot): (n: nat) { e[0] as nat % 32 }

  function LongStep(s: Scan, e: Slot, index: nat): (r: Scan) {
    var s1 := if !Top(e) then s else if 0 < Ordinal(e) <= 20
      && !Spare(e) then Part(Ordinal(e), Ordinal(e), e[13], index, []) else Idle;
    if s1.Idle? || s1.remaining == 0 || Ordinal(e) != s1.remaining || e[13] != s1.sum || e[12] != 0 || U16(e, 26) != 0
      || Spare(e) then Idle
    else Part(s1.total, s1.remaining - 1, s1.sum, s1.start, SlotUnits(e) + s1.units)
  }

  function FirstZero(us: seq<nat>): (n: nat)
    ensures n <= |us|
    ensures n < |us| ==> us[n] == 0
    ensures forall i :: 0 <= i < n ==> us[i] != 0
  { if us == [] || us[0] == 0 then 0 else 1 + FirstZero(us[1..]) }

  /** The long name held by the collected units, if they are well formed. */
  function LongName(us: seq<nat>): (r: Option<Name>) {
    var len := FirstZero(us);
    if 0 < len <= 255 && 0xffff !in us[..len] && (forall i :: len < i < |us| ==> us[i] == 0xffff) then
      match Decode(us[..len])
      case Some(name) => if ValidName(name) then Some(name) else None
      case None => None
    else None
  }

  /** The long name the scan offers to a short entry. */
  function Offered(s: Scan, short: seq<byte>): (r: Option<Name>)
    requires |short| == 11
  {
    if s.Part? && s.total > 0 && s.remaining == 0 && s.sum as nat == Checksum(short) then LongName(s.units) else None
  }

  function Cluster(e: Slot, kind: Kind): (n: nat) {
    U16(e, 26) + if kind == Fat32 then U16(e, 20) % 0x1000 * 0x1_0000 else 0
  }

  predicate Hidden(e: Slot) { e[11] / 8 % 2 == 1 || Alias(e[..11], e[12]) == [46] || Alias(e[..11], e[12]) == [46, 46] }

  function ShortRecord(s: Scan, e: Slot, index: nat, kind: Kind): (r: Record) {
    var short := e[..11];
    var alias := Alias(short, e[12]);
    var long := Offered(s, short);
    Record(if long.Some? then long.value else alias, alias, short, e[11], Cluster(e, kind), U32(e, 28), index,
           if long.Some? && s.Part? then s.start else index)
  }

  predicate IsLong(e: Slot) { e[0] != DELETED && e[11] == LFN }
  predicate IsShort(e: Slot) { e[0] != DELETED && e[11] != LFN }

  function Step(s: Scan, e: Slot, index: nat): (r: Scan) {
    if IsLong(e) then LongStep(s, e, index) else Idle
  }

  function Emit(s: Scan, e: Slot, index: nat, kind: Kind): (r: seq<Record>) {
    if IsShort(e) && !Hidden(e) then [ShortRecord(s, e, index, kind)] else []
  }

  /** Reads the slots one by one, starting at slot number `base`: the final state and everything emitted. */
  function Fold<S, E, R>(f: (S, E, nat) -> (S, seq<R>), xs: seq<E>, s: S, base: nat): (r: (S, seq<R>))
    decreases |xs|
  {
    if xs == [] then (s, [])
    else
      var (s1, out) := f(s, xs[0], base);
      var (s2, rest) := Fold(f, xs[1..], s1, base + 1);
      (s2, out + rest)
  }

  function Reader(kind: Kind): (f: (Scan, Slot, nat) -> (Scan, seq<Record>)) {
    (s: Scan, e: Slot, index: nat) => (Step(s, e, index), Emit(s, e, index, kind))
  }

  /** The final scan and the records of `slots`, none of which is an end marker, starting at slot number `base`. */
  function Walk(slots: seq<Slot>, s: Scan, base: nat, kind: Kind): (r: (Scan, seq<Record>)) {
    Fold(Reader(kind), slots, s, base)
  }

  /** Index of the first end marker. */
  function End(slots: seq<Slot>): (n: nat)
    ensures n <= |slots|
    ensures n < |slots| ==> slots[n][0] == 0
    ensures forall i :: 0 <= i < n ==> slots[i][0] != 0
  { if slots == [] || slots[0][0] == 0 then 0 else 1 + End(slots[1..]) }

  function Records(slots: seq<Slot>, kind: Kind): (rs: seq<Record>) {
    Walk(slots[..End(slots)], Idle, 0, kind).1
  }

  // ---------------------------------------------------------------- reading what was written

  lemma {:induction false} FoldConcat<S, E, R>(f: (S, E, nat) -> (S, seq<R>), a: seq<E>, b: seq<E>, s: S, base: nat)
    ensures var (sa, ra) := Fold(f, a, s, base);
      var (sb, rb) := Fold(f, b, sa, base + |a|);
      Fold(f, a + b, s, base) == (sb, ra + rb)
    decreases |a|
  {
    if a == [] {
      assert a + b == b && [] + Fold(f, b, s, base).1 == Fold(f, b, s, base).1;
    } else {
      var (s1, out) := f(s, a[0], base);
      FoldConcat(f, a[1..], b, s1, base + 1);
      assert (a + b)[1..] == a[1..] + b && base + 1 + |a[1..]| == base + |a|;
      var (sa, ra) := Fold(f, a[1..], s1, base + 1);
      var (sb, rb) := Fold(f, b, sa, base + |a|);
      assert out + (ra + rb) == (out + ra) + rb;
    }
  }

  /** Reading a directory part by part. */
  lemma WalkConcat(a: seq<Slot>, b: seq<Slot>, s: Scan, base: nat, kind: Kind)
    ensures var (sa, ra) := Walk(a, s, base, kind);
      var (sb, rb) := Walk(b, sa, base + |a|, kind);
      Walk(a + b, s, base, kind) == (sb, ra + rb)
  {
    FoldConcat(Reader(kind), a, b, s, base);
  }

  lemma WalkOne(e: Slot, s: Scan, base: nat, kind: Kind)
    ensures Walk([e], s, base, kind) == (Step(s, e, base), Emit(s, e, base, kind))
  {
    var f := Reader(kind);
    assert Fold(f, [e][1..], f(s, e, base).0, base + 1) == (f(s, e, base).0, []);
    assert f(s, e, base).1 + [] == f(s, e, base).1;
  }

  /** The two bytes of unit `i`. */
  lemma LongUnit(first: byte, sum: byte, us: seq<nat>, i: nat)
    requires |us| == 13 && i < 13
    ensures LongSlot(first, sum, us)[UnitAt(i)] == Le16(us[i])[0]
      && LongSlot(first, sum, us)[UnitAt(i) + 1] == Le16(us[i])[1]
  {
    assert 2 * i / 2 == i && (2 * i + 1) / 2 == i && 2 * i % 2 == 0 && (2 * i + 1) % 2 == 1;
    assert UnitByte(us, 2 * i) == Le16(us[i])[0] && UnitByte(us, 2 * i + 1) == Le16(us[i])[1];
  }

  /** The 13 units of a long-name entry come back. */
  lemma Chunk(first: byte, sum: byte, us: seq<nat>)
    requires |us| == 13 && forall i :: 0 <= i < 13 ==> us[i] < 0x1_0000
    ensures SlotUnits(LongSlot(first, sum, us)) == us
  {
    var e := LongSlot(first, sum, us);
    forall i | 0 <= i < 13 ensures SlotUnits(e)[i] == us[i] {
      LongUnit(first, sum, us, i);
      Le16At(us[i]);
    }
  }

  lemma OrdinalByte(e: Slot, k: nat, top: bool)
    requires 1 <= k <= 20 && e[0] as nat == k + if top then 64 else 0
    ensures Top(e) == top && Ordinal(e) == k && !Spare(e)
  {
    var b := e[0] as nat;
    DivMod(b, 32, if top then 2 else 0, k);
    DivMod(b, 64, if top then 1 else 0, k);
    DivMod(b, 128, 0, b);
  }

  /** A long-name entry in place continues the scan. */
  lemma LongStepNext(e: Slot, s: Scan, k: nat, total: nat, sum: byte, start: nat, us: seq<nat>, index: nat)
    requires 1 <= k <= total <= 20 && Ordinal(e) == k && !Spare(e)
    requires e[0] != DELETED && e[11] == LFN && e[12] == 0 && e[13] == sum && U16(e, 26) == 0
    requires if Top(e) then k == total && start == index && us == [] else s == Part(total, k, sum, start, us)
    ensures Step(s, e, index) == Part(total, k - 1, sum, start, SlotUnits(e) + us)
  {}

  ghost predicate Words16(p: seq<nat>) { forall i :: 0 <= i < |p| ==> p[i] < 0x1_0000 }

  /** The scan before the entry with ordinal `k`, when the ordinals above it have been read. */
  ghost predicate Expects(s: Scan, p: seq<nat>, k: nat, top: bool, sum: byte, total: nat, start: nat, index: nat) {
    && k <= total <= 20 && |p| == 13 * total && Words16(p)
    && if top then 1 <= k == total && start == index else s == Part(total, k, sum, start, p[13 * k..])
  }

  /** The first byte of a long-name entry: its ordinal, and bit 6 in the last part. */
  function OrdinalMark(k: nat, top: bool): (b: byte)
    requires k <= 20
    ensures b as nat == k + if top then 64 else 0
  { if top then (k + 64) as byte else k as byte }

  function LongEntry(p: seq<nat>, k: nat, top: bool, sum: byte): (e: Slot)
    requires 1 <= k <= 20 && |p| >= 13 * k
  { LongSlot(OrdinalMark(k, top), sum, p[13 * (k - 1)..13 * k]) }

  /** What the entry with ordinal `k` holds. */
  ghost predicate LongFields(e: Slot, k: nat, top: bool, sum: byte, us: seq<nat>) {
    && 1 <= k <= 20 && e[0] as nat == k + (if top then 64 else 0)
    && e[11] == LFN && e[12] == 0 && e[13] == sum && U16(e, 26) == 0 && SlotUnits(e) == us
  }

  lemma LongSlotFields(first: byte, k: nat, top: bool, sum: byte, us: seq<nat>)
    requires 1 <= k <= 20 && |us| == 13 && Words16(us) && first as nat == k + if top then 64 else 0
    ensures LongFields(LongSlot(first, sum, us), k, top, sum, us)
  {
    Chunk(first, sum, us);
  }

  /** The units of the entry with ordinal `k`. */
  function Part13(p: seq<nat>, k: nat): (us: seq<nat>)
    requires 1 <= k && |p| >= 13 * k
  { p[13 * (k - 1)..13 * k] }

  /** The entries with ordinals k, k - 1, ..., 1. */
  ghost predicate AllLong(es: seq<Slot>, p: seq<nat>, k: nat, top: bool, sum: byte)
    requires |p| >= 13 * k
  { |es| == k && forall i :: 0 <= i < k ==> LongFields(es[i], k - i, top && i == 0, sum, Part13(p, k - i)) }

  lemma AllLongMore(e: Slot, es: seq<Slot>, p: seq<nat>, k: nat, top: bool, sum: byte)
    requires |p| >= 13 * (k + 1) && AllLong(es, p, k, false, sum) && LongFields(e, k + 1, top, sum, Part13(p, k + 1))
    ensures AllLong([e] + es, p, k + 1, top, sum)
  {
    var all := [e] + es;
    forall i | 0 <= i < k + 1 ensures LongFields(all[i], k + 1 - i, top && i == 0, sum, Part13(p, k + 1 - i)) {
      if i > 0 { assert all[i] == es[i - 1] && LongFields(es[i - 1], k - (i - 1), false, sum, Part13(p, k - (i - 1))); }
    }
  }

  lemma {:induction false} LongSlotsAll(p: seq<nat>, k: nat, top: bool, sum: byte)
    requires k <= 20 && |p| >= 13 * k && Words16(p)
    ensures AllLong(LongSlots(p, k, top, sum), p, k, top, sum)
    decreases k
  {
    if k > 0 {
      LongSlotsAll(p, k - 1, false, sum);
      LongSlotFields(OrdinalMark(k, top), k, top, sum, Part13(p, k));
      AllLongMore(LongEntry(p, k, top, sum), LongSlots(p, k - 1, false, sum), p, k - 1, top, sum);
    }
  }

  lemma LongHead(e: Slot, p: seq<nat>, k: nat, top: bool, sum: byte, s: Scan, total: nat, start: nat, index: nat,
      kind: Kind)
    requires 1 <= k && Expects(s, p, k, top, sum, total, start, index)
    requires LongFields(e, k, top, sum, Part13(p, k))
    ensures Reader(kind)(s, e, index) == (Part(total, k - 1, sum, start, p[13 * (k - 1)..]), [])
  {
    OrdinalByte(e, k, top);
    LongStepNext(e, s, k, total, sum, start, p[13 * k..], index);
    assert p[13 * (k - 1)..13 * k] + p[13 * k..] == p[13 * (k - 1)..];
  }

  /** A reader that goes through the given states and emits nothing. */
  lemma {:induction false} FoldQuiet<S, E, R>(f: (S, E, nat) -> (S, seq<R>), xs: seq<E>, states: seq<S>, base: nat)
    requires |states| == |xs| + 1 && forall i :: 0 <= i < |xs| ==> f(states[i], xs[i], base + i) == (states[i + 1], [])
    ensures Fold(f, xs, states[0], base) == (states[|xs|], [])
    decreases |xs|
  {
    if xs != [] {
      assert f(states[0], xs[0], base + 0) == (states[1], []);
      forall i | 0 <= i < |xs[1..]| ensures f(states[1..][i], xs[1..][i], base + 1 + i) == (states[1..][i + 1], []) {
        assert f(states[i + 1], xs[i + 1], base + (i + 1)) == (states[i + 2], []);
      }
      FoldQuiet(f, xs[1..], states[1..], base + 1);
      assert [] + Fold(f, xs[1..], states[1], base + 1).1 == Fold(f, xs[1..], states[1], base + 1).1;
    }
  }

  /** The scan after `i` of the `k` entries. */
  function Passed(s: Scan, p: seq<nat>, k: nat, sum: byte, total: nat, start: nat, i: nat): (r: Scan)
    requires i <= k && |p| >= 13 * k
  { if i == 0 then s else Part(total, k - i, sum, start, p[13 * (k - i)..]) }

  lemma LongRead(es: seq<Slot>, p: seq<nat>, k: nat, top: bool, sum: byte, s: Scan, total: nat, start: nat, index: nat,
      kind: Kind)
    requires Expects(s, p, k, top, sum, total, start, index) && AllLong(es, p, k, top, sum)
    ensures Fold(Reader(kind), es, s, index) == (Part(total, 0, sum, start, p), [])
  {
    var states := seq(k + 1, i requires 0 <= i <= k => Passed(s, p, k, sum, total, start, i));
    forall i | 0 <= i < |es| ensures Reader(kind)(states[i], es[i], index + i) == (states[i + 1], []) {
      LongHead(es[i], p, k - i, top && i == 0, sum, states[i], total, start, index + i, kind);
    }
    FoldQuiet(Reader(kind), es, states, index);
    assert p[0..] == p;
  }

  lemma LongRun(p: seq<nat>, k: nat, top: bool, sum: byte, s: Scan, total: nat, start: nat, index: nat, kind: Kind)
    requires Expects(s, p, k, top, sum, total, start, index)
    ensures Walk(LongSlots(p, k, top, sum), s, index, kind) == (Part(total, 0, sum, start, p), [])
  {
    LongSlotsAll(p, k, top, sum);
    LongRead(LongSlots(p, k, top, sum), p, k, top, sum, s, total, start, index, kind);
  }

  lemma {:induction false} UnitsBound(name: Name)
    requires Text(name)
    ensures forall i :: 0 <= i < |Units(name)| ==> Units(name)[i] < 0x1_0000
    ensures (forall i :: 0 <= i < |name| ==> !Forbidden(name[i])) ==> forall i :: 0 <= i < |Units(name)| ==>
      Units(name)[i] != 0
    decreases |name|
  {
    if name != [] { UnitsBound(name[1..]); }
  }

  /** What a short entry reads as. */
  lemma ShortSlotParts(short: seq<byte>, attr: byte, first: nat, size: nat, kind: Kind)
    requires |short| == 11
    ensures var e := ShortSlot(short, attr, first, size, kind);
      && e[..11] == short && e[11] == attr && e[12] == 0 && e[0] == short[0]
      && U16(e, 26) == first % 0x1_0000 && U16(e, 20) == ClusterHigh(first, kind) % 0x1_0000
      && U32(e, 28) == size % 0x1_0000_0000
  {
    var e := ShortSlot(short, attr, first, size, kind);
    var a, b, c := Le16(ClusterHigh(first, kind)), Le16(first), Le32(size);
    assert e[..11] == short;
    assert e[20..22] == a && e[26..28] == b && e[28..32] == c;
    assert U16(e, 26) == U16(b, 0) && U16(e, 20) == U16(a, 0);
    assert U16(e, 28) == U16(c, 0) && U16(e, 30) == U16(c, 2);
    Halves(size);
  }

  lemma Halves(v: nat)
    ensures v % 0x1_0000 + 0x1_0000 * (v / 0x1_0000 % 0x1_0000) == v % 0x1_0000_0000
  {
    var q := v / 0x1_0000;
    DivMod(v, 0x1_0000_0000, q / 0x1_0000, v % 0x1_0000 + 0x1_0000 * (q % 0x1_0000));
  }

  ghost predicate Fits(first: nat, size: nat, kind: Kind) {
    first < (if kind == Fat32 then 0x1000_0000 else 0x1_0000) && size < 0x1_0000_0000
  }

  lemma ShortSlotCluster(short: seq<byte>, attr: byte, first: nat, size: nat, kind: Kind)
    requires |short| == 11 && Fits(first, size, kind)
    ensures Cluster(ShortSlot(short, attr, first, size, kind), kind) == first
  {
    ShortSlotParts(short, attr, first, size, kind);
    if kind == Fat32 {
      var q := first / 0x1_0000;
      DivMod(q, 0x1_0000, 0, q);
      DivMod(q, 0x1000, 0, q);
    } else {
      DivMod(first, 0x1_0000, 0, first);
    }
  }

  /** A short name the driver may write: not an end marker, not deleted, not a dot entry. */
  ghost predicate GoodShort(short: seq<byte>) {
    |short| == 11 && short[0] != 0 && short[0] != DELETED && Alias(short, 0) != [46] && Alias(short, 0) != [46, 46]
  }

  ghost predicate GoodAttr(attr: byte) { attr != LFN && attr / 8 % 2 == 0 }

  lemma PaddedParts(u: seq<nat>, m: nat)
    requires |u| <= m && forall i :: 0 <= i < |u| ==> u[i] != 0
    ensures var p := Padded(u, m); FirstZero(p) == |u| && p[..|u|] == u && forall i :: |u| < i < |p| ==> p[i] == 0xffff
  {
    var p := Padded(u, m);
    var len := FirstZero(p);
    assert |u| < |p| ==> p[|u|] == 0;
    assert forall i :: 0 <= i < |u| ==> p[i] == u[i];
  }

  /** The long name survives encoding unless it contains U+FFFF, which the reader takes for padding. */
  lemma LongNameExactly(name: Name, n: nat)
    requires Text(name) && ValidName(name) && n == (|Units(name)| + 12) / 13
    ensures LongName(Padded(Units(name), 13 * n)) == if 0xffff in Units(name) then None else Some(name)
  {
    var u := Units(name);
    assert |u| <= 13 * n by { DivMod(|u| + 12, 13, n, (|u| + 12) % 13); }
    assert forall i :: 0 <= i < |u| ==> u[i] != 0 by { UnitsBound(name); }
    PaddedParts(u, 13 * n);
    DecodeUnits(name);
  }

  /** The record an entry set stands for when its short entry is slot number `offset`. */
  ghost function Written(name: Name, short: seq<byte>, first: nat, size: nat, attr: byte, base: nat): (r: Record)
    requires |short| == 11
  {
    var n := LongCount(name, short);
    var kept := n > 0 && 0xffff !in Units(name);
    Record(if kept then name
      else Alias(short, 0), Alias(short, 0), short, attr, first, size, base + n, if kept then base else base + n)
  }

  /** The scan after the long-name entries of a set. */
  ghost function AfterLongs(name: Name, short: seq<byte>, base: nat): (s: Scan)
    requires |short| == 11
  {
    var n := LongCount(name, short);
    if n > 0 then Part(n, 0, Checksum(short) as byte, base, Padded(Units(name), 13 * n)) else Idle
  }

  lemma WalkLongs(name: Name, short: seq<byte>, kind: Kind, base: nat)
    requires Text(name) && ValidName(name) && |short| == 11
    ensures var n := LongCount(name, short);
      Walk(LongSlots(Padded(Units(name), 13 * n), n, true, Checksum(short) as byte), Idle, base, kind)
        == (AfterLongs(name, short, base), [])
  {
    var n := LongCount(name, short);
    if n > 0 {
      UnitsBound(name);
      LongRun(Padded(Units(name), 13 * n), n, true, Checksum(short) as byte, Idle, n, base, base, kind);
    }
  }

  lemma EmitShort(name: Name, short: seq<byte>, first: nat, size: nat, attr: byte, kind: Kind, base: nat)
    requires Text(name) && ValidName(name) && GoodShort(short) && GoodAttr(attr) && Fits(first, size, kind)
    ensures var e, at, s := ShortSlot(short, attr, first, size, kind), base + LongCount(name, short), AfterLongs(name,
      short, base);
      Emit(s, e, at, kind) == [Written(name, short, first, size, attr, base)] && Step(s, e, at) == Idle
  {
    var n := LongCount(name, short);
    ShortSlotParts(short, attr, first, size, kind);
    ShortSlotCluster(short, attr, first, size, kind);
    DivMod(size, 0x1_0000_0000, 0, size);
    if n > 0 { LongNameExactly(name, n); }
  }

  lemma WalkLast(longs: seq<Slot>, e: Slot, s: Scan, s1: Scan, s2: Scan, out: seq<Record>, base: nat, kind: Kind)
    requires Walk(longs, s, base, kind) == (s1, []) && Step(s1, e, base + |longs|) == s2
      && Emit(s1, e, base + |longs|, kind) == out
    ensures Walk(longs + [e], s, base, kind) == (s2, out)
  {
    WalkOne(e, s1, base + |longs|, kind);
    WalkConcat(longs, [e], s, base, kind);
    assert [] + out == out;
  }

  /** Reading back an entry set anywhere in a directory: exactly one record, and nothing left over. */
  lemma WalkEntrySet(name: Name, short: seq<byte>, first: nat, size: nat, attr: byte, kind: Kind, base: nat)
    requires Text(name) && ValidName(name) && GoodShort(short) && GoodAttr(attr) && Fits(first, size, kind)
    ensures Walk(EntrySet(name, short, first, size, attr, kind), Idle, base, kind)
      == (Idle, [Written(name, short, first, size, attr, base)])
  {
    var n := LongCount(name, short);
    var longs := LongSlots(Padded(Units(name), 13 * n), n, true, Checksum(short) as byte);
    var e := ShortSlot(short, attr, first, size, kind);
    var s, out := AfterLongs(name, short, base), [Written(name, short, first, size, attr, base)];
    assert |longs| == n;
    assert Walk(longs, Idle, base, kind) == (s, []) by { WalkLongs(name, short, kind, base); }
    assert Step(s, e, base + |longs|) == Idle
      && Emit(s, e, base + |longs|, kind) == out by { EmitShort(name, short, first, size, attr, kind, base); }
    WalkLast(longs, e, Idle, s, Idle, out, base, kind);
  }

  lemma {:induction false} NoEnd(es: seq<Slot>)
    requires forall i :: 0 <= i < |es| ==> es[i][0] != 0
    ensures End(es) == |es|
  {
    if es != [] { NoEnd(es[1..]); }
  }

  lemma {:induction false} LongSlotsLive(p: seq<nat>, k: nat, top: bool, sum: byte)
    requires |p| >= 13 * k && k <= 20
    ensures forall i :: 0 <= i < k ==> IsLong(LongSlots(p, k, top, sum)[i]) && LongSlots(p, k, top, sum)[i][0] != 0
  {
    if k > 0 { LongSlotsLive(p, k - 1, false, sum); }
  }

  /** Every slot of an entry set is in use, and all but the last are long-name entries. */
  lemma EntrySetLive(name: Name, short: seq<byte>, first: nat, size: nat, attr: byte, kind: Kind)
    requires |Units(name)| <= 255 && GoodShort(short) && attr != LFN
    ensures var es := EntrySet(name, short, first, size, attr, kind);
      && (forall i :: 0 <= i < |es| ==> es[i][0] != 0)
      && (forall i :: 0 <= i < |es| - 1 ==> IsLong(es[i]))
      && IsShort(es[|es| - 1])
  {
    var n := LongCount(name, short);
    LongSlotsLive(Padded(Units(name), 13 * n), n, true, Checksum(short) as byte);
    ShortSlotParts(short, attr, first, size, kind);
  }

  /**
    Round trip: the directory made of an entry set holds exactly one record, with
    the alias, short name, attribute, cluster and size given; its name is the name
    given if and only if that name contains no U+FFFF (or is its own alias).
   */
  lemma RoundTrip(name: Name, short: seq<byte>, first: nat, size: nat, attr: byte, kind: Kind)
    requires Text(name) && ValidName(name) && GoodShort(short) && GoodAttr(attr) && Fits(first, size, kind)
    ensures var rs := Records(EntrySet(name, short, first, size, attr, kind), kind);
      && |rs| == 1 && rs[0].alias == Alias(short, 0) && rs[0].short == short && rs[0].attr == attr
      && rs[0].cluster == first && rs[0].size == size
      && (rs[0].name == name <==> 0xffff !in Units(name) || name == Alias(short, 0))
  {
    var es := EntrySet(name, short, first, size, attr, kind);
    EntrySetLive(name, short, first, size, attr, kind);
    NoEnd(es);
    assert es[..|es|] == es;
    WalkEntrySet(name, short, first, size, attr, kind, 0);
  }
}
