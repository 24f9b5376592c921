/**
  The format on disk, byte by byte, as the Microsoft FAT Specification gives it
  (sections 4, 6 and 7): what the packed table and the directory slots of this
  driver mean to any other reader.
 */
module FatFormat {
  import opened Base
  import opened FatTable
  import opened FatNames
  import opened FatShort

  /** A 12-bit table keeps two entries in three bytes. */
  lemma TwelveBits(fat: seq<byte>, k: nat)
    requires 3 * k + 3 <= |fat|
    ensures Inside(Fat12, fat, 2 * k) && Inside(Fat12, fat, 2 * k + 1)
    ensures Get(Fat12, fat, 2 * k) == fat[3 * k] as nat + 256 * (fat[3 * k + 1] as nat % 16)
    ensures Get(Fat12, fat, 2 * k + 1) == fat[3 * k + 1] as nat / 16 + 16 * fat[3 * k + 2] as nat
  {
    DivMod(2 * k, 2, k, 0);
    DivMod(2 * k + 1, 2, k, 1);
    Bytes12(fat, 2 * k);
    Bytes12(fat, 2 * k + 1);
  }

  /** Entries of 16 and of 28 bits, low byte first. */
  lemma WideEntries(fat: seq<byte>, n: nat)
    ensures 2 * n + 2 <= |fat| ==>
      Inside(Fat16, fat, n) && Get(Fat16, fat, n) == fat[2 * n] as nat + 0x100 * fat[2 * n + 1] as nat
    ensures 4 * n + 4 <= |fat| ==>
      Inside(Fat32, fat, n)
      && Get(Fat32, fat, n) == fat[4 * n] as nat + 0x100 * fat[4 * n + 1] as nat + 0x1_0000 * fat[4 * n + 2] as nat
           + 0x100_0000 * (fat[4 * n + 3] as nat % 16)
  {
    if 4 * n + 4 <= |fat| {
      var a, b := fat[4 * n + 3] as nat / 16, fat[4 * n + 3] as nat % 16;
      DivMod(U32(fat, 4 * n), 0x1000_0000, a,
        U16(fat, 4 * n) + 0x1_0000 * fat[4 * n + 2] as nat + 0x100_0000 * b);
    }
  }

  /** The marks that end a chain, and the one this driver writes. */
  lemma EndMarks(v: nat)
    ensures IsEof(Fat12, v) <==> v >= 0xff8
    ensures IsEof(Fat16, v) <==> v >= 0xfff8
    ensures IsEof(Fat32, v) <==> v >= 0xfff_fff8
    ensures Eof(Fat12) == 0xfff && Eof(Fat16) == 0xffff && Eof(Fat32) == 0xfff_ffff
  {}

  /** A short entry: name, attribute at 11, cluster at 26 and 20, size at 28. */
  lemma ShortBytes(short: seq<byte>, attr: byte, first: nat, size: nat, kind: Kind)
    requires |short| == 11 && size < 0x1_0000_0000 && first < if kind == Fat32 then 0x1_0000_0000 else 0x1_0000
    ensures var e := ShortSlot(short, attr, first, size, kind);
      && e[..11] == short && e[11] == attr && e[12..20] == [0, 0, 0, 0, 0x21, 0, 0x21, 0]
      && e[22..26] == [0, 0, 0x21, 0]
      && first == e[26] as nat + 0x100 * e[27] as nat + 0x1_0000 * e[20] as nat + 0x100_0000 * e[21] as nat
      && size == e[28] as nat + 0x100 * e[29] as nat + 0x1_0000 * e[30] as nat + 0x100_0000 * e[31] as nat
  {
    ShortSlotParts(short, attr, first, size, kind);
  }

  /** What is read from a short entry that no long name goes with. */
  lemma RecordBytes(e: Slot, index: nat, kind: Kind)
    ensures var r := ShortRecord(Idle, e, index, kind);
      && r.short == e[..11] && r.attr == e[11] && r.offset == index == r.start && r.name == r.alias
      && r.size == e[28] as nat + 0x100 * e[29] as nat + 0x1_0000 * e[30] as nat + 0x100_0000 * e[31] as nat
      && (kind != Fat32 ==> r.cluster == e[26] as nat + 0x100 * e[27] as nat)
      && (kind == Fat32 ==>
        r.cluster == e[26] as nat + 0x100 * e[27] as nat + 0x1_0000 * e[20] as nat + 0x100_0000 * (e[21] as nat % 16))
  {
    var a, b := e[21] as nat / 16, e[21] as nat % 16;
    DivMod(U16(e, 20), 0x1000, a, e[20] as nat + 256 * b);
  }

  /** Where the thirteen units of a long entry are. */
  function Place(i: nat): (n: nat)
    requires i < 13
  { [1, 3, 5, 7, 9, 14, 16, 18, 20, 22, 24, 28, 30][i] }

  /** A long entry: ordinal with 0x40 on the first of its set, attribute 0x0f, checksum at 13, and its units. */
  lemma LongBytes(p: seq<nat>, k: nat, top: bool, sum: byte, i: nat)
    requires 0 < k <= 20 && |p| >= 13 * k && i < 13 && Words16(p)
    ensures var e := LongSlots(p, k, top, sum)[0];
      && e[0] as nat == (if top then 0x40 + k else k) && e[11] == 0x0f && e[12] == 0 && e[13] == sum
      && e[26] == 0 && e[27] == 0 && Place(i) < 31
      && p[13 * (k - 1) + i] == e[Place(i)] as nat + 0x100 * e[Place(i) + 1] as nat
  {
    var us := Part13(p, k);
    assert Place(i) == UnitAt(i) && us[i] == p[13 * (k - 1) + i];
    LongSlotFields(OrdinalMark(k, top), k, top, sum, us);
    assert SlotUnits(LongSlot(OrdinalMark(k, top), sum, us))[i] == us[i];
  }

  /** What one more long entry does to the name being read. */
  lemma LongReads(s: Scan, e: Slot, index: nat)
    requires s.Part? ==> s.remaining <= 20
    ensures var fine, n := e[12] == 0 && e[26] == 0 && e[27] == 0, e[0] as nat % 0x40;
      LongStep(s, e, index) ==
      if fine && 0x41 <= e[0] <= 0x54 then Part(n, n - 1, e[13], index, SlotUnits(e))
      else if fine && 1 <= e[0] <= 20 && s.Part? && s.remaining == n && s.sum == e[13] then
        Part(s.total, n - 1, s.sum, s.start, SlotUnits(e) + s.units)
      else Idle
  {
    assert SlotUnits(e) + [] == SlotUnits(e);
    var x := e[0] as nat;
    DivMod(x, 32, x / 32, x % 32);
    DivMod(x, 64, x / 64, x % 64);
  }

  /** A surrogate pair stands for the character it was made from. */
  lemma PairBack(high: nat, low: nat)
    requires High(high) && Low(low)
    ensures var c := 0x1_0000 + (high - 0xd800) * 0x400 + (low - 0xdc00); Scalar(c) && Encode(c) == [high, low]
  {
    DivMod((high - 0xd800) * 0x400 + (low - 0xdc00), 0x400, high - 0xd800, low - 0xdc00);
  }

  lemma UnitsCons(c: nat, name: Name, u: seq<nat>)
    requires Scalar(c) && Text(name) && u == Encode(c) + Units(name)
    ensures Text([c] + name) && Units([c] + name) == u
  {
    assert ([c] + name)[1..] == name;
  }

  lemma PairCons(u: seq<nat>, name: Name)
    requires |u| >= 2 && High(u[0]) && Low(u[1]) && Text(name) && Units(name) == u[2..]
    ensures var c := 0x1_0000 + (u[0] - 0xd800) * 0x400 + (u[1] - 0xdc00); Text([c] + name) && Units([c] + name) == u
  {
    PairBack(u[0], u[1]);
    assert u == [u[0], u[1]] + u[2..];
    UnitsCons(0x1_0000 + (u[0] - 0xd800) * 0x400 + (u[1] - 0xdc00), name, u);
  }

  lemma SingleCons(u: seq<nat>, name: Name)
    requires u != [] && u[0] < 0x1_0000 && !High(u[0]) && !Low(u[0]) && Text(name) && Units(name) == u[1..]
    ensures Text([u[0]] + name) && Units([u[0]] + name) == u
  {
    UnitsCons(u[0], name, u);
  }

  /** Only well-formed UTF-16 is read as a name, and as the name it is. */
  lemma {:induction false} DecodeOnly(u: seq<nat>)
    requires Words16(u) && Decode(u).Some?
    ensures Text(Decode(u).value) && Units(Decode(u).value) == u
    decreases |u|
  {
    if u != [] {
      if High(u[0]) || Low(u[0]) {
        DecodeOnly(u[2..]);
        PairCons(u, Decode(u[2..]).value);
      } else {
        DecodeOnly(u[1..]);
        SingleCons(u, Decode(u[1..]).value);
      }
    }
  }

  /** A long name that is read: valid, of at most 255 units, ended by a zero if there is room, and 0xffff after it. */
  lemma LongNameOnly(us: seq<nat>)
    requires Words16(us) && LongName(us).Some?
    ensures var name := LongName(us).value; var n := |Units(name)|;
      && Text(name) && ValidName(name) && 0 < n <= 255 && n <= |us| && us[..n] == Units(name)
      && (n < |us| ==> us[n] == 0) && (forall i :: n < i < |us| ==> us[i] == 0xffff) && 0xffff !in us[..n]
  {
    DecodeOnly(us[..FirstZero(us)]);
  }

  /** The names that can be given to a file. */
  lemma ValidNames(name: Name)
    ensures ValidName(name) <==>
      && 0 < |name| && |Units(name)| <= 255
      && (forall i :: 0 <= i < |name| ==> name[i] >= 32 && !Punctuation(name[i]))
      && name[|name| - 1] != ' ' as nat && name[|name| - 1] != '.' as nat
  {}

  ghost predicate Punctuation(c: nat) {
    c < 128 && c as char in {'"', '*', '/', ':', '<', '>', '?', '\\', '|'}
  }

  /** Padded parts of a short name. */
  ghost predicate Unpadded(p: seq<byte>, room: nat) {
    |p| <= room && (p != [] ==> p[|p| - 1] != ' ' as byte) && forall i :: 0 <= i < |p| ==> p[i] < 128
  }

  ghost function Shown(p: seq<byte>, lower: bool): (t: Name) {
    seq(|p|, i requires 0 <= i < |p| =>
      if lower && 'A' as byte <= p[i] <= 'Z' as byte then p[i] as nat + 32 else p[i] as nat)
  }

  lemma TrimmedIs(p: seq<byte>, room: nat)
    requires Unpadded(p, room)
    ensures Trimmed(Fill(p, room)) == |p| && Fill(p, room)[..|p|] == p
  {
    var f := Fill(p, room);
    assert p != [] ==> f[|p| - 1] == p[|p| - 1];
  }

  lemma ShownIs(p: seq<byte>, lower: bool)
    requires forall i :: 0 <= i < |p| ==> p[i] < 128
    ensures PartText(p, lower) == Shown(p, lower)
  {}

  /** The alias of an entry: its parts without their padding, in lower case as bits 3 and 4 of the case byte say. */
  lemma AliasReads(base: seq<byte>, ext: seq<byte>, case_: byte)
    requires Unpadded(base, 8) && Unpadded(ext, 3) && base != [] && base[0] != 5
    ensures Alias(Fill(base, 8) + Fill(ext, 3), case_) ==
      Shown(base, case_ as nat / 8 % 2 == 1)
      + if ext == [] then [] else ['.' as nat] + Shown(ext, case_ as nat / 16 % 2 == 1)
  {
    var short := Fill(base, 8) + Fill(ext, 3);
    assert short[..8] == Fill(base, 8) && short[8..] == Fill(ext, 3);
    TrimmedIs(base, 8);
    TrimmedIs(ext, 3);
    ShownIs(base, case_ / 8 % 2 == 1);
    ShownIs(ext, case_ / 16 % 2 == 1);
  }

  /** The characters of a short name: letters in upper case, digits and some signs as they are, anything else as _. */
  lemma ShortChars(c: nat)
    ensures ShortChar(c) as nat ==
      if 'a' as nat <= c <= 'z' as nat then c - 32
      else if c < 128 && (('A' <= c as char <= 'Z') || ('0' <= c as char <= '9')
        || c as char in {'$', '%', '\'', '-', '_', '@', '~', '`', '!', '(', ')', '{', '}', '^', '#', '&'}) then c
      else '_' as nat
  {}

  /** A numbered short name leaves out spaces and dots, and keeps everything else in order. */
  lemma {:induction false} CleanMore(s: Name, c: nat)
    ensures Clean(s + [c]) == Clean(s) + if c == ' ' as nat || c == '.' as nat then [] else [ShortChar(c)]
  {
    if s == [] {
      assert s + [c] == [c];
    } else {
      assert (s + [c])[1..] == s[1..] + [c];
      CleanMore(s[1..], c);
    }
  }

  /** How a reader tells slots apart: 0 ends the directory, 0xe5 is deleted, attribute 0x0f is part of a long name. */
  lemma SlotKinds(e: Slot)
    ensures IsLong(e) <==> e[0] != 0xe5 && e[11] == 0x0f
    ensures IsShort(e) <==> e[0] != 0xe5 && e[11] != 0x0f
    ensures End([e]) == 0 <==> e[0] == 0
  {}
}
