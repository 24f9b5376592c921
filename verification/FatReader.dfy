/**
  The loops that read and write directory slots (src/fs/fat.rs, records and
  entry_set), over a fixed buffer of 260 name units and over the bytes of one
  slot, proved equal to the reading and writing functions of FatNames.
 */
module FatReader {
  import opened Base
  import opened FatTable
  import opened FatNames

  const MAX_UNITS := 260

  // ---------------------------------------------------------------- reading

  /** The scan the reader's variables stand for: the units read so far end the buffer's first 13 * `total`. */
  ghost predicate Tracks(buffer: array<nat>, remaining: nat, total: nat, sum: byte, start: nat, s: Scan)
    reads buffer
  {
    && buffer.Length == MAX_UNITS && remaining <= total <= 20
    && if total == 0 then s == Idle else s == Part(total, remaining, sum, start, buffer[13 * remaining..13 * total])
  }

  method StoreUnits(buffer: array<nat>, at: nat, us: seq<nat>)
    requires at + |us| <= buffer.Length
    modifies buffer
    ensures buffer[..] == old(buffer[..at]) + us + old(buffer[at + |us|..])
  {
    for i := 0 to |us|
      invariant buffer[..] == old(buffer[..at]) + us[..i] + old(buffer[at + i..])
    {
      buffer[at + i] := us[i];
    }
  }

  lemma StoredBefore(was: seq<nat>, at: nat, us: seq<nat>, end: nat, now: seq<nat>)
    requires at + |us| <= end <= |was| && now == was[..at] + us + was[at + |us|..]
    ensures now[at..end] == us + was[at + |us|..end]
  {}

  /** One long-name slot: it opens a name, continues it, or spoils it. */
  method ReadLong(buffer: array<nat>, e: Slot, index: nat, remaining: nat, total: nat, sum: byte, start: nat,
      ghost s: Scan)
    returns (remaining': nat, total': nat, sum': byte, start': nat)
    requires Tracks(buffer, remaining, total, sum, start, s)
    modifies buffer
    ensures Tracks(buffer, remaining', total', sum', start', LongStep(s, e, index))
  {
    remaining', total', sum', start' := remaining, total, sum, start;
    var ordinal := Ordinal(e);
    if Top(e) {
      remaining', total' := 0, 0;
      if 0 < ordinal <= 20 && !Spare(e) {
        forall i | 0 <= i < buffer.Length { buffer[i] := 0xffff; }
        remaining', total', sum', start' := ordinal, ordinal, e[13], index;
      }
    }
    if remaining' == 0 || ordinal != remaining' || e[13] != sum' || e[12] != 0 || U16(e, 26) != 0 || Spare(e) {
      remaining', total' := 0, 0;
      return;
    }
    ghost var was := buffer[..];
    assert was[13 * ordinal..13 * total'] == buffer[13 * ordinal..13 * total'];
    StoreUnits(buffer, 13 * (ordinal - 1), SlotUnits(e));
    StoredBefore(was, 13 * (ordinal - 1), SlotUnits(e), 13 * total', buffer[..]);
    remaining' := remaining' - 1;
    assert buffer[..][13 * remaining'..13 * total'] == buffer[13 * remaining'..13 * total'];
  }

  /** What has been read after the first `i` slots. */
  ghost predicate Scanned(slots: seq<Slot>, i: nat, kind: Kind, s: Scan, out: seq<Record>) {
    i <= |slots| && (forall j :: 0 <= j < i ==> slots[j][0] != 0) && Walk(slots[..i], Idle, 0, kind) == (s, out)
  }

  lemma ScannedNext(slots: seq<Slot>, i: nat, kind: Kind, s: Scan, out: seq<Record>)
    requires i < |slots| && slots[i][0] != 0 && Scanned(slots, i, kind, s, out)
    ensures Scanned(slots, i + 1, kind, Step(s, slots[i], i), out + Emit(s, slots[i], i, kind))
  {
    assert slots[..i + 1] == slots[..i] + [slots[i]];
    WalkConcat(slots[..i], [slots[i]], Idle, 0, kind);
    WalkOne(slots[i], s, i, kind);
  }

  lemma ScannedAll(slots: seq<Slot>, i: nat, kind: Kind, s: Scan, out: seq<Record>)
    requires Scanned(slots, i, kind, s, out) && (i < |slots| ==> slots[i][0] == 0)
    ensures out == Records(slots, kind)
  {
    assert End(slots) == i;
  }

  /** The name of a short slot and the slot it starts at, given what was read before it. */
  method ReadShort(buffer: array<nat>, e: Slot, index: nat, remaining: nat, total: nat, sum: byte, start: nat,
      kind: Kind, ghost s: Scan) returns (r: Record)
    requires Tracks(buffer, remaining, total, sum, start, s)
    ensures r == ShortRecord(s, e, index, kind)
  {
    var short := e[..11];
    var alias := Alias(short, e[12]);
    var name, first := alias, index;
    if total > 0 && remaining == 0 && sum as nat == Checksum(short) {
      var long := LongName(buffer[..13 * total]);
      if long.Some? { name, first := long.value, start; }
    }
    r := Record(name, alias, short, e[11], Cluster(e, kind), U32(e, 28), index, first);
  }

  /** One slot that is no end marker: what it adds to the listing, and the variables after it. */
  method ReadSlot(buffer: array<nat>, e: Slot, index: nat, remaining: nat, total: nat, sum: byte, start: nat,
      kind: Kind, ghost s: Scan)
    returns (out: seq<Record>, remaining': nat, total': nat, sum': byte, start': nat, ghost s': Scan)
    requires Tracks(buffer, remaining, total, sum, start, s)
    modifies buffer
    ensures Tracks(buffer, remaining', total', sum', start', s') && s' == Step(s, e, index)
      && out == Emit(s, e, index, kind)
  {
    out, s' := [], Step(s, e, index);
    if IsLong(e) {
      remaining', total', sum', start' := ReadLong(buffer, e, index, remaining, total, sum, start, s);
    } else {
      if e[0] != DELETED {
        var record := ReadShort(buffer, e, index, remaining, total, sum, start, kind, s);
        if !Hidden(e) { out := [record]; }
      }
      remaining', total', sum', start' := 0, 0, sum, start;
    }
  }

  /** records: the entries of a directory, up to its end marker. */
  method ReadRecords(slots: seq<Slot>, kind: Kind) returns (rs: seq<Record>)
    ensures rs == Records(slots, kind)
  {
    rs := [];
    var buffer := new nat[MAX_UNITS](_ => 0xffff);
    var remaining, total, sum: byte, start := 0, 0, 0, 0;
    ghost var s := Idle;
    var i := 0;
    while i < |slots| && slots[i][0] != 0
      invariant 0 <= i <= |slots| && Scanned(slots, i, kind, s, rs)
      invariant fresh(buffer) && Tracks(buffer, remaining, total, sum, start, s)
    {
      ScannedNext(slots, i, kind, s, rs);
      var out;
      out, remaining, total, sum, start, s := ReadSlot(buffer, slots[i], i, remaining, total, sum, start, kind, s);
      rs := rs + out;
      i := i + 1;
    }
    ScannedAll(slots, i, kind, s, rs);
  }

  // ---------------------------------------------------------------- writing

  method WriteLong(first: byte, sum: byte, us: seq<nat>) returns (e: Slot)
    requires |us| == 13
    ensures e == LongSlot(first, sum, us)
  {
    var b := new byte[32](_ => 0);
    b[0], b[11], b[13] := first, LFN, sum;
    for i := 0 to 13
      invariant b[0] == first && b[11] == LFN && b[12] == 0 && b[13] == sum && b[26] == 0 && b[27] == 0
      invariant forall k :: 0 <= k < i ==> b[UnitAt(k)] == Le16(us[k])[0] && b[UnitAt(k) + 1] == Le16(us[k])[1]
    {
      var w := Le16(us[i]);
      b[UnitAt(i)], b[UnitAt(i) + 1] := w[0], w[1];
    }
    e := b[..];
    ghost var want := LongSlot(first, sum, us);
    forall k | 0 <= k < 13 ensures e[UnitAt(k)] == want[UnitAt(k)] && e[UnitAt(k) + 1] == want[UnitAt(k) + 1] {
      LongUnit(first, sum, us, k);
    }
    SameSlot(e, want);
  }

  /** The fixed bytes and the 13 units make up a long-name slot. */
  lemma SameSlot(e: Slot, f: Slot)
    requires e[0] == f[0] && e[11] == f[11] && e[12] == f[12] && e[13] == f[13] && U16(e, 26) == U16(f, 26) == 0
    requires forall k :: 0 <= k < 13 ==> e[UnitAt(k)] == f[UnitAt(k)] && e[UnitAt(k) + 1] == f[UnitAt(k) + 1]
    ensures e == f
  {
    forall j | 0 <= j < 32 ensures e[j] == f[j] {
      var k := if j < 11 then (j - 1) / 2 else if j < 26 then (j - 4) / 2 else (j - 6) / 2;
      if 1 <= j < 11 || 14 <= j < 26 || 28 <= j {
        assert UnitAt(k) == j || UnitAt(k) + 1 == j;
      }
    }
  }

  /** The 13 units of the entry with ordinal `k`: the name's own, then a zero, then 0xffff. */
  function Share(units: seq<nat>, k: nat): (us: seq<nat>)
    requires 1 <= k
    ensures |us| == 13
  {
    seq(13, j requires 0 <= j < 13 => var at := 13 * (k - 1) + j;
      if at < |units| then units[at] else if at == |units| then 0 else 0xffff)
  }

  lemma ShareOf(units: seq<nat>, k: nat, n: nat)
    requires 1 <= k <= n
    ensures Share(units, k) == Padded(units, 13 * n)[13 * (k - 1)..13 * k]
  {}

  /** The entry with ordinal `k` of a name that takes `n` of them. */
  method WriteShare(units: seq<nat>, k: nat, n: nat, top: bool, sum: byte) returns (e: Slot)
    requires 1 <= k <= n <= 20
    ensures e == LongEntry(Padded(units, 13 * n), k, top, sum)
  {
    ShareOf(units, k, n);
    e := WriteLong(OrdinalMark(k, top), sum, Share(units, k));
  }

  /** `es` are the first `i` of the `n` long-name entries of a name. */
  ghost predicate Begun(es: seq<Slot>, p: seq<nat>, n: nat, i: nat, sum: byte)
    requires i <= n <= 20 && |p| == 13 * n
  {
    es + LongSlots(p, n - i, i == 0, sum) == LongSlots(p, n, true, sum)
  }

  lemma BegunNext(es: seq<Slot>, p: seq<nat>, n: nat, i: nat, sum: byte)
    requires i < n <= 20 && |p| == 13 * n && Begun(es, p, n, i, sum)
    ensures Begun(es + [LongEntry(p, n - i, i == 0, sum)], p, n, i + 1, sum)
  {
    var e, rest := LongEntry(p, n - i, i == 0, sum), LongSlots(p, n - i - 1, false, sum);
    assert LongSlots(p, n - i, i == 0, sum) == [e] + rest;
    assert es + ([e] + rest) == (es + [e]) + rest;
  }

  lemma BegunEnds(es: seq<Slot>, p: seq<nat>, n: nat, sum: byte)
    requires n <= 20 && |p| == 13 * n
    ensures Begun([], p, n, 0, sum) && (Begun(es, p, n, n, sum) ==> es == LongSlots(p, n, true, sum))
  {}

  method WriteLongs(units: seq<nat>, count: nat, sum: byte) returns (es: seq<Slot>)
    requires count <= 20
    ensures Begun(es, Padded(units, 13 * count), count, count, sum)
  {
    ghost var p := Padded(units, 13 * count);
    es := [];
    BegunEnds(es, p, count, sum);
    for i := 0 to count
      invariant Begun(es, p, count, i, sum)
    {
      BegunNext(es, p, count, i, sum);
      var e := WriteShare(units, count - i, count, i == 0, sum);
      es := es + [e];
    }
  }

  /** entry_set: the slots of a name, its long-name entries last part first, then the short entry. */
  method WriteEntrySet(name: Name, short: seq<byte>, first: nat, size: nat, attr: byte, kind: Kind)
      returns (es: seq<Slot>)
    requires |short| == 11 && |Units(name)| <= 255
    ensures es == EntrySet(name, short, first, size, attr, kind)
  {
    var count := LongCount(name, short);
    es := WriteLongs(Units(name), count, Checksum(short) as byte);
    BegunEnds(es, Padded(Units(name), 13 * count), count, Checksum(short) as byte);
    es := es + [ShortSlot(short, attr, first, size, kind)];
  }
}
