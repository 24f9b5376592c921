/**
  A directory as a sequence of slots: what inserting, replacing and deleting an
  entry set does to the records read from it, in every intermediate state the
  driver's sector writes can leave behind (src/fs/fat.rs, insert, update, delete).
 */
module FatDirectory {
  import opened Base
  import opened FatTable
  import opened FatNames

  predicate Deleted(e: Slot) { e[0] == DELETED }

  /** A slot that reads as a record. */
  predicate Shows(e: Slot) { IsShort(e) && !Hidden(e) }

  /** A slot a new entry may use when the end marker is slot `e`: deleted, or at or after the marker. */
  predicate Free(slots: seq<Slot>, e: nat, j: nat)
    requires j < |slots|
  { j >= e || Deleted(slots[j]) }

  /** `n` free slots from `a`, the first of which follows a slot in use. */
  ghost predicate FreeRun(slots: seq<Slot>, e: nat, a: nat, n: nat) {
    && 1 <= n && a + n <= |slots| && (forall j :: a <= j < a + n ==> Free(slots, e, j))
    && (a > 0 ==> !Free(slots, e, a - 1))
  }

  /** No stale record is hidden behind the end marker. */
  ghost predicate HushedTail(slots: seq<Slot>)
  {
    forall j :: End(slots) <= j < |slots| ==> slots[j][0] == 0 || !Shows(slots[j])
  }

  ghost predicate Owned(rs: seq<Record>, j: nat) { exists k :: 0 <= k < |rs| && rs[k].start <= j < rs[k].offset }

  /** Every long-name entry before slot `e` belongs to a record. */
  ghost predicate NoOrphans(slots: seq<Slot>, e: nat, rs: seq<Record>)
    requires e <= |slots|
  { forall j :: 0 <= j < e && IsLong(slots[j]) ==> Owned(rs, j) }

  ghost predicate Tidy(slots: seq<Slot>, kind: Kind)
  {
    HushedTail(slots) && NoOrphans(slots, End(slots), Records(slots, kind))
  }

  // ---------------------------------------------------------------- reading in place

  /** Fold over the elements from `i` to `e`, in place. */
  ghost function Run<S, E, R>(f: (S, E, nat) -> (S, seq<R>), xs: seq<E>, i: nat, e: nat, s: S): (r: (S, seq<R>))
    requires i <= e <= |xs|
    decreases e - i
  {
    if i == e then (s, [])
    else
      var (s1, out) := f(s, xs[i], i);
      var (s2, rest) := Run(f, xs, i + 1, e, s1);
      (s2, out + rest)
  }

  lemma {:induction false} RunIsFold<S, E,
      R>(f: (S, E, nat) -> (S, seq<R>), xs: seq<E>, i: nat, e: nat, s: S, es: seq<E>)
    requires i <= e <= |xs| && |es| == e - i && forall k :: 0 <= k < |es| ==> es[k] == xs[i + k]
    ensures Run(f, xs, i, e, s) == Fold(f, es, s, i)
    decreases e - i
  {
    if i < e {
      RunIsFold(f, xs, i + 1, e, f(s, xs[i], i).0, es[1..]);
    }
  }

  lemma {:induction false} RunSplit<S, E, R>(f: (S, E, nat) -> (S, seq<R>), xs: seq<E>, i: nat, b: nat, e: nat, s: S)
    requires i <= b <= e <= |xs|
    ensures Run(f, xs, i, e, s).0 == Run(f, xs, b, e, Run(f, xs, i, b, s).0).0
    ensures Run(f, xs, i, e, s).1 == Run(f, xs, i, b, s).1 + Run(f, xs, b, e, Run(f, xs, i, b, s).0).1
    decreases b - i
  {
    if i < b {
      var (s1, out) := f(s, xs[i], i);
      RunSplit(f, xs, i + 1, b, e, s1);
      var m, rest := Run(f, xs, i + 1, b, s1), Run(f, xs, b, e, Run(f, xs, i, b, s).0).1;
      assert out + (m.1 + rest) == (out + m.1) + rest;
    } else {
      assert [] + Run(f, xs, b, e, s).1 == Run(f, xs, b, e, s).1;
    }
  }

  lemma {:induction false} RunSame<S, E, R>(f: (S, E, nat) -> (S, seq<R>), xs: seq<E>, ys: seq<E>, i: nat, e: nat, s: S)
    requires i <= e <= |xs| && e <= |ys| && forall k :: i <= k < e ==> xs[k] == ys[k]
    ensures Run(f, xs, i, e, s) == Run(f, ys, i, e, s)
    decreases e - i
  {
    if i < e { RunSame(f, xs, ys, i + 1, e, f(s, xs[i], i).0); }
  }

  /** Elements that emit nothing whatever the state. */
  lemma {:induction false} RunSilent<S(!new), E, R>(f: (S, E, nat) -> (S, seq<R>), xs: seq<E>, i: nat, e: nat, s: S)
    requires i <= e <= |xs| && forall k: nat, t: S :: i <= k < e ==> f(t, xs[k], k).1 == []
    ensures Run(f, xs, i, e, s).1 == []
    decreases e - i
  {
    if i < e { RunSilent(f, xs, i + 1, e, f(s, xs[i], i).0); }
  }

  /** Elements that keep the state `s` and emit nothing in it. */
  lemma {:induction false} RunIdle<S, E, R>(f: (S, E, nat) -> (S, seq<R>), xs: seq<E>, i: nat, e: nat, s: S)
    requires i <= e <= |xs| && forall k: nat :: i <= k < e ==> f(s, xs[k], k) == (s, [])
    ensures Run(f, xs, i, e, s) == (s, [])
    decreases e - i
  {
    if i < e {
      assert f(s, xs[i], i) == (s, []);
      RunIdle(f, xs, i + 1, e, s);
      assert f(s, xs[i], i).1 + Run(f, xs, i + 1, e, s).1 == [];
    }
  }

  lemma RunOne<S, E, R>(f: (S, E, nat) -> (S, seq<R>), xs: seq<E>, i: nat, e: nat, s: S)
    requires i < e <= |xs|
    ensures Run(f, xs, i, e, s).0 == Run(f, xs, i + 1, e, f(s, xs[i], i).0).0
    ensures Run(f, xs, i, e, s).1 == f(s, xs[i], i).1 + Run(f, xs, i + 1, e, f(s, xs[i], i).0).1
  {}

  lemma RunSingle<S, E, R>(f: (S, E, nat) -> (S, seq<R>), xs: seq<E>, i: nat, s: S)
    requires i < |xs|
    ensures Run(f, xs, i, i + 1, s) == f(s, xs[i], i)
  {
    assert Run(f, xs, i + 1, i + 1, f(s, xs[i], i).0).1 == [] && f(s, xs[i], i).1 + [] == f(s, xs[i], i).1;
  }

  lemma RunMiddle<S, E,
      R>(f: (S, E, nat) -> (S, seq<R>), xs: seq<E>, a: nat, b: nat, e: nat, s: S, t: S, u: S, out: seq<R>)
    requires a <= b <= e <= |xs| && Run(f, xs, 0, a, s).0 == t && Run(f, xs, a, b, t) == (u, out)
    ensures Run(f, xs, 0, e, s).1 == Run(f, xs, 0, a, s).1 + out + Run(f, xs, b, e, u).1
    ensures out == [] ==> Run(f, xs, 0, e, s).1 == Run(f, xs, 0, a, s).1 + Run(f, xs, b, e, u).1
  {
    RunSplit(f, xs, 0, a, e, s);
    RunSplit(f, xs, a, b, e, t);
    var p, r := Run(f, xs, 0, a, s).1, Run(f, xs, b, e, u).1;
    assert p + (out + r) == (p + out) + r && (out == [] ==> p + out == p);
  }

  /**
    Silent elements in place of idle ones change nothing that is read, when an element that resets
    the state follows.
   */
  lemma CutBefore<S(!new), E, R>(f: (S, E, nat) -> (S, seq<R>), xs: seq<E>, ys: seq<E>, a: nat, b: nat, e: nat, s: S)
    requires a <= b <= e <= |xs| == |ys| && forall k :: 0 <= k < e && !(a <= k < b) ==> xs[k] == ys[k]
    requires Run(f, xs, 0, a, s).0 == s && Run(f, xs, a, b, s) == (s, []) && Run(f, ys, a, b, s).1 == []
    requires b < e ==> forall t: S :: f(t, xs[b], b) == (s, [])
    ensures Run(f, ys, 0, e, s).1 == Run(f, xs, 0, e, s).1
  {
    var t := Run(f, ys, a, b, s).0;
    RunSame(f, xs, ys, 0, a, s);
    RunSame(f, xs, ys, b, e, t);
    RunMiddle(f, xs, a, b, e, s, s, s, []);
    RunMiddle(f, ys, a, b, e, s, s, t, []);
    if b < e {
      RunOne(f, xs, b, e, t);
      RunOne(f, xs, b, e, s);
    }
  }

  /** Silent elements up to `b`, past the old end `e`: the same is read if and only if nothing is read after them. */
  lemma CutPast<S, E,
      R>(f: (S, E, nat) -> (S, seq<R>), xs: seq<E>, ys: seq<E>, a: nat, e: nat, b: nat, stop: nat, s: S, t: S)
    requires a <= e <= b <= stop <= |xs| == |ys| && forall k :: 0 <= k < a ==> xs[k] == ys[k]
    requires Run(f, xs, 0, a, s).0 == s && Run(f, xs, a, e, s) == (s, []) && Run(f, ys, a, b, s) == (t, [])
    ensures Run(f, ys, 0, stop, s).1 == Run(f, xs, 0, e, s).1 <==> Run(f, ys, b, stop, t).1 == []
  {
    RunSame(f, xs, ys, 0, a, s);
    RunMiddle(f, xs, a, e, e, s, s, s, []);
    RunMiddle(f, ys, a, b, stop, s, s, t, []);
  }

  lemma EndIs(slots: seq<Slot>, e: nat)
    requires e <= |slots| && (forall i :: 0 <= i < e ==> slots[i][0] != 0) && (e < |slots| ==> slots[e][0] == 0)
    ensures End(slots) == e
  {}

  lemma RecordsRun(slots: seq<Slot>, kind: Kind)
    ensures Records(slots, kind) == Run(Reader(kind), slots, 0, End(slots), Idle).1
  {
    RunIsFold(Reader(kind), slots, 0, End(slots), Idle, slots[..End(slots)]);
  }

  /**
    What the scan remembers at slot `i`: the entries since its start are long-name entries, only
    the first one marked as top.
   */
  ghost predicate Remembers(slots: seq<Slot>, s: Scan, i: nat) {
    s.Part? ==>
      && s.start < i <= |slots|
      && (forall j :: s.start <= j < i ==> IsLong(slots[j]))
      && (forall j :: s.start < j < i ==> !Top(slots[j]))
  }

  /** The slots of a record: its long-name entries, only the first one marked as top, then a short entry. */
  ghost predicate Spans(slots: seq<Slot>, r: Record) {
    && r.start <= r.offset < |slots| && IsShort(slots[r.offset])
    && (forall j :: r.start <= j < r.offset ==> IsLong(slots[j]))
    && (forall j :: r.start < j < r.offset ==> !Top(slots[j]))
  }

  /** All fields of a record but its name and start come from its short entry. */
  ghost predicate Describes(slots: seq<Slot>, r: Record, kind: Kind) {
    r.offset < |slots| && Shows(slots[r.offset])
      && r.(name := r.alias, start := r.offset) == ShortRecord(Idle, slots[r.offset], r.offset, kind)
  }

  lemma RemembersStep(slots: seq<Slot>, s: Scan, i: nat)
    requires i < |slots| && Remembers(slots, s, i)
    ensures Remembers(slots, Step(s, slots[i], i), i + 1)
  {}

  lemma ShortSpans(slots: seq<Slot>, s: Scan, i: nat, kind: Kind)
    requires i < |slots| && Remembers(slots, s, i) && Shows(slots[i])
    ensures var r := ShortRecord(s, slots[i], i, kind); Spans(slots, r) && Describes(slots, r, kind) && r.offset == i
  {}

  lemma EmitSpans(slots: seq<Slot>, s: Scan, i: nat, kind: Kind)
    requires i < |slots| && Remembers(slots, s, i)
    ensures forall r :: r in Emit(s, slots[i], i, kind) ==>
      Spans(slots, r) && Describes(slots, r, kind) && r.offset == i
    ensures |Emit(s, slots[i], i, kind)| <= 1
  {
    if Shows(slots[i]) { ShortSpans(slots, s, i, kind); }
  }

  /** Records of the slots from `i` to `e`, each spanning its slots, in the order of their slots. */
  ghost predicate InOrder(slots: seq<Slot>, rs: seq<Record>, i: nat, e: nat) {
    && (forall k :: 0 <= k < |rs| ==> Spans(slots, rs[k]) && i <= rs[k].offset < e)
    && (forall k, l :: 0 <= k < l < |rs| ==> rs[k].offset < rs[l].offset)
  }

  ghost predicate AllDescribe(slots: seq<Slot>, rs: seq<Record>, kind: Kind)
  {
    forall k :: 0 <= k < |rs| ==> Describes(slots, rs[k], kind)
  }

  lemma InOrderJoin(slots: seq<Slot>, out: seq<Record>, rest: seq<Record>, i: nat, e: nat, kind: Kind)
    requires InOrder(slots, out, i, i + 1) && InOrder(slots, rest, i + 1, e) && i < e
    requires AllDescribe(slots, out, kind) && AllDescribe(slots, rest, kind)
    ensures InOrder(slots, out + rest, i, e) && AllDescribe(slots, out + rest, kind)
  {}

  lemma SpansStep(slots: seq<Slot>, s: Scan, i: nat, kind: Kind) returns (s1: Scan, out: seq<Record>)
    requires i < |slots| && Remembers(slots, s, i)
    ensures Reader(kind)(s, slots[i], i) == (s1, out)
    ensures Remembers(slots, s1, i + 1) && InOrder(slots, out, i, i + 1) && AllDescribe(slots, out, kind)
  {
    s1, out := Step(s, slots[i], i), Emit(s, slots[i], i, kind);
    RemembersStep(slots, s, i);
    EmitSpans(slots, s, i, kind);
  }

  lemma {:induction false} RunSpans(slots: seq<Slot>, i: nat, e: nat, s: Scan, kind: Kind) returns (rs: seq<Record>)
    requires i <= e <= |slots| && Remembers(slots, s, i)
    ensures rs == Run(Reader(kind), slots, i, e, s).1 && InOrder(slots, rs, i, e) && AllDescribe(slots, rs, kind)
    decreases e - i
  {
    rs := [];
    if i < e {
      var s1, out := SpansStep(slots, s, i, kind);
      var rest := RunSpans(slots, i + 1, e, s1, kind);
      rs := out + rest;
      InOrderJoin(slots, out, rest, i, e, kind);
      RunOne(Reader(kind), slots, i, e, s);
    }
  }

  /** Every record read spans consecutive slots, and records come in the order of their slots. */
  lemma RecordsSpan(slots: seq<Slot>, kind: Kind)
    ensures InOrder(slots, Records(slots, kind), 0, End(slots)) && AllDescribe(slots, Records(slots, kind), kind)
  {
    var _ := RunSpans(slots, 0, End(slots), Idle, kind);
    RecordsRun(slots, kind);
  }

  lemma SameOffset(slots: seq<Slot>, q: Record, r: Record, j: nat)
    requires Spans(slots, q) && Spans(slots, r) && q.start <= j <= q.offset && r.start <= j <= r.offset
    ensures q.offset == r.offset
  {
    assert IsShort(slots[q.offset]) && IsShort(slots[r.offset]);
  }

  /** The slot after a long-name entry is in use, and the record that owns the entry is the only one around it. */
  lemma Owner(slots: seq<Slot>, e: nat, rs: seq<Record>, j: nat) returns (l: nat)
    requires e <= |slots| && NoOrphans(slots, e, rs) && InOrder(slots, rs, 0, e) && j < e && IsLong(slots[j])
    ensures j + 1 < e && !Deleted(slots[j + 1])
    ensures l < |rs| && rs[l].start <= j
    ensures forall k :: 0 <= k < |rs| && rs[k].start <= j + 1 <= rs[k].offset ==> k == l
  {
    assert Owned(rs, j);
    l :| 0 <= l < |rs| && rs[l].start <= j < rs[l].offset;
    assert Spans(slots, rs[l]);
    assert j + 1 == rs[l].offset || IsLong(slots[j + 1]);
    forall k | 0 <= k < |rs| && rs[k].start <= j + 1 <= rs[k].offset ensures k == l {
      SameOffset(slots, rs[k], rs[l], j + 1);
    }
  }

  /** What follows a long-name entry: a slot in use, and no record that starts there. */
  lemma Follows(slots: seq<Slot>, e: nat, rs: seq<Record>, j: nat)
    requires e <= |slots| && NoOrphans(slots, e, rs) && InOrder(slots, rs, 0, e) && j < e
    ensures IsLong(slots[j]) ==> j + 1 < e && !Deleted(slots[j + 1])
    ensures IsLong(slots[j]) ==> forall k :: 0 <= k < |rs| && rs[k].start <= j + 1 <= rs[k].offset ==> rs[k].start <= j
  {
    if IsLong(slots[j]) {
      var l := Owner(slots, e, rs, j);
    }
  }

  /** The scan is idle before a slot that follows no long-name entry. */
  lemma IdleAt(slots: seq<Slot>, a: nat, kind: Kind)
    requires a <= |slots| && (a == 0 || !IsLong(slots[a - 1]))
    ensures Run(Reader(kind), slots, 0, a, Idle).0 == Idle
  {
    if a > 0 {
      var f := Reader(kind);
      var s := Run(f, slots, 0, a - 1, Idle).0;
      RunSplit(f, slots, 0, a - 1, a, Idle);
      RunOne(f, slots, a - 1, a, s);
    }
  }

  lemma IdleBeforeRun(slots: seq<Slot>, e: nat, rs: seq<Record>, a: nat, n: nat, kind: Kind)
    requires e <= |slots| && NoOrphans(slots, e, rs) && InOrder(slots, rs, 0, e) && FreeRun(slots, e, a, n)
    ensures a <= e && Run(Reader(kind), slots, 0, a, Idle).0 == Idle
  {
    assert Free(slots, e, a);
    if a > 0 { Follows(slots, e, rs, a - 1); }
    IdleAt(slots, a, kind);
  }

  lemma StartIsClear(slots: seq<Slot>, e: nat, rs: seq<Record>, k: nat, a: nat)
    requires e <= |slots| && NoOrphans(slots, e, rs) && InOrder(slots, rs, 0, e) && k < |rs|
      && 0 < a == rs[k].start <= rs[k].offset < e
    ensures !IsLong(slots[a - 1])
  {
    Follows(slots, e, rs, a - 1);
  }

  lemma IdleBeforeRecord(slots: seq<Slot>, e: nat, rs: seq<Record>, k: nat, kind: Kind)
    requires e <= |slots| && NoOrphans(slots, e, rs) && InOrder(slots, rs, 0, e) && k < |rs|
    ensures rs[k].start <= rs[k].offset < e && Run(Reader(kind), slots, 0, rs[k].start, Idle).0 == Idle
  {
    assert Spans(slots, rs[k]);
    if rs[k].start > 0 { StartIsClear(slots, e, rs, k, rs[k].start); }
    IdleAt(slots, rs[k].start, kind);
  }

  // ---------------------------------------------------------------- insert

  lemma {:induction false} RunShows<S(!new), E,
      R>(f: (S, E, nat) -> (S, seq<R>), shows: E -> bool, xs: seq<E>, i: nat, e: nat, s: S)
    requires i <= e <= |xs| && forall k: nat, t: S :: i <= k < e ==> (f(t, xs[k], k).1 == [] <==> !shows(xs[k]))
    ensures Run(f, xs, i, e, s).1 == [] <==> forall k :: i <= k < e ==> !shows(xs[k])
    decreases e - i
  {
    if i < e {
      assert f(s, xs[i], i).1 == [] <==> !shows(xs[i]);
      RunShows(f, shows, xs, i + 1, e, f(s, xs[i], i).0);
    }
  }

  lemma QuietRun(slots: seq<Slot>, i: nat, e: nat, s: Scan, kind: Kind)
    requires i <= e <= |slots|
    ensures Run(Reader(kind), slots, i, e, s).1 == [] <==> forall k :: i <= k < e ==> !Shows(slots[k])
  {
    RunShows(Reader(kind), Shows, slots, i, e, s);
  }

  lemma RunDeleted(slots: seq<Slot>, a: nat, b: nat, kind: Kind)
    requires a <= b <= |slots| && forall k :: a <= k < b ==> Deleted(slots[k])
    ensures Run(Reader(kind), slots, a, b, Idle) == (Idle, [])
  {
    RunIdle(Reader(kind), slots, a, b, Idle);
  }

  lemma RunLongs(slots: seq<Slot>, a: nat, b: nat, kind: Kind)
    requires a <= b <= |slots| && forall k :: a <= k < b ==> IsLong(slots[k])
    ensures Run(Reader(kind), slots, a, b, Idle).1 == []
  {
    RunSilent(Reader(kind), slots, a, b, Idle);
  }

  /** Long-name entries. */
  ghost predicate Longs(es: seq<Slot>, j: nat)
  {
    j <= |es| && forall i :: 0 <= i < j ==> IsLong(es[i]) && es[i][0] != 0
  }

  /**
    `cut` is `slots` with the first `j` slots of `es` at `a`, and an end marker after the whole
    run if it takes the old one at `e`.
   */
  ghost predicate Partial(slots: seq<Slot>, e: nat, a: nat, es: seq<Slot>, j: nat, cut: seq<Slot>) {
    && j <= |es| && |cut| == |slots| && a + |es| <= |slots|
    && (forall k :: a <= k < a + j ==> cut[k] == es[k - a])
    && (forall k :: 0 <= k < |slots| && !(a <= k < a + j) && (k != a + |es| || a + |es| <= e) ==> cut[k] == slots[k])
    && (e < a + |es| < |slots| ==> cut[a + |es|][0] == 0)
  }

  lemma CutBeforeEnd(slots: seq<Slot>, e: nat, a: nat, es: seq<Slot>, j: nat, cut: seq<Slot>, kind: Kind)
    requires e <= |slots| && FreeRun(slots, e, a, |es|) && j < |es| && Longs(es, j) && a + j <= e
      && Partial(slots, e, a, es, j, cut)
    requires Run(Reader(kind), slots, 0, a, Idle).0 == Idle
    ensures Run(Reader(kind), cut, 0, e, Idle).1 == Run(Reader(kind), slots, 0, e, Idle).1
  {
    var f, b := Reader(kind), a + j;
    forall k | a <= k < b || k == b < e ensures Deleted(slots[k]) { assert Free(slots, e, k); }
    RunDeleted(slots, a, b, kind);
    RunLongs(cut, a, b, kind);
    assert b < e ==> forall t: Scan :: f(t, slots[b], b) == (Idle, []);
    CutBefore(f, slots, cut, a, b, e, Idle);
  }

  lemma CutPastEnd(slots: seq<Slot>, e: nat, a: nat, es: seq<Slot>, j: nat, cut: seq<Slot>, stop: nat, kind: Kind)
    requires a <= e < a + j <= stop <= |slots| && FreeRun(slots, e, a, |es|) && j < |es| && Longs(es, j)
      && Partial(slots, e, a, es, j, cut)
    requires Run(Reader(kind), slots, 0, a, Idle).0 == Idle
    ensures Run(Reader(kind), cut, 0, stop, Idle).1 == Run(Reader(kind), slots, 0, e, Idle).1 <==>
      forall k :: a + j <= k < stop ==> !Shows(cut[k])
  {
    var f, b := Reader(kind), a + j;
    forall k | a <= k < e ensures Deleted(slots[k]) { assert Free(slots, e, k); }
    RunDeleted(slots, a, e, kind);
    RunLongs(cut, a, b, kind);
    var t := Run(f, cut, a, b, Idle).0;
    CutPast(f, slots, cut, a, e, b, stop, Idle, t);
    QuietRun(cut, b, stop, t, kind);
  }

  /** No slot from `b` to the next end marker reads as a record. */
  ghost predicate Quiet(slots: seq<Slot>, b: nat)
    requires b <= |slots|
  { forall k :: b <= k < b + End(slots[b..]) ==> !Shows(slots[k]) }

  lemma CutEnd(slots: seq<Slot>, a: nat, es: seq<Slot>, j: nat, cut: seq<Slot>)
    requires FreeRun(slots, End(slots), a, |es|) && j < |es| && Longs(es, j)
      && Partial(slots, End(slots), a, es, j, cut)
    ensures a + j <= End(slots) ==> End(cut) == End(slots)
    ensures a + j > End(slots) ==> End(cut) == a + j + End(cut[a + j..])
  {
    var e, t := End(slots), cut[a + j..];
    if a + j <= e { EndIs(cut, e); } else { EndIs(cut, a + j + End(t)); }
  }

  lemma CutShows(slots: seq<Slot>, a: nat, es: seq<Slot>, j: nat, cut: seq<Slot>, kind: Kind)
    requires NoOrphans(slots, End(slots), Records(slots, kind)) && FreeRun(slots, End(slots), a, |es|) && j < |es|
      && Longs(es, j)
    requires Partial(slots, End(slots), a, es, j, cut)
    ensures Records(cut, kind) == Records(slots, kind) <==> a + j <= End(slots) || Quiet(cut, a + j)
  {
    var e := End(slots);
    RecordsSpan(slots, kind);
    IdleBeforeRun(slots, e, Records(slots, kind), a, |es|, kind);
    CutEnd(slots, a, es, j, cut);
    RecordsRun(slots, kind);
    RecordsRun(cut, kind);
    if a + j <= e {
      CutBeforeEnd(slots, e, a, es, j, cut, kind);
    } else {
      CutPastEnd(slots, e, a, es, j, cut, End(cut), kind);
    }
  }

  /** No slot from `b` on reads as a record, up to the next end marker and no further than `stop`. */
  ghost predicate Hushed(slots: seq<Slot>, b: nat, stop: nat)
    requires b <= stop <= |slots|
  { forall k :: b <= k < b + End(slots[b..stop]) ==> !Shows(slots[k]) }

  /** What a cut past the old end marker lets a reader see are slots of the directory before. */
  lemma CutSeesOld(slots: seq<Slot>, a: nat, es: seq<Slot>, j: nat, cut: seq<Slot>)
    requires j < |es| && Partial(slots, End(slots), a, es, j, cut) && a + j > End(slots)
    ensures Quiet(cut, a + j) <==> Hushed(slots, a + j, a + |es|)
  {
    var b, stop := a + j, a + |es|;
    var n := End(slots[b..stop]);
    assert forall i :: 0 <= i < n ==> slots[b..stop][i] == slots[b + i] == cut[b..][i];
    EndIs(cut[b..], n);
    assert forall k :: b <= k < b + n ==> cut[k] == slots[k];
  }

  /**
    The directory while an entry set is being written, its first `j` slots on disk
    and not its last. A reader sees what it saw before if and only if the entries
    have not run past the old end marker, or the slots that marker hid, up to the
    end of the entry set, hold no record.
   */
  lemma InsertCut(slots: seq<Slot>, a: nat, es: seq<Slot>, j: nat, cut: seq<Slot>, kind: Kind)
    requires NoOrphans(slots, End(slots), Records(slots, kind)) && FreeRun(slots, End(slots), a, |es|) && j < |es|
      && Longs(es, j)
    requires Partial(slots, End(slots), a, es, j, cut)
    ensures Records(cut, kind) == Records(slots, kind) <==> a + j <= End(slots) || Hushed(slots, a + j, a + |es|)
  {
    CutShows(slots, a, es, j, cut, kind);
    if a + j > End(slots) { CutSeesOld(slots, a, es, j, cut); }
  }

  /** With no stale record behind the end marker, no intermediate state of an insertion shows. */
  lemma InsertInvisible(slots: seq<Slot>, a: nat, es: seq<Slot>, j: nat, cut: seq<Slot>, kind: Kind)
    requires Tidy(slots, kind) && FreeRun(slots, End(slots), a, |es|) && j < |es| && Longs(es, j)
    requires Partial(slots, End(slots), a, es, j, cut)
    ensures Records(cut, kind) == Records(slots, kind)
  {
    CutInvisible(slots, End(slots), Records(slots, kind), a, es, j, cut, kind);
  }

  lemma CutInvisible(slots: seq<Slot>, e: nat, rs: seq<Record>, a: nat, es: seq<Slot>, j: nat, cut: seq<Slot>,
      kind: Kind)
    requires e == End(slots) && rs == Records(slots, kind) && NoOrphans(slots, e, rs) && FreeRun(slots, e, a, |es|)
      && j < |es| && Longs(es, j)
    requires Partial(slots, e, a, es, j, cut) && HushedTail(slots)
    ensures Records(cut, kind) == rs
  {
    InsertCut(slots, a, es, j, cut, kind);
    if a + j > e { TailHushed(slots, a + j, a + |es|); }
  }

  lemma TailQuiet(shows: Slot -> bool, slots: seq<Slot>, e: nat, b: nat, stop: nat)
    requires e <= b <= stop <= |slots| && forall j :: e <= j < |slots| ==> slots[j][0] == 0 || !shows(slots[j])
    ensures forall k :: b <= k < b + End(slots[b..stop]) ==> !shows(slots[k])
  {
    forall k | b <= k < b + End(slots[b..stop]) ensures !shows(slots[k]) { assert slots[b..stop][k - b] == slots[k]; }
  }

  lemma TailHushed(slots: seq<Slot>, b: nat, stop: nat)
    requires HushedTail(slots) && End(slots) <= b <= stop <= |slots|
    ensures Hushed(slots, b, stop)
  {
    TailQuiet(Shows, slots, End(slots), b, stop);
  }

  const STALE_SHORT: seq<byte> := [83, 83, 83, 83, 83, 83, 83, 83, 83, 83, 83]

  /** A directory whose first slot is its end marker, with a record left over behind it. */
  function StaleDirectory(kind: Kind): (slots: seq<Slot>)
  {
    [seq(32, _ => 0), ShortSlot(STALE_SHORT, 0x20, 5, 7, kind)]
  }

  /** An entry set of two slots. */
  function TwoSlots(kind: Kind): (es: seq<Slot>)
  {
    [LongSlot(0x41, 0, seq(13, _ => 0x41)), ShortSlot(STALE_SHORT, 0x20, 9, 9, kind)]
  }

  /** On that directory the first slot of an entry set makes the left-over record show. */
  lemma StaleRecordShows(kind: Kind)
    ensures var slots, es := StaleDirectory(kind), TwoSlots(kind);
      && NoOrphans(slots, End(slots), Records(slots, kind)) && FreeRun(slots, End(slots), 0, 2) && Longs(es, 1)
      && Partial(slots, End(slots), 0, es, 1, [es[0], slots[1]])
      && Records(slots, kind) == [] && Records([es[0], slots[1]], kind) != []
  {
    var slots, es := StaleDirectory(kind), TwoSlots(kind);
    StaleSlotShows(kind);
    StaleShows(slots[0], slots[1], es[0], es[1], kind);
  }

  lemma StaleSlotShows(kind: Kind)
    ensures var e := ShortSlot(STALE_SHORT, 0x20, 5, 7, kind); e[0] != 0 && Shows(e)
  {
    var e := ShortSlot(STALE_SHORT, 0x20, 5, 7, kind);
    assert e[..11] == STALE_SHORT && e[0] == 83 && e[11] == 0x20;
    assert |Alias(e[..11], e[12])| > 2 by {
      assert Trimmed(STALE_SHORT[..8]) == 8;
    }
  }

  /** An end marker with a record behind it, and the first of two slots written over the marker. */
  lemma StaleShows(end: Slot, stale: Slot, long: Slot, short: Slot, kind: Kind)
    requires end[0] == 0 && stale[0] != 0 && Shows(stale) && long[0] != 0 && IsLong(long)
    ensures var slots, es := [end, stale], [long, short];
      && NoOrphans(slots, End(slots), Records(slots, kind)) && FreeRun(slots, End(slots), 0, 2) && Longs(es, 1)
      && Partial(slots, End(slots), 0, es, 1, [long, stale])
      && Records(slots, kind) == [] && Records([long, stale], kind) != []
  {
    var slots, es := [end, stale], [long, short];
    assert End(slots) == 0;
    assert Records(slots, kind) == [] by { assert slots[..0] == []; }
    InsertCut(slots, 0, es, 1, [long, stale], kind);
    assert slots[1..2] == [stale] && End([stale]) == 1 && slots[1] == stale;
  }

  lemma DoneEnd(slots: seq<Slot>, a: nat, es: seq<Slot>, done: seq<Slot>)
    requires FreeRun(slots, End(slots), a, |es|) && Partial(slots, End(slots), a, es, |es|, done)
      && forall i :: 0 <= i < |es| ==> es[i][0] != 0
    ensures End(done) == if a + |es| <= End(slots) then End(slots) else a + |es|
  {
    EndIs(done, if a + |es| <= End(slots) then End(slots) else a + |es|);
  }

  /** A run of idle elements replaced by elements that emit `out` and end idle. */
  lemma Grown<S, E,
      R>(f: (S, E, nat) -> (S, seq<R>), xs: seq<E>, ys: seq<E>, a: nat, b: nat, e: nat, stop: nat, s: S, out: seq<R>)
    requires a <= b <= stop <= |xs| == |ys| && a <= e <= |xs| && stop == (if b <= e then e else b)
    requires forall k :: 0 <= k < stop && !(a <= k < b) ==> xs[k] == ys[k]
    requires Run(f, xs, 0, a, s).0 == s && Run(f, xs, a, if b <= e then b else e, s) == (s, [])
      && Run(f, ys, a, b, s) == (s, out)
    ensures var p, r := Run(f, xs, 0, a, s).1, Run(f, xs, if b <= e then b else e, e, s).1;
      Run(f, xs, 0, e, s).1 == p + r && Run(f, ys, 0, stop, s).1 == p + out + r
  {
    RunSame(f, xs, ys, 0, a, s);
    RunSame(f, xs, ys, b, stop, s);
    RunMiddle(f, xs, a, if b <= e then b else e, e, s, s, s, []);
    RunMiddle(f, ys, a, b, stop, s, s, s, out);
  }

  /** How many records the slots before `a` hold. */
  ghost function RecordsBefore(slots: seq<Slot>, a: nat, kind: Kind): (n: nat)
    requires a <= |slots|
  { |Run(Reader(kind), slots, 0, a, Idle).1| }

  lemma BeforeRun(slots: seq<Slot>, a: nat, n: nat, kind: Kind)
    requires FreeRun(slots, End(slots), a, n)
    ensures RecordsBefore(slots, a, kind) <= |Records(slots, kind)|
  {
    assert a > 0 ==> !Free(slots, End(slots), a - 1);
    RecordsRun(slots, kind);
    RunSplit(Reader(kind), slots, 0, a, End(slots), Idle);
  }

  lemma GrownRun(slots: seq<Slot>, e: nat, a: nat, es: seq<Slot>, w: Record, done: seq<Slot>, stop: nat, kind: Kind)
      returns (p: seq<Record>, r: seq<Record>)
    requires a <= e <= |slots| && FreeRun(slots, e, a, |es|) && Partial(slots, e, a, es, |es|, done)
      && stop == (if a + |es| <= e then e else a + |es|)
    requires Run(Reader(kind), slots, 0, a, Idle).0 == Idle && Walk(es, Idle, a, kind) == (Idle, [w])
    ensures Run(Reader(kind), slots, 0, e, Idle).1 == p + r && Run(Reader(kind), done, 0, stop, Idle).1 == p + [w] + r
    ensures |p| == RecordsBefore(slots, a, kind)
  {
    var f, b := Reader(kind), a + |es|;
    var b' := if b <= e then b else e;
    forall k | a <= k < b' ensures Deleted(slots[k]) { assert Free(slots, e, k); }
    RunDeleted(slots, a, b', kind);
    RunIsFold(f, done, a, b, Idle, es);
    Grown(f, slots, done, a, b, e, stop, Idle, [w]);
    p, r := Run(f, slots, 0, a, Idle).1, Run(f, slots, b', e, Idle).1;
  }

  /** The finished insertion adds exactly the record of the entry set. */
  lemma InsertDone(slots: seq<Slot>, a: nat, es: seq<Slot>, w: Record, done: seq<Slot>, kind: Kind)
      returns (p: seq<Record>, r: seq<Record>)
    requires NoOrphans(slots, End(slots), Records(slots, kind)) && FreeRun(slots, End(slots), a, |es|)
      && Partial(slots, End(slots), a, es, |es|, done)
    requires (forall i :: 0 <= i < |es| ==> es[i][0] != 0) && Walk(es, Idle, a, kind) == (Idle, [w])
    ensures Records(slots, kind) == p + r && Records(done, kind) == p + [w] + r && |p| == RecordsBefore(slots, a, kind)
  {
    RecordsSpan(slots, kind);
    IdleBeforeRun(slots, End(slots), Records(slots, kind), a, |es|, kind);
    DoneEnd(slots, a, es, done);
    RecordsRun(slots, kind);
    RecordsRun(done, kind);
    p, r := GrownRun(slots, End(slots), a, es, w, done, End(done), kind);
  }

  lemma OwnedGrows(rs: seq<Record>, rs': seq<Record>, p: seq<Record>, r: seq<Record>, w: Record, j: nat)
    requires rs == p + r && rs' == p + [w] + r && (Owned(rs, j) || w.start <= j < w.offset)
    ensures Owned(rs', j)
  {
    if w.start <= j < w.offset {
      assert rs'[|p|] == w;
    } else {
      var k :| 0 <= k < |rs| && rs[k].start <= j < rs[k].offset;
      assert rs[k] == rs'[if k < |p| then k else k + 1];
    }
  }

  lemma GrownOwned(slots: seq<Slot>, e: nat, rs: seq<Record>, a: nat, es: seq<Slot>, w: Record, done: seq<Slot>,
      e': nat, rs': seq<Record>, p: seq<Record>, r: seq<Record>)
    requires e <= |slots| && NoOrphans(slots, e, rs) && Partial(slots, e, a, es, |es|, done)
      && e' == (if a + |es| <= e then e else a + |es|) && a <= e
    requires rs == p + r && rs' == p + [w] + r && es != [] && w.start == a && w.offset == a + |es| - 1
      && IsShort(es[|es| - 1])
    ensures NoOrphans(done, e', rs')
  {
    forall j | 0 <= j < e' && IsLong(done[j]) ensures Owned(rs', j) {
      OwnedGrows(rs, rs', p, r, w, j);
    }
  }

  lemma DoneHushed(slots: seq<Slot>, a: nat, es: seq<Slot>, done: seq<Slot>)
    requires HushedTail(slots) && FreeRun(slots, End(slots), a, |es|) && Partial(slots, End(slots), a, es, |es|, done)
      && forall i :: 0 <= i < |es| ==> es[i][0] != 0
    ensures HushedTail(done)
  {
    DoneEnd(slots, a, es, done);
  }

  /** The directory stays tidy if the set's long-name entries all belong to the record read from it. */
  lemma InsertTidy(slots: seq<Slot>, a: nat, es: seq<Slot>, w: Record, done: seq<Slot>, p: seq<Record>, r: seq<Record>,
      kind: Kind)
    requires Tidy(slots, kind) && FreeRun(slots, End(slots), a, |es|) && Partial(slots, End(slots), a, es, |es|, done)
    requires (forall i :: 0 <= i < |es| ==> es[i][0] != 0) && w.start == a && w.offset == a + |es| - 1
      && IsShort(es[|es| - 1])
    requires Records(slots, kind) == p + r && Records(done, kind) == p + [w] + r
    ensures Tidy(done, kind)
  {
    DoneEnd(slots, a, es, done);
    DoneHushed(slots, a, es, done);
    GrownOwned(slots, End(slots), Records(slots, kind), a, es, w, done, End(done), Records(done, kind), p, r);
  }

  // ---------------------------------------------------------------- update and delete

  /** One element at `i` changed, with the same effect on the state. */
  lemma Replaced<S, E,
      R>(f: (S, E, nat) -> (S, seq<R>), xs: seq<E>, ys: seq<E>, i: nat, e: nat, s: S, t: S, u: S, r: R, r': R)
    requires i < e <= |xs| == |ys| && (forall k :: 0 <= k < e && k != i ==> xs[k] == ys[k])
    requires Run(f, xs, 0, i, s).0 == t && f(t, xs[i], i) == (u, [r]) && f(t, ys[i], i) == (u, [r'])
    ensures var p, q := Run(f, xs, 0, i, s).1, Run(f, xs, i + 1, e, u).1;
      Run(f, xs, 0, e, s).1 == p + [r] + q && Run(f, ys, 0, e, s).1 == p + [r'] + q
  {
    RunSame(f, xs, ys, 0, i, s);
    RunSame(f, xs, ys, i + 1, e, u);
    RunSingle(f, xs, i, t);
    RunSingle(f, ys, i, t);
    RunMiddle(f, xs, i, i + 1, e, s, t, u, [r]);
    RunMiddle(f, ys, i, i + 1, e, s, t, u, [r']);
  }

  /** The short entry of a record with another first cluster and size. */
  function Rewritten(e: Slot, first: nat, size: nat, kind: Kind): (r: Slot) {
    e[..20] + Le16(ClusterHigh(first, kind)) + e[22..26] + Le16(first) + Le32(size)
  }

  lemma RewrittenParts(e: Slot, first: nat, size: nat, kind: Kind)
    requires Fits(first, size, kind)
    ensures var r := Rewritten(e, first, size, kind);
      r[..20] == e[..20] && Cluster(r, kind) == first && U32(r, 28) == size
  {
    var r := Rewritten(e, first, size, kind);
    var a, b, c := Le16(ClusterHigh(first, kind)), Le16(first), Le32(size);
    assert r[20..22] == a && r[26..28] == b && r[28..32] == c;
    assert U16(r, 26) == U16(b, 0) && U16(r, 20) == U16(a, 0);
    assert U16(r, 28) == U16(c, 0) && U16(r, 30) == U16(c, 2);
    Halves(size);
    DivMod(size, 0x1_0000_0000, 0, size);
    if kind == Fat32 {
      var q := first / 0x1_0000;
      DivMod(q, 0x1_0000, 0, q);
      DivMod(q, 0x1000, 0, q);
    } else {
      DivMod(first, 0x1_0000, 0, first);
    }
  }

  lemma EmitRewritten(s: Scan, e: Slot, e': Slot, index: nat, first: nat, size: nat, kind: Kind)
    requires Shows(e) && e'[..20] == e[..20] && Cluster(e', kind) == first && U32(e', 28) == size
    ensures Shows(e') && Step(s, e', index) == Step(s, e, index) == Idle && e'[0] == e[0]
    ensures Emit(s, e', index, kind) == [ShortRecord(s, e, index, kind).(cluster := first, size := size)]
  {
    assert e'[0] == e'[..20][0] && e'[11] == e'[..20][11] && e'[12] == e'[..20][12];
    assert e'[..11] == e'[..20][..11];
    assert e[0] == e[..20][0] && e[11] == e[..20][11] && e[12] == e[..20][12];
    assert e[..11] == e[..20][..11];
  }

  lemma RecordIndex(slots: seq<Slot>, rs: seq<Record>, e: nat, k: nat, p: seq<Record>, x: Record, q: seq<Record>)
    requires InOrder(slots, rs, 0, e) && k < |rs| && rs == p + [x] + q && x.offset == rs[k].offset
    ensures k == |p| && rs[k] == x && rs[..k] == p && rs[k + 1..] == q
  {
    assert rs[|p|] == x;
  }

  /** What the scan reads at the slot of a record. */
  lemma ReadsRecord(slots: seq<Slot>, e: nat, rs: seq<Record>, k: nat, kind: Kind) returns (t: Scan)
    requires e <= |slots| && rs == Run(Reader(kind), slots, 0, e, Idle).1 && InOrder(slots, rs, 0, e)
      && AllDescribe(slots, rs, kind) && k < |rs|
    ensures Run(Reader(kind), slots, 0, rs[k].offset, Idle).0 == t
    ensures Step(t, slots[rs[k].offset], rs[k].offset) == Idle
      && Emit(t, slots[rs[k].offset], rs[k].offset, kind) == [rs[k]]
  {
    var f, i := Reader(kind), rs[k].offset;
    assert Spans(slots, rs[k]) && Describes(slots, rs[k], kind);
    t := Run(f, slots, 0, i, Idle).0;
    var x := ShortRecord(t, slots[i], i, kind);
    assert Step(t, slots[i], i) == Idle && Emit(t, slots[i], i, kind) == [x];
    RunSingle(f, slots, i, t);
    RunMiddle(f, slots, i, i + 1, e, Idle, t, Idle, [x]);
    RecordIndex(slots, rs, e, k, Run(f, slots, 0, i, Idle).1, x, Run(f, slots, i + 1, e, Idle).1);
  }

  /** Replacing the cluster and size of a record's short entry changes that record in just these two fields. */
  lemma UpdateDone(slots: seq<Slot>, k: nat, first: nat, size: nat, done: seq<Slot>, kind: Kind)
    requires k < |Records(slots, kind)| && Fits(first, size, kind)
    requires var i := Records(slots, kind)[k].offset;
      i < |slots| && done == slots[i := Rewritten(slots[i], first, size, kind)]
    ensures End(done) == End(slots)
    ensures Records(done, kind) == Records(slots, kind)[k := Records(slots, kind)[k].(cluster := first, size := size)]
  {
    var rs, f, e := Records(slots, kind), Reader(kind), End(slots);
    RecordsSpan(slots, kind);
    RecordsRun(slots, kind);
    assert Spans(slots, rs[k]) && Describes(slots, rs[k], kind);
    var i, r' := rs[k].offset, rs[k].(cluster := first, size := size);
    var t := ReadsRecord(slots, e, rs, k, kind);
    RewrittenParts(slots[i], first, size, kind);
    EmitRewritten(t, slots[i], done[i], i, first, size, kind);
    EndIs(done, e);
    RecordsRun(done, kind);
    UpdateRun(f, slots, done, i, e, t, rs, k, r');
  }

  lemma UpdateRun(f: (Scan, Slot, nat) -> (Scan, seq<Record>), slots: seq<Slot>, done: seq<Slot>, i: nat, e: nat,
      t: Scan, rs: seq<Record>, k: nat, r': Record)
    requires i < e <= |slots| == |done| && (forall j :: 0 <= j < e && j != i ==> slots[j] == done[j])
    requires Run(f, slots, 0, i, Idle).0 == t && k < |rs| && rs[k].offset == i
    requires f(t, slots[i], i) == (Idle, [rs[k]]) && f(t, done[i], i) == (Idle, [r'])
      && rs == Run(f, slots, 0, e, Idle).1 && InOrder(slots, rs, 0, e)
    ensures Run(f, done, 0, e, Idle).1 == rs[k := r']
  {
    var p, q := Run(f, slots, 0, i, Idle).1, Run(f, slots, i + 1, e, Idle).1;
    assert Run(f, slots, 0, e, Idle).1 == p + [rs[k]] + q && Run(f, done, 0, e, Idle).1 == p + [r'] + q by {
      Replaced(f, slots, done, i, e, Idle, t, Idle, rs[k], r');
    }
    RecordReplace(slots, rs, e, k, p, q, r');
  }

  lemma RecordReplace(slots: seq<Slot>, rs: seq<Record>, e: nat, k: nat, p: seq<Record>, q: seq<Record>, r': Record)
    requires k < |rs| && InOrder(slots, rs, 0, e) && rs == p + [rs[k]] + q
    ensures p + [r'] + q == rs[k := r']
  {
    RecordIndex(slots, rs, e, k, p, rs[k], q);
  }

  lemma UpdateTidy(slots: seq<Slot>, k: nat, i: nat, done: seq<Slot>, r': Record, kind: Kind)
    requires Tidy(slots, kind) && k < |Records(slots, kind)| && i < |slots| == |done| && End(done) == End(slots)
    requires (forall j :: 0 <= j < |slots| && j != i ==> done[j] == slots[j]) && !IsLong(done[i]) && i < End(slots)
    requires Records(done, kind) == Records(slots, kind)[k := r'] && r'.start == Records(slots, kind)[k].start
      && r'.offset == Records(slots, kind)[k].offset
    ensures Tidy(done, kind)
  {
    forall j | 0 <= j < End(done) && IsLong(done[j]) ensures Owned(Records(done, kind), j) {
      SpansKept(Records(slots, kind), Records(done, kind), k, r', j);
    }
  }

  lemma SpansKept(rs: seq<Record>, rs': seq<Record>, k: nat, r': Record, j: nat)
    requires k < |rs| && rs' == rs[k := r'] && r'.start == rs[k].start && r'.offset == rs[k].offset && Owned(rs, j)
    ensures Owned(rs', j)
  {
    var l :| 0 <= l < |rs| && rs[l].start <= j < rs[l].offset;
    assert rs'[l].start <= j < rs'[l].offset;
  }

  /** The slots from `a` to `b` marked as deleted. */
  ghost predicate Erased(slots: seq<Slot>, a: nat, b: nat, cut: seq<Slot>) {
    && a <= b <= |slots| == |cut|
    && (forall j :: a <= j < b ==> cut[j] == slots[j][0 := DELETED])
    && (forall j :: 0 <= j < |slots| && !(a <= j < b) ==> cut[j] == slots[j])
  }

  /** What reads as `out` from `a` to `b` replaced by what reads as `out'`. */
  lemma Swapped<S, E,
      R>(f: (S, E, nat) -> (S, seq<R>), xs: seq<E>, ys: seq<E>, a: nat, b: nat, e: nat, s: S, out: seq<R>, out': seq<R>)
    requires a <= b <= e <= |xs| == |ys| && forall k :: 0 <= k < e && !(a <= k < b) ==> xs[k] == ys[k]
    requires Run(f, xs, 0, a, s).0 == s && Run(f, xs, a, b, s) == (s, out) && Run(f, ys, a, b, s) == (s, out')
    ensures var p, q := Run(f, xs, 0, a, s).1, Run(f, xs, b, e, s).1;
      Run(f, xs, 0, e, s).1 == p + out + q && Run(f, ys, 0, e, s).1 == p + out' + q
  {
    RunSame(f, xs, ys, 0, a, s);
    RunSame(f, xs, ys, b, e, s);
    RunMiddle(f, xs, a, b, e, s, s, s, out);
    RunMiddle(f, ys, a, b, e, s, s, s, out');
  }

  lemma RunThen<S, E, R>(f: (S, E, nat) -> (S, seq<R>), xs: seq<E>, a: nat, b: nat, s: S, t: S, out: seq<R>)
    requires a <= b < |xs| && Run(f, xs, a, b, s) == (t, []) && f(t, xs[b], b) == (s, out)
    ensures Run(f, xs, a, b + 1, s) == (s, out)
  {
    RunSplit(f, xs, a, b, b + 1, s);
    RunSingle(f, xs, b, t);
    assert [] + out == out;
  }

  /** A record whose first long-name entries are erased reads under its alias. */
  lemma ErasedRead(cut: seq<Slot>, a: nat, b: nat, i: nat, r: Record, kind: Kind)
    requires a <= b <= i < |cut| && (forall j :: a <= j < b ==> Deleted(cut[j]))
      && (forall j :: b <= j < i ==> IsLong(cut[j]) && !Top(cut[j]))
    requires Shows(cut[i]) && r == ShortRecord(Idle, cut[i], i, kind)
    ensures Run(Reader(kind), cut, a, i + 1, Idle) == (Idle, [r])
  {
    var f := Reader(kind);
    forall j: nat | a <= j < i ensures f(Idle, cut[j], j) == (Idle, []) { }
    RunIdle(f, cut, a, i, Idle);
    RunThen(f, cut, a, i, Idle, Idle, [r]);
  }

  lemma RecordRead(slots: seq<Slot>, e: nat, rs: seq<Record>, k: nat, kind: Kind)
    requires e <= |slots| && rs == Run(Reader(kind), slots, 0, e, Idle).1 && InOrder(slots, rs, 0, e)
      && AllDescribe(slots, rs, kind) && k < |rs|
    requires Run(Reader(kind), slots, 0, rs[k].start, Idle).0 == Idle
    ensures Run(Reader(kind), slots, rs[k].start, rs[k].offset + 1, Idle) == (Idle, [rs[k]])
  {
    var f, a, i := Reader(kind), rs[k].start, rs[k].offset;
    assert Spans(slots, rs[k]);
    var t := ReadsRecord(slots, e, rs, k, kind);
    RunSplit(f, slots, 0, a, i, Idle);
    RunLongs(slots, a, i, kind);
    RunThen(f, slots, a, i, Idle, t, [rs[k]]);
  }

  lemma DeleteRun(f: (Scan, Slot, nat) -> (Scan, seq<Record>), slots: seq<Slot>, e: nat, rs: seq<Record>, k: nat,
      b: nat, cut: seq<Slot>, out: seq<Record>)
    requires e <= |slots| && rs == Run(f, slots, 0, e, Idle).1 && InOrder(slots, rs, 0, e) && k < |rs|
    requires rs[k].start < b <= rs[k].offset + 1 <= e && Erased(slots, rs[k].start, b, cut)
    requires Run(f, slots, 0, rs[k].start, Idle).0 == Idle
      && Run(f, slots, rs[k].start, rs[k].offset + 1, Idle) == (Idle, [rs[k]])
    requires Run(f, cut, rs[k].start, rs[k].offset + 1, Idle) == (Idle, out)
    ensures Run(f, cut, 0, e, Idle).1 == rs[..k] + out + rs[k + 1..]
  {
    var a, i := rs[k].start, rs[k].offset;
    Swapped(f, slots, cut, a, i + 1, e, Idle, [rs[k]], out);
    RecordIndex(slots, rs, e, k, Run(f, slots, 0, a, Idle).1, rs[k], Run(f, slots, i + 1, e, Idle).1);
  }

  lemma DeletePart(slots: seq<Slot>, e: nat, rs: seq<Record>, k: nat, b: nat, cut: seq<Slot>, kind: Kind)
    requires e <= |slots| && rs == Run(Reader(kind), slots, 0, e, Idle).1 && InOrder(slots, rs, 0, e)
      && AllDescribe(slots, rs, kind) && k < |rs|
    requires Run(Reader(kind), slots, 0, rs[k].start, Idle).0 == Idle
    requires Erased(slots, rs[k].start, b, cut) && rs[k].start < b <= rs[k].offset
    ensures Run(Reader(kind), cut, 0, e, Idle).1
      == rs[..k] + [rs[k].(name := rs[k].alias, start := rs[k].offset)] + rs[k + 1..]
  {
    var r := rs[k];
    var r' := r.(name := r.alias, start := r.offset);
    assert Spans(slots, r) && Describes(slots, r, kind);
    ErasedRead(cut, r.start, b, r.offset, r', kind);
    RecordRead(slots, e, rs, k, kind);
    DeleteRun(Reader(kind), slots, e, rs, k, b, cut, [r']);
  }

  lemma DeleteWhole(slots: seq<Slot>, e: nat, rs: seq<Record>, k: nat, cut: seq<Slot>, kind: Kind)
    requires e <= |slots| && rs == Run(Reader(kind), slots, 0, e, Idle).1 && InOrder(slots, rs, 0, e)
      && AllDescribe(slots, rs, kind) && k < |rs|
    requires Run(Reader(kind), slots, 0, rs[k].start, Idle).0 == Idle
    requires Erased(slots, rs[k].start, rs[k].offset + 1, cut)
    ensures Run(Reader(kind), cut, 0, e, Idle).1 == rs[..k] + [] + rs[k + 1..]
  {
    assert Spans(slots, rs[k]);
    RunDeleted(cut, rs[k].start, rs[k].offset + 1, kind);
    RecordRead(slots, e, rs, k, kind);
    DeleteRun(Reader(kind), slots, e, rs, k, rs[k].offset + 1, cut, []);
  }

  lemma ErasedEnd(slots: seq<Slot>, a: nat, b: nat, cut: seq<Slot>)
    requires Erased(slots, a, b, cut) && b <= End(slots)
    ensures End(cut) == End(slots)
  {
    EndIs(cut, End(slots));
  }

  /**
    A directory while a record is being deleted, its slots before `b` erased: the
    record is still there under its alias, with the same contents, until its short
    entry is erased too; then it is gone, and no other record has changed.
   */
  lemma DeleteCut(slots: seq<Slot>, k: nat, b: nat, cut: seq<Slot>, kind: Kind)
    requires NoOrphans(slots, End(slots), Records(slots, kind)) && k < |Records(slots, kind)|
    requires var r := Records(slots, kind)[k]; Erased(slots, r.start, b, cut) && r.start < b <= r.offset + 1
    ensures var rs, r := Records(slots, kind), Records(slots, kind)[k];
      && End(cut) == End(slots)
      && Records(cut, kind) == rs[..k] + (if b <= r.offset then [r.(name := r.alias, start := r.offset)]
        else []) + rs[k + 1..]
  {
    var rs, e := Records(slots, kind), End(slots);
    RecordsSpan(slots, kind);
    RecordsRun(slots, kind);
    IdleBeforeRecord(slots, e, rs, k, kind);
    ErasedEnd(slots, rs[k].start, b, cut);
    RecordsRun(cut, kind);
    if b <= rs[k].offset {
      DeletePart(slots, e, rs, k, b, cut, kind);
    } else {
      DeleteWhole(slots, e, rs, k, cut, kind);
    }
  }

  lemma ErasedOwned(slots: seq<Slot>, e: nat, rs: seq<Record>, k: nat, cut: seq<Slot>, rs': seq<Record>)
    requires e <= |slots| && k < |rs| && NoOrphans(slots, e, rs) && Erased(slots, rs[k].start, rs[k].offset + 1, cut)
      && rs' == rs[..k] + rs[k + 1..]
    ensures NoOrphans(cut, e, rs')
  {
    forall j | 0 <= j < e && IsLong(cut[j]) ensures Owned(rs', j) {
      assert Owned(rs, j);
      var l :| 0 <= l < |rs| && rs[l].start <= j < rs[l].offset;
      assert rs[l] == rs'[if l < k then l else l - 1];
    }
  }

  lemma DeleteTidy(slots: seq<Slot>, k: nat, cut: seq<Slot>, kind: Kind)
    requires Tidy(slots, kind) && k < |Records(slots, kind)| && End(cut) == End(slots)
    requires var r := Records(slots, kind)[k]; r.offset < End(slots) && Erased(slots, r.start, r.offset + 1, cut)
    requires Records(cut, kind) == Records(slots, kind)[..k] + Records(slots, kind)[k + 1..]
    ensures Tidy(cut, kind)
  {
    ErasedOwned(slots, End(slots), Records(slots, kind), k, cut, Records(cut, kind));
  }

  // ---------------------------------------------------------------- finding room

  ghost predicate AllFree(slots: seq<Slot>, e: nat, a: int, n: nat)
  {
    0 <= a <= |slots| - n && forall j :: a <= j < a + n ==> Free(slots, e, j)
  }

  /** The first run of `needed` free slots. */
  method FreeSlots(slots: seq<Slot>, needed: nat) returns (r: Option<nat>)
    requires needed > 0
    ensures r.Some? ==> FreeRun(slots, End(slots), r.value, needed)
    ensures forall a :: AllFree(slots, End(slots), a, needed) ==> r.Some? && r.value <= a
  {
    ghost var e := End(slots);
    var run, end := 0, false;
    for i := 0 to |slots|
      invariant run <= i && run < needed && end == (i > e)
      invariant forall j :: i - run <= j < i ==> Free(slots, e, j)
      invariant i - run > 0 ==> !Free(slots, e, i - run - 1)
      invariant forall a :: AllFree(slots, e, a, needed) ==> a >= i - run
    {
      end := end || slots[i][0] == 0;
      if end || slots[i][0] == DELETED {
        run := run + 1;
        if run == needed {
          return Some(i + 1 - needed);
        }
      } else {
        assert !Free(slots, e, i);
        run := 0;
      }
    }
    r := None;
  }
}
