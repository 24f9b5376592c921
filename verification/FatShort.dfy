/**
  Short (8.3) names: how one is chosen for a new entry (src/fs/fat.rs, short_name),
  that a free one always exists, and that no name typed at a directory the driver
  built can mean two of its records.
 */
module FatShort {
  import opened Base
  import opened FatTable
  import opened FatNames
  import opened FatDirectory

  type Short = s: seq<byte> | |s| == 11 witness seq(11, _ => 32)

  const TILDE: byte := 126
  const LAST_NUMBER: nat := 999_999

  predicate Alnum(c: nat) { 48 <= c <= 57 || 65 <= c <= 90 || 97 <= c <= 122 }

  predicate Special(c: nat) { c in {36, 37, 39, 45, 95, 64, 126, 96, 33, 40, 41, 123, 125, 94, 35, 38} }

  function ShortChar(c: nat): (b: byte)
    ensures b != 32 && b != 46 && b != 0 && b < 128
  { if Alnum(c) || Special(c) then Upper(c) as byte else 95 }

  /** A character a short name can hold as it is, up to case. */
  predicate Plain(c: nat) { c < 128 && ShortChar(c) as nat == Upper(c) }

  /** One past the last dot of `name`, or 0. */
  function LastDot(name: Name): (n: nat)
    ensures n <= |name| && (n > 0 ==> name[n - 1] == 46) && forall i :: n <= i < |name| ==> name[i] != 46
  {
    if name == [] then 0 else if name[|name| - 1] == 46 then |name| else LastDot(name[..|name| - 1])
  }

  function Stem(name: Name): (s: Name) { if LastDot(name) > 1 then name[..LastDot(name) - 1] else name }
  function Ext(name: Name): (s: Name) { if LastDot(name) > 1 then name[LastDot(name)..] else [] }

  ghost predicate AllPlain(s: Name) { forall i :: 0 <= i < |s| ==> Plain(s[i]) }

  /** Names that fit 8.3 without change but for case. */
  ghost predicate Simple(name: Name) {
    Stem(name) != [] && |Stem(name)| <= 8 && |Ext(name)| <= 3 && AllPlain(Stem(name)) && AllPlain(Ext(name))
  }

  function Chars(s: Name): (b: seq<byte>)
    ensures |b| == |s|
  { seq(|s|, i requires 0 <= i < |s| => ShortChar(s[i])) }

  function Fill(b: seq<byte>, n: nat): (r: seq<byte>)
    requires |b| <= n
    ensures |r| == n && r[..|b|] == b && forall i :: |b| <= i < n ==> r[i] == 32
  { b + seq(n - |b|, _ => 32 as byte) }

  ghost function Direct(name: Name): (s: Short)
    requires Simple(name)
  { Fill(Chars(Stem(name)), 8) + Fill(Chars(Ext(name)), 3) }

  function Clean(s: Name): (r: seq<byte>)
    ensures |r| <= |s| && forall i :: 0 <= i < |r| ==> r[i] != 32 && r[i] != 46 && r[i] != 0 && r[i] < 128
  {
    if s == [] then [] else if s[0] == 32 || s[0] == 46 then Clean(s[1..]) else [ShortChar(s[0])] + Clean(s[1..])
  }

  function Digits(n: nat): (d: seq<byte>)
    ensures forall i :: 0 <= i < |d| ==> 48 <= d[i] <= 57
    ensures (n < 10 ==> |d| <= 1) && (n < 100 ==> |d| <= 2) && (n < 1000 ==> |d| <= 3)
    ensures (n < 1_0000 ==> |d| <= 4) && (n < 10_0000 ==> |d| <= 5) && (n <= LAST_NUMBER ==> |d| <= 6)
  { if n == 0 then [] else Digits(n / 10) + [(48 + n % 10) as byte] }

  lemma {:induction false} DigitsInjective(n: nat, m: nat)
    requires Digits(n) == Digits(m)
    ensures n == m
  {
    if n > 0 && m > 0 {
      var a, b := Digits(n / 10), Digits(m / 10);
      var x, y := [(48 + n % 10) as byte], [(48 + m % 10) as byte];
      assert (a + x)[..|a|] == a && (b + y)[..|b|] == b;
      assert (a + x)[|a|] == x[0] && (b + y)[|b|] == y[0];
      DigitsInjective(n / 10, m / 10);
    }
  }

  /** How many characters of the stem come before the tilde. */
  function Kept(clean: seq<byte>, digits: seq<byte>): (n: nat)
    requires |digits| <= 6
  { if 7 - |digits| < |clean| then 7 - |digits| else |clean| }

  /** The eight bytes of a numbered stem. */
  function Numbered8(clean: seq<byte>, digits: seq<byte>): (r: seq<byte>)
    requires |digits| <= 6
    ensures |r| == 8
  { Fill(clean[..Kept(clean, digits)] + [TILDE] + digits, 8) }

  function Ext3(name: Name): (r: seq<byte>)
    ensures |r| == 3
  { Fill(Chars(Ext(name)[..if |Ext(name)| > 3 then 3 else |Ext(name)|]), 3) }

  function Numbered(name: Name, n: nat): (s: Short)
    requires n <= LAST_NUMBER
  { Numbered8(Clean(Stem(name)), Digits(n)) + Ext3(name) }

  /** Where the digits, the tilde and the padding of a numbered stem are. */
  lemma NumberedAt(clean: seq<byte>, d: seq<byte>)
    requires |d| <= 6
    ensures var t, r := Kept(clean, d), Numbered8(clean, d);
      && r[t] == TILDE && (forall i :: 0 <= i < |d| ==> r[t + 1 + i] == d[i])
      && (forall i :: t + 1 + |d| <= i < 8 ==> r[i] == 32)
      && (forall i :: 0 <= i < t ==> r[i] == clean[i])
  {}

  lemma NumberedApart(clean: seq<byte>, d: seq<byte>, d': seq<byte>)
    requires |d| < |d'| <= 6 && forall i :: 0 <= i < |d'| ==> 48 <= d'[i] <= 57
    ensures Numbered8(clean, d) != Numbered8(clean, d')
  {
    NumberedAt(clean, d);
    NumberedAt(clean, d');
    var t, t' := Kept(clean, d), Kept(clean, d');
    if t' < t {
      assert Numbered8(clean, d')[t] == d'[t - t' - 1];
    } else {
      assert Numbered8(clean, d)[t + 1 + |d|] == 32;
      assert Numbered8(clean, d')[t + 1 + |d|] == d'[|d|];
    }
  }

  lemma NumberedAlike(clean: seq<byte>, d: seq<byte>, d': seq<byte>)
    requires |d| == |d'| <= 6 && Numbered8(clean, d) == Numbered8(clean, d')
    ensures d == d'
  {
    DigitsIn(clean, d);
    DigitsIn(clean, d');
  }

  lemma DigitsIn(clean: seq<byte>, d: seq<byte>)
    requires |d| <= 6
    ensures var t := Kept(clean, d) + 1; t + |d| <= 8 && Numbered8(clean, d)[t..t + |d|] == d
  {
    NumberedAt(clean, d);
  }

  lemma NumberedDigits(clean: seq<byte>, d: seq<byte>, d': seq<byte>)
    requires |d| <= 6 && |d'| <= 6 && Numbered8(clean, d) == Numbered8(clean, d')
    requires (forall i :: 0 <= i < |d| ==> 48 <= d[i] <= 57) && (forall i :: 0 <= i < |d'| ==> 48 <= d'[i] <= 57)
    ensures d == d'
  {
    if |d| == |d'| {
      NumberedAlike(clean, d, d');
    } else if |d| < |d'| {
      NumberedApart(clean, d, d');
    } else {
      NumberedApart(clean, d', d);
    }
  }

  /** Different numbers give different short names, whatever the name. */
  lemma NumberedInjective(name: Name, n: nat, m: nat)
    requires n <= LAST_NUMBER && m <= LAST_NUMBER && Numbered(name, n) == Numbered(name, m)
    ensures n == m
  {
    var clean := Clean(Stem(name));
    assert Numbered(name, n)[..8] == Numbered8(clean, Digits(n))
      && Numbered(name, m)[..8] == Numbered8(clean, Digits(m));
    NumberedDigits(clean, Digits(n), Digits(m));
    DigitsInjective(n, m);
  }

  // ---------------------------------------------------------------- choosing one

  ghost predicate Used(rs: seq<Record>, s: seq<byte>) { exists k :: 0 <= k < |rs| && rs[k].short == s }

  ghost predicate Usable(name: Name, rs: seq<Record>) { Simple(name) && !Used(rs, Direct(name)) }

  /** The short name given to `name` next to `rs`: its own if it is simple and free, else the first free number. */
  ghost predicate Chosen(name: Name, rs: seq<Record>, s: Short) {
    && !Used(rs, s)
    && if Usable(name, rs) then s == Direct(name)
       else exists n :: 1 <= n <= LAST_NUMBER && s == Numbered(name, n) && forall m :: 1 <= m < n ==>
         Used(rs, Numbered(name, m))
  }

  lemma {:induction false} Pigeonhole(name: Name, numbers: set<nat>, rs: seq<Record>)
    requires forall n :: n in numbers ==> n <= LAST_NUMBER && Used(rs, Numbered(name, n))
    ensures |numbers| <= |rs|
    decreases |rs|
  {
    if rs == [] {
      assert numbers == {};
    } else {
      var x, init := rs[|rs| - 1].short, rs[..|rs| - 1];
      forall n, m | n in numbers && m in numbers && Numbered(name, n) == x && Numbered(name, m) == x ensures n == m {
        NumberedInjective(name, n, m);
      }
      if n :| n in numbers && Numbered(name, n) == x {
        forall m | m in numbers - {n} ensures Used(init, Numbered(name, m)) { UsedBefore(rs, Numbered(name, m)); }
        Pigeonhole(name, numbers - {n}, init);
      } else {
        forall m | m in numbers ensures Used(init, Numbered(name, m)) { UsedBefore(rs, Numbered(name, m)); }
        Pigeonhole(name, numbers, init);
      }
    }
  }

  lemma UsedBefore(rs: seq<Record>, s: seq<byte>)
    requires rs != [] && Used(rs, s) && rs[|rs| - 1].short != s
    ensures Used(rs[..|rs| - 1], s)
  {
    var k :| 0 <= k < |rs| && rs[k].short == s;
    assert rs[..|rs| - 1][k].short == s;
  }

  ghost function UpTo(n: nat): (s: set<nat>)
    ensures |s| == n && forall m :: m in s <==> 1 <= m <= n
  { if n == 0 then {} else UpTo(n - 1) + {n} }

  /** A directory with fewer than 999,999 records leaves some number free. */
  lemma NeverExhausted(name: Name, rs: seq<Record>)
    requires |rs| < LAST_NUMBER
    ensures exists n :: 1 <= n <= LAST_NUMBER && !Used(rs, Numbered(name, n))
  {
    if forall n :: 1 <= n <= LAST_NUMBER ==> Used(rs, Numbered(name, n)) {
      Pigeonhole(name, UpTo(LAST_NUMBER), rs);
    }
  }

  /** No directory the driver can load holds that many records. */
  lemma RecordsFit(slots: seq<Slot>, kind: Kind)
    requires |slots| * 32 <= MAX_METADATA
    ensures |Records(slots, kind)| <= |slots| < LAST_NUMBER
  {
    RecordsSpan(slots, kind);
    var rs := Records(slots, kind);
    if rs != [] { OffsetsGrow(slots, rs, End(slots), |rs| - 1); }
  }

  lemma {:induction false} OffsetsGrow(slots: seq<Slot>, rs: seq<Record>, e: nat, k: nat)
    requires InOrder(slots, rs, 0, e) && k < |rs|
    ensures k <= rs[k].offset < e
  {
    if k > 0 { OffsetsGrow(slots, rs, e, k - 1); }
  }

  /** short_name: the chosen short name, or nothing when every number is taken. */
  method ShortName(name: Name, rs: seq<Record>) returns (r: Option<Short>)
    ensures r.Some? ==> Chosen(name, rs, r.value)
    ensures r.None? ==> !Usable(name, rs) && forall m :: 1 <= m <= LAST_NUMBER ==> Used(rs, Numbered(name, m))
    ensures |rs| < LAST_NUMBER ==> r.Some?
  {
    var stem, ext := Stem(name), Ext(name);
    var simple := IsSimple(stem, ext);
    if simple {
      var direct := Fill(Chars(stem), 8) + Fill(Chars(ext), 3);
      var used := IsUsed(rs, direct);
      if !used { return Some(direct); }
    }
    var clean := Clean(stem);
    for number := 1 to LAST_NUMBER + 1
      invariant forall m :: 1 <= m < number ==> Used(rs, Numbered(name, m))
    {
      var digits := DigitsOf(number);
      var prefix := if 7 - |digits| < |clean| then 7 - |digits| else |clean|;
      var short := Fill(clean[..prefix] + [TILDE] + digits, 8) + Fill(Chars(ext[..if |ext| > 3 then 3 else |ext|]), 3);
      assert short == Numbered(name, number);
      var used := IsUsed(rs, short);
      if !used { return Some(short); }
    }
    if |rs| < LAST_NUMBER { NeverExhausted(name, rs); }
    r := None;
  }

  method IsSimple(stem: Name, ext: Name) returns (ok: bool)
    ensures ok <==> stem != [] && |stem| <= 8 && |ext| <= 3 && AllPlain(stem) && AllPlain(ext)
  {
    if stem == [] || |stem| > 8 || |ext| > 3 { return false; }
    var all := stem + ext;
    for i := 0 to |all|
      invariant forall j :: 0 <= j < i ==> Plain(all[j])
    {
      if !Plain(all[i]) {
        assert i < |stem| ==> !AllPlain(stem);
        assert i >= |stem| ==> !Plain(ext[i - |stem|]);
        return false;
      }
    }
    assert forall i :: 0 <= i < |stem| ==> stem[i] == all[i];
    assert forall i :: 0 <= i < |ext| ==> ext[i] == all[|stem| + i];
    ok := true;
  }

  method IsUsed(rs: seq<Record>, s: seq<byte>) returns (used: bool)
    ensures used <==> Used(rs, s)
  {
    for i := 0 to |rs|
      invariant forall k :: 0 <= k < i ==> rs[k].short != s
    {
      if rs[i].short == s { return true; }
    }
    used := false;
  }

  lemma DigitsStep(n: nat, tail: seq<byte>)
    requires n > 0
    ensures Digits(n) != [] && Digits(n) + tail == Digits(n / 10) + ([(48 + n % 10) as byte] + tail)
  {
    ConcatAssoc(Digits(n / 10), [(48 + n % 10) as byte], tail);
  }

  /** The digits of a number, filled in from the right of a six-byte buffer. */
  method DigitsOf(number: nat) returns (r: seq<byte>)
    requires number <= LAST_NUMBER
    ensures r == Digits(number)
  {
    var digits := new byte[6];
    var n, len := number, 0;
    while n > 0
      invariant len <= 6 && Digits(number) == Digits(n) + digits[6 - len..]
    {
      DigitsStep(n, digits[6 - len..]);
      assert len < 6;
      digits[5 - len] := (48 + n % 10) as byte;
      assert digits[5 - len..] == [(48 + n % 10) as byte] + digits[6 - len..];
      n := n / 10;
      len := len + 1;
    }
    r := digits[6 - len..];
  }

  // ---------------------------------------------------------------- one meaning per name

  /** A byte ShortChar produces. */
  predicate Kept8(b: byte) { b < 128 && ShortChar(b as nat) == b }

  lemma ShortCharKept(c: nat)
    ensures Kept8(ShortChar(c)) && Upper(ShortChar(c) as nat) == ShortChar(c) as nat
  {}

  ghost predicate AllKept(b: seq<byte>) { forall i :: 0 <= i < |b| ==> Kept8(b[i]) }

  ghost predicate ShapedFrom(s: Short, b: seq<byte>, x: seq<byte>) {
    1 <= |b| <= 8 && |x| <= 3 && AllKept(b) && AllKept(x) && s == Fill(b, 8) + Fill(x, 3)
  }

  /** A short name of the form the driver writes. */
  ghost predicate Shaped(s: Short) { exists b, x :: ShapedFrom(s, b, x) }

  function Nats(b: seq<byte>): (t: Name)
    ensures |t| == |b|
  { seq(|b|, i requires 0 <= i < |b| => b[i] as nat) }

  function Join(b: seq<byte>, x: seq<byte>): (t: Name) { Nats(b) + if x == [] then [] else [46] + Nats(x) }

  lemma TrimmedFill(b: seq<byte>, n: nat)
    requires |b| <= n && AllKept(b)
    ensures Trimmed(Fill(b, n)) == |b|
  {
    var p := Fill(b, n);
    var t := Trimmed(p);
    assert b == p[..|b|];
    assert |b| > 0 ==> p[|b| - 1] == b[|b| - 1];
  }

  lemma PartTextKept(b: seq<byte>)
    requires AllKept(b)
    ensures PartText(b, false) == Nats(b)
  {}

  lemma AliasParts(s: Short)
    requires s[0] != 5
    ensures Alias(s, 0) == PartText(s[..8][..Trimmed(s[..8])], false) + if Trimmed(s[8..]) == 0 then []
      else [46] + PartText(s[8..][..Trimmed(s[8..])], false)
  {}

  lemma AliasOf(s: Short, b: seq<byte>, x: seq<byte>)
    requires ShapedFrom(s, b, x)
    ensures Alias(s, 0) == Join(b, x)
  {
    assert s[..8] == Fill(b, 8) && s[8..] == Fill(x, 3);
    assert s[0] == b[0];
    AliasParts(s);
    TrimmedFill(b, 8);
    TrimmedFill(x, 3);
    PartTextKept(b);
    PartTextKept(x);
  }

  lemma LastDotIs(name: Name, n: nat)
    requires n <= |name| && (n > 0 ==> name[n - 1] == 46) && forall i :: n <= i < |name| ==> name[i] != 46
    ensures LastDot(name) == n
  {}

  lemma SplitJoin(b: seq<byte>, x: seq<byte>)
    requires 1 <= |b| && AllKept(b) && AllKept(x)
    ensures Stem(Join(b, x)) == Nats(b) && Ext(Join(b, x)) == Nats(x)
  {
    var t := Join(b, x);
    if x == [] {
      assert t == Nats(b);
      LastDotIs(t, 0);
    } else {
      assert t[|b|] == 46;
      LastDotIs(t, |b| + 1);
      assert t[..|b|] == Nats(b) && t[|b| + 1..] == Nats(x);
    }
  }

  lemma CharsNats(b: seq<byte>)
    requires AllKept(b)
    ensures Chars(Nats(b)) == b && AllPlain(Nats(b))
  {
    forall i | 0 <= i < |b| ensures Plain(Nats(b)[i]) { ShortCharKept(b[i] as nat); }
  }

  /** A driver-written short name is the direct form of its own alias. */
  lemma AliasIsSimple(s: Short)
    requires Shaped(s)
    ensures Simple(Alias(s, 0)) && Direct(Alias(s, 0)) == s
  {
    var b, x :| ShapedFrom(s, b, x);
    AliasOf(s, b, x);
    SplitJoin(b, x);
    CharsNats(b);
    CharsNats(x);
  }

  lemma UpperPlain(c: nat, d: nat)
    requires Upper(c) == Upper(d)
    ensures Plain(c) == Plain(d) && ShortChar(c) == ShortChar(d) && (c == 46 <==> d == 46)
  {}

  lemma SameParts(a: Name, b: Name)
    requires Same(a, b)
    ensures LastDot(a) == LastDot(b) && Same(Stem(a), Stem(b)) && Same(Ext(a), Ext(b))
  {
    forall i | 0 <= i < |a| ensures a[i] == 46 <==> b[i] == 46 { UpperPlain(a[i], b[i]); }
    LastDotIs(b, LastDot(a));
  }

  lemma SameChars(a: Name, b: Name)
    requires Same(a, b)
    ensures Chars(a) == Chars(b) && (AllPlain(a) ==> AllPlain(b))
  {
    forall i | 0 <= i < |a|
      ensures ShortChar(a[i]) == ShortChar(b[i]) && Plain(a[i]) == Plain(b[i])
    {
      UpperPlain(a[i], b[i]);
    }
  }

  lemma SameDirect(a: Name, b: Name)
    requires Same(a, b) && Simple(a)
    ensures Simple(b) && Direct(b) == Direct(a)
  {
    SameParts(a, b);
    SameChars(Stem(a), Stem(b));
    SameChars(Ext(a), Ext(b));
  }

  /** Whatever is typed like an alias is simple, and that alias is its direct form. */
  lemma LikeAlias(q: Name, s: Short)
    requires Shaped(s) && Same(q, Alias(s, 0))
    ensures Simple(q) && Direct(q) == s
  {
    AliasIsSimple(s);
    SameDirect(Alias(s, 0), q);
  }

  lemma CharsKept(s: Name)
    ensures AllKept(Chars(s))
  {
    forall i | 0 <= i < |s| ensures Kept8(Chars(s)[i]) { ShortCharKept(s[i]); }
  }

  lemma DirectShaped(name: Name)
    requires Simple(name)
    ensures Shaped(Direct(name)) && ShapedFrom(Direct(name), Chars(Stem(name)), Chars(Ext(name)))
  {
    CharsKept(Stem(name));
    CharsKept(Ext(name));
    assert ShapedFrom(Direct(name), Chars(Stem(name)), Chars(Ext(name)));
  }

  lemma UpperChars(s: Name)
    requires AllPlain(s)
    ensures Same(s, Nats(Chars(s)))
  {
    forall i | 0 <= i < |s| ensures Upper(s[i]) == Upper(Nats(Chars(s))[i]) { ShortCharKept(s[i]); }
  }

  lemma SameAsJoin(name: Name, stem: Name, ext: Name, b: seq<byte>, x: seq<byte>)
    requires name == (if ext == [] then stem else stem + [46] + ext) && Same(stem, Nats(b)) && Same(ext, Nats(x))
    ensures Same(name, Join(b, x)) && Same(Join(b, x), name)
  {
    if ext != [] { assert Join(b, x) == Nats(b) + [46] + Nats(x); }
  }

  lemma StemAndExt(name: Name)
    requires ValidName(name)
    ensures name == if Ext(name) == [] then Stem(name) else Stem(name) + [46] + Ext(name)
  {}

  /** The alias of a simple name's direct form differs from it in case only. */
  lemma DirectAlias(name: Name)
    requires Simple(name) && ValidName(name)
    ensures Same(name, Alias(Direct(name), 0)) && Same(Alias(Direct(name), 0), name)
  {
    var stem, ext := Stem(name), Ext(name);
    assert Same(stem, Nats(Chars(stem))) && Same(ext, Nats(Chars(ext))) by {
      UpperChars(stem);
      UpperChars(ext);
    }
    assert name == if ext == [] then stem else stem + [46] + ext by { StemAndExt(name); }
    SameAsJoin(name, stem, ext, Chars(stem), Chars(ext));
    DirectShaped(name);
    AliasOf(Direct(name), Chars(stem), Chars(ext));
  }

  lemma {:induction false} CleanKept(s: Name)
    ensures AllKept(Clean(s))
  {
    if s != [] {
      CleanKept(s[1..]);
      ShortCharKept(s[0]);
    }
  }

  lemma NumberedShaped(name: Name, n: nat)
    requires n <= LAST_NUMBER
    ensures Shaped(Numbered(name, n))
  {
    var clean, d := Clean(Stem(name)), Digits(n);
    CleanKept(Stem(name));
    var b, e := clean[..Kept(clean, d)] + [TILDE] + d, Ext(name)[..if |Ext(name)| > 3 then 3 else |Ext(name)|];
    CharsKept(e);
    forall i | 0 <= i < |d| ensures Kept8(d[i]) { }
    assert ShapedFrom(Numbered(name, n), b, Chars(e));
  }

  /** A record as the driver writes it: its alias is its short name's, and a simple name has its direct form. */
  ghost predicate Built(r: Record) {
    && |r.short| == 11 && Shaped(r.short) && r.alias == Alias(r.short, 0)
    && (Simple(r.name) ==> r.short == Direct(r.name))
  }

  ghost predicate Apart(r: Record, q: Record) { r.short != q.short && !Same(r.name, q.name) }

  ghost predicate Family<T>(xs: seq<T>, good: T -> bool, apart: (T, T) -> bool) {
    (forall i :: 0 <= i < |xs| ==> good(xs[i]))
      && (forall i, j :: 0 <= i < |xs| && 0 <= j < |xs| && i != j ==> apart(xs[i], xs[j]))
  }

  /** Records of a directory the driver built. */
  ghost predicate Coherent(rs: seq<Record>) { Family(rs, Built, Apart) }

  lemma FamilyInsert<T>(xs: seq<T>, p: seq<T>, r: seq<T>, w: T, xs': seq<T>, good: T -> bool, apart: (T, T) -> bool)
    requires Family(xs, good, apart) && xs == p + r && xs' == p + [w] + r && good(w)
    requires forall i :: 0 <= i < |xs| ==> apart(xs[i], w) && apart(w, xs[i])
    ensures Family(xs', good, apart)
  {
    assert forall i :: 0 <= i < |xs'| && i != |p| ==> xs'[i] == xs[if i < |p| then i else i - 1];
    assert xs'[|p|] == w;
  }

  lemma FamilyRemove<T>(xs: seq<T>, k: nat, good: T -> bool, apart: (T, T) -> bool)
    requires Family(xs, good, apart) && k < |xs|
    ensures Family(xs[..k] + xs[k + 1..], good, apart)
  {
    var xs' := xs[..k] + xs[k + 1..];
    assert forall i :: 0 <= i < |xs'| ==> xs'[i] == xs[if i < k then i else i + 1];
  }

  lemma FamilyReplace<T>(xs: seq<T>, k: nat, w: T, good: T -> bool, apart: (T, T) -> bool)
    requires Family(xs, good, apart) && k < |xs| && good(w)
    requires forall i :: 0 <= i < |xs| && i != k ==> apart(xs[i], w) && apart(w, xs[i])
    ensures Family(xs[k := w], good, apart)
  {}

  predicate Matches(r: Record, q: Name) { Same(r.name, q) || Same(r.alias, q) }

  lemma SameTrans(a: Name, q: Name, b: Name)
    requires Same(a, q) && Same(b, q)
    ensures Same(a, b) && Same(b, a)
  {}

  /** Two records that the same string matches have the same short name or the same name. */
  lemma MatchBoth(r: Record, r': Record, q: Name)
    requires Built(r) && Built(r') && Matches(r, q) && Matches(r', q)
    ensures r.short == r'.short || Same(r.name, r'.name)
  {
    if Same(r.alias, q) && Same(r'.alias, q) {
      SameTrans(r.alias, q, r'.alias);
      LikeAlias(r.alias, r'.short);
      AliasIsSimple(r.short);
    } else if Same(r.alias, q) {
      SameTrans(r'.name, q, r.alias);
      LikeAlias(r'.name, r.short);
    } else if Same(r'.alias, q) {
      SameTrans(r.name, q, r'.alias);
      LikeAlias(r.name, r'.short);
    } else {
      SameTrans(r.name, q, r'.name);
    }
  }

  /** No string typed at the directory matches two records, by name or by alias. */
  lemma LookupUnique(rs: seq<Record>, q: Name, i: nat, j: nat)
    requires Coherent(rs) && i < |rs| && j < |rs| && Matches(rs[i], q) && Matches(rs[j], q)
    ensures i == j
  {
    assert Built(rs[i]) && Built(rs[j]);
    MatchBoth(rs[i], rs[j], q);
    assert i != j ==> Apart(rs[i], rs[j]);
  }

  /** A simple name that matches nothing always gets its direct form; any name gets a well-shaped one. */
  lemma ChosenBuilt(name: Name, rs: seq<Record>, s: Short)
    requires ValidName(name) && Coherent(rs) && Chosen(name, rs, s) && forall i :: 0 <= i < |rs| ==>
      !Matches(rs[i], name)
    ensures Shaped(s) && (Simple(name) ==> s == Direct(name))
  {
    if Simple(name) {
      DirectAlias(name);
      assert forall k :: 0 <= k < |rs| ==> Built(rs[k]) && rs[k].short != Direct(name);
      DirectShaped(name);
    } else {
      var n :| 1 <= n <= LAST_NUMBER && s == Numbered(name, n) && forall m :: 1 <= m < n ==>
        Used(rs, Numbered(name, m));
      NumberedShaped(name, n);
    }
  }

  /** A new record keeps the directory coherent. */
  lemma InsertCoherent(rs: seq<Record>, p: seq<Record>, r: seq<Record>, w: Record, rs': seq<Record>)
    requires Coherent(rs) && rs == p + r && rs' == p + [w] + r && ValidName(w.name)
    requires |w.short| == 11 && Chosen(w.name, rs, w.short) && w.alias == Alias(w.short, 0)
    requires forall i :: 0 <= i < |rs| ==> !Matches(rs[i], w.name)
    ensures Coherent(rs')
  {
    ChosenBuilt(w.name, rs, w.short);
    assert Built(w);
    forall i | 0 <= i < |rs| ensures Apart(rs[i], w) && Apart(w, rs[i]) { assert !Matches(rs[i], w.name); }
    FamilyInsert(rs, p, r, w, rs', Built, Apart);
  }

  lemma RemoveCoherent(rs: seq<Record>, k: nat)
    requires Coherent(rs) && k < |rs|
    ensures Coherent(rs[..k] + rs[k + 1..])
  {
    FamilyRemove(rs, k, Built, Apart);
  }

  lemma UpdateCoherent(rs: seq<Record>, k: nat, first: nat, size: nat)
    requires Coherent(rs) && k < |rs|
    ensures Coherent(rs[k := rs[k].(cluster := first, size := size)])
  {
    var w := rs[k].(cluster := first, size := size);
    assert Built(rs[k]);
    forall i | 0 <= i < |rs| && i != k
      ensures Apart(rs[i], w) && Apart(w, rs[i])
    {
      assert Apart(rs[i], rs[k]) && Apart(rs[k], rs[i]);
    }
    FamilyReplace(rs, k, w, Built, Apart);
  }

  /** A well-shaped short name is neither an end marker, nor deleted, nor a dot entry. */
  lemma ShapedGood(s: Short)
    requires Shaped(s)
    ensures GoodShort(s)
  {
    var b, x :| ShapedFrom(s, b, x);
    AliasOf(s, b, x);
    assert s[0] == b[0] && Alias(s, 0)[0] == b[0] as nat;
  }
}
