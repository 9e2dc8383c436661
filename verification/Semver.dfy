/** Version strings of the artifact registry: parsing, comparison and the newest entry. */
module Semver {
  import opened ByteStrings

  const MAX_INT: int := 0x7fff_ffff_ffff_ffff

  datatype Version = Version(major: int, minor: int, patch: int, pre: Bytes)

  // ---- strconv.Atoi with the error ignored ----

  datatype Scan = Syntax | Range | Number(n: nat)

  /** Digits from the left: a bad byte is a syntax error unless the value overflowed uint64 before. */
  function ScanDigits(s: Bytes, acc: nat): Scan
  {
    if s == [] then Number(acc)
    else if !('0' as int <= s[0] <= '9' as int) then Syntax
    else
      var n := acc * 10 + (s[0] - '0' as int);
      if n > 0xffff_ffff_ffff_ffff then Range else ScanDigits(s[1..], n)
  }

  function Atoi(s: Bytes): (v: int)
    ensures -MAX_INT - 1 <= v <= MAX_INT
    ensures (s == [] || s[0] != '-' as int) ==> v >= 0
  {
    var signed := s != [] && (s[0] == '-' as int || s[0] == '+' as int);
    var negative := signed && s[0] == '-' as int;
    var digits := if signed then s[1..] else s;
    if digits == [] then 0
    else match ScanDigits(digits, 0)
         case Syntax => 0
         case Range => if negative then -MAX_INT - 1 else MAX_INT
         case Number(n) =>
           if negative then (if n > MAX_INT then -MAX_INT - 1 else 0 - n)
           else if n > MAX_INT then MAX_INT else n
  }

  // ---- parsing ----

  function Split(s: Bytes, c: byte): (parts: seq<Bytes>)
    ensures |parts| >= 1
    ensures forall p, x :: p in parts && x in p ==> x in s
    decreases |s|
  {
    var i := IndexByte(s, c);
    if i < 0 then [s] else [s[..i]] + Split(s[i + 1..], c)
  }

  const DOT: byte := '.' as int
  const HYPHEN: byte := '-' as int

  /** The i-th number of a dotted core; the hyphen went with the pre-release, so none is negative. */
  function NumberAt(core: Bytes, i: nat): (n: int)
    requires HYPHEN !in core
    ensures 0 <= n <= MAX_INT
  {
    var parts := Split(core, DOT);
    if i >= |parts| then 0
    else
      assert parts[i] in parts;
      assert parts[i] != [] ==> parts[i][0] in parts[i];
      Atoi(parts[i])
  }

  function ParseSemver(text: Bytes): (v: Version)
    ensures 0 <= v.major <= MAX_INT && 0 <= v.minor <= MAX_INT && 0 <= v.patch <= MAX_INT
  {
    var v := TrimPrefix(text, ['v' as int]);
    var dash := IndexByte(v, HYPHEN);
    var core := if dash < 0 then v else v[..dash];
    var pre := if dash < 0 then [] else v[dash + 1..];
    Version(NumberAt(core, 0), NumberAt(core, 1), NumberAt(core, 2), pre)
  }

  // ---- what the texts mean ----

  predicate IsDigit(c: byte)
  {
    '0' as int <= c <= '9' as int
  }

  predicate AllDigits(s: Bytes)
  {
    forall i :: 0 <= i < |s| ==> IsDigit(s[i])
  }

  /** The decimal number of digits read after acc. */
  function Value(acc: nat, s: Bytes): nat
    requires AllDigits(s)
    decreases |s|
  {
    if s == [] then acc else Value(acc * 10 + (s[0] - '0' as int), s[1..])
  }

  lemma {:induction false} ValueGrows(acc: nat, s: Bytes)
    requires AllDigits(s)
    ensures Value(acc, s) >= acc
    decreases |s|
  {
    if s != [] {
      ValueGrows(acc * 10 + (s[0] - '0' as int), s[1..]);
    }
  }

  const MAX_UINT: nat := 0xffff_ffff_ffff_ffff

  lemma {:induction false} ScanValue(s: Bytes, acc: nat)
    requires AllDigits(s) && acc <= MAX_UINT
    ensures ScanDigits(s, acc) == if Value(acc, s) > MAX_UINT then Range else Number(Value(acc, s))
  {
    if s != [] {
      var n := acc * 10 + (s[0] - '0' as int);
      ValueGrows(n, s[1..]);
      if n <= MAX_UINT {
        ScanValue(s[1..], n);
      }
    }
  }

  /** Digits count as their number, or as the largest int when that is smaller. */
  lemma AtoiDigits(s: Bytes)
    requires s != [] && AllDigits(s)
    ensures Atoi(s) == if Value(0, s) > MAX_INT then MAX_INT else Value(0, s)
  {
    ScanValue(s, 0);
  }

  lemma {:induction false} ScanStopsAt(s: Bytes, k: nat, acc: nat)
    requires k < |s| && AllDigits(s[..k]) && !IsDigit(s[k]) && acc <= MAX_UINT
    ensures ScanDigits(s, acc) == if Value(acc, s[..k]) > MAX_UINT then Range else Syntax
  {
    if k > 0 {
      var n := acc * 10 + (s[0] - '0' as int);
      assert s[..k][0] == s[0] && s[..k][1..] == s[1..][..k - 1];
      ValueGrows(n, s[..k][1..]);
      if n <= MAX_UINT {
        ScanStopsAt(s[1..], k - 1, n);
      }
    }
  }

  /** A part with anything else behind its digits counts as 0, unless these already exceed a uint64. */
  lemma AtoiJunk(s: Bytes, k: nat)
    requires k < |s| && AllDigits(s[..k]) && !IsDigit(s[k]) && s[0] != '-' as int && s[0] != '+' as int
    ensures Atoi(s) == if Value(0, s[..k]) > MAX_UINT then MAX_INT else 0
  {
    ScanStopsAt(s, k, 0);
  }

  /** A leading plus is ignored, and a second sign makes the part count as 0. */
  lemma AtoiPlus(s: Bytes)
    ensures Atoi(['+' as int] + s) == if s != [] && s[0] in {'+' as int, HYPHEN} then 0 else Atoi(s)
  {
    assert (['+' as int] + s)[1..] == s;
  }

  /** The decimal text of a number. */
  function Dec(n: nat): (s: Bytes)
    ensures s != [] && AllDigits(s)
  {
    var d := ['0' as int + n % 10];
    if n < 10 then d else Dec(n / 10) + d
  }

  lemma {:induction false} ValueSnoc(acc: nat, s: Bytes, d: byte)
    requires AllDigits(s) && IsDigit(d)
    ensures AllDigits(s + [d]) && Value(acc, s + [d]) == Value(acc, s) * 10 + (d - '0' as int)
    decreases |s|
  {
    if s == [] {
      assert s + [d] == [d];
      assert Value(acc, [d]) == Value(acc * 10 + (d - '0' as int), []);
    } else {
      assert (s + [d])[1..] == s[1..] + [d];
      ValueSnoc(acc * 10 + (s[0] - '0' as int), s[1..], d);
    }
  }

  lemma {:induction false} DecValue(n: nat)
    ensures Value(0, Dec(n)) == n
  {
    var d := '0' as int + n % 10;
    if n < 10 {
      assert Value(0, [d]) == Value(n, []);
    } else {
      DecValue(n / 10);
      ValueSnoc(0, Dec(n / 10), d);
    }
  }

  lemma FirstIndex(a: Bytes, c: byte, rest: Bytes)
    requires c !in a
    ensures IndexByte(a + [c] + rest, c) == |a| && IndexByte(a, c) == -1
  {
    var s := a + [c] + rest;
    assert s[|a|] == c && forall i :: 0 <= i < |a| ==> s[i] == a[i];
  }

  lemma SplitFirst(a: Bytes, c: byte, rest: Bytes)
    requires c !in a
    ensures Split(a, c) == [a] && Split(a + [c] + rest, c) == [a] + Split(rest, c)
  {
    FirstIndex(a, c, rest);
    var s := a + [c] + rest;
    assert s[..|a|] == a && s[|a| + 1..] == rest;
  }

  function CoreText(v: Version): Bytes
    requires InRange(v)
  {
    Dec(v.major) + [DOT] + (Dec(v.minor) + [DOT] + Dec(v.patch))
  }

  /** The text of a version, with or without the leading v. */
  function Render(v: Version, prefix: bool): Bytes
    requires InRange(v)
  {
    var text := if v.pre == [] then CoreText(v) else CoreText(v) + [HYPHEN] + v.pre;
    if prefix then ['v' as int] + text else text
  }

  lemma DigitsOnly(n: nat, c: byte)
    requires !IsDigit(c)
    ensures c !in Dec(n)
  {
  }

  lemma SplitThree(a: Bytes, b: Bytes, c: Bytes)
    requires DOT !in a && DOT !in b && DOT !in c
    ensures Split(a + [DOT] + (b + [DOT] + c), DOT) == [a, b, c]
  {
    SplitFirst(a, DOT, b + [DOT] + c);
    SplitFirst(b, DOT, c);
    SplitFirst(c, DOT, []);
  }

  lemma AtoiDec(n: nat)
    requires n <= MAX_INT
    ensures Atoi(Dec(n)) == n
  {
    AtoiDigits(Dec(n));
    DecValue(n);
  }

  lemma CoreNumbers(v: Version)
    requires InRange(v)
    ensures HYPHEN !in CoreText(v)
    ensures NumberAt(CoreText(v), 0) == v.major && NumberAt(CoreText(v), 1) == v.minor
        && NumberAt(CoreText(v), 2) == v.patch
  {
    DigitsOnly(v.major, DOT);
    DigitsOnly(v.minor, DOT);
    DigitsOnly(v.patch, DOT);
    NoHyphen(v);
    SplitThree(Dec(v.major), Dec(v.minor), Dec(v.patch));
    AtoiDec(v.major);
    AtoiDec(v.minor);
    AtoiDec(v.patch);
  }

  lemma NoHyphen(v: Version)
    requires InRange(v)
    ensures HYPHEN !in CoreText(v)
  {
    DigitsOnly(v.major, HYPHEN);
    DigitsOnly(v.minor, HYPHEN);
    DigitsOnly(v.patch, HYPHEN);
  }

  lemma TextUnprefixed(v: Version, prefix: bool)
    requires InRange(v)
    ensures TrimPrefix(Render(v, prefix), ['v' as int]) == Render(v, false)
  {
    var text := Render(v, false);
    assert text[0] == Dec(v.major)[0];
    assert (['v' as int] + text)[1..] == text;
  }

  /** Parsing reads back the version a text was written from. */
  lemma ParseRoundTrip(v: Version, prefix: bool)
    requires InRange(v)
    ensures ParseSemver(Render(v, prefix)) == v
  {
    TextUnprefixed(v, prefix);
    CoreNumbers(v);
    var core, text := CoreText(v), Render(v, false);
    FirstIndex(core, HYPHEN, v.pre);
    if v.pre != [] {
      assert text[..|core|] == core && text[|core| + 1..] == v.pre;
    }
  }

  /** So written versions compare by their numbers, and a release comes after each of its pre-releases. */
  lemma RenderedOrder(a: Version, pa: bool, b: Version, pb: bool)
    requires InRange(a) && InRange(b)
    ensures CompareSemver(Render(a, pa), Render(b, pb)) == CompareVersions(a, b)
    ensures b == a.(pre := b.pre) && a.pre == [] && b.pre != [] ==> CompareSemver(Render(a, pa), Render(b, pb)) > 0
    ensures a.major < b.major ==> CompareSemver(Render(a, pa), Render(b, pb)) < 0
  {
    ParseRoundTrip(a, pa);
    ParseRoundTrip(b, pb);
  }

  // ---- comparison ----

  /** Go's < on strings. */
  predicate Less(a: Bytes, b: Bytes)
  {
    b != [] && (a == [] || a[0] < b[0] || (a[0] == b[0] && Less(a[1..], b[1..])))
  }

  function CompareVersions(a: Version, b: Version): int
  {
    if a.major != b.major then a.major - b.major
    else if a.minor != b.minor then a.minor - b.minor
    else if a.patch != b.patch then a.patch - b.patch
    else if a.pre == [] && b.pre == [] then 0
    else if a.pre == [] then 1
    else if b.pre == [] then -1
    else if Less(a.pre, b.pre) then -1
    else if Less(b.pre, a.pre) then 1
    else 0
  }

  function CompareSemver(a: Bytes, b: Bytes): int
  {
    CompareVersions(ParseSemver(a), ParseSemver(b))
  }

  lemma {:induction false} LessTotal(a: Bytes, b: Bytes)
    ensures !Less(a, b) && !Less(b, a) <==> a == b
    ensures !(Less(a, b) && Less(b, a))
  {
    if a != [] && b != [] {
      LessTotal(a[1..], b[1..]);
      assert a == [a[0]] + a[1..] && b == [b[0]] + b[1..];
    }
  }

  lemma {:induction false} LessTransitive(a: Bytes, b: Bytes, c: Bytes)
    requires Less(a, b) && Less(b, c)
    ensures Less(a, c)
  {
    if a != [] && a[0] == b[0] && b[0] == c[0] {
      LessTransitive(a[1..], b[1..], c[1..]);
    }
  }

  predicate InRange(v: Version)
  {
    0 <= v.major <= MAX_INT && 0 <= v.minor <= MAX_INT && 0 <= v.patch <= MAX_INT
  }

  /** The three-way result changes sign with its arguments, is zero only for equal versions, and on
      parsed versions its subtractions never overflow a 64-bit integer. */
  lemma CompareAntisymmetric(a: Version, b: Version)
    ensures CompareVersions(a, b) < 0 <==> CompareVersions(b, a) > 0
    ensures CompareVersions(a, b) == 0 <==> a == b
    ensures InRange(a) && InRange(b) ==> -MAX_INT <= CompareVersions(a, b) <= MAX_INT
  {
    LessTotal(a.pre, b.pre);
  }

  lemma CompareTransitive(a: Version, b: Version, c: Version)
    requires CompareVersions(a, b) <= 0 && CompareVersions(b, c) <= 0
    ensures CompareVersions(a, c) <= 0
    ensures CompareVersions(a, b) < 0 || CompareVersions(b, c) < 0 ==> CompareVersions(a, c) < 0
  {
    LessTotal(a.pre, b.pre);
    LessTotal(b.pre, c.pre);
    LessTotal(a.pre, c.pre);
    if Less(a.pre, b.pre) && Less(b.pre, c.pre) {
      LessTransitive(a.pre, b.pre, c.pre);
    }
  }

  /** compareSemver never overflows, is antisymmetric and transitive, and ties exactly the texts that parse alike. */
  lemma CompareSemverPreorder(a: Bytes, b: Bytes, c: Bytes)
    ensures -MAX_INT <= CompareSemver(a, b) <= MAX_INT
    ensures CompareSemver(a, b) < 0 <==> CompareSemver(b, a) > 0
    ensures CompareSemver(a, b) == 0 <==> ParseSemver(a) == ParseSemver(b)
    ensures CompareSemver(a, b) <= 0 && CompareSemver(b, c) <= 0 ==> CompareSemver(a, c) <= 0
  {
    var x, y, z := ParseSemver(a), ParseSemver(b), ParseSemver(c);
    CompareAntisymmetric(x, y);
    if CompareVersions(x, y) <= 0 && CompareVersions(y, z) <= 0 {
      CompareTransitive(x, y, z);
    }
  }

  // ---- the newest entry ----

  /** Among the first n versions, the first one that no other exceeds. */
  predicate FirstMaximum(versions: seq<Version>, n: nat, best: nat)
  {
    && best < n <= |versions|
    && (forall i :: 0 <= i < n ==> CompareVersions(versions[i], versions[best]) <= 0)
    && (forall i :: 0 <= i < best ==> CompareVersions(versions[i], versions[best]) < 0)
  }

  lemma KeepMaximum(versions: seq<Version>, n: nat, best: nat)
    requires FirstMaximum(versions, n, best) && n < |versions|
    requires CompareVersions(versions[n], versions[best]) <= 0
    ensures FirstMaximum(versions, n + 1, best)
  {
  }

  lemma NewMaximum(versions: seq<Version>, n: nat, best: nat)
    requires FirstMaximum(versions, n, best) && n < |versions|
    requires CompareVersions(versions[n], versions[best]) > 0
    ensures FirstMaximum(versions, n + 1, n)
  {
    CompareAntisymmetric(versions[n], versions[best]);
    CompareAntisymmetric(versions[n], versions[n]);
    forall i | 0 <= i < n ensures CompareVersions(versions[i], versions[n]) < 0 {
      CompareTransitive(versions[i], versions[best], versions[n]);
    }
  }

  function Parsed(texts: seq<Bytes>): (vs: seq<Version>)
    ensures |vs| == |texts|
  {
    seq(|texts|, i requires 0 <= i < |texts| => ParseSemver(texts[i]))
  }

  /** The index of the entry PickNewestVersion copies, by its version text. */
  method PickNewestVersion(texts: seq<Bytes>) returns (best: Option<nat>)
    ensures best.None? <==> texts == []
    ensures best.Some? ==> FirstMaximum(Parsed(texts), |texts|, best.value)
  {
    if |texts| == 0 {
      return None;
    }
    ghost var versions := Parsed(texts);
    var b := 0;
    var i := 1;
    CompareAntisymmetric(versions[0], versions[0]);
    while i < |texts|
      invariant 1 <= i <= |texts|
      invariant FirstMaximum(versions, i, b)
    {
      if CompareSemver(texts[i], texts[b]) > 0 {
        NewMaximum(versions, i, b);
        b := i;
      } else {
        KeepMaximum(versions, i, b);
      }
      i := i + 1;
    }
    best := Some(b);
  }

  /** The first maximum is unique, so the choice does not depend on how it is searched. */
  lemma FirstMaximumUnique(versions: seq<Version>, i: nat, j: nat)
    requires FirstMaximum(versions, |versions|, i) && FirstMaximum(versions, |versions|, j)
    ensures i == j
  {
    CompareAntisymmetric(versions[i], versions[j]);
  }

  predicate SameNumbers(a: Version, b: Version)
  {
    a.major == b.major && a.minor == b.minor && a.patch == b.patch
  }

  /** The newest version has the largest numbers, and it is a release as soon as any release has them. */
  lemma NewestIsRelease(versions: seq<Version>, best: nat, i: nat)
    requires FirstMaximum(versions, |versions|, best) && i < |versions|
    ensures versions[i].major <= versions[best].major
    ensures SameNumbers(versions[i], versions[best]) && versions[i].pre == [] ==> versions[best].pre == []
    ensures versions[best].pre != [] && SameNumbers(versions[i], versions[best]) ==>
              versions[i].pre != [] && !Less(versions[best].pre, versions[i].pre)
  {
    assert CompareVersions(versions[i], versions[best]) <= 0;
    LessTotal(versions[i].pre, versions[best].pre);
  }
}
