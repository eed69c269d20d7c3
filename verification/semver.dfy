// Precedence as section 11 of Semantic Versioning 2.0.0 defines it, on version parts, and the proof that comparing the
// text of two well-formed versions comes to the same.
module Semver {
  import opened Decimal
  import opened Text
  import opened Version

  // Numbers are kept as their digits, so that no bound is put on the ones a pre-release may hold.
  datatype Semver = Semver(major: string, minor: string, patch: string, pre: seq<string>)

  predicate IsIdentifierChar(c: char) {
    IsDigit(c) || 'a' <= c <= 'z' || 'A' <= c <= 'Z' || c == '-'
  }

  predicate IsIdentifier(s: string) {
    s != "" && forall i | 0 <= i < |s| :: IsIdentifierChar(s[i])
  }

  // No build metadata, and core numbers that fit an int.
  ghost predicate WellFormed(v: Semver) {
    && IsNumeric(v.major) && IsNumeric(v.minor) && IsNumeric(v.patch)
    && Val(v.major) <= MAX_INT && Val(v.minor) <= MAX_INT && Val(v.patch) <= MAX_INT
    && forall i | 0 <= i < |v.pre| :: IsIdentifier(v.pre[i])
  }

  function Join(parts: seq<string>): string {
    if parts == [] then "" else if |parts| == 1 then parts[0] else parts[0] + "." + Join(parts[1..])
  }

  function CoreText(v: Semver): string {
    v.major + "." + (v.minor + "." + v.patch)
  }

  // How the version is written: with the leading "v" of a release tag or without.
  function Written(v: Semver, tagged: bool): string {
    (if tagged then "v" else "") + Body(v)
  }

  function Body(v: Semver): string {
    CoreText(v) + if v.pre == [] then "" else "-" + Join(v.pre)
  }

  // Section 11.

  ghost function IdentifierPrecedence(x: string, y: string): int {
    if IsNumeric(x) && IsNumeric(y) then Sign(Val(x) - Val(y))
    else if IsNumeric(x) then -1
    else if IsNumeric(y) then 1
    else CompareText(x, y)
  }

  ghost function PrePrecedence(xs: seq<string>, ys: seq<string>): int {
    if xs == [] && ys == [] then 0
    else if xs == [] then -1
    else if ys == [] then 1
    else if IdentifierPrecedence(xs[0], ys[0]) != 0 then IdentifierPrecedence(xs[0], ys[0])
    else PrePrecedence(xs[1..], ys[1..])
  }

  ghost function Precedence(a: Semver, b: Semver): int
    requires WellFormed(a) && WellFormed(b)
  {
    if Val(a.major) != Val(b.major) then Sign(Val(a.major) - Val(b.major))
    else if Val(a.minor) != Val(b.minor) then Sign(Val(a.minor) - Val(b.minor))
    else if Val(a.patch) != Val(b.patch) then Sign(Val(a.patch) - Val(b.patch))
    else if a.pre == [] && b.pre == [] then 0
    else if a.pre == [] then 1
    else if b.pre == [] then -1
    else PrePrecedence(a.pre, b.pre)
  }

  // Cutting text apart again.

  lemma {:induction false} IndexAfter(x: string, c: char, rest: string)
    requires c !in x
    ensures IndexOf(x + [c] + rest, c) == |x|
  {
    if x != "" {
      assert (x + [c] + rest)[1..] == x[1..] + [c] + rest;
      IndexAfter(x[1..], c, rest);
    }
  }

  lemma CutAt(x: string, c: char, rest: string)
    requires c !in x
    ensures Before(x + [c] + rest, c) == x && After(x + [c] + rest, c) == rest
  {
    IndexAfter(x, c, rest);
  }

  lemma NothingToCut(s: string, c: char)
    requires c !in s
    ensures Before(s, c) == s && After(s, c) == ""
  {
    assert forall i | 0 <= i < |s| :: s[i] != c;
  }

  lemma {:induction false} SplitJoin(parts: seq<string>)
    requires parts != [] && forall i | 0 <= i < |parts| :: '.' !in parts[i]
    ensures Split(Join(parts), '.') == parts
  {
    if |parts| > 1 {
      var rest := Join(parts[1..]);
      assert Join(parts) == parts[0] + ['.'] + rest;
      CutAt(parts[0], '.', rest);
      assert '.' in Join(parts);
      SplitJoin(parts[1..]);
    }
  }

  lemma DigitsLack(s: string, c: char)
    requires AllDigits(s) && !IsDigit(c)
    ensures c !in s
  {
  }

  lemma IdentifierLacksDot(s: string)
    requires IsIdentifier(s)
    ensures '.' !in s && !IsSpace(s[|s| - 1])
  {
  }

  lemma CoreParts(v: Semver)
    requires WellFormed(v)
    ensures SplitN(CoreText(v), '.', 3) == [v.major, v.minor, v.patch]
    ensures '-' !in CoreText(v)
  {
    DigitsLack(v.major, '.');
    DigitsLack(v.minor, '.');
    DigitsLack(v.major, '-');
    DigitsLack(v.minor, '-');
    DigitsLack(v.patch, '-');
    var rest := v.minor + "." + v.patch;
    assert CoreText(v) == v.major + ['.'] + rest && rest == v.minor + ['.'] + v.patch;
    CutAt(v.major, '.', rest);
    CutAt(v.minor, '.', v.patch);
    assert '.' in CoreText(v) && '.' in rest;
    assert SplitN(rest, '.', 2) == [v.minor] + SplitN(v.patch, '.', 1);
    assert SplitN(CoreText(v), '.', 3) == [v.major] + SplitN(rest, '.', 2);
  }

  lemma {:induction false} JoinEnds(parts: seq<string>)
    requires parts != [] && forall i | 0 <= i < |parts| :: IsIdentifier(parts[i])
    ensures Join(parts) != "" && !IsSpace(Join(parts)[|Join(parts)| - 1])
  {
    IdentifierLacksDot(parts[0]);
    if |parts| > 1 {
      JoinEnds(parts[1..]);
    }
  }

  lemma BodyEnds(v: Semver)
    requires WellFormed(v)
    ensures Body(v) != "" && IsDigit(Body(v)[0]) && !IsSpace(Body(v)[|Body(v)| - 1])
  {
    if v.pre != [] {
      JoinEnds(v.pre);
    }
  }

  lemma {:induction false} TextNormalizes(v: Semver, tagged: bool)
    requires WellFormed(v)
    ensures Normalize(Written(v, tagged)) == "v" + Body(v)
  {
    BodyEnds(v);
    Tags(Body(v), tagged);
  }

  lemma NothingToTrim(s: string)
    requires s != "" && !IsSpace(s[0]) && !IsSpace(s[|s| - 1])
    ensures TrimSpace(s) == s
  {
  }

  lemma Tags(body: string, tagged: bool)
    requires body != "" && IsDigit(body[0]) && !IsSpace(body[|body| - 1])
    ensures Normalize((if tagged then "v" else "") + body) == "v" + body
  {
    var s := (if tagged then "v" else "") + body;
    assert s == if tagged then "v" + body else body;
    NothingToTrim(s);
    assert s[0] != LATEST[0];
  }

  lemma DigitsParse(s: string)
    requires IsNumeric(s) && Val(s) <= MAX_INT
    ensures Atoi(s) == Some(Val(s))
  {
    assert IsDigit(s[0]);
  }

  lemma BodyCuts(v: Semver)
    requires WellFormed(v)
    ensures Before(Body(v), '-') == CoreText(v) && After("v" + Body(v), '-') == Join(v.pre)
  {
    CoreParts(v);
    var core := CoreText(v);
    if v.pre == [] {
      assert Body(v) == core;
      NothingToCut(core, '-');
      NothingToCut("v" + core, '-');
    } else {
      CutsPre(core, Join(v.pre));
    }
  }

  lemma CutsPre(core: string, pre: string)
    requires '-' !in core
    ensures Before(core + ("-" + pre), '-') == core && After("v" + (core + ("-" + pre)), '-') == pre
  {
    assert core + ("-" + pre) == core + ['-'] + pre;
    assert "v" + (core + ("-" + pre)) == ("v" + core) + ['-'] + pre;
    CutAt(core, '-', pre);
    CutAt("v" + core, '-', pre);
  }

  lemma CoreParses(v: Semver, parts: seq<string>)
    requires WellFormed(v) && parts == [v.major, v.minor, v.patch]
    ensures Segment(parts, 0) == Val(v.major) && Segment(parts, 1) == Val(v.minor) && Segment(parts, 2) == Val(v.patch)
  {
    DigitsParse(v.major);
    DigitsParse(v.minor);
    DigitsParse(v.patch);
  }

  lemma {:induction false} TextParses(v: Semver, tagged: bool)
    requires WellFormed(v)
    ensures ParseVersion(Written(v, tagged)) == Parsed(v)
    ensures Prerelease(Written(v, tagged)) == Join(v.pre)
  {
    TextNormalizes(v, tagged);
    BodyCuts(v);
    CoreParts(v);
    CoreParses(v, SplitN(CoreText(v), '.', 3));
    assert ("v" + Body(v))[1..] == Body(v);
  }

  ghost function Parsed(v: Semver): Core
    requires WellFormed(v)
  {
    Core(Val(v.major), Val(v.minor), Val(v.patch))
  }

  // Precedence, level by level.

  lemma {:induction false} FieldsPrecede(xs: seq<string>, ys: seq<string>)
    ensures Sign(CompareFields(xs, ys)) == Sign(PrePrecedence(xs, ys))
  {
    if xs != [] && ys != [] {
      if IsNumeric(xs[0]) && IsNumeric(ys[0]) {
        CompareNumericIsNumeric(xs[0], ys[0]);
      }
      FieldsPrecede(xs[1..], ys[1..]);
    }
  }

  lemma {:induction false} PrePrecedenceOfSame(xs: seq<string>)
    ensures PrePrecedence(xs, xs) == 0
  {
    if xs != [] {
      TextFlips(xs[0], xs[0]);
      PrePrecedenceOfSame(xs[1..]);
    }
  }

  lemma PreAgrees(xs: seq<string>, ys: seq<string>)
    requires forall i | 0 <= i < |xs| :: IsIdentifier(xs[i])
    requires forall i | 0 <= i < |ys| :: IsIdentifier(ys[i])
    ensures Sign(ComparePre(Join(xs), Join(ys))) ==
            if xs == [] && ys == [] then 0 else if xs == [] then 1 else if ys == [] then -1
            else Sign(PrePrecedence(xs, ys))
  {
    if xs != [] {
      JoinEnds(xs);
    }
    if ys != [] {
      JoinEnds(ys);
    }
    if xs != [] && ys != [] {
      forall i | 0 <= i < |xs|
        ensures '.' !in xs[i]
      {
        IdentifierLacksDot(xs[i]);
      }
      forall i | 0 <= i < |ys|
        ensures '.' !in ys[i]
      {
        IdentifierLacksDot(ys[i]);
      }
      SplitJoin(xs);
      SplitJoin(ys);
      FieldsPrecede(xs, ys);
      PrePrecedenceOfSame(xs);
    }
  }

  lemma ParsedPrecede(a: Semver, b: Semver)
    requires WellFormed(a) && WellFormed(b)
    ensures Sign(CompareParsed(Parsed(a), Join(a.pre), Parsed(b), Join(b.pre))) == Sign(Precedence(a, b))
  {
    PreAgrees(a.pre, b.pre);
  }

  // Compare agrees with section 11 on the text of any two well-formed versions, tagged or bare.
  lemma {:induction false} CompareIsPrecedence(a: Semver, taggedA: bool, b: Semver, taggedB: bool)
    requires WellFormed(a) && WellFormed(b)
    ensures Sign(Compare(Written(a, taggedA), Written(b, taggedB))) == Sign(Precedence(a, b))
  {
    TextParses(a, taggedA);
    TextParses(b, taggedB);
    ParsedPrecede(a, b);
  }
}
