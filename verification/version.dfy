// The order collector versions are compared in.
module Version {
  import opened Decimal
  import opened Text

  const MAX_INT := 0x7fff_ffff_ffff_ffff

  const LATEST := "latest"

  datatype Option<+T> = None | Some(value: T)

  // Library string functions the comparison is built from.

  function IndexOf(s: string, c: char): (i: nat)
    ensures i <= |s| && c !in s[..i] && (i < |s| ==> s[i] == c)
  {
    if s == "" || s[0] == c then 0
    else
      var i := IndexOf(s[1..], c);
      assert s[..i + 1] == [s[0]] + s[1..][..i];
      1 + i
  }

  // strings.Cut.
  function Before(s: string, c: char): string {
    s[..IndexOf(s, c)]
  }

  function After(s: string, c: char): string {
    if IndexOf(s, c) < |s| then s[IndexOf(s, c) + 1..] else ""
  }

  function Split(s: string, c: char): (parts: seq<string>)
    ensures |parts| > 0
    decreases |s|
  {
    if c !in s then [s] else [Before(s, c)] + Split(After(s, c), c)
  }

  // strings.SplitN: at most `n` parts, the last of them uncut.
  function SplitN(s: string, c: char, n: nat): (parts: seq<string>)
    requires n > 0
    ensures 0 < |parts| <= n
  {
    if n == 1 || c !in s then [s] else [Before(s, c)] + SplitN(After(s, c), c, n - 1)
  }

  // strings.Compare.
  function CompareText(a: string, b: string): int {
    if a == "" && b == "" then 0
    else if a == "" then -1
    else if b == "" then 1
    else if a[0] < b[0] then -1
    else if a[0] > b[0] then 1
    else CompareText(a[1..], b[1..])
  }

  // strconv.Atoi.
  function Atoi(s: string): Option<int> {
    var digits := if s != "" && (s[0] == '+' || s[0] == '-') then s[1..] else s;
    if digits == "" || !AllDigits(digits) then None
    else
      var n: int := if s[0] == '-' then 0 - Val(digits) else Val(digits);
      if -MAX_INT - 1 <= n <= MAX_INT then Some(n) else None
  }

  // The comparison.

  function Normalize(v: string): string {
    var t := TrimSpace(v);
    if t == "" || t == LATEST then t else if t[0] == 'v' then t else "v" + t
  }

  datatype Core = Core(major: int, minor: int, patch: int)

  // One segment of the version core: an unparsable one counts as zero.
  function Segment(parts: seq<string>, i: nat): int {
    if i < |parts| && Atoi(parts[i]).Some? then Atoi(parts[i]).value else 0
  }

  function ParseVersion(v: string): Core {
    var n := Normalize(v);
    var bare := if n != "" && n[0] == 'v' then n[1..] else n;
    var parts := SplitN(Before(bare, '-'), '.', 3);
    Core(Segment(parts, 0), Segment(parts, 1), Segment(parts, 2))
  }

  function Prerelease(v: string): string {
    After(Normalize(v), '-')
  }

  predicate IsNumeric(s: string) {
    s != "" && AllDigits(s)
  }

  function TrimZeros(s: string): string {
    if s != "" && s[0] == '0' then TrimZeros(s[1..]) else s
  }

  function TrimLeadingZeros(s: string): string {
    var t := TrimZeros(s);
    if t == "" then "0" else t
  }

  function CompareNumeric(a: string, b: string): int {
    var s, t := TrimLeadingZeros(a), TrimLeadingZeros(b);
    if |s| != |t| then |s| - |t| else CompareText(s, t)
  }

  function CompareIdentifier(a: string, b: string): int {
    if IsNumeric(a) && IsNumeric(b) then CompareNumeric(a, b)
    else if IsNumeric(a) then -1
    else if IsNumeric(b) then 1
    else CompareText(a, b)
  }

  // Field by field, and the shorter list first where one is the start of the other.
  function CompareFields(a: seq<string>, b: seq<string>): int {
    if a == [] || b == [] then |a| - |b|
    else if CompareIdentifier(a[0], b[0]) != 0 then CompareIdentifier(a[0], b[0])
    else CompareFields(a[1..], b[1..])
  }

  function ComparePrerelease(a: string, b: string): int {
    CompareFields(Split(a, '.'), Split(b, '.'))
  }

  function CompareCore(a: Core, b: Core): int {
    if a.major != b.major then a.major - b.major
    else if a.minor != b.minor then a.minor - b.minor
    else a.patch - b.patch
  }

  function ComparePre(a: string, b: string): int {
    if a == b then 0 else if a == "" then 1 else if b == "" then -1 else ComparePrerelease(a, b)
  }

  function CompareParsed(a: Core, preA: string, b: Core, preB: string): int {
    if CompareCore(a, b) != 0 then CompareCore(a, b) else ComparePre(preA, preB)
  }

  function Compare(a: string, b: string): int {
    CompareParsed(ParseVersion(a), Prerelease(a), ParseVersion(b), Prerelease(b))
  }

  // A total preorder, level by level.

  function Sign(n: int): int {
    if n < 0 then -1 else if n > 0 then 1 else 0
  }

  lemma {:induction false} TextFlips(a: string, b: string)
    ensures CompareText(a, b) == -CompareText(b, a)
  {
    if a != "" && b != "" && a[0] == b[0] {
      TextFlips(a[1..], b[1..]);
    }
  }

  lemma {:induction false} TextChains(a: string, b: string, c: string)
    requires CompareText(a, b) <= 0 && CompareText(b, c) <= 0
    ensures CompareText(a, c) <= 0
  {
    if a != "" && b != "" && c != "" && a[0] == b[0] == c[0] {
      TextChains(a[1..], b[1..], c[1..]);
    }
  }

  lemma NumericFlips(a: string, b: string)
    ensures CompareNumeric(a, b) == -CompareNumeric(b, a)
  {
    TextFlips(TrimLeadingZeros(a), TrimLeadingZeros(b));
  }

  lemma IdentifierFlips(a: string, b: string)
    ensures CompareIdentifier(a, b) == -CompareIdentifier(b, a)
  {
    NumericFlips(a, b);
    TextFlips(a, b);
  }

  lemma IdentifierChains(a: string, b: string, c: string)
    requires CompareIdentifier(a, b) <= 0 && CompareIdentifier(b, c) <= 0
    ensures CompareIdentifier(a, c) <= 0
  {
    if IsNumeric(a) && IsNumeric(b) && IsNumeric(c) {
      var s, t, u := TrimLeadingZeros(a), TrimLeadingZeros(b), TrimLeadingZeros(c);
      if |s| == |t| == |u| {
        TextChains(s, t, u);
      }
    } else if !IsNumeric(a) && !IsNumeric(b) && !IsNumeric(c) {
      TextChains(a, b, c);
    }
  }

  lemma {:induction false} FieldsFlip(a: seq<string>, b: seq<string>)
    ensures CompareFields(a, b) == -CompareFields(b, a)
  {
    if a != [] && b != [] {
      IdentifierFlips(a[0], b[0]);
      FieldsFlip(a[1..], b[1..]);
    }
  }

  // The chain law and its converse for one field are what a lexicographic order needs of it.
  lemma {:induction false} FieldsChain(a: seq<string>, b: seq<string>, c: seq<string>)
    requires CompareFields(a, b) <= 0 && CompareFields(b, c) <= 0
    ensures CompareFields(a, c) <= 0
  {
    if a != [] && b != [] && c != [] {
      var x, y, z := a[0], b[0], c[0];
      IdentifierFlips(x, y);
      IdentifierFlips(y, z);
      IdentifierFlips(x, z);
      IdentifierChains(x, y, z);
      if CompareIdentifier(x, z) == 0 {
        IdentifierChains(z, x, y);
        IdentifierChains(y, z, x);
        FieldsChain(a[1..], b[1..], c[1..]);
      }
    }
  }

  lemma PreFlips(a: string, b: string)
    ensures ComparePre(a, b) == -ComparePre(b, a)
  {
    FieldsFlip(Split(a, '.'), Split(b, '.'));
  }

  lemma PreChains(a: string, b: string, c: string)
    requires ComparePre(a, b) <= 0 && ComparePre(b, c) <= 0
    ensures ComparePre(a, c) <= 0
  {
    if a != b && b != c && a != c && a != "" && b != "" && c != "" {
      FieldsChain(Split(a, '.'), Split(b, '.'), Split(c, '.'));
    }
  }

  lemma ParsedChains(a: Core, p: string, b: Core, q: string, c: Core, r: string)
    requires CompareParsed(a, p, b, q) <= 0 && CompareParsed(b, q, c, r) <= 0
    ensures CompareParsed(a, p, c, r) <= 0
  {
    if CompareCore(a, b) == 0 && CompareCore(b, c) == 0 {
      PreChains(p, q, r);
    }
  }

  // Compare is a total preorder on all strings: swapping the arguments flips the sign, so any two versions compare and
  // every version equals itself; and it chains.
  lemma {:induction false} CompareIsTotalPreorder(a: string, b: string, c: string)
    ensures Compare(a, b) == -Compare(b, a)
    ensures Compare(a, a) == 0
    ensures Compare(a, b) <= 0 && Compare(b, c) <= 0 ==> Compare(a, c) <= 0
  {
    PreFlips(Prerelease(a), Prerelease(b));
    if Compare(a, b) <= 0 && Compare(b, c) <= 0 {
      ParsedChains(ParseVersion(a), Prerelease(a), ParseVersion(b), Prerelease(b), ParseVersion(c), Prerelease(c));
    }
  }

  // Core segments are never negative, because the core is cut at the first dash; so their differences fit a machine
  // integer and the subtraction in Compare cannot wrap.
  lemma CoreFits(v: string)
    ensures 0 <= ParseVersion(v).major <= MAX_INT
    ensures 0 <= ParseVersion(v).minor <= MAX_INT
    ensures 0 <= ParseVersion(v).patch <= MAX_INT
  {
    var n := Normalize(v);
    var bare := if n != "" && n[0] == 'v' then n[1..] else n;
    var core := Before(bare, '-');
    PartsLack(core, '.', 3, '-');
    forall i: nat
      ensures 0 <= Segment(SplitN(core, '.', 3), i) <= MAX_INT
    {
      if i < |SplitN(core, '.', 3)| {
        var part := SplitN(core, '.', 3)[i];
        assert part != "" ==> part[0] in part;
      }
    }
  }

  lemma {:induction false} PartsLack(s: string, c: char, n: nat, d: char)
    requires n > 0 && d !in s
    ensures forall part | part in SplitN(s, c, n) :: d !in part
  {
    if n > 1 && c in s {
      assert forall x | x in Before(s, c) :: x in s;
      assert forall x | x in After(s, c) :: x in s;
      PartsLack(After(s, c), c, n - 1, d);
    }
  }

  // Numeric fields compare as the numbers they are, however long.

  lemma {:induction false} TrimKeepsVal(s: string)
    requires AllDigits(s)
    ensures AllDigits(TrimZeros(s)) && Val(TrimZeros(s)) == Val(s)
    ensures TrimZeros(s) != "" ==> TrimZeros(s)[0] != '0'
  {
    if s != "" && s[0] == '0' {
      TrimKeepsVal(s[1..]);
    }
  }

  lemma {:induction false} SameLengthText(a: string, b: string)
    requires AllDigits(a) && AllDigits(b) && |a| == |b|
    ensures CompareText(a, b) == Sign(Val(a) - Val(b))
  {
    if a != "" {
      SameLengthText(a[1..], b[1..]);
      ValBound(a[1..]);
      ValBound(b[1..]);
      ValHead(a);
      ValHead(b);
      if a[0] < b[0] {
        ScaleGrows(Digit(a[0]), Digit(b[0]), Pow10(|a| - 1));
      } else if b[0] < a[0] {
        ScaleGrows(Digit(b[0]), Digit(a[0]), Pow10(|a| - 1));
      }
    }
  }

  lemma LeadingZerosDoNotCount(a: string)
    requires IsNumeric(a)
    ensures var t := TrimLeadingZeros(a);
            AllDigits(t) && Val(t) == Val(a) && t != "" && (|t| > 1 ==> t[0] != '0')
  {
    TrimKeepsVal(a);
    ValHead("0");
  }

  lemma CompareDigits(s: string, t: string)
    requires AllDigits(s) && AllDigits(t)
    requires |s| < |t| ==> t[0] != '0'
    requires |t| < |s| ==> s[0] != '0'
    ensures Sign(if |s| != |t| then |s| - |t| else CompareText(s, t)) == Sign(Val(s) - Val(t))
  {
    if |s| < |t| {
      LongerIsLarger(s, t);
    } else if |t| < |s| {
      LongerIsLarger(t, s);
    } else {
      SameLengthText(s, t);
    }
  }

  lemma {:induction false} CompareNumericIsNumeric(a: string, b: string)
    requires IsNumeric(a) && IsNumeric(b)
    ensures Sign(CompareNumeric(a, b)) == Sign(Val(a) - Val(b))
  {
    LeadingZerosDoNotCount(a);
    LeadingZerosDoNotCount(b);
    CompareDigits(TrimLeadingZeros(a), TrimLeadingZeros(b));
  }
}
