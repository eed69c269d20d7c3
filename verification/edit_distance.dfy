// Suggestions for a misspelt name: the edit distance between two texts, and the candidate a user most likely meant.
//
// Texts are sequences over a type parameter; the original compares bytes.
module EditDistance {

  // The definition: the fewest single-element insertions, deletions and substitutions that turn one text into another.

  datatype Edit<T> =
    | Insert(at: nat, x: T)
    | Delete(at: nat)
    | Substitute(at: nat, x: T)

  predicate Fits<T>(e: Edit<T>, s: seq<T>) {
    if e.Insert? then e.at <= |s| else e.at < |s|
  }

  function Apply<T>(e: Edit<T>, s: seq<T>): seq<T>
    requires Fits(e, s)
  {
    match e
    case Insert(at, x) => s[..at] + [x] + s[at..]
    case Delete(at) => s[..at] + s[at + 1..]
    case Substitute(at, x) => s[..at] + [x] + s[at + 1..]
  }

  datatype Script<T> = Done | First(edit: Edit<T>, rest: Script<T>)

  ghost function Length<T>(script: Script<T>): nat {
    match script
    case Done => 0
    case First(_, rest) => 1 + Length(rest)
  }

  ghost predicate Turns<T>(script: Script<T>, a: seq<T>, b: seq<T>) {
    match script
    case Done => a == b
    case First(edit, rest) => Fits(edit, a) && Turns(rest, Apply(edit, a), b)
  }

  // The recurrence: Lev of two texts from Lev of their prefixes.

  function Min(a: int, b: int): int {
    if a <= b then a else b
  }

  function Cost<T(==)>(x: T, y: T): nat {
    if x == y then 0 else 1
  }

  function Init<T>(s: seq<T>): seq<T>
    requires s != []
  {
    s[..|s| - 1]
  }

  function Last<T>(s: seq<T>): T
    requires s != []
  {
    s[|s| - 1]
  }

  function Lev<T(==)>(a: seq<T>, b: seq<T>): nat
    decreases |a| + |b|
  {
    if a == [] then |b|
    else if b == [] then |a|
    else Min(Lev(Init(a), b) + 1, Min(Lev(a, Init(b)) + 1, Lev(Init(a), Init(b)) + Cost(Last(a), Last(b))))
  }

  // Dropping or changing the last element of either text moves the distance by at most one.
  lemma {:induction false} LastMatters<T>(a: seq<T>, u: seq<T>, x: T, y: T)
    ensures Lev(a, u) <= Lev(a, u + [x]) + 1
    ensures Lev(a, u + [x]) <= Lev(a, u) + 1
    ensures Lev(a, u + [x]) <= Lev(a, u + [y]) + 1
    ensures a != [] ==> Lev(a, u) <= Lev(Init(a), u) + 1
    decreases |a|
  {
    assert Init(u + [x]) == u && Init(u + [y]) == u;
    if a != [] {
      LastMatters(Init(a), u, x, y);
    }
  }

  // So does replacing at most one element by at most one other, anywhere.
  lemma {:induction false} OneEditApart<T>(a: seq<T>, u: seq<T>, p: seq<T>, q: seq<T>, v: seq<T>)
    requires |p| <= 1 && |q| <= 1
    ensures Lev(a, u + p + v) <= Lev(a, u + q + v) + 1
    decreases |v|, |a|
  {
    if v == [] {
      assert u + p + v == u + p && u + q + v == u + q;
      assert u + [] == u;
      if p != [] || q != [] {
        LastMatters(a, u, if p == [] then q[0] else p[0], if q == [] then p[0] else q[0]);
        assert p == [] || p == [p[0]];
        assert q == [] || q == [q[0]];
      }
    } else {
      assert Init(u + p + v) == u + p + Init(v) && Init(u + q + v) == u + q + Init(v);
      if a != [] {
        OneEditApart(a, u, p, q, Init(v));
        OneEditApart(Init(a), u, p, q, v);
        OneEditApart(Init(a), u, p, q, Init(v));
      }
    }
  }

  lemma EditMovesByOne<T>(a: seq<T>, s: seq<T>, e: Edit<T>)
    requires Fits(e, s)
    ensures Lev(a, Apply(e, s)) <= Lev(a, s) + 1
  {
    match e
    case Insert(at, x) =>
      assert s == s[..at] + [] + s[at..];
      OneEditApart(a, s[..at], [x], [], s[at..]);
    case Delete(at) =>
      assert s == s[..at] + [s[at]] + s[at + 1..] && Apply(e, s) == s[..at] + [] + s[at + 1..];
      OneEditApart(a, s[..at], [], [s[at]], s[at + 1..]);
    case Substitute(at, x) =>
      assert s == s[..at] + [s[at]] + s[at + 1..];
      OneEditApart(a, s[..at], [x], [s[at]], s[at + 1..]);
  }

  lemma {:induction false} LevOfSelf<T>(a: seq<T>)
    ensures Lev(a, a) == 0
    decreases |a|
  {
    if a != [] {
      LevOfSelf(Init(a));
    }
  }

  // No script is shorter than Lev.
  lemma {:induction false} NoScriptIsShorter<T>(origin: seq<T>, script: Script<T>, a: seq<T>, b: seq<T>)
    requires Turns(script, a, b)
    ensures Lev(origin, b) <= Lev(origin, a) + Length(script)
  {
    match script
    case Done =>
    case First(edit, rest) =>
      EditMovesByOne(origin, a, edit);
      NoScriptIsShorter(origin, rest, Apply(edit, a), b);
  }

  // Some script is exactly that long.

  ghost function AndThen<T>(script: Script<T>, e: Edit<T>): Script<T> {
    match script
    case Done => First(e, Done)
    case First(edit, rest) => First(edit, AndThen(rest, e))
  }

  lemma {:induction false} TurnsOn<T>(script: Script<T>, e: Edit<T>, a: seq<T>, b: seq<T>)
    requires Turns(script, a, b) && Fits(e, b)
    ensures Turns(AndThen(script, e), a, Apply(e, b)) && Length(AndThen(script, e)) == Length(script) + 1
  {
    match script
    case Done =>
    case First(edit, rest) => TurnsOn(rest, e, Apply(edit, a), b);
  }

  lemma {:induction false} TurnsBefore<T>(script: Script<T>, a: seq<T>, b: seq<T>, z: T)
    requires Turns(script, a, b)
    ensures Turns(script, a + [z], b + [z])
  {
    match script
    case Done =>
    case First(edit, rest) =>
      assert Apply(edit, a + [z]) == Apply(edit, a) + [z];
      TurnsBefore(rest, Apply(edit, a), b, z);
  }

  lemma DeletingLast<T>(script: Script<T>, a: seq<T>, b: seq<T>)
    requires a != [] && Turns(script, Init(a), b)
    ensures Turns(First(Delete(|a| - 1), script), a, b)
  {
    assert Apply(Delete(|a| - 1), a) == Init(a);
  }

  lemma InsertingLast<T>(script: Script<T>, a: seq<T>, b: seq<T>)
    requires b != [] && Turns(script, a, Init(b))
    ensures Turns(AndThen(script, Insert(|b| - 1, Last(b))), a, b)
    ensures Length(AndThen(script, Insert(|b| - 1, Last(b)))) == Length(script) + 1
  {
    assert Apply(Insert(|b| - 1, Last(b)), Init(b)) == b;
    TurnsOn(script, Insert(|b| - 1, Last(b)), a, Init(b));
  }

  lemma KeepingLast<T>(script: Script<T>, a: seq<T>, b: seq<T>)
    requires a != [] && b != [] && Turns(script, Init(a), Init(b))
    ensures Turns(script, a, Init(b) + [Last(a)])
  {
    TurnsBefore(script, Init(a), Init(b), Last(a));
    assert a == Init(a) + [Last(a)];
  }

  lemma SubstitutingLast<T>(script: Script<T>, a: seq<T>, u: seq<T>, x: T, y: T)
    requires Turns(script, a, u + [x])
    ensures Turns(AndThen(script, Substitute(|u|, y)), a, u + [y])
    ensures Length(AndThen(script, Substitute(|u|, y))) == Length(script) + 1
  {
    assert Apply(Substitute(|u|, y), u + [x]) == u + [y];
    TurnsOn(script, Substitute(|u|, y), a, u + [x]);
  }

  lemma ChangingLast<T>(script: Script<T>, a: seq<T>, b: seq<T>) returns (longer: Script<T>)
    requires a != [] && b != [] && Turns(script, Init(a), Init(b))
    ensures Turns(longer, a, b) && Length(longer) == Length(script) + Cost(Last(a), Last(b))
  {
    KeepingLast(script, a, b);
    assert b == Init(b) + [Last(b)];
    longer := script;
    if Last(a) != Last(b) {
      SubstitutingLast(script, a, Init(b), Last(a), Last(b));
      longer := AndThen(script, Substitute(|Init(b)|, Last(b)));
    }
  }

  // Which of the three ways the recurrence goes.
  predicate ByDeleting<T(==)>(a: seq<T>, b: seq<T>) {
    a != [] && (b == [] || Lev(a, b) == Lev(Init(a), b) + 1)
  }

  predicate ByInserting<T(==)>(a: seq<T>, b: seq<T>) {
    b != [] && (a == [] || Lev(a, b) == Lev(a, Init(b)) + 1)
  }

  lemma LevCases<T>(a: seq<T>, b: seq<T>)
    ensures ByDeleting(a, b) ==> Lev(a, b) == Lev(Init(a), b) + 1
    ensures ByInserting(a, b) ==> Lev(a, b) == Lev(a, Init(b)) + 1
    ensures !ByDeleting(a, b) && !ByInserting(a, b) && (a != [] || b != []) ==>
              a != [] && b != [] && Lev(a, b) == Lev(Init(a), Init(b)) + Cost(Last(a), Last(b))
  {
  }

  lemma {:induction false} SomeScriptIsThatShort<T>(a: seq<T>, b: seq<T>) returns (script: Script<T>)
    ensures Turns(script, a, b) && Length(script) == Lev(a, b)
    decreases |a| + |b|
  {
    LevCases(a, b);
    if ByDeleting(a, b) {
      script := SomeScriptIsThatShort(Init(a), b);
      DeletingLast(script, a, b);
      script := First(Delete(|a| - 1), script);
    } else if ByInserting(a, b) {
      script := SomeScriptIsThatShort(a, Init(b));
      InsertingLast(script, a, b);
      script := AndThen(script, Insert(|b| - 1, Last(b)));
    } else if a == [] {
      script := Done;
    } else {
      script := SomeScriptIsThatShort(Init(a), Init(b));
      script := ChangingLast(script, a, b);
    }
  }

  // Lev is the length of the shortest script.
  lemma LevIsShortest<T(!new)>(a: seq<T>, b: seq<T>)
    ensures exists script :: Turns(script, a, b) && Length(script) == Lev(a, b)
    ensures forall script :: Turns(script, a, b) ==> Lev(a, b) <= Length(script)
  {
    var best := SomeScriptIsThatShort(a, b);
    forall script | Turns(script, a, b)
      ensures Lev(a, b) <= Length(script)
    {
      LevOfSelf(a);
      NoScriptIsShorter(a, script, a, b);
    }
  }

  // The two-row computation.

  ghost predicate Row<T>(row: array<int>, a: seq<T>, b: seq<T>, done: nat)
    requires row.Length == |b| + 1 && done <= |b| + 1
    reads row
  {
    forall j | 0 <= j < done :: row[j] == Lev(a, b[..j])
  }

  // One row of the table from the row above it.
  method NextRow<T(==)>(a: seq<T>, x: T, b: seq<T>, prev: array<int>, curr: array<int>)
    requires prev != curr && prev.Length == |b| + 1 && curr.Length == |b| + 1
    requires Row(prev, a, b, |b| + 1)
    modifies curr
    ensures Row(curr, a + [x], b, |b| + 1)
  {
    curr[0] := |a| + 1;
    var j := 1;
    while j <= |b|
      invariant 1 <= j <= |b| + 1
      invariant Row(prev, a, b, |b| + 1)
      invariant Row(curr, a + [x], b, j)
    {
      var cost := 1;
      if x == b[j - 1] {
        cost := 0;
      }
      curr[j] := Min(prev[j] + 1, Min(curr[j - 1] + 1, prev[j - 1] + cost));
      assert Init(a + [x]) == a && Init(b[..j]) == b[..j - 1];
      j := j + 1;
    }
  }

  // editDistance.
  method Distance<T(==)>(a: seq<T>, b: seq<T>) returns (d: int)
    ensures d == Lev(a, b)
  {
    var prev := new int[|b| + 1];
    var curr := new int[|b| + 1];
    for j := 0 to |b| + 1
      invariant Row(prev, a[..0], b, j)
    {
      prev[j] := j;
    }
    for i := 1 to |a| + 1
      invariant prev != curr && prev.Length == |b| + 1 && curr.Length == |b| + 1
      invariant fresh(prev) && fresh(curr)
      invariant Row(prev, a[..i - 1], b, |b| + 1)
    {
      NextRow(a[..i - 1], a[i - 1], b, prev, curr);
      assert a[..i - 1] + [a[i - 1]] == a[..i];
      prev, curr := curr, prev;
    }
    assert a[..|a|] == a && b[..|b|] == b;
    d := prev[|b|];
  }

  // bestMatch.

  // The part of a misspelt name that is compared: without the first of `suffixes` that leaves anything when cut off.
  function Trimmed<T(==)>(got: seq<T>, suffixes: seq<seq<T>>): seq<T> {
    if suffixes == [] then got
    else
      var n := |suffixes[0]|;
      if n < |got| && got[|got| - n..] == suffixes[0] then got[..|got| - n] else Trimmed(got, suffixes[1..])
  }

  function Squashed<T(==)>(s: seq<T>, underscore: T): seq<T> {
    if s == [] then []
    else (if s[0] == underscore then [] else [s[0]]) + Squashed(s[1..], underscore)
  }

  // The first suffix that leaves something when cut off is cut off, and nothing is where none does.
  ghost predicate Leaves<T(!new)>(got: seq<T>, suffix: seq<T>) {
    exists rest :: rest != [] && got == rest + suffix
  }

  lemma LeavesIsCut<T(!new)>(got: seq<T>, suffix: seq<T>)
    ensures Leaves(got, suffix) <==> |suffix| < |got| && got[|got| - |suffix|..] == suffix
  {
    if |suffix| < |got| && got[|got| - |suffix|..] == suffix {
      assert got == got[..|got| - |suffix|] + suffix;
    }
  }

  lemma {:induction false} TrimmedIs<T(!new)>(got: seq<T>, suffixes: seq<seq<T>>, i: nat)
    requires i < |suffixes| && Leaves(got, suffixes[i]) && forall j | 0 <= j < i :: !Leaves(got, suffixes[j])
    ensures got == Trimmed(got, suffixes) + suffixes[i]
  {
    LeavesIsCut(got, suffixes[0]);
    if i > 0 {
      assert forall j | 0 <= j < i :: suffixes[1..][j] == suffixes[j + 1];
      TrimmedIs(got, suffixes[1..], i - 1);
    }
  }

  lemma {:induction false} TrimmedNot<T(!new)>(got: seq<T>, suffixes: seq<seq<T>>)
    requires forall j | 0 <= j < |suffixes| :: !Leaves(got, suffixes[j])
    ensures Trimmed(got, suffixes) == got
  {
    if suffixes != [] {
      LeavesIsCut(got, suffixes[0]);
      assert forall j | 0 <= j < |suffixes[1..]| :: suffixes[1..][j] == suffixes[j + 1];
      TrimmedNot(got, suffixes[1..]);
    }
  }

  // Squashing keeps everything but the underscores, in order.
  ghost predicate Keeps<T>(s: seq<T>, underscore: T, kept: seq<T>, at: seq<nat>) {
    && |at| == |kept|
    && (forall k | 0 <= k < |at| :: at[k] < |s| && kept[k] == s[at[k]])
    && (forall j, k | 0 <= j < k < |at| :: at[j] < at[k])
    && forall i: nat | i < |s| :: i in at <==> s[i] != underscore
  }

  lemma {:induction false} SquashedIs<T>(s: seq<T>, underscore: T) returns (at: seq<nat>)
    ensures Keeps(s, underscore, Squashed(s, underscore), at)
  {
    at := [];
    if s != [] {
      var rest := SquashedIs(s[1..], underscore);
      var later := KeepsLater(s, underscore, Squashed(s[1..], underscore), rest);
      KeepsFirst(s, underscore, Squashed(s[1..], underscore), later);
      SquashedFirst(s, underscore);
      if s[0] == underscore {
        at := later;
      } else {
        at := [0] + later;
      }
    }
  }

  lemma SquashedFirst<T>(s: seq<T>, underscore: T)
    requires s != []
    ensures s[0] == underscore ==> Squashed(s, underscore) == Squashed(s[1..], underscore)
    ensures s[0] != underscore ==> Squashed(s, underscore) == [s[0]] + Squashed(s[1..], underscore)
  {
  }

  // The same positions, counted from one further left.
  ghost predicate KeepsRest<T>(s: seq<T>, underscore: T, kept: seq<T>, at: seq<nat>) {
    && |at| == |kept|
    && (forall k | 0 <= k < |at| :: 0 < at[k] < |s| && kept[k] == s[at[k]])
    && (forall j, k | 0 <= j < k < |at| :: at[j] < at[k])
    && forall i: nat | 0 < i < |s| :: i in at <==> s[i] != underscore
  }

  function OneLater(at: seq<nat>): (later: seq<nat>)
    ensures |later| == |at| && forall k | 0 <= k < |at| :: later[k] == at[k] + 1
  {
    seq(|at|, k requires 0 <= k < |at| => at[k] + 1)
  }

  lemma OneLaterHas(at: seq<nat>, i: nat)
    ensures i + 1 in OneLater(at) <==> i in at
  {
    var later := OneLater(at);
    if i in at {
      var k :| 0 <= k < |at| && at[k] == i;
      assert later[k] == i + 1;
    }
  }

  lemma KeepsLater<T>(s: seq<T>, underscore: T, kept: seq<T>, at: seq<nat>) returns (later: seq<nat>)
    requires s != [] && Keeps(s[1..], underscore, kept, at)
    ensures KeepsRest(s, underscore, kept, later)
  {
    later := OneLater(at);
    forall i: nat | 0 < i < |s|
      ensures i in later <==> s[i] != underscore
    {
      OneLaterHas(at, i - 1);
    }
  }

  lemma KeepsFirst<T>(s: seq<T>, underscore: T, kept: seq<T>, later: seq<nat>)
    requires s != [] && KeepsRest(s, underscore, kept, later)
    ensures s[0] == underscore ==> Keeps(s, underscore, kept, later)
    ensures s[0] != underscore ==> Keeps(s, underscore, [s[0]] + kept, [0] + later)
  {
    assert 0 !in later;
  }

  const CLOSE := 3

  // The first candidate of least distance, where that distance is less than CLOSE.
  ghost predicate IsNearest<T>(name: seq<T>, candidates: seq<seq<T>>, i: nat) {
    && i < |candidates|
    && Lev(name, candidates[i]) < CLOSE
    && (forall j | 0 <= j < i :: Lev(name, candidates[i]) < Lev(name, candidates[j]))
    && (forall j | i < j < |candidates| :: Lev(name, candidates[i]) <= Lev(name, candidates[j]))
  }

  ghost predicate IsFirstMatch<T>(squashed: seq<T>, underscore: T, candidates: seq<seq<T>>, i: nat) {
    && i < |candidates|
    && Squashed(candidates[i], underscore) == squashed
    && forall j | 0 <= j < i :: Squashed(candidates[j], underscore) != squashed
  }

  // Where the search stands after `k` candidates: the nearest of them, if any is close.
  ghost predicate Searched<T>(name: seq<T>, candidates: seq<seq<T>>, k: nat, at: int, best: seq<T>, bestDist: int) {
    && k <= |candidates| && -1 <= at < k
    && if at < 0 then
         best == [] && bestDist == CLOSE && forall j | 0 <= j < k :: CLOSE <= Lev(name, candidates[j])
       else
         best == candidates[at] && bestDist == Lev(name, best) && IsNearest(name, candidates[..k], at)
  }

  lemma SearchedOne<T>(name: seq<T>, candidates: seq<seq<T>>, k: nat, at: int, best: seq<T>, bestDist: int)
    requires k < |candidates| && Searched(name, candidates, k, at, best, bestDist)
    ensures if Lev(name, candidates[k]) < bestDist then
              Searched(name, candidates, k + 1, k, candidates[k], Lev(name, candidates[k]))
            else Searched(name, candidates, k + 1, at, best, bestDist)
  {
    assert forall j | 0 <= j < k :: candidates[..k][j] == candidates[j] == candidates[..k + 1][j];
    assert candidates[..k + 1][k] == candidates[k];
  }

  lemma SearchedAll<T>(name: seq<T>, candidates: seq<seq<T>>, at: int, best: seq<T>, bestDist: int)
    requires Searched(name, candidates, |candidates|, at, best, bestDist)
    ensures forall i: nat :: IsNearest(name, candidates, i) <==> i == at
  {
    assert candidates[..|candidates|] == candidates;
  }

  // What is suggested: a candidate that differs in underscores only is taken at once; otherwise the nearest one, unless
  // it is the empty text, which also stands for having found none.
  ghost predicate IsSuggestion<T>(name: seq<T>, squashed: seq<T>, underscore: T, candidates: seq<seq<T>>,
                                  best: seq<T>, found: bool) {
    if exists i: nat :: IsFirstMatch(squashed, underscore, candidates, i) then
      found && exists i: nat :: IsFirstMatch(squashed, underscore, candidates, i) && best == candidates[i]
    else if exists i: nat :: IsNearest(name, candidates, i) then
      exists i: nat :: IsNearest(name, candidates, i) && best == candidates[i] && (found <==> candidates[i] != [])
    else !found
  }

  ghost predicate NoMatchBefore<T>(squashed: seq<T>, underscore: T, candidates: seq<seq<T>>, k: nat) {
    k <= |candidates| && forall j | 0 <= j < k :: Squashed(candidates[j], underscore) != squashed
  }

  lemma MatchIsSuggestion<T>(name: seq<T>, squashed: seq<T>, underscore: T, candidates: seq<seq<T>>, k: nat)
    requires NoMatchBefore(squashed, underscore, candidates, k)
    requires k < |candidates| && Squashed(candidates[k], underscore) == squashed
    ensures IsSuggestion(name, squashed, underscore, candidates, candidates[k], true)
  {
    assert IsFirstMatch(squashed, underscore, candidates, k);
  }

  lemma {:induction false} NearestIsSuggestion<T>(name: seq<T>, squashed: seq<T>, underscore: T,
                                                  candidates: seq<seq<T>>, at: int, best: seq<T>, bestDist: int)
    requires NoMatchBefore(squashed, underscore, candidates, |candidates|)
    requires Searched(name, candidates, |candidates|, at, best, bestDist)
    ensures IsSuggestion(name, squashed, underscore, candidates, best, best != [])
  {
    SearchedAll(name, candidates, at, best, bestDist);
  }

  // The kinds a user appends to a component's type, as its Go package is named.
  const KINDS: seq<string> := ["receiver", "processor", "exporter", "extension", "connector"]

  // bestMatch; `got` has been put in lower case.
  method Suggest(got: string, candidates: seq<string>) returns (best: string, found: bool)
    ensures var name := Trimmed(got, ["receiver", "processor", "exporter", "extension", "connector"]);
            IsSuggestion(name, Squashed(name, '_'), '_', candidates, best, found)
  {
    best, found := BestMatch(got, candidates, KINDS, '_');
  }

  method BestMatch<T(==)>(got: seq<T>, candidates: seq<seq<T>>, suffixes: seq<seq<T>>, underscore: T)
    returns (best: seq<T>, found: bool)
    ensures IsSuggestion(Trimmed(got, suffixes), Squashed(Trimmed(got, suffixes), underscore), underscore, candidates,
                         best, found)
  {
    var trimmed := Trim(got, suffixes);
    best, found := Search(trimmed, Squashed(trimmed, underscore), underscore, candidates);
  }

  method Search<T(==)>(trimmed: seq<T>, squashed: seq<T>, underscore: T, candidates: seq<seq<T>>)
    returns (best: seq<T>, found: bool)
    ensures IsSuggestion(trimmed, squashed, underscore, candidates, best, found)
  {
    best := [];
    var bestDist := CLOSE;
    ghost var at := -1;
    for k := 0 to |candidates|
      invariant NoMatchBefore(squashed, underscore, candidates, k)
      invariant Searched(trimmed, candidates, k, at, best, bestDist)
    {
      if Squashed(candidates[k], underscore) == squashed {
        MatchIsSuggestion(trimmed, squashed, underscore, candidates, k);
        return candidates[k], true;
      }
      SearchedOne(trimmed, candidates, k, at, best, bestDist);
      var d := Distance(trimmed, candidates[k]);
      if d < bestDist {
        best, bestDist, at := candidates[k], d, k;
      }
    }
    NearestIsSuggestion(trimmed, squashed, underscore, candidates, at, best, bestDist);
    found := best != [];
  }

  method Trim<T(==)>(got: seq<T>, suffixes: seq<seq<T>>) returns (trimmed: seq<T>)
    ensures trimmed == Trimmed(got, suffixes)
  {
    for i := 0 to |suffixes|
      invariant Trimmed(got, suffixes) == Trimmed(got, suffixes[i..])
    {
      var n := |suffixes[i]|;
      if n < |got| && got[|got| - n..] == suffixes[i] {
        return got[..|got| - n];
      }
      assert suffixes[i..][1..] == suffixes[i + 1..];
    }
    return got;
  }

  // With no empty candidate: the first one that differs in underscores only, and failing that the first of least
  // distance, provided that distance is at most two.
  lemma {:induction false} NonemptyCandidates<T>(name: seq<T>, squashed: seq<T>, underscore: T, candidates: seq<seq<T>>,
                              best: seq<T>, found: bool)
    requires IsSuggestion(name, squashed, underscore, candidates, best, found) && [] !in candidates
    ensures found <==> exists c | c in candidates :: Squashed(c, underscore) == squashed || Lev(name, c) <= 2
    ensures found ==> best in candidates
    ensures found && Squashed(best, underscore) != squashed ==>
              && (forall c | c in candidates :: Squashed(c, underscore) != squashed)
              && (forall c | c in candidates :: Lev(name, best) <= Lev(name, c))
  {
    if c :| c in candidates && Squashed(c, underscore) == squashed {
      var i :| 0 <= i < |candidates| && candidates[i] == c;
      var j := FirstMatch(squashed, underscore, candidates, i);
    } else if c :| c in candidates && Lev(name, c) <= 2 {
      var i :| 0 <= i < |candidates| && candidates[i] == c;
      var j := Nearest(name, candidates, i);
    }
  }

  // Of several that would do, it is the first.
  lemma {:induction false} FirstIsTaken<T>(name: seq<T>, squashed: seq<T>, underscore: T, candidates: seq<seq<T>>,
                                           best: seq<T>, found: bool) returns (i: nat)
    requires IsSuggestion(name, squashed, underscore, candidates, best, found) && found
    ensures i < |candidates| && candidates[i] == best
    ensures if exists c :: c in candidates && Squashed(c, underscore) == squashed then
              && Squashed(best, underscore) == squashed
              && forall j | 0 <= j < i :: Squashed(candidates[j], underscore) != squashed
            else
              forall j | 0 <= j < i :: Lev(name, best) < Lev(name, candidates[j])
  {
    if k: nat :| IsFirstMatch(squashed, underscore, candidates, k) {
      i :| IsFirstMatch(squashed, underscore, candidates, i) && best == candidates[i];
    } else {
      i :| IsNearest(name, candidates, i) && best == candidates[i];
      forall c | c in candidates
        ensures Squashed(c, underscore) != squashed
      {
        var k :| 0 <= k < |candidates| && candidates[k] == c;
        if Squashed(c, underscore) == squashed {
          var j := FirstMatch(squashed, underscore, candidates, k);
        }
      }
    }
  }

  lemma {:induction false} FirstMatch<T>(squashed: seq<T>, underscore: T, candidates: seq<seq<T>>, i: nat)
    returns (j: nat)
    requires i < |candidates| && Squashed(candidates[i], underscore) == squashed
    ensures IsFirstMatch(squashed, underscore, candidates, j)
  {
    if k :| 0 <= k < i && Squashed(candidates[k], underscore) == squashed {
      j := FirstMatch(squashed, underscore, candidates, k);
    } else {
      j := i;
    }
  }

  lemma {:induction false} Nearest<T>(name: seq<T>, candidates: seq<seq<T>>, i: nat) returns (j: nat)
    requires i < |candidates| && Lev(name, candidates[i]) < CLOSE
    ensures IsNearest(name, candidates, j)
    decreases Lev(name, candidates[i]), i
  {
    if k :| 0 <= k < i && Lev(name, candidates[k]) <= Lev(name, candidates[i]) {
      j := Nearest(name, candidates, k);
    } else if k :| i < k < |candidates| && Lev(name, candidates[k]) < Lev(name, candidates[i]) {
      j := Nearest(name, candidates, k);
    } else {
      j := i;
    }
  }
}
