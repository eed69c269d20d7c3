// Runs of consecutive releases: how the availability index writes down which releases ship a component, and how it is
// read back against whatever releases are served now.
//
// The version type is a parameter, with the order `cmp` on it and the value `none` that stands for no version.
// Collector versions are strings ordered by Compare, with the empty string for none; CompareOrders says what is needed
// of them.
module Spans {
  import Version

  datatype Order<!V> = Order(cmp: (V, V) -> int, none: V)

  const VERSIONS: Order<string> := Order(Version.Compare, "")

  ghost predicate IsOrder<V(!new)>(o: Order<V>) {
    && (forall a, b :: o.cmp(a, b) == -o.cmp(b, a))
    && (forall a, b, c | o.cmp(a, b) <= 0 && o.cmp(b, c) <= 0 :: o.cmp(a, c) <= 0)
  }

  lemma {:induction false} CompareOrders()
    ensures IsOrder(VERSIONS)
  {
    forall a, b
      ensures Version.Compare(a, b) == -Version.Compare(b, a)
    {
      Version.CompareIsTotalPreorder(a, b, b);
    }
    forall a, b, c | Version.Compare(a, b) <= 0 && Version.Compare(b, c) <= 0
      ensures Version.Compare(a, c) <= 0
    {
      Version.CompareIsTotalPreorder(a, b, c);
    }
  }

  // No two releases compare equal.
  ghost predicate Distinct<V(!new)>(o: Order<V>, vs: seq<V>) {
    forall i, j | 0 <= i < j < |vs| :: o.cmp(vs[i], vs[j]) != 0
  }

  ghost predicate Ascending<V(!new)>(o: Order<V>, vs: seq<V>) {
    forall i, j | 0 <= i < j < |vs| :: o.cmp(vs[i], vs[j]) < 0
  }

  // oldestFirst. Which sort it is does not matter where releases are distinct: see AscendingIsUnique.

  function Insert<V(!new)>(o: Order<V>, v: V, vs: seq<V>): seq<V> {
    if vs == [] || o.cmp(v, vs[0]) <= 0 then [v] + vs else [vs[0]] + Insert(o, v, vs[1..])
  }

  function OldestFirst<V(!new)>(o: Order<V>, vs: seq<V>): seq<V> {
    if vs == [] then [] else Insert(o, vs[0], OldestFirst(o, vs[1..]))
  }

  lemma {:induction false} InsertAdds<V(!new)>(o: Order<V>, v: V, vs: seq<V>)
    ensures |Insert(o, v, vs)| == |vs| + 1
    ensures forall x :: x in Insert(o, v, vs) <==> x == v || x in vs
  {
    if vs != [] && o.cmp(v, vs[0]) > 0 {
      InsertAdds(o, v, vs[1..]);
      assert vs == [vs[0]] + vs[1..];
    }
  }

  lemma {:induction false} OldestFirstKeeps<V(!new)>(o: Order<V>, vs: seq<V>)
    ensures |OldestFirst(o, vs)| == |vs|
    ensures forall v :: v in OldestFirst(o, vs) <==> v in vs
  {
    if vs != [] {
      OldestFirstKeeps(o, vs[1..]);
      InsertAdds(o, vs[0], OldestFirst(o, vs[1..]));
      assert vs == [vs[0]] + vs[1..];
    }
  }

  lemma {:induction false} InsertAscends<V(!new)>(o: Order<V>, v: V, vs: seq<V>)
    requires IsOrder(o) && Ascending(o, vs) && forall u | u in vs :: o.cmp(v, u) != 0
    ensures Ascending(o, Insert(o, v, vs))
  {
    if vs != [] {
      assert vs[0] in vs;
      if o.cmp(v, vs[0]) <= 0 {
        forall j | 0 <= j < |vs|
          ensures o.cmp(v, vs[j]) < 0
        {
          assert j > 0 ==> o.cmp(vs[0], vs[j]) < 0;
          assert vs[j] in vs;
        }
      } else {
        InsertAscends(o, v, vs[1..]);
        InsertAdds(o, v, vs[1..]);
        assert o.cmp(vs[0], v) == -o.cmp(v, vs[0]);
        SmallestFirst(o, vs[0], Insert(o, v, vs[1..]));
      }
    }
  }

  lemma SmallestFirst<V(!new)>(o: Order<V>, u: V, rest: seq<V>)
    requires Ascending(o, rest) && forall x | x in rest :: o.cmp(u, x) < 0
    ensures Ascending(o, [u] + rest)
  {
  }

  lemma {:induction false} DistinctAscends<V(!new)>(o: Order<V>, vs: seq<V>)
    requires IsOrder(o) && Distinct(o, vs)
    ensures Ascending(o, OldestFirst(o, vs))
  {
    if vs != [] {
      DistinctAscends(o, vs[1..]);
      OldestFirstKeeps(o, vs[1..]);
      forall u | u in OldestFirst(o, vs[1..])
        ensures o.cmp(vs[0], u) != 0
      {
        var j :| 0 <= j < |vs[1..]| && vs[1..][j] == u;
        assert o.cmp(vs[0], vs[j + 1]) != 0;
      }
      InsertAscends(o, vs[0], OldestFirst(o, vs[1..]));
    }
  }

  // There is one ascending arrangement of given releases, so any sort gives it.
  lemma {:induction false} AscendingIsUnique<V(!new)>(o: Order<V>, xs: seq<V>, ys: seq<V>)
    requires IsOrder(o) && Ascending(o, xs) && Ascending(o, ys)
    requires forall v :: v in xs <==> v in ys
    ensures xs == ys
  {
    if xs == [] {
      assert forall i | 0 <= i < |ys| :: ys[i] in ys;
    } else {
      assert xs[0] in xs;
      HeadsAgree(o, xs, ys);
      TailsAgree(o, xs, ys);
      TailAscends(o, xs);
      TailAscends(o, ys);
      AscendingIsUnique(o, xs[1..], ys[1..]);
    }
  }

  lemma HeadsAgree<V(!new)>(o: Order<V>, xs: seq<V>, ys: seq<V>)
    requires IsOrder(o) && Ascending(o, xs) && Ascending(o, ys) && xs != [] && xs[0] in ys
    requires ys[0] in xs
    ensures xs[0] == ys[0]
  {
    var k :| 0 <= k < |ys| && ys[k] == xs[0];
    var l :| 0 <= l < |xs| && xs[l] == ys[0];
    assert o.cmp(xs[l], ys[k]) == -o.cmp(ys[k], xs[l]);
  }

  lemma TailsAgree<V(!new)>(o: Order<V>, xs: seq<V>, ys: seq<V>)
    requires IsOrder(o) && Ascending(o, xs) && Ascending(o, ys) && xs != [] && ys != [] && xs[0] == ys[0]
    requires forall v :: v in xs <==> v in ys
    ensures forall v :: v in xs[1..] <==> v in ys[1..]
  {
    forall v
      ensures v in xs[1..] <==> v in ys[1..]
    {
      HeadOnce(o, xs, v);
      HeadOnce(o, ys, v);
    }
  }

  lemma TailAscends<V(!new)>(o: Order<V>, vs: seq<V>)
    requires Ascending(o, vs) && vs != []
    ensures Ascending(o, vs[1..]) && vs == [vs[0]] + vs[1..]
  {
  }

  lemma HeadOnce<V(!new)>(o: Order<V>, vs: seq<V>, v: V)
    requires IsOrder(o) && Ascending(o, vs) && vs != []
    ensures v in vs[1..] <==> v in vs && v != vs[0]
  {
    assert o.cmp(v, v) == 0;
    assert forall i | 1 <= i < |vs| :: vs[i] != vs[0];
    assert forall i | 1 <= i < |vs| :: vs[i] == vs[1..][i - 1];
  }

  // Spans.

  datatype Span<V> = Span(from: V, to: V)

  // Span.Covers: an open span has no end.
  predicate Covers<V(==,!new)>(o: Order<V>, s: Span<V>, version: V) {
    o.cmp(version, s.from) >= 0 && (s.to == o.none || o.cmp(version, s.to) <= 0)
  }

  // covers.
  predicate AnyCovers<V(==,!new)>(o: Order<V>, spans: seq<Span<V>>, version: V) {
    exists i | 0 <= i < |spans| :: Covers(o, spans[i], version)
  }

  // The maximal runs of present releases, as first and last positions.

  datatype Run = Run(lo: nat, hi: nat)

  function Marks<V(==,!new)>(vs: seq<V>, present: set<V>): (marks: seq<bool>)
    ensures |marks| == |vs| && forall i | 0 <= i < |vs| :: marks[i] <==> vs[i] in present
  {
    seq(|vs|, i requires 0 <= i < |vs| => vs[i] in present)
  }

  function RunEnd(marks: seq<bool>, i: nat): (e: nat)
    requires i <= |marks|
    ensures i <= e <= |marks| && (forall k | i <= k < e :: marks[k]) && (e < |marks| ==> !marks[e])
    ensures i < |marks| && marks[i] ==> i < e
    decreases |marks| - i
  {
    if i < |marks| && marks[i] then RunEnd(marks, i + 1) else i
  }

  function Runs(marks: seq<bool>, i: nat): seq<Run>
    requires i <= |marks|
    decreases |marks| - i
  {
    if i == |marks| then []
    else if !marks[i] then Runs(marks, i + 1)
    else [Run(i, RunEnd(marks, i) - 1)] + Runs(marks, RunEnd(marks, i))
  }

  // Runs from `i` on are canonical: they are maximal and ascending, an absent release parts each from the next, and
  // nothing present is left out. There is only one such list.
  ghost predicate Canonical(marks: seq<bool>, runs: seq<Run>, i: nat)
    decreases |runs|
  {
    if runs == [] then forall k | i <= k < |marks| :: !marks[k]
    else
      var r := runs[0];
      && i <= r.lo <= r.hi < |marks|
      && (forall k | i <= k < r.lo :: !marks[k])
      && (forall k | r.lo <= k <= r.hi :: marks[k])
      && (r.hi + 1 < |marks| ==> !marks[r.hi + 1])
      && Canonical(marks, runs[1..], r.hi + 1)
  }

  lemma {:induction false} RunsAreCanonical(marks: seq<bool>, i: nat)
    requires i <= |marks|
    ensures Canonical(marks, Runs(marks, i), i)
    decreases |marks| - i
  {
    if i < |marks| {
      if marks[i] {
        RunsAreCanonical(marks, RunEnd(marks, i));
        assert Runs(marks, i)[1..] == Runs(marks, RunEnd(marks, i));
      } else {
        RunsAreCanonical(marks, i + 1);
      }
    }
  }

  lemma {:induction false} CanonicalIsUnique(marks: seq<bool>, xs: seq<Run>, ys: seq<Run>, i: nat)
    requires Canonical(marks, xs, i) && Canonical(marks, ys, i)
    ensures xs == ys
    decreases |xs|
  {
    HeadMarked(marks, xs, i);
    HeadMarked(marks, ys, i);
    if xs != [] && ys != [] {
      var x, y := xs[0], ys[0];
      assert x.lo == y.lo;
      RunEndIs(marks, x.lo, x.hi + 1);
      RunEndIs(marks, y.lo, y.hi + 1);
      CanonicalIsUnique(marks, xs[1..], ys[1..], x.hi + 1);
      assert xs == [x] + xs[1..] && ys == [y] + ys[1..];
    }
  }

  lemma HeadMarked(marks: seq<bool>, runs: seq<Run>, i: nat)
    requires Canonical(marks, runs, i)
    ensures runs != [] ==> i <= runs[0].lo < |marks| && marks[runs[0].lo]
  {
  }

  // Runs as spans, each closed at its last release.
  ghost function Named<V(!new)>(o: Order<V>, vs: seq<V>, runs: seq<Run>): (spans: seq<Span<V>>)
    ensures |spans| == |runs|
  {
    if runs == [] || !(runs[0].lo <= runs[0].hi < |vs|) then seq(|runs|, _ => Span(o.none, o.none))
    else [Span(vs[runs[0].lo], vs[runs[0].hi])] + Named(o, vs, runs[1..])
  }

  // The span that ends with the newest release is left open.
  ghost function Opened<V(!new)>(o: Order<V>, vs: seq<V>, spans: seq<Span<V>>): seq<Span<V>> {
    if |spans| > 0 && |vs| > 0 && spans[|spans| - 1].to == vs[|vs| - 1] then
      spans[|spans| - 1 := spans[|spans| - 1].(to := o.none)]
    else spans
  }

  // What SpansOf computes, on releases already sorted.
  ghost function SpansOver<V(!new)>(o: Order<V>, vs: seq<V>, present: set<V>): seq<Span<V>> {
    Opened(o, vs, Named(o, vs, Runs(Marks(vs, present), 0)))
  }

  method SpansOf<V(==,!new)>(o: Order<V>, releases: seq<V>, present: set<V>) returns (spans: seq<Span<V>>)
    ensures spans == SpansOver(o, OldestFirst(o, releases), present)
  {
    var ordered := OldestFirst(o, releases);
    ghost var marks := Marks(ordered, present);
    ghost var start := 0;
    spans := [];
    assert [] + Left(o, ordered, marks, 0) == Left(o, ordered, marks, 0);
    var cur := -1;
    for i := 0 to |ordered|
      invariant cur < 0 ==> Between(o, ordered, marks, spans, i)
      invariant cur >= 0 ==> cur == |spans| - 1 && Within(o, ordered, marks, spans, start, i)
    {
      var v := ordered[i];
      if v !in present {
        if cur >= 0 {
          RunStops(o, ordered, marks, spans, start, i);
        } else {
          LeftSkips(o, ordered, marks, i);
        }
        cur := -1;
        continue;
      }
      if cur < 0 {
        RunStarts(o, ordered, marks, spans, i);
        start := i;
        spans := spans + [Span(v, v)];
        cur := |spans| - 1;
        continue;
      }
      RunGoesOn(o, ordered, marks, spans, start, i);
      spans := spans[cur := spans[cur].(to := v)];
    }
    if cur >= 0 {
      RunStops(o, ordered, marks, spans, start, |ordered|);
    }
    assert spans + [] == spans;
    if |spans| > 0 && |ordered| > 0 && spans[|spans| - 1].to == ordered[|ordered| - 1] {
      spans := spans[|spans| - 1 := spans[|spans| - 1].(to := o.none)];
    }
  }

  // The spans still to come from position `i` on.
  ghost function Left<V(!new)>(o: Order<V>, vs: seq<V>, marks: seq<bool>, i: nat): seq<Span<V>>
    requires i <= |marks|
  {
    Named(o, vs, Runs(marks, i))
  }

  // Outside a run at `i`: what is written and what is to come make up the whole.
  ghost predicate Between<V(!new)>(o: Order<V>, vs: seq<V>, marks: seq<bool>, spans: seq<Span<V>>, i: nat)
    requires i <= |marks|
  {
    spans + Left(o, vs, marks, i) == Left(o, vs, marks, 0)
  }

  // Inside a run since `start`: so it is but for the last span, which has got as far as `i`.
  ghost predicate Within<V(!new)>(o: Order<V>, vs: seq<V>, marks: seq<bool>, spans: seq<Span<V>>, start: nat, i: nat)
    requires i <= |marks| == |vs|
  {
    && start < i && |spans| > 0
    && (forall k | start <= k < i :: marks[k])
    && spans[|spans| - 1] == Span(vs[start], vs[i - 1])
    && Between(o, vs, marks, spans[..|spans| - 1], start)
  }

  lemma LeftSkips<V(!new)>(o: Order<V>, vs: seq<V>, marks: seq<bool>, i: nat)
    requires i < |marks| && !marks[i]
    ensures Left(o, vs, marks, i) == Left(o, vs, marks, i + 1)
  {
  }

  lemma RunStarts<V(!new)>(o: Order<V>, vs: seq<V>, marks: seq<bool>, spans: seq<Span<V>>, i: nat)
    requires i < |marks| == |vs| && marks[i] && Between(o, vs, marks, spans, i)
    ensures Within(o, vs, marks, spans + [Span(vs[i], vs[i])], i, i + 1)
  {
    assert (spans + [Span(vs[i], vs[i])])[..|spans|] == spans;
  }

  lemma RunGoesOn<V(!new)>(o: Order<V>, vs: seq<V>, marks: seq<bool>, spans: seq<Span<V>>, start: nat, i: nat)
    requires i < |marks| == |vs| && marks[i] && Within(o, vs, marks, spans, start, i)
    ensures Within(o, vs, marks, spans[|spans| - 1 := spans[|spans| - 1].(to := vs[i])], start, i + 1)
  {
    assert spans[|spans| - 1 := spans[|spans| - 1].(to := vs[i])][..|spans| - 1] == spans[..|spans| - 1];
  }

  // A run that is cut short, by an absent release or by the end, is the first of those that were still to come.
  lemma RunStops<V(!new)>(o: Order<V>, vs: seq<V>, marks: seq<bool>, spans: seq<Span<V>>, start: nat, i: nat)
    requires i <= |marks| == |vs| && Within(o, vs, marks, spans, start, i) && (i < |vs| ==> !marks[i])
    ensures Between(o, vs, marks, spans, if i < |vs| then i + 1 else i)
  {
    RunEndIs(marks, start, i);
    assert Runs(marks, start)[1..] == Runs(marks, i);
    assert Left(o, vs, marks, start) == [Span(vs[start], vs[i - 1])] + Left(o, vs, marks, i);
    assert spans == spans[..|spans| - 1] + [Span(vs[start], vs[i - 1])];
    if i < |vs| {
      LeftSkips(o, vs, marks, i);
    }
  }

  lemma {:induction false} RunEndIs(marks: seq<bool>, i: nat, e: nat)
    requires i <= e <= |marks| && (forall k | i <= k < e :: marks[k]) && (e < |marks| ==> !marks[e])
    ensures RunEnd(marks, i) == e
    decreases e - i
  {
    if i < e {
      RunEndIs(marks, i + 1, e);
    }
  }

  // On distinct releases exactly the run that reaches the newest one is left open.

  ghost function OpenLast<V(!new)>(o: Order<V>, vs: seq<V>, runs: seq<Run>): (spans: seq<Span<V>>)
    ensures |spans| == |runs|
  {
    if runs == [] || !(runs[0].lo <= runs[0].hi < |vs|) then seq(|runs|, _ => Span(o.none, o.none))
    else [Span(vs[runs[0].lo], if runs[0].hi == |vs| - 1 then o.none else vs[runs[0].hi])] + OpenLast(o, vs, runs[1..])
  }

  lemma {:induction false} OnlyLastOpens<V(!new)>(o: Order<V>, vs: seq<V>, marks: seq<bool>, runs: seq<Run>, i: nat)
    requires IsOrder(o) && Ascending(o, vs) && |marks| == |vs| && Canonical(marks, runs, i)
    ensures Opened(o, vs, Named(o, vs, runs)) == OpenLast(o, vs, runs)
    decreases |runs|
  {
    if runs != [] {
      var r, rest := runs[0], runs[1..];
      OnlyLastOpens(o, vs, marks, rest, r.hi + 1);
      AscendingCompares(o, vs, r.hi, |vs| - 1);
      OpenedTail(o, vs, Span(vs[r.lo], vs[r.hi]), Named(o, vs, rest));
      HeadMarked(marks, rest, r.hi + 1);
    }
  }

  lemma OpenedTail<V(!new)>(o: Order<V>, vs: seq<V>, s: Span<V>, rest: seq<Span<V>>)
    ensures rest != [] ==> Opened(o, vs, [s] + rest) == [s] + Opened(o, vs, rest)
    ensures rest == [] && vs != [] ==>
              Opened(o, vs, [s] + rest) == [if s.to == vs[|vs| - 1] then s.(to := o.none) else s]
  {
    var all := [s] + rest;
    if rest != [] {
      assert all[|all| - 1] == rest[|rest| - 1];
      assert Opened(o, vs, all) == [s] + Opened(o, vs, rest);
    }
  }

  lemma SpansAreOpenLast<V(!new)>(o: Order<V>, vs: seq<V>, present: set<V>)
    requires IsOrder(o) && Ascending(o, vs)
    ensures SpansOver(o, vs, present) == OpenLast(o, vs, Runs(Marks(vs, present), 0))
  {
    var marks := Marks(vs, present);
    RunsAreCanonical(marks, 0);
    OnlyLastOpens(o, vs, marks, Runs(marks, 0), 0);
  }

  lemma AscendingCompares<V(!new)>(o: Order<V>, vs: seq<V>, i: nat, j: nat)
    requires IsOrder(o) && Ascending(o, vs) && i < |vs| && j < |vs|
    ensures o.cmp(vs[i], vs[j]) <= 0 <==> i <= j
    ensures o.cmp(vs[i], vs[j]) >= 0 <==> i >= j
  {
    assert o.cmp(vs[i], vs[i]) == 0;
    assert o.cmp(vs[i], vs[j]) == -o.cmp(vs[j], vs[i]);
  }

  // The one way to go wrong: a run that stops at a release with no name reads as a span that is still open.

  ghost predicate EarlyRun<V(!new)>(o: Order<V>, vs: seq<V>, r: Run) {
    r.hi + 1 < |vs| && vs[r.hi] == o.none
  }

  ghost predicate OpensEarly<V(!new)>(o: Order<V>, vs: seq<V>, present: set<V>) {
    exists h :: 0 <= h && h + 1 < |vs| && vs[h] == o.none && vs[h] in present && vs[h + 1] !in present
  }

  ghost predicate Exact<V(!new)>(o: Order<V>, vs: seq<V>, present: set<V>) {
    forall j | 0 <= j < |vs| :: AnyCovers(o, SpansOver(o, vs, present), vs[j]) <==> vs[j] in present
  }

  lemma CoversFirst<V(!new)>(o: Order<V>, s: Span<V>, rest: seq<Span<V>>, v: V)
    ensures AnyCovers(o, [s] + rest, v) <==> Covers(o, s, v) || AnyCovers(o, rest, v)
  {
    var all := [s] + rest;
    assert all[0] == s;
    assert forall i | 0 <= i < |rest| :: all[i + 1] == rest[i];
    if AnyCovers(o, all, v) && !Covers(o, s, v) {
      var i :| 0 <= i < |all| && Covers(o, all[i], v);
      assert Covers(o, rest[i - 1], v);
    }
  }

  lemma RunCovers<V(!new)>(o: Order<V>, vs: seq<V>, r: Run, j: nat)
    requires IsOrder(o) && Ascending(o, vs) && r.lo <= r.hi < |vs| && j < |vs|
    ensures var s := Span(vs[r.lo], if r.hi == |vs| - 1 then o.none else vs[r.hi]);
            Covers(o, s, vs[j]) <==> r.lo <= j && (j <= r.hi || EarlyRun(o, vs, r))
  {
    AscendingCompares(o, vs, j, r.lo);
    AscendingCompares(o, vs, j, r.hi);
  }

  lemma {:induction false} RunsCover<V(!new)>(o: Order<V>, vs: seq<V>, marks: seq<bool>, runs: seq<Run>, i: nat, j: nat)
    requires IsOrder(o) && Ascending(o, vs) && |marks| == |vs| && Canonical(marks, runs, i) && j < |vs|
    ensures i <= j && marks[j] ==> AnyCovers(o, OpenLast(o, vs, runs), vs[j])
    ensures AnyCovers(o, OpenLast(o, vs, runs), vs[j]) ==>
              (i <= j && marks[j]) || exists r :: r in runs && r.lo <= j && EarlyRun(o, vs, r)
    decreases |runs|
  {
    if runs != [] {
      var r, rest := runs[0], runs[1..];
      RunsCover(o, vs, marks, rest, r.hi + 1, j);
      RunCovers(o, vs, r, j);
      CoversFirst(o, Span(vs[r.lo], if r.hi == |vs| - 1 then o.none else vs[r.hi]), OpenLast(o, vs, rest), vs[j]);
      assert r in runs && forall x | x in rest :: x in runs;
    }
  }

  lemma {:induction false} EarlyRunIs<V(!new)>(o: Order<V>, vs: seq<V>, marks: seq<bool>, runs: seq<Run>, i: nat,
                                               h: nat)
    requires |marks| == |vs| && Canonical(marks, runs, i)
    ensures i <= h && h + 1 < |vs| && marks[h] && !marks[h + 1] ==> exists r :: r in runs && r.hi == h && r.lo <= h
    ensures forall r | r in runs && r.hi + 1 < |vs| :: marks[r.hi] && !marks[r.hi + 1]
    decreases |runs|
  {
    if runs != [] {
      assert runs == [runs[0]] + runs[1..];
      EarlyRunIs(o, vs, marks, runs[1..], runs[0].hi + 1, h);
    }
  }

  lemma ExactUnlessOpenEarly<V(!new)>(o: Order<V>, vs: seq<V>, present: set<V>)
    requires IsOrder(o) && Ascending(o, vs)
    ensures Exact(o, vs, present) <==> !OpensEarly(o, vs, present)
  {
    var marks := Marks(vs, present);
    RunsAreCanonical(marks, 0);
    SpansAreOpenLast(o, vs, present);
    if OpensEarly(o, vs, present) {
      var j := EarlyIsInexact(o, vs, present, marks, Runs(marks, 0));
    } else {
      NotEarlyIsExact(o, vs, present, marks, Runs(marks, 0));
    }
  }

  lemma {:induction false} NotEarlyIsExact<V(!new)>(o: Order<V>, vs: seq<V>, present: set<V>, marks: seq<bool>,
                                                    runs: seq<Run>)
    requires IsOrder(o) && Ascending(o, vs) && !OpensEarly(o, vs, present)
    requires marks == Marks(vs, present) && Canonical(marks, runs, 0)
    ensures forall j | 0 <= j < |vs| :: AnyCovers(o, OpenLast(o, vs, runs), vs[j]) <==> vs[j] in present
  {
    NoEarlyRun(o, vs, present, marks, runs);
    forall j: nat | j < |vs|
      ensures AnyCovers(o, OpenLast(o, vs, runs), vs[j]) <==> vs[j] in present
    {
      RunsCover(o, vs, marks, runs, 0, j);
    }
  }

  lemma {:induction false} EarlyIsInexact<V(!new)>(o: Order<V>, vs: seq<V>, present: set<V>, marks: seq<bool>,
                                                   runs: seq<Run>)
    returns (j: nat)
    requires IsOrder(o) && Ascending(o, vs) && OpensEarly(o, vs, present)
    requires marks == Marks(vs, present) && Canonical(marks, runs, 0)
    ensures 0 <= j < |vs| && vs[j] !in present && AnyCovers(o, OpenLast(o, vs, runs), vs[j])
  {
    var h: nat :| h + 1 < |vs| && vs[h] == o.none && vs[h] in present && vs[h + 1] !in present;
    EarlyRunIs(o, vs, marks, runs, 0, h);
    var r :| r in runs && r.hi == h && r.lo <= h;
    j := h + 1;
    EarlyRunCovers(o, vs, marks, runs, 0, r, j);
  }

  lemma NoEarlyRun<V(!new)>(o: Order<V>, vs: seq<V>, present: set<V>, marks: seq<bool>, runs: seq<Run>)
    requires !OpensEarly(o, vs, present) && marks == Marks(vs, present) && Canonical(marks, runs, 0)
    ensures forall r | r in runs :: !EarlyRun(o, vs, r)
  {
    EarlyRunIs(o, vs, marks, runs, 0, 0);
    forall r | r in runs
      ensures !EarlyRun(o, vs, r)
    {
      if r.hi + 1 < |vs| {
        assert marks[r.hi] && !marks[r.hi + 1];
      }
    }
  }

  lemma {:induction false} EarlyRunCovers<V(!new)>(o: Order<V>, vs: seq<V>, marks: seq<bool>, runs: seq<Run>, i: nat,
                                                   r: Run, j: nat)
    requires IsOrder(o) && Ascending(o, vs) && |marks| == |vs| && Canonical(marks, runs, i) && j < |vs|
    requires r in runs && r.lo <= j && EarlyRun(o, vs, r)
    ensures AnyCovers(o, OpenLast(o, vs, runs), vs[j])
    decreases |runs|
  {
    var first, rest := runs[0], runs[1..];
    RunCovers(o, vs, first, j);
    CoversFirst(o, Span(vs[first.lo], if first.hi == |vs| - 1 then o.none else vs[first.hi]), OpenLast(o, vs, rest),
                vs[j]);
    if r != first {
      assert runs == [first] + rest;
      EarlyRunCovers(o, vs, marks, rest, first.hi + 1, r, j);
    }
  }

  // Reading spans back against releases.

  function Filter<V(==,!new)>(vs: seq<V>, present: set<V>): seq<V> {
    if vs == [] then [] else (if vs[0] in present then [vs[0]] else []) + Filter(vs[1..], present)
  }

  // The inner loop of Expand: the releases a list of spans covers.
  method Covered<V(==,!new)>(o: Order<V>, spans: seq<Span<V>>, ordered: seq<V>) returns (versions: seq<V>)
    ensures versions == Filter(ordered, CoveredSet(o, spans, ordered))
  {
    versions := [];
    ghost var shipped := CoveredSet(o, spans, ordered);
    assert ordered[0..] == ordered;
    for i := 0 to |ordered|
      invariant versions + Filter(ordered[i..], shipped) == Filter(ordered, shipped)
    {
      assert ordered[i..][1..] == ordered[i + 1..];
      if AnyCovers(o, spans, ordered[i]) {
        versions := versions + [ordered[i]];
      }
    }
  }

  ghost function CoveredSet<V(!new)>(o: Order<V>, spans: seq<Span<V>>, vs: seq<V>): set<V> {
    set v | v in vs && AnyCovers(o, spans, v)
  }

  lemma {:induction false} SameFilter<V(!new)>(vs: seq<V>, p: set<V>, q: set<V>)
    requires forall v | v in vs :: v in p <==> v in q
    ensures Filter(vs, p) == Filter(vs, q)
  {
    if vs != [] {
      assert vs[0] in vs;
      SameFilter(vs[1..], p, q);
    }
  }

  // Spans written for some releases, read against any of them, give exactly the ones that ship the component.
  lemma ExactForSubset<V(!new)>(o: Order<V>, releases: seq<V>, present: set<V>, served: seq<V>)
    requires IsOrder(o) && Distinct(o, releases) && o.none !in releases
    requires forall v | v in served :: v in releases
    ensures forall v | v in served ::
              AnyCovers(o, SpansOver(o, OldestFirst(o, releases), present), v) <==> v in present
  {
    var vs := OldestFirst(o, releases);
    OldestFirstKeeps(o, releases);
    DistinctAscends(o, releases);
    ExactUnlessOpenEarly(o, vs, present);
    forall v | v in served
      ensures AnyCovers(o, SpansOver(o, vs, present), v) <==> v in present
    {
      assert v in vs;
    }
  }

  // When compression loses nothing, as a condition on the releases alone: no two compare equal, and one with no name,
  // if there is one, is the newest.
  lemma ExactForEveryComponent<V(!new)>(o: Order<V>, releases: seq<V>)
    requires IsOrder(o)
    requires forall i, j | 0 <= i < j < |releases| :: releases[i] != releases[j]
    ensures (forall present: set<V> :: Exact(o, OldestFirst(o, releases), present)) <==>
            Distinct(o, releases) && NamelessIsNewest(o, releases)
  {
    if Distinct(o, releases) && NamelessIsNewest(o, releases) {
      forall present: set<V>
        ensures Exact(o, OldestFirst(o, releases), present)
      {
        AlwaysExact(o, releases, present);
      }
    } else {
      var present := SometimesInexact(o, releases);
    }
  }

  ghost predicate NamelessIsNewest<V(!new)>(o: Order<V>, vs: seq<V>) {
    o.none in vs ==> forall v | v in vs :: o.cmp(v, o.none) <= 0
  }

  lemma {:induction false} AlwaysExact<V(!new)>(o: Order<V>, releases: seq<V>, present: set<V>)
    requires IsOrder(o) && Distinct(o, releases) && NamelessIsNewest(o, releases)
    ensures Exact(o, OldestFirst(o, releases), present)
  {
    var vs := OldestFirst(o, releases);
    OldestFirstKeeps(o, releases);
    DistinctAscends(o, releases);
    ExactUnlessOpenEarly(o, vs, present);
    if OpensEarly(o, vs, present) {
      NamelessNewest(o, vs, present);
    }
  }

  lemma {:induction false} SometimesInexact<V(!new)>(o: Order<V>, releases: seq<V>) returns (present: set<V>)
    requires IsOrder(o) && !(Distinct(o, releases) && NamelessIsNewest(o, releases))
    requires forall i, j | 0 <= i < j < |releases| :: releases[i] != releases[j]
    ensures !Exact(o, OldestFirst(o, releases), present)
  {
    var vs := OldestFirst(o, releases);
    OldestFirstKeeps(o, releases);
    if Distinct(o, releases) {
      DistinctAscends(o, releases);
      var v :| v in releases && o.cmp(v, o.none) > 0;
      UnnamedFails(o, vs, v);
      present := {o.none};
    } else {
      var i, j :| 0 <= i < j < |releases| && o.cmp(releases[i], releases[j]) == 0;
      TiedFails(o, vs, releases[i], releases[j]);
      present := {releases[i]};
    }
  }

  lemma NamelessNewest<V(!new)>(o: Order<V>, vs: seq<V>, present: set<V>)
    requires IsOrder(o) && Ascending(o, vs) && OpensEarly(o, vs, present)
    ensures exists v :: v in vs && o.none in vs && o.cmp(v, o.none) > 0
  {
    var h: nat :| h + 1 < |vs| && vs[h] == o.none && vs[h] in present && vs[h + 1] !in present;
    AscendingCompares(o, vs, h + 1, h);
    assert vs[h + 1] in vs && vs[h] in vs;
  }

  lemma UnnamedFails<V(!new)>(o: Order<V>, vs: seq<V>, newer: V)
    requires IsOrder(o) && Ascending(o, vs) && o.none in vs && newer in vs && o.cmp(newer, o.none) > 0
    ensures !Exact(o, vs, {o.none})
  {
    var h: nat :| h < |vs| && vs[h] == o.none;
    var n: nat :| n < |vs| && vs[n] == newer;
    AscendingCompares(o, vs, n, h);
    AscendingCompares(o, vs, h + 1, h);
    assert vs[h + 1] != o.none;
    assert OpensEarly(o, vs, {o.none});
    ExactUnlessOpenEarly(o, vs, {o.none});
  }

  lemma TiedFails<V(!new)>(o: Order<V>, vs: seq<V>, a: V, b: V)
    requires IsOrder(o) && a in vs && b in vs && a != b && o.cmp(a, b) == 0
    ensures !Exact(o, vs, {a})
  {
    var marks := Marks(vs, {a});
    RunsAreCanonical(marks, 0);
    var i: nat :| i < |vs| && vs[i] == a;
    var j: nat :| j < |vs| && vs[j] == b;
    var k := NamedHas(o, vs, {a}, Runs(marks, 0), 0, i);
    var spans := SpansOver(o, vs, {a});
    assert spans[k].from == a && (spans[k].to == a || spans[k].to == o.none);
    assert o.cmp(b, a) == -o.cmp(a, b);
    assert Covers(o, spans[k], vs[j]);
  }

  lemma {:induction false} NamedHas<V(!new)>(o: Order<V>, vs: seq<V>, present: set<V>, runs: seq<Run>, from: nat,
                                             i: nat) returns (k: nat)
    requires Canonical(Marks(vs, present), runs, from) && from <= i < |vs| && vs[i] in present
    ensures k < |runs| && Named(o, vs, runs)[k].from in present && Named(o, vs, runs)[k].to in present
    decreases |runs|
  {
    if i <= runs[0].hi {
      k := 0;
    } else {
      k := NamedHas(o, vs, present, runs[1..], runs[0].hi + 1, i);
      k := k + 1;
    }
  }

  // Stability: a newer release that still ships the component leaves its spans as they were.

  lemma {:induction false} RunsGrow(marks: seq<bool>, i: nat)
    requires i < |marks| && marks[|marks| - 1]
    ensures Stretched(Runs(marks, i), Runs(marks + [true], i), |marks|)
    decreases |marks| - i
  {
    var more := marks + [true];
    if !marks[i] {
      RunsGrow(marks, i + 1);
    } else {
      var e := RunEnd(marks, i);
      if e < |marks| {
        RunEndIs(more, i, e);
        RunsGrow(marks, e);
        assert Runs(marks, i)[1..] == Runs(marks, e) && Runs(more, i)[1..] == Runs(more, e);
      } else {
        RunEndIs(more, i, |more|);
        assert Runs(more, |more|) == [] && Runs(marks, |marks|) == [];
      }
    }
  }

  // The same runs, but for the last, which went up to the end and goes one further.
  ghost predicate Stretched(was: seq<Run>, now: seq<Run>, n: nat) {
    && |was| == |now| > 0
    && if |was| == 1 then was[0].lo == now[0].lo <= was[0].hi && was[0].hi + 1 == n == now[0].hi
       else was[0] == now[0] && was[0].lo <= was[0].hi && was[0].hi + 1 < n && Stretched(was[1..], now[1..], n)
  }

  lemma {:induction false} StretchedSpans<V(!new)>(o: Order<V>, vs: seq<V>, v: V, was: seq<Run>, now: seq<Run>)
    requires Stretched(was, now, |vs|)
    ensures OpenLast(o, vs, was) == OpenLast(o, vs + [v], now)
    decreases |was|
  {
    if |was| > 1 {
      StretchedSpans(o, vs, v, was[1..], now[1..]);
    }
  }

  lemma StillShippedIsStable<V(!new)>(o: Order<V>, releases: seq<V>, v: V, present: set<V>)
    requires IsOrder(o) && Distinct(o, releases) && releases != []
    requires forall u | u in releases :: o.cmp(u, v) < 0
    requires |OldestFirst(o, releases)| == |releases| && OldestFirst(o, releases)[|releases| - 1] in present
    ensures SpansOver(o, OldestFirst(o, releases + [v]), present + {v}) ==
            SpansOver(o, OldestFirst(o, releases), present)
  {
    var vs := OldestFirst(o, releases);
    OldestFirstKeeps(o, releases);
    DistinctAscends(o, releases);
    NewestGoesLast(o, releases, v);
    DistinctAscends(o, releases + [v]);
    StableOver(o, vs, v, present);
  }

  lemma StableOver<V(!new)>(o: Order<V>, vs: seq<V>, v: V, present: set<V>)
    requires IsOrder(o) && Ascending(o, vs) && Ascending(o, vs + [v])
    requires vs != [] && vs[|vs| - 1] in present
    ensures SpansOver(o, vs + [v], present + {v}) == SpansOver(o, vs, present)
  {
    var marks := Marks(vs, present);
    var more := Marks(vs + [v], present + {v});
    MarksGrow(o, vs, v, present);
    SpansAreOpenLast(o, vs, present);
    SpansAreOpenLast(o, vs + [v], present + {v});
    RunsGrow(marks, 0);
    StretchedSpans(o, vs, v, Runs(marks, 0), Runs(more, 0));
  }

  lemma MarksGrow<V(!new)>(o: Order<V>, vs: seq<V>, v: V, present: set<V>)
    requires IsOrder(o) && Ascending(o, vs + [v])
    ensures Marks(vs + [v], present + {v}) == Marks(vs, present) + [true]
  {
    var ws := vs + [v];
    assert o.cmp(v, v) == 0;
    forall i | 0 <= i < |vs|
      ensures vs[i] != v
    {
      assert o.cmp(ws[i], ws[|vs|]) < 0;
    }
  }

  lemma NewestGoesLast<V(!new)>(o: Order<V>, releases: seq<V>, v: V)
    requires IsOrder(o) && Distinct(o, releases) && forall u | u in releases :: o.cmp(u, v) < 0
    ensures OldestFirst(o, releases + [v]) == OldestFirst(o, releases) + [v]
    ensures Distinct(o, releases + [v])
  {
    var vs := OldestFirst(o, releases);
    OldestFirstKeeps(o, releases);
    OldestFirstKeeps(o, releases + [v]);
    DistinctAscends(o, releases);
    LargestLast(o, vs, v);
    LargestIsDistinct(o, releases, v);
    DistinctAscends(o, releases + [v]);
    AscendingIsUnique(o, OldestFirst(o, releases + [v]), vs + [v]);
  }

  lemma LargestLast<V(!new)>(o: Order<V>, vs: seq<V>, v: V)
    requires Ascending(o, vs) && forall u | u in vs :: o.cmp(u, v) < 0
    ensures Ascending(o, vs + [v])
  {
  }

  lemma LargestIsDistinct<V(!new)>(o: Order<V>, vs: seq<V>, v: V)
    requires Distinct(o, vs) && forall u | u in vs :: o.cmp(u, v) < 0
    ensures Distinct(o, vs + [v])
  {
  }
}
