// Which findings a capped report shows: each file first, then each rule in each file, then the rest by position.
module Annotations {

  // What an annotation is grouped by. The original writes a group as one text, which KeyTellsApart is about.
  datatype Grouping<!A, F, G> = Grouping(file: A -> F, group: A -> G)

  datatype Annotation = Annotation(rule: string, file: string, line: int, message: string)

  const NUL: char := '\0'

  function KeyOf(a: Annotation): string {
    a.rule + [NUL] + a.file
  }

  const BY_KEY: Grouping<Annotation, string, string> := Grouping((a: Annotation) => a.file, KeyOf)

  // Annotations in one group are in one file.
  ghost predicate Refines<A(!new), F, G>(g: Grouping<A, F, G>, candidates: seq<A>) {
    forall a, b | a in candidates && b in candidates && g.group(a) == g.group(b) :: g.file(a) == g.file(b)
  }

  // Where rule names hold no NUL, the text of a group tells rule and file apart.
  lemma KeyTellsApart(a: Annotation, b: Annotation)
    requires NUL !in a.rule && NUL !in b.rule
    ensures KeyOf(a) == KeyOf(b) <==> a.rule == b.rule && a.file == b.file
  {
    NulEndsRule(a);
    NulEndsRule(b);
    if KeyOf(a) == KeyOf(b) {
      assert |a.rule| == |b.rule|;
      assert a.rule == KeyOf(a)[..|a.rule|] == b.rule;
      assert a.file == KeyOf(a)[|a.rule| + 1..] == b.file;
    }
  }

  lemma NulEndsRule(a: Annotation)
    requires NUL !in a.rule
    ensures |a.rule| < |KeyOf(a)| && KeyOf(a)[|a.rule|] == NUL
    ensures forall i | 0 <= i < |a.rule| :: KeyOf(a)[i] != NUL
  {
    assert forall i | 0 <= i < |a.rule| :: KeyOf(a)[i] == a.rule[i];
  }

  lemma KeysRefine(candidates: seq<Annotation>)
    requires forall a | a in candidates :: NUL !in a.rule
    ensures Refines(BY_KEY, candidates)
  {
    forall a, b | a in candidates && b in candidates && KeyOf(a) == KeyOf(b)
      ensures a.file == b.file
    {
      KeyTellsApart(a, b);
    }
  }

  ghost function Files<A, F, G>(g: Grouping<A, F, G>, xs: seq<A>): set<F> {
    set x | x in xs :: g.file(x)
  }

  ghost function Groups<A, F, G>(g: Grouping<A, F, G>, xs: seq<A>): set<G> {
    set x | x in xs :: g.group(x)
  }

  function Least(a: nat, b: nat): nat {
    if a <= b then a else b
  }

  // What is picked so far: `at` are the positions of the picks, in the order they were made.
  ghost predicate Picked<A, F, G>(g: Grouping<A, F, G>, candidates: seq<A>, used: seq<bool>, at: seq<nat>,
                                  selected: seq<A>, files: set<F>, groups: set<G>) {
    && |used| == |candidates| && |selected| == |at|
    && (forall k | 0 <= k < |at| :: at[k] < |candidates| && used[at[k]] && selected[k] == candidates[at[k]])
    && (forall j, k | 0 <= j < k < |at| :: at[j] != at[k])
    && (forall i | 0 <= i < |used| && used[i] :: i in at)
    && files == Files(g, selected) && groups == Groups(g, selected)
  }

  lemma PickOne<A, F, G>(g: Grouping<A, F, G>, candidates: seq<A>, used: seq<bool>, at: seq<nat>, selected: seq<A>,
                         files: set<F>, groups: set<G>, i: nat)
    requires Picked(g, candidates, used, at, selected, files, groups) && i < |used| && !used[i]
    ensures Picked(g, candidates, used[i := true], at + [i], selected + [candidates[i]],
                   files + {g.file(candidates[i])}, groups + {g.group(candidates[i])})
  {
    var more := selected + [candidates[i]];
    assert forall x | x in more :: x in selected || x == candidates[i];
    assert forall x | x in selected :: x in more;
    assert candidates[i] in more;
    assert Files(g, more) == Files(g, selected) + {g.file(candidates[i])};
    assert Groups(g, more) == Groups(g, selected) + {g.group(candidates[i])};
    assert i !in at;
  }

  datatype Pass = DistinctFiles | DistinctRulesPerFile | Remaining

  // What a finished pass leaves: the limit has been reached, or nothing the pass is for is left to pick.
  ghost predicate Exhausted<A, F, G>(g: Grouping<A, F, G>, pass: Pass, candidates: seq<A>, k: nat, used: seq<bool>,
                                     files: set<F>, groups: set<G>)
    requires k <= |candidates| == |used|
  {
    match pass
    case DistinctFiles => forall i | 0 <= i < k :: g.file(candidates[i]) in files
    case DistinctRulesPerFile => forall i | 0 <= i < k :: g.group(candidates[i]) in groups
    case Remaining => forall i | 0 <= i < k :: used[i]
  }

  // While files, or groups, are what is being picked, every pick adds one.
  ghost predicate OneEach<A, F, G>(pass: Pass, selected: seq<A>, files: set<F>, groups: set<G>) {
    && (pass.DistinctFiles? ==> |files| == |selected|)
    && (!pass.Remaining? ==> |groups| == |selected|)
  }

  // A pass over the first `k` candidates.
  ghost predicate Passing<A, F, G>(g: Grouping<A, F, G>, pass: Pass, candidates: seq<A>, limit: nat, k: nat,
                                   used: seq<bool>, at: seq<nat>, selected: seq<A>, files: set<F>, groups: set<G>) {
    && k <= |candidates|
    && Picked(g, candidates, used, at, selected, files, groups)
    && OneEach(pass, selected, files, groups)
    && |selected| <= limit
    && (|selected| < limit ==> Exhausted(g, pass, candidates, k, used, files, groups))
  }

  predicate Skips<A, F(==), G(==)>(g: Grouping<A, F, G>, pass: Pass, a: A, files: set<F>, groups: set<G>) {
    (pass.DistinctFiles? && g.file(a) in files) || (pass.DistinctRulesPerFile? && g.group(a) in groups)
  }

  lemma SkipStep<A, F, G>(g: Grouping<A, F, G>, pass: Pass, candidates: seq<A>, limit: nat, k: nat,
                          used: seq<bool>, at: seq<nat>, selected: seq<A>, files: set<F>, groups: set<G>)
    requires k < |candidates| && Passing(g, pass, candidates, limit, k, used, at, selected, files, groups)
    requires used[k] || |selected| == limit || Skips(g, pass, candidates[k], files, groups)
    ensures Passing(g, pass, candidates, limit, k + 1, used, at, selected, files, groups)
  {
    if used[k] {
      var j :| 0 <= j < |at| && at[j] == k;
      assert selected[j] in selected;
    }
  }

  lemma PickStep<A(!new), F, G>(g: Grouping<A, F, G>, pass: Pass, candidates: seq<A>, limit: nat, k: nat,
                                used: seq<bool>, at: seq<nat>, selected: seq<A>, files: set<F>, groups: set<G>)
    requires Refines(g, candidates)
    requires k < |candidates| && Passing(g, pass, candidates, limit, k, used, at, selected, files, groups)
    requires !used[k] && |selected| < limit && !Skips(g, pass, candidates[k], files, groups)
    ensures Passing(g, pass, candidates, limit, k + 1, used[k := true], at + [k], selected + [candidates[k]],
                    files + {g.file(candidates[k])}, groups + {g.group(candidates[k])})
  {
    PickOne(g, candidates, used, at, selected, files, groups, k);
    if pass.DistinctFiles? {
      NewFileIsNewGroup(g, candidates, used, at, selected, files, groups, k);
    }
  }

  lemma NewFileIsNewGroup<A(!new), F, G>(g: Grouping<A, F, G>, candidates: seq<A>, used: seq<bool>, at: seq<nat>,
                                         selected: seq<A>, files: set<F>, groups: set<G>, i: nat)
    requires Refines(g, candidates) && Picked(g, candidates, used, at, selected, files, groups) && i < |used|
    requires g.file(candidates[i]) !in files
    ensures g.group(candidates[i]) !in groups
  {
    forall x | x in selected
      ensures g.group(x) != g.group(candidates[i])
    {
      var k :| 0 <= k < |selected| && selected[k] == x;
      assert x == candidates[at[k]] && g.file(x) in files;
    }
  }

  // The order of the picks, told by the candidates alone: the first of each file, then the first of each group that is
  // not one of those, then the rest, each by position.

  ghost function Turn<A, F, G>(g: Grouping<A, F, G>, candidates: seq<A>, i: nat): nat
    requires i < |candidates|
  {
    if forall j | 0 <= j < i :: g.file(candidates[j]) != g.file(candidates[i]) then 0
    else if forall j | 0 <= j < i :: g.group(candidates[j]) != g.group(candidates[i]) then 1
    else 2
  }

  ghost predicate Earlier<A, F, G>(g: Grouping<A, F, G>, candidates: seq<A>, i: nat, j: nat)
    requires i < |candidates| && j < |candidates|
  {
    var a, b := Turn(g, candidates, i), Turn(g, candidates, j);
    a < b || (a == b && i < j)
  }

  // The positions are the earliest, in order.
  ghost predicate Earliest<A, F, G>(g: Grouping<A, F, G>, candidates: seq<A>, at: seq<nat>) {
    && (forall k | 0 <= k < |at| :: at[k] < |candidates|)
    && (forall j, k | 0 <= j < k < |at| :: Earlier(g, candidates, at[j], at[k]))
    && (forall i: nat, j: nat | i in at && j < |candidates| && j !in at :: Earlier(g, candidates, i, j))
  }

  function TurnOf(pass: Pass): nat {
    match pass
    case DistinctFiles => 0
    case DistinctRulesPerFile => 1
    case Remaining => 2
  }

  // What a pass has come by after `k` candidates.
  ghost predicate CameBy<A, F, G>(g: Grouping<A, F, G>, pass: Pass, candidates: seq<A>, k: nat, i: nat)
    requires i < |candidates|
  {
    Turn(g, candidates, i) < TurnOf(pass) || (Turn(g, candidates, i) == TurnOf(pass) && i < k)
  }

  ghost predicate InOrder<A, F, G>(g: Grouping<A, F, G>, pass: Pass, candidates: seq<A>, limit: nat, k: nat,
                                   at: seq<nat>) {
    && Earliest(g, candidates, at)
    && (forall i | i in at :: CameBy(g, pass, candidates, k, i))
    && (|at| < limit ==> forall i: nat | i < |candidates| && CameBy(g, pass, candidates, k, i) :: i in at)
  }

  lemma {:induction false} FirstOfFile<A, F, G>(g: Grouping<A, F, G>, candidates: seq<A>, i: nat) returns (j: nat)
    requires i < |candidates|
    ensures j <= i && g.file(candidates[j]) == g.file(candidates[i]) && Turn(g, candidates, j) == 0
    decreases i
  {
    j := i;
    if k :| 0 <= k < i && g.file(candidates[k]) == g.file(candidates[i]) {
      j := FirstOfFile(g, candidates, k);
    }
  }

  lemma {:induction false} FirstOfGroup<A, F, G>(g: Grouping<A, F, G>, candidates: seq<A>, i: nat) returns (j: nat)
    requires i < |candidates|
    ensures j <= i && g.group(candidates[j]) == g.group(candidates[i]) && Turn(g, candidates, j) <= 1
    decreases i
  {
    j := i;
    if k :| 0 <= k < i && g.group(candidates[k]) == g.group(candidates[i]) {
      j := FirstOfGroup(g, candidates, k);
    }
  }

  lemma TakenFiles<A, F, G>(g: Grouping<A, F, G>, candidates: seq<A>, used: seq<bool>, at: seq<nat>, selected: seq<A>,
                            files: set<F>, groups: set<G>, i: nat)
    requires Picked(g, candidates, used, at, selected, files, groups) && i in at
    ensures i < |candidates| && g.file(candidates[i]) in files && g.group(candidates[i]) in groups
  {
    var k :| 0 <= k < |at| && at[k] == i;
    assert selected[k] in selected;
  }

  // A pass skips exactly the candidates whose turn it is not.
  lemma SkipsByTurn<A(!new), F, G>(g: Grouping<A, F, G>, pass: Pass, candidates: seq<A>, limit: nat, k: nat,
                                   used: seq<bool>, at: seq<nat>, selected: seq<A>, files: set<F>, groups: set<G>)
    requires Refines(g, candidates) && Picked(g, candidates, used, at, selected, files, groups)
    requires InOrder(g, pass, candidates, limit, k, at) && |at| < limit && k < |candidates| && !used[k]
    ensures Skips(g, pass, candidates[k], files, groups) <==> Turn(g, candidates, k) != TurnOf(pass)
  {
    assert k !in at;
    assert !CameBy(g, pass, candidates, k, k);
    match pass
    case DistinctFiles => FilesByTurn(g, candidates, limit, k, used, at, selected, files, groups);
    case DistinctRulesPerFile => GroupsByTurn(g, candidates, limit, k, used, at, selected, files, groups);
    case Remaining =>
  }

  lemma FilesByTurn<A(!new), F, G>(g: Grouping<A, F, G>, candidates: seq<A>, limit: nat, k: nat,
                                   used: seq<bool>, at: seq<nat>, selected: seq<A>, files: set<F>, groups: set<G>)
    requires Picked(g, candidates, used, at, selected, files, groups)
    requires InOrder(g, DistinctFiles, candidates, limit, k, at) && |at| < limit && k < |candidates|
    ensures g.file(candidates[k]) in files <==> Turn(g, candidates, k) != 0
  {
    if Turn(g, candidates, k) != 0 {
      var j :| 0 <= j < k && g.file(candidates[j]) == g.file(candidates[k]);
      var first := FirstOfFile(g, candidates, j);
      assert CameBy(g, DistinctFiles, candidates, k, first);
      TakenFiles(g, candidates, used, at, selected, files, groups, first);
    }
    if g.file(candidates[k]) in files {
      var m :| 0 <= m < |selected| && g.file(selected[m]) == g.file(candidates[k]);
      assert at[m] in at && CameBy(g, DistinctFiles, candidates, k, at[m]);
    }
  }

  lemma GroupsByTurn<A(!new), F, G>(g: Grouping<A, F, G>, candidates: seq<A>, limit: nat, k: nat,
                                    used: seq<bool>, at: seq<nat>, selected: seq<A>, files: set<F>, groups: set<G>)
    requires Refines(g, candidates) && Picked(g, candidates, used, at, selected, files, groups)
    requires InOrder(g, DistinctRulesPerFile, candidates, limit, k, at) && |at| < limit && k < |candidates|
    requires k !in at && Turn(g, candidates, k) != 0
    ensures g.group(candidates[k]) in groups <==> Turn(g, candidates, k) != 1
  {
    if Turn(g, candidates, k) != 1 {
      var j :| 0 <= j < k && g.group(candidates[j]) == g.group(candidates[k]);
      var first := FirstOfGroup(g, candidates, j);
      assert CameBy(g, DistinctRulesPerFile, candidates, k, first);
      TakenFiles(g, candidates, used, at, selected, files, groups, first);
    }
    if g.group(candidates[k]) in groups {
      var m :| 0 <= m < |selected| && g.group(selected[m]) == g.group(candidates[k]);
      var i := at[m];
      assert i in at && CameBy(g, DistinctRulesPerFile, candidates, k, i) && i != k;
      assert g.file(candidates[i]) == g.file(candidates[k]);
      assert i < k;
    }
  }

  lemma SkipOrder<A, F, G>(g: Grouping<A, F, G>, pass: Pass, candidates: seq<A>, limit: nat, k: nat, at: seq<nat>)
    requires InOrder(g, pass, candidates, limit, k, at) && k < |candidates|
    requires k in at || |at| >= limit || Turn(g, candidates, k) != TurnOf(pass)
    ensures InOrder(g, pass, candidates, limit, k + 1, at)
  {
    forall i: nat | i < |candidates| && i != k
      ensures CameBy(g, pass, candidates, k + 1, i) <==> CameBy(g, pass, candidates, k, i)
    {
    }
  }

  lemma PickOrder<A, F, G>(g: Grouping<A, F, G>, pass: Pass, candidates: seq<A>, limit: nat, k: nat, at: seq<nat>)
    requires InOrder(g, pass, candidates, limit, k, at) && k < |candidates|
    requires k !in at && |at| < limit && Turn(g, candidates, k) == TurnOf(pass)
    ensures InOrder(g, pass, candidates, limit, k + 1, at + [k])
  {
    var more := at + [k];
    forall i: nat, j: nat | i in more && j < |candidates| && j !in more
      ensures Earlier(g, candidates, i, j)
    {
      assert j !in at && j != k;
      if i == k {
        assert !CameBy(g, pass, candidates, k, j);
      }
    }
    forall i: nat | i < |candidates| && CameBy(g, pass, candidates, k + 1, i)
      ensures i in more
    {
      assert i != k ==> CameBy(g, pass, candidates, k, i);
    }
  }

  lemma NextOrder<A, F, G>(g: Grouping<A, F, G>, pass: Pass, next: Pass, candidates: seq<A>, limit: nat, at: seq<nat>)
    requires InOrder(g, pass, candidates, limit, |candidates|, at) && TurnOf(next) == TurnOf(pass) + 1
    ensures InOrder(g, next, candidates, limit, 0, at)
  {
    forall i: nat | i < |candidates|
      ensures CameBy(g, next, candidates, 0, i) <==> CameBy(g, pass, candidates, |candidates|, i)
    {
    }
  }

  method OnePass<A(!new), F(==), G(==)>(g: Grouping<A, F, G>, pass: Pass, candidates: seq<A>, limit: nat,
                                        used: array<bool>, ghost at: seq<nat>, before: seq<A>,
                                        hadFiles: set<F>, hadGroups: set<G>)
    returns (selected: seq<A>, files: set<F>, groups: set<G>, ghost positions: seq<nat>)
    requires Refines(g, candidates) && used.Length == |candidates|
    requires Passing(g, pass, candidates, limit, 0, used[..], at, before, hadFiles, hadGroups)
    requires InOrder(g, pass, candidates, limit, 0, at)
    modifies used
    ensures before <= selected
    ensures Passing(g, pass, candidates, limit, |candidates|, used[..], positions, selected, files, groups)
    ensures InOrder(g, pass, candidates, limit, |candidates|, positions)
  {
    selected, files, groups, positions := before, hadFiles, hadGroups, at;
    for i := 0 to |candidates|
      invariant before <= selected
      invariant Passing(g, pass, candidates, limit, i, used[..], positions, selected, files, groups)
      invariant InOrder(g, pass, candidates, limit, i, positions)
    {
      selected, files, groups, positions :=
        Visit(g, pass, candidates, limit, i, used, positions, selected, files, groups);
    }
  }

  // One turn of the loop.
  method Visit<A(!new), F(==), G(==)>(g: Grouping<A, F, G>, pass: Pass, candidates: seq<A>, limit: nat, i: nat,
                                      used: array<bool>, ghost at: seq<nat>, before: seq<A>,
                                      hadFiles: set<F>, hadGroups: set<G>)
    returns (selected: seq<A>, files: set<F>, groups: set<G>, ghost positions: seq<nat>)
    requires Refines(g, candidates) && used.Length == |candidates| && i < |candidates|
    requires Passing(g, pass, candidates, limit, i, used[..], at, before, hadFiles, hadGroups)
    requires InOrder(g, pass, candidates, limit, i, at)
    modifies used
    ensures before <= selected
    ensures Passing(g, pass, candidates, limit, i + 1, used[..], positions, selected, files, groups)
    ensures InOrder(g, pass, candidates, limit, i + 1, positions)
  {
    selected, files, groups, positions := before, hadFiles, hadGroups, at;
    var a := candidates[i];
    if !used[i] && |selected| < limit {
      SkipsByTurn(g, pass, candidates, limit, i, used[..], at, before, hadFiles, hadGroups);
    }
    if used[i] || |selected| == limit || Skips(g, pass, a, files, groups) {
      SkipStep(g, pass, candidates, limit, i, used[..], at, before, hadFiles, hadGroups);
      SkipOrder(g, pass, candidates, limit, i, at);
      return;
    }
    PickStep(g, pass, candidates, limit, i, used[..], at, before, hadFiles, hadGroups);
    PickOrder(g, pass, candidates, limit, i, at);
    ghost var was := used[..];
    selected := selected + [a];
    positions := positions + [i];
    used[i] := true;
    assert used[..] == was[i := true];
    files := files + {g.file(a)};
    groups := groups + {g.group(a)};
  }

  // Counting.

  lemma {:induction false} SubsetIsSmaller<X>(a: set<X>, b: set<X>)
    requires a <= b
    ensures |a| <= |b|
    decreases a
  {
    if a != {} {
      var x :| x in a;
      SubsetIsSmaller(a - {x}, b - {x});
    }
  }

  lemma {:induction false} AtMostOneEach<A, F, G>(g: Grouping<A, F, G>, xs: seq<A>)
    ensures |Files(g, xs)| <= |xs| && |Groups(g, xs)| <= |xs|
  {
    if xs == [] {
      assert Files(g, xs) == {} && Groups(g, xs) == {};
    } else {
      var rest, last := xs[..|xs| - 1], xs[|xs| - 1];
      AtMostOneEach(g, rest);
      assert xs == rest + [last];
      assert Files(g, xs) == Files(g, rest) + {g.file(last)};
      assert Groups(g, xs) == Groups(g, rest) + {g.group(last)};
    }
  }

  lemma WithinCandidates<A, F, G>(g: Grouping<A, F, G>, some: seq<A>, all: seq<A>)
    requires forall x | x in some :: x in all
    ensures Files(g, some) <= Files(g, all) && Groups(g, some) <= Groups(g, all)
  {
  }

  ghost function Positions(at: seq<nat>): set<nat> {
    set i | i in at
  }

  ghost function UpTo(n: nat): set<nat> {
    if n == 0 then {} else UpTo(n - 1) + {n - 1}
  }

  lemma {:induction false} UpToSize(n: nat)
    ensures |UpTo(n)| == n && forall i: nat :: i in UpTo(n) <==> i < n
  {
    if n > 0 {
      UpToSize(n - 1);
    }
  }

  lemma {:induction false} PositionsSize(at: seq<nat>)
    requires forall j, k | 0 <= j < k < |at| :: at[j] != at[k]
    ensures |Positions(at)| == |at|
  {
    if at != [] {
      var rest, last := at[..|at| - 1], at[|at| - 1];
      PositionsSize(rest);
      assert at == rest + [last];
      assert Positions(at) == Positions(rest) + {last};
    }
  }

  // A selection of at most `limit` candidates can cover no more than this.
  lemma NoSelectionCoversMore<A, F, G>(g: Grouping<A, F, G>, candidates: seq<A>, limit: nat, some: seq<A>)
    requires |some| <= limit && forall x | x in some :: x in candidates
    ensures |Files(g, some)| <= Least(limit, |Files(g, candidates)|)
    ensures |Groups(g, some)| <= Least(limit, |Groups(g, candidates)|)
  {
    AtMostOneEach(g, some);
    WithinCandidates(g, some, candidates);
    SubsetIsSmaller(Files(g, some), Files(g, candidates));
    SubsetIsSmaller(Groups(g, some), Groups(g, candidates));
  }

  // What was covered when the picks ran out, or the limit was reached, is all that could be.
  lemma CoversAll<X>(all: set<X>, early: set<X>, final: set<X>, picks: nat, limit: nat)
    requires early <= final <= all && |early| == picks <= limit && |final| <= limit
    requires picks < limit ==> all <= early
    ensures |final| == Least(limit, |all|)
  {
    SubsetIsSmaller(early, final);
    SubsetIsSmaller(final, all);
    SubsetIsSmaller(early, all);
    if picks < limit {
      assert early == final == all;
    }
  }

  // The picks are candidates, at distinct positions.
  ghost predicate Drawn<A>(candidates: seq<A>, at: seq<nat>, selected: seq<A>) {
    && |selected| == |at|
    && (forall k | 0 <= k < |at| :: at[k] < |candidates| && selected[k] == candidates[at[k]])
    && (forall j, k | 0 <= j < k < |at| :: at[j] != at[k])
  }

  lemma DrawnSize<A, F, G>(g: Grouping<A, F, G>, candidates: seq<A>, limit: nat, used: seq<bool>, at: seq<nat>,
                           selected: seq<A>, files: set<F>, groups: set<G>)
    requires Passing(g, Remaining, candidates, limit, |candidates|, used, at, selected, files, groups)
    ensures Drawn(candidates, at, selected) && |selected| == Least(limit, |candidates|)
  {
    PositionsSize(at);
    UpToSize(|candidates|);
    assert Positions(at) <= UpTo(|candidates|);
    SubsetIsSmaller(Positions(at), UpTo(|candidates|));
    if |selected| < limit {
      assert UpTo(|candidates|) <= Positions(at);
      SubsetIsSmaller(UpTo(|candidates|), Positions(at));
    }
  }

  // What the first pass hands to the second, and the second to the third.

  lemma AfterFiles<A, F, G>(g: Grouping<A, F, G>, candidates: seq<A>, limit: nat, used: seq<bool>, at: seq<nat>,
                            selected: seq<A>, files: set<F>, groups: set<G>)
    requires Passing(g, DistinctFiles, candidates, limit, |candidates|, used, at, selected, files, groups)
    ensures Passing(g, DistinctRulesPerFile, candidates, limit, 0, used, at, selected, files, groups)
    ensures |Files(g, selected)| == |selected| <= limit
    ensures |selected| < limit ==> Files(g, candidates) <= Files(g, selected)
  {
  }

  lemma AfterGroups<A, F, G>(g: Grouping<A, F, G>, candidates: seq<A>, limit: nat, used: seq<bool>, at: seq<nat>,
                             selected: seq<A>, files: set<F>, groups: set<G>)
    requires Passing(g, DistinctRulesPerFile, candidates, limit, |candidates|, used, at, selected, files, groups)
    ensures Passing(g, Remaining, candidates, limit, 0, used, at, selected, files, groups)
    ensures |Groups(g, selected)| == |selected| <= limit
    ensures |selected| < limit ==> Groups(g, candidates) <= Groups(g, selected)
  {
  }

  lemma AfterAll<A, F, G>(g: Grouping<A, F, G>, candidates: seq<A>, limit: nat, at: seq<nat>,
                          one: seq<A>, two: seq<A>, selected: seq<A>)
    requires one <= two <= selected && Drawn(candidates, at, selected) && |selected| <= limit
    requires |Files(g, one)| == |one| && (|one| < limit ==> Files(g, candidates) <= Files(g, one))
    requires |Groups(g, two)| == |two| && (|two| < limit ==> Groups(g, candidates) <= Groups(g, two))
    ensures |Files(g, selected)| == Least(limit, |Files(g, candidates)|)
    ensures |Groups(g, selected)| == Least(limit, |Groups(g, candidates)|)
  {
    assert forall x | x in selected :: x in candidates;
    assert forall x | x in one :: x in selected;
    assert forall x | x in two :: x in selected;
    WithinCandidates(g, one, selected);
    WithinCandidates(g, two, selected);
    WithinCandidates(g, selected, candidates);
    NoSelectionCoversMore(g, candidates, limit, selected);
    CoversAll(Files(g, candidates), Files(g, one), Files(g, selected), |one|, limit);
    CoversAll(Groups(g, candidates), Groups(g, two), Groups(g, selected), |two|, limit);
  }

  // pickAnnotations.
  method PickAnnotations<A(!new), F(==), G(==)>(g: Grouping<A, F, G>, candidates: seq<A>, limit: nat)
    returns (selected: seq<A>, ghost at: seq<nat>)
    requires Refines(g, candidates)
    ensures Drawn(candidates, at, selected)
    ensures |selected| == Least(limit, |candidates|)
    ensures Earliest(g, candidates, at)
    ensures |Files(g, selected)| == Least(limit, |Files(g, candidates)|)
    ensures |Groups(g, selected)| == Least(limit, |Groups(g, candidates)|)
  {
    var used := new bool[|candidates|](_ => false);
    var files: set<F>, groups: set<G> := {}, {};
    selected, at := [], [];
    selected, files, groups, at := OnePass(g, DistinctFiles, candidates, limit, used, at, selected, files, groups);
    AfterFiles(g, candidates, limit, used[..], at, selected, files, groups);
    NextOrder(g, DistinctFiles, DistinctRulesPerFile, candidates, limit, at);
    ghost var one := selected;
    selected, files, groups, at :=
      OnePass(g, DistinctRulesPerFile, candidates, limit, used, at, selected, files, groups);
    AfterGroups(g, candidates, limit, used[..], at, selected, files, groups);
    NextOrder(g, DistinctRulesPerFile, Remaining, candidates, limit, at);
    ghost var two := selected;
    selected, files, groups, at := OnePass(g, Remaining, candidates, limit, used, at, selected, files, groups);
    DrawnSize(g, candidates, limit, used[..], at, selected, files, groups);
    AfterAll(g, candidates, limit, at, one, two, selected);
  }

  // The program's own grouping.

  ghost function RulesPerFile(xs: seq<Annotation>): set<(string, string)> {
    set x | x in xs :: (x.rule, x.file)
  }

  ghost predicate NamesHoldNoNul(xs: seq<Annotation>) {
    forall x | x in xs :: NUL !in x.rule
  }

  ghost function Image<A, X>(xs: seq<A>, f: A -> X): set<X> {
    set x | x in xs :: f(x)
  }

  lemma ImageSnoc<A, X>(xs: seq<A>, x: A, f: A -> X)
    ensures |Image(xs + [x], f)| == |Image(xs, f)| + if exists y | y in xs :: f(y) == f(x) then 0 else 1
  {
    assert Image(xs + [x], f) == Image(xs, f) + {f(x)};
    assert f(x) in Image(xs, f) <==> exists y | y in xs :: f(y) == f(x);
  }

  // Two ways to name things that tell the same ones apart give equally many names.
  lemma {:induction false} SameCount<A(!new), X, Y>(xs: seq<A>, f: A -> X, g: A -> Y)
    requires forall a, b | a in xs && b in xs :: f(a) == f(b) <==> g(a) == g(b)
    ensures |Image(xs, f)| == |Image(xs, g)|
  {
    if xs == [] {
      assert Image(xs, f) == {} && Image(xs, g) == {};
    } else {
      var rest, last := xs[..|xs| - 1], xs[|xs| - 1];
      assert xs == rest + [last];
      SameCount(rest, f, g);
      ImageSnoc(rest, last, f);
      ImageSnoc(rest, last, g);
      forall y | y in rest
        ensures f(y) == f(last) <==> g(y) == g(last)
      {
        assert y in xs && last in xs;
      }
    }
  }

  // Counting group texts is counting rules per file.
  lemma KeysCountRules(xs: seq<Annotation>)
    requires NamesHoldNoNul(xs)
    ensures |Groups(BY_KEY, xs)| == |RulesPerFile(xs)|
  {
    var pair := (a: Annotation) => (a.rule, a.file);
    forall a, b | a in xs && b in xs
      ensures KeyOf(a) == KeyOf(b) <==> pair(a) == pair(b)
    {
      KeyTellsApart(a, b);
    }
    SameCount(xs, KeyOf, pair);
    assert Groups(BY_KEY, xs) == Image(xs, KeyOf);
    assert RulesPerFile(xs) == Image(xs, pair);
  }

  // pickAnnotations on annotations whose rule names hold no NUL, as no rule's name does.
  method PickByKey(candidates: seq<Annotation>, limit: nat) returns (selected: seq<Annotation>, ghost at: seq<nat>)
    requires NamesHoldNoNul(candidates)
    ensures Drawn(candidates, at, selected)
    ensures |selected| == Least(limit, |candidates|)
    ensures Earliest(BY_KEY, candidates, at)
    ensures |Files(BY_KEY, selected)| == Least(limit, |Files(BY_KEY, candidates)|)
    ensures |RulesPerFile(selected)| == Least(limit, |RulesPerFile(candidates)|)
  {
    KeysRefine(candidates);
    selected, at := PickAnnotations(BY_KEY, candidates, limit);
    assert forall x | x in selected :: x in candidates;
    KeysCountRules(selected);
    KeysCountRules(candidates);
  }
}
