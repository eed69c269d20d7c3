// LintAll as a step relation: a dispatcher, an unbuffered channel, workers, and a cancellation that may come at any
// time.
//
// Checking one file is a start and a finish, with anything in between. Its result is `lint(i)` unless the run was
// cancelled before it finished, when it may be anything. `handed` and `writes` are history: who was given which index,
// and how often each slot was written.
module LintAll {

  datatype Option<+T> = None | Some(value: T)

  datatype Worker = Idle | Holding(i: nat) | Linting(i: nat) | Exited

  // Top of the dispatch loop; in its select; out of the loop; channel closed; returned.
  datatype Dispatcher<R> = AtTop | Offering | Leaving | Waiting | Returned(out: Option<seq<Option<R>>>)

  datatype Config<!R> = Config(paths: nat, lint: nat -> R)

  datatype State<R> = State(
    next: nat, at: Dispatcher<R>, cancelled: bool, workers: seq<Worker>, results: seq<Option<R>>,
    handed: seq<nat>, writes: seq<nat>)

  datatype Step<R> =
    | Cancel
    | Top
    | Decline
    | Hand(w: nat)
    | Close
    | Collect
    | Check(w: nat)
    | Finish(w: nat, r: R)
    | Leave(w: nat)

  // The worker count: at least one, and no more than there are paths.
  function Clamp(asked: int, paths: nat): int {
    var atLeastOne := if asked < 1 then 1 else asked;
    if atLeastOne < paths then atLeastOne else paths
  }

  // What LintAll does before any worker starts.
  datatype Start<R> = Refused | Nothing | Started(s: State<R>)

  function Begin<R>(c: Config<R>, asked: int, cancelled: bool): Start<R> {
    if cancelled then Refused
    else if c.paths == 0 then Nothing
    else Started(Init(c, asked))
  }

  function Init<R>(c: Config<R>, asked: int): State<R>
    requires c.paths > 0
  {
    State(0, AtTop, false, seq(Clamp(asked, c.paths), _ => Idle), seq(c.paths, _ => None), [], seq(c.paths, _ => 0))
  }

  // A run starts exactly when there is something to lint and the call is not cancelled yet, with as many workers as
  // asked for, but at least one and no more than there are paths. Nothing is handed out or written yet.
  lemma Begins<R>(c: Config<R>, asked: int, cancelled: bool)
    ensures Begin(c, asked, cancelled).Started? <==> !cancelled && c.paths > 0
    ensures Begin(c, asked, cancelled).Refused? <==> cancelled
    ensures Begin(c, asked, cancelled).Started? ==>
              var s := Begin(c, asked, cancelled).s;
              && s.at.AtTop? && !s.cancelled && s.next == 0 && s.handed == []
              && |s.results| == |s.writes| == c.paths
              && (forall i | 0 <= i < c.paths :: s.results[i].None? && s.writes[i] == 0)
              && forall w | 0 <= w < |s.workers| :: s.workers[w].Idle?
    ensures Begin(c, asked, cancelled).Started? ==>
              var n := |Begin(c, asked, cancelled).s.workers|;
              n == if asked < 1 then 1 else if asked < c.paths then asked else c.paths
  {
  }

  predicate Closed<R>(s: State<R>) {
    s.at.Waiting? || s.at.Returned?
  }

  ghost predicate Enabled<R>(c: Config<R>, s: State<R>, step: Step<R>) {
    match step
    case Cancel => !s.cancelled
    case Top => s.at.AtTop?
    case Decline => s.at.Offering? && s.cancelled
    case Hand(w) => s.at.Offering? && s.next < c.paths && w < |s.workers| && s.workers[w].Idle?
    case Close => s.at.Leaving?
    case Collect => s.at.Waiting? && forall w | 0 <= w < |s.workers| :: s.workers[w].Exited?
    case Check(w) => w < |s.workers| && s.workers[w].Holding?
    case Finish(w, r) =>
      && w < |s.workers| && s.workers[w].Linting?
      && s.workers[w].i < |s.results| && s.workers[w].i < |s.writes|
      && (!s.cancelled ==> r == c.lint(s.workers[w].i))
    case Leave(w) => w < |s.workers| && s.workers[w].Idle? && Closed(s)
  }

  ghost function Apply<R>(c: Config<R>, s: State<R>, step: Step<R>): State<R>
    requires Enabled(c, s, step)
  {
    match step
    case Cancel => s.(cancelled := true)
    case Top => s.(at := if s.next == c.paths || s.cancelled then Leaving else Offering)
    case Decline => s.(at := Leaving)
    case Hand(w) => s.(at := AtTop, next := s.next + 1, workers := s.workers[w := Holding(s.next)],
                       handed := s.handed + [w])
    case Close => s.(at := Waiting)
    case Collect => s.(at := Returned(if s.cancelled then None else Some(s.results)))
    case Check(w) => s.(workers := s.workers[w := if s.cancelled then Exited else Linting(s.workers[w].i)])
    case Finish(w, r) =>
      var i := s.workers[w].i;
      s.(workers := s.workers[w := Idle], results := s.results[i := Some(r)], writes := s.writes[i := s.writes[i] + 1])
    case Leave(w) => s.(workers := s.workers[w := Exited])
  }

  // A result for every path, in input order.
  ghost function Everything<R>(c: Config<R>): seq<Option<R>> {
    seq(c.paths, (i: nat) => Some(c.lint(i)))
  }

  // The invariant.

  ghost predicate Busy(w: Worker, i: nat) {
    w == Holding(i) || w == Linting(i)
  }

  ghost predicate Held<R>(s: State<R>, i: nat) {
    exists w :: 0 <= w < |s.workers| && Busy(s.workers[w], i)
  }

  ghost predicate Sized<R>(c: Config<R>, s: State<R>) {
    |s.results| == |s.writes| == c.paths && |s.handed| == s.next <= c.paths
  }

  ghost predicate WorkersRight<R>(c: Config<R>, s: State<R>)
    requires Sized(c, s)
  {
    && |s.workers| > 0
    && (forall w, i: nat {:trigger Busy(s.workers[w], i)} | 0 <= w < |s.workers| && Busy(s.workers[w], i) ::
          i < s.next && s.results[i].None?)
    && (forall v, w, i: nat {:trigger Busy(s.workers[v], i), Busy(s.workers[w], i)} |
          0 <= v < |s.workers| && 0 <= w < |s.workers| && Busy(s.workers[v], i) && Busy(s.workers[w], i) :: v == w)
    && (forall w | 0 <= w < |s.workers| && s.workers[w].Exited? :: s.cancelled || Closed(s))
  }

  ghost predicate SlotsRight<R>(c: Config<R>, s: State<R>)
    requires Sized(c, s)
  {
    && (forall i | 0 <= i < c.paths :: s.writes[i] == (if s.results[i].Some? then 1 else 0))
    && (forall i | s.next <= i < c.paths :: s.results[i].None?)
    // Until a cancellation no index is lost, and what is written is right.
    && (!s.cancelled ==> forall i | 0 <= i < s.next :: s.results[i] == Some(c.lint(i)) || Held(s, i))
  }

  ghost predicate Inv<R>(c: Config<R>, s: State<R>) {
    && Sized(c, s)
    && WorkersRight(c, s)
    && SlotsRight(c, s)
    && (s.at.Offering? ==> s.next < c.paths)
    && (!s.cancelled && (s.at.Leaving? || Closed(s)) ==> s.next == c.paths)
    && (s.at.Returned? ==>
          && (forall w | 0 <= w < |s.workers| :: s.workers[w].Exited?)
          && (s.at.out.Some? ==> s.at.out.value == Everything(c))
          && (s.at.out.None? ==> s.cancelled))
  }

  lemma InitInv<R>(c: Config<R>, asked: int)
    requires c.paths > 0
    ensures Inv(c, Init(c, asked)) && 1 <= |Init(c, asked).workers| <= c.paths
  {
    var s := Init(c, asked);
    assert forall w, i: nat | 0 <= w < |s.workers| :: !Busy(s.workers[w], i);
    assert !s.at.Leaving?;
  }

  lemma HandKeeps<R>(c: Config<R>, s: State<R>, w: nat)
    requires Inv(c, s) && Enabled(c, s, Hand(w))
    ensures Inv(c, Apply(c, s, Hand(w)))
  {
    var t := Apply(c, s, Hand(w));
    assert forall v, i: nat | 0 <= v < |t.workers| && Busy(t.workers[v], i) ::
        if v == w then i == s.next else Busy(s.workers[v], i);
    assert Busy(t.workers[w], s.next);
    forall i | !s.cancelled && 0 <= i < t.next
      ensures t.results[i] == Some(c.lint(i)) || Held(t, i)
    {
      if i < s.next && s.results[i].None? {
        var v :| 0 <= v < |s.workers| && Busy(s.workers[v], i);
        assert Busy(t.workers[v], i);
      }
    }
  }

  lemma FinishKeeps<R>(c: Config<R>, s: State<R>, w: nat, r: R)
    requires Inv(c, s) && Enabled(c, s, Finish(w, r))
    ensures Inv(c, Apply(c, s, Finish(w, r)))
  {
    var t := Apply(c, s, Finish(w, r));
    var done := s.workers[w].i;
    assert Busy(s.workers[w], done);
    forall i | !s.cancelled && 0 <= i < t.next
      ensures t.results[i] == Some(c.lint(i)) || Held(t, i)
    {
      if i != done && s.results[i].None? {
        var v :| 0 <= v < |s.workers| && Busy(s.workers[v], i);
        assert Busy(t.workers[v], i);
      }
    }
  }

  lemma CheckKeeps<R>(c: Config<R>, s: State<R>, w: nat)
    requires Inv(c, s) && Enabled(c, s, Check(w))
    ensures Inv(c, Apply(c, s, Check(w)))
  {
    var t := Apply(c, s, Check(w));
    assert Busy(s.workers[w], s.workers[w].i);
    forall i | !s.cancelled && 0 <= i < t.next
      ensures t.results[i] == Some(c.lint(i)) || Held(t, i)
    {
      if s.results[i].None? {
        var v :| 0 <= v < |s.workers| && Busy(s.workers[v], i);
        assert Busy(t.workers[v], i);
      }
    }
  }

  lemma CollectKeeps<R>(c: Config<R>, s: State<R>)
    requires Inv(c, s) && Enabled(c, s, Collect)
    ensures Inv(c, Apply(c, s, Collect))
  {
    if !s.cancelled {
      forall i | 0 <= i < c.paths
        ensures s.results[i] == Some(c.lint(i))
      {
        assert !Held(s, i);
      }
      assert s.results == Everything(c);
    }
  }

  lemma StillHeld<R>(c: Config<R>, s: State<R>, t: State<R>, w: nat)
    requires Inv(c, s) && w < |s.workers| && s.workers[w].Idle?
    requires t.workers == s.workers[w := Exited] && t.results == s.results && t.next == s.next
    ensures forall i | Held(s, i) :: Held(t, i)
  {
    forall i | Held(s, i)
      ensures Held(t, i)
    {
      var v :| 0 <= v < |s.workers| && Busy(s.workers[v], i);
      assert Busy(t.workers[v], i);
    }
  }

  lemma StepKeeps<R>(c: Config<R>, s: State<R>, step: Step<R>)
    requires Inv(c, s) && Enabled(c, s, step)
    ensures Inv(c, Apply(c, s, step))
  {
    match step
    case Hand(w) => HandKeeps(c, s, w);
    case Finish(w, r) => FinishKeeps(c, s, w, r);
    case Check(w) => CheckKeeps(c, s, w);
    case Collect => CollectKeeps(c, s);
    case Leave(w) => StillHeld(c, s, Apply(c, s, step), w);
    case Cancel =>
    case Top => SameHolders(c, s, Apply(c, s, step));
    case Decline =>
    case Close => SameHolders(c, s, Apply(c, s, step));
  }

  lemma SameHolders<R>(c: Config<R>, s: State<R>, t: State<R>)
    requires t.workers == s.workers
    ensures forall i :: Held(s, i) <==> Held(t, i)
  {
  }

  // Runs.

  ghost predicate IsRun<R>(c: Config<R>, asked: int, states: seq<State<R>>, steps: seq<Step<R>>) {
    && |states| == |steps| + 1
    && Begin(c, asked, false) == Started(states[0])
    && forall j | 0 <= j < |steps| :: Enabled(c, states[j], steps[j]) && states[j + 1] == Apply(c, states[j], steps[j])
  }

  lemma {:induction false} RunInv<R>(c: Config<R>, asked: int, states: seq<State<R>>, steps: seq<Step<R>>, j: nat)
    requires IsRun(c, asked, states, steps) && j < |states|
    ensures Inv(c, states[j])
  {
    if j == 0 {
      InitInv(c, asked);
    } else {
      RunInv(c, asked, states, steps, j - 1);
      StepKeeps(c, states[j - 1], steps[j - 1]);
    }
  }

  // In every interleaving the indices are handed out in order, each to one worker; no two workers are ever on the same
  // index; no slot is written twice, nor by anyone once it is filled.
  lemma NothingTwice<R>(c: Config<R>, asked: int, states: seq<State<R>>, steps: seq<Step<R>>, j: nat)
    requires IsRun(c, asked, states, steps) && j < |states|
    ensures var s := states[j];
            && |s.writes| == c.paths && |s.handed| == s.next <= c.paths
            && (forall i | 0 <= i < c.paths :: s.writes[i] <= 1)
            && (forall v, w, i: nat | 0 <= v < w < |s.workers| && Busy(s.workers[v], i) :: !Busy(s.workers[w], i))
    ensures j < |steps| && steps[j].Hand? ==> states[j + 1].handed == states[j].handed + [steps[j].w]
    ensures j < |steps| && steps[j].Finish? ==> states[j].results[states[j].workers[steps[j].w].i].None?
  {
    RunInv(c, asked, states, steps, j);
    var s := states[j];
    if j < |steps| && steps[j].Finish? {
      assert Busy(s.workers[steps[j].w], s.workers[steps[j].w].i);
    }
  }

  // A run that returns results returns the right one for every path, in input order; a run that returns none was
  // cancelled.
  lemma ReturnsEverything<R>(c: Config<R>, asked: int, states: seq<State<R>>, steps: seq<Step<R>>, j: nat)
    requires IsRun(c, asked, states, steps) && j < |states| && states[j].at.Returned?
    ensures states[j].at.out == Some(Everything(c)) || (states[j].at.out == None && states[j].cancelled)
    ensures forall w | 0 <= w < |states[j].workers| :: states[j].workers[w].Exited?
  {
    RunInv(c, asked, states, steps, j);
  }

  lemma {:induction false} UncancelledSoFar<R>(c: Config<R>, asked: int, states: seq<State<R>>, steps: seq<Step<R>>,
                                               j: nat)
    requires IsRun(c, asked, states, steps) && j < |states|
    ensures states[j].cancelled <==> exists k :: 0 <= k < j && steps[k] == Cancel
  {
    if j > 0 {
      UncancelledSoFar(c, asked, states, steps, j - 1);
      assert states[j] == Apply(c, states[j - 1], steps[j - 1]);
    }
  }

  // A step other than a cancellation is always possible until LintAll has returned.
  lemma NeverStuck<R>(c: Config<R>, asked: int, states: seq<State<R>>, steps: seq<Step<R>>, j: nat)
    requires IsRun(c, asked, states, steps) && j < |states|
    ensures states[j].at.Returned? || exists step: Step<R> :: !step.Cancel? && Enabled(c, states[j], step)
  {
    RunInv(c, asked, states, steps, j);
    var s := states[j];
    if w :| 0 <= w < |s.workers| && s.workers[w].Holding? {
      assert Enabled(c, s, Check(w));
    } else if w :| 0 <= w < |s.workers| && s.workers[w].Linting? {
      assert Busy(s.workers[w], s.workers[w].i);
      assert Enabled(c, s, Finish(w, c.lint(s.workers[w].i)));
    } else {
      match s.at
      case AtTop => assert Enabled(c, s, Top);
      case Offering =>
        if s.cancelled {
          assert Enabled(c, s, Decline);
        } else {
          assert s.workers[0].Idle?;
          assert Enabled(c, s, Hand(0));
        }
      case Leaving => assert Enabled(c, s, Close);
      case Waiting =>
        if w :| 0 <= w < |s.workers| && s.workers[w].Idle? {
          assert Enabled(c, s, Leave(w));
        } else {
          assert Enabled(c, s, Collect);
        }
      case Returned(_) =>
    }
  }

  // Progress: a measure that every step but a cancellation brings down.

  ghost function Weight(w: Worker): nat {
    match w
    case Exited => 0
    case Idle => 1
    case Linting(_) => 2
    case Holding(_) => 3
  }

  ghost function Weights(ws: seq<Worker>): nat {
    if ws == [] then 0 else Weight(ws[0]) + Weights(ws[1..])
  }

  lemma {:induction false} WeightsUpdate(ws: seq<Worker>, w: nat, x: Worker)
    requires w < |ws|
    ensures Weights(ws[w := x]) == Weights(ws) - Weight(ws[w]) + Weight(x)
  {
    if w > 0 {
      assert ws[w := x][1..] == ws[1..][w - 1 := x];
      WeightsUpdate(ws[1..], w - 1, x);
    } else {
      assert ws[w := x][1..] == ws[1..];
    }
  }

  lemma {:induction false} IdleWeights(ws: seq<Worker>)
    requires forall i | 0 <= i < |ws| :: ws[i].Idle?
    ensures Weights(ws) == |ws|
  {
    if ws != [] {
      IdleWeights(ws[1..]);
    }
  }

  ghost function Measure<R>(c: Config<R>, s: State<R>): int {
    var at := match s.at
      case AtTop => 4
      case Offering => 3
      case Leaving => 2
      case Waiting => 1
      case Returned(_) => 0;
    4 * (c.paths - s.next) + at + Weights(s.workers)
  }

  lemma StepFalls<R>(c: Config<R>, s: State<R>, step: Step<R>)
    requires Inv(c, s) && Enabled(c, s, step)
    ensures step.Cancel? ==> Measure(c, Apply(c, s, step)) == Measure(c, s)
    ensures !step.Cancel? ==> 0 <= Measure(c, Apply(c, s, step)) < Measure(c, s)
  {
    StepKeeps(c, s, step);
    match step
    case Hand(w) => WeightsUpdate(s.workers, w, Holding(s.next));
    case Check(w) => WeightsUpdate(s.workers, w, if s.cancelled then Exited else Linting(s.workers[w].i));
    case Finish(w, r) => WeightsUpdate(s.workers, w, Idle);
    case Leave(w) => WeightsUpdate(s.workers, w, Exited);
    case _ =>
  }

  lemma {:induction false} RunIsShort<R>(c: Config<R>, asked: int, states: seq<State<R>>, steps: seq<Step<R>>, j: nat)
    requires IsRun(c, asked, states, steps) && j < |states|
    ensures j <= 4 * c.paths + 4 + |states[0].workers| - Measure(c, states[j]) + (if states[j].cancelled then 1 else 0)
    ensures Measure(c, states[j]) >= 0
  {
    if j == 0 {
      IdleWeights(states[0].workers);
    } else {
      RunIsShort(c, asked, states, steps, j - 1);
      RunInv(c, asked, states, steps, j - 1);
      StepFalls(c, states[j - 1], steps[j - 1]);
    }
  }

  // Every run is finite, and one that cannot go on without a cancellation has returned: the right results if it was
  // never cancelled.
  lemma EveryRunReturns<R>(c: Config<R>, asked: int, states: seq<State<R>>, steps: seq<Step<R>>)
    requires IsRun(c, asked, states, steps)
    ensures |steps| <= 5 * c.paths + 5
    ensures (forall step: Step<R> | Enabled(c, states[|steps|], step) :: step.Cancel?) ==> states[|steps|].at.Returned?
    ensures states[|steps|].at.Returned? && Cancel !in steps ==>
              states[|steps|].at.out == Some(Everything(c))
  {
    RunIsShort(c, asked, states, steps, |steps|);
    InitInv(c, asked);
    NeverStuck(c, asked, states, steps, |steps|);
    UncancelledSoFar(c, asked, states, steps, |steps|);
    if states[|steps|].at.Returned? {
      ReturnsEverything(c, asked, states, steps, |steps|);
    }
  }

  // After a cancellation.

  // What a dispatcher that has noticed the cancellation, or can no longer overlook it, may still hand out.
  ghost function MayHand<R>(s: State<R>): nat {
    if s.at.Offering? then 1 else 0
  }

  ghost predicate OnlyStops<R>(s: State<R>, t: State<R>) {
    && t.cancelled && |t.workers| == |s.workers| && s.handed <= t.handed
    && |t.handed| + MayHand(t) <= |s.handed| + MayHand(s)
    && forall w | 0 <= w < |s.workers| && t.workers[w].Linting? :: t.workers[w] == s.workers[w]
  }

  lemma StepStops<R>(c: Config<R>, s: State<R>, step: Step<R>)
    requires s.cancelled && Enabled(c, s, step)
    ensures OnlyStops(s, Apply(c, s, step))
    ensures step == Collect ==> Apply(c, s, step).at == Returned(None)
  {
  }

  // Once the call is cancelled no file is begun, at most one more index is handed out, and no results are returned; the
  // files being linted are what remains.
  lemma {:induction false} StopsWhenCancelled<R>(c: Config<R>, asked: int, states: seq<State<R>>, steps: seq<Step<R>>,
                                                 j: nat, k: nat)
    requires IsRun(c, asked, states, steps) && j <= k < |states| && states[j].cancelled
    ensures states[k].cancelled && |states[k].workers| == |states[j].workers|
    ensures states[j].handed <= states[k].handed && |states[k].handed| <= |states[j].handed| + 1
    ensures OnlyStops(states[j], states[k])
    ensures !states[j].at.Returned? && states[k].at.Returned? ==> states[k].at.out == None
    decreases k
  {
    if j < k {
      StopsWhenCancelled(c, asked, states, steps, j, k - 1);
      StepStops(c, states[k - 1], steps[k - 1]);
    }
  }

  // And results are only returned to a call that is not cancelled when they are collected.
  lemma CollectsUncancelled<R>(c: Config<R>, asked: int, states: seq<State<R>>, steps: seq<Step<R>>, j: nat)
    requires IsRun(c, asked, states, steps) && j < |steps| && steps[j] == Collect
    ensures states[j + 1].at == Returned(if states[j].cancelled then None else Some(Everything(c)))
  {
    RunInv(c, asked, states, steps, j);
    CollectKeeps(c, states[j]);
  }
}
