// Where a loadable entry comes from, and what a reader drops when it removes an entry that failed validation. Reading
// the entry and removing its file are two steps, and another process may put a good entry in place between them.
module CacheHistory {
  import opened CacheProtocol

  predicate Writes(s: State, step: Step, url: string) {
    step.Rename? && step.i < |s.clients| && s.clients[step.i].url == url
  }

  predicate Drops(s: State, step: Step, url: string) {
    step.Removed? && step.ok && step.i < |s.clients| && s.clients[step.i].url == url
  }

  // The step that put the entry in place which a location loads before step `k`.
  ghost function LastWrite(states: seq<State>, steps: seq<Step>, url: string, k: nat): (m: Option<nat>)
    requires k <= |steps| < |states|
    ensures m.Some? ==> m.value < k && Writes(states[m.value], steps[m.value], url)
  {
    if k == 0 then None
    else if Writes(states[k - 1], steps[k - 1], url) then Some(k - 1)
    else if Drops(states[k - 1], steps[k - 1], url) then None
    else LastWrite(states, steps, url, k - 1)
  }

  ghost function Written(s: State, step: Step): Entry
    requires step.Rename? && step.i < |s.clients| && s.clients[step.i].phase.Write?
  {
    s.clients[step.i].phase.entry
  }

  lemma StaysLoaded(w: World, s: State, step: Step, url: string)
    requires Faithful(w) && Inv(w, s) && Enabled(w, s, step)
    requires !Writes(s, step, url) && !Drops(s, step, url)
    ensures Loaded(w, Apply(w, s, step).disk, url) == Loaded(w, s.disk, url)
  {
    if !step.Publish? {
      assert ClientRight(w, s, s.clients[step.i]);
    }
  }

  // What a location loads is exactly what was last renamed into place there and not dropped since.
  lemma {:induction false} LoadsLastWrite(w: World, states: seq<State>, steps: seq<Step>, url: string, k: nat)
    requires IsRun(w, states, steps) && k <= |steps|
    ensures match LastWrite(states, steps, url, k)
            case None => Loaded(w, states[k].disk, url).None?
            case Some(m) =>
              && states[m].clients[steps[m].i].phase.Write?
              && Loaded(w, states[k].disk, url) == Some(Written(states[m], steps[m]))
  {
    if k > 0 {
      var s, step := states[k - 1], steps[k - 1];
      RunInv(w, states, steps, k - 1);
      LoadsLastWrite(w, states, steps, url, k - 1);
      if Writes(s, step, url) {
        RenameKeeps(w, s, step);
      } else if !Drops(s, step, url) {
        StaysLoaded(w, s, step, url);
      }
    }
  }

  // A step leaves the clients in their places and at their locations, and only a load of a bad entry makes one drop.
  lemma StepOfClients(w: World, s: State, step: Step, i: nat)
    requires Enabled(w, s, step) && i < |s.clients|
    ensures |Apply(w, s, step).clients| == |s.clients|
    ensures Apply(w, s, step).clients[i].url == s.clients[i].url
    ensures Apply(w, s, step).clients[i].phase.Remove? && !s.clients[i].phase.Remove? ==>
              && step == Load(i)
              && var found := Loaded(w, s.disk, s.clients[i].url);
                 found.Some? && !w.valid(found.value.body)
  {
  }

  lemma {:induction false} SameLocations(w: World, states: seq<State>, steps: seq<Step>, j: nat, k: nat, i: nat)
    requires IsRun(w, states, steps) && j <= k <= |steps| && i < |states[j].clients|
    ensures i < |states[k].clients| && states[j].clients[i].url == states[k].clients[i].url
    decreases k - j
  {
    if j < k {
      SameLocations(w, states, steps, j, k - 1, i);
      StepOfClients(w, states[k - 1], steps[k - 1], i);
    }
  }

  // A reader about to drop an entry loaded one that failed validation.
  lemma {:induction false} DropFollowsLoad(w: World, states: seq<State>, steps: seq<Step>, k: nat, i: nat)
    returns (j: nat)
    requires IsRun(w, states, steps) && k <= |steps| && i < |states[0].clients|
    requires i < |states[k].clients| && states[k].clients[i].phase.Remove?
    ensures j < k && FailedAt(w, states, steps, j, i) && states[j].clients[i].url == states[k].clients[i].url
  {
    if k > 0 {
      SameLocations(w, states, steps, 0, k - 1, i);
      StepOfClients(w, states[k - 1], steps[k - 1], i);
      if states[k - 1].clients[i].phase.Remove? {
        j := DropFollowsLoad(w, states, steps, k - 1, i);
      } else {
        j := k - 1;
      }
    }
  }

  // Reader `i` loads an entry in step `j` that fails validation.
  ghost predicate FailedAt(w: World, states: seq<State>, steps: seq<Step>, j: nat, i: nat) {
    && j < |steps| < |states| && i < |states[j].clients| && steps[j] == Load(i)
    && var found := Loaded(w, states[j].disk, states[j].clients[i].url);
       found.Some? && !w.valid(found.value.body)
  }

  // Nothing is renamed into place at the location, or dropped from it, from step `j` up to step `k`.
  ghost predicate Untouched(states: seq<State>, steps: seq<Step>, url: string, j: nat, k: nat)
    requires k <= |steps| < |states|
  {
    forall m | j <= m < k :: !Writes(states[m], steps[m], url) && !Drops(states[m], steps[m], url)
  }

  lemma {:induction false} LastWriteMoves(states: seq<State>, steps: seq<Step>, url: string, j: nat, k: nat)
    requires j <= k <= |steps| < |states| && LastWrite(states, steps, url, j).Some?
    ensures LastWrite(states, steps, url, k) == LastWrite(states, steps, url, j) <==>
          Untouched(states, steps, url, j, k)
    ensures LastWrite(states, steps, url, k) == LastWrite(states, steps, url, j)
            || LastWrite(states, steps, url, k).None? || LastWrite(states, steps, url, k).value >= j
    decreases k - j
  {
    if j < k {
      LastWriteMoves(states, steps, url, j, k - 1);
    }
  }

  // A reader that loaded a bad entry in step `j` and drops in step `k` removes that same entry exactly when no process
  // has renamed another into place, or dropped it already, in between; and it removes a good one exactly when the last
  // such rename put a good one there.
  lemma DropsWhatFailed(w: World, states: seq<State>, steps: seq<Step>, j: nat, k: nat, i: nat)
    requires IsRun(w, states, steps) && j < k < |steps| && FailedAt(w, states, steps, j, i)
    requires steps[k] == Removed(i, true)
    ensures var url := states[j].clients[i].url;
            && (LastWrite(states, steps, url, k) == LastWrite(states, steps, url, j) <==>
                  Untouched(states, steps, url, j, k))
            && (Untouched(states, steps, url, j, k) ==>
                  Loaded(w, states[k].disk, url) == Loaded(w, states[j].disk, url))
            && Loaded(w, states[k + 1].disk, url).None?
    ensures var url := states[j].clients[i].url;
            GoodLoads(w, states[k], url) <==>
            exists m :: j < m < k && PutsGood(w, states, steps, url, m) && Untouched(states, steps, url, m + 1, k)
  {
    var url := states[j].clients[i].url;
    SameLocations(w, states, steps, j, k, i);
    LoadsLastWrite(w, states, steps, url, j);
    LoadsLastWrite(w, states, steps, url, k);
    LastWriteMoves(states, steps, url, j, k);
    LoadsLastWrite(w, states, steps, url, k + 1);
    if GoodLoads(w, states[k], url) {
      var m := GoodCame(w, states, steps, url, j, k);
    }
    if m :| j < m < k && PutsGood(w, states, steps, url, m) && Untouched(states, steps, url, m + 1, k) {
      GoodStays(w, states, steps, url, m, k);
    }
  }

  ghost predicate PutsGood(w: World, states: seq<State>, steps: seq<Step>, url: string, m: nat) {
    && m < |steps| < |states| && Writes(states[m], steps[m], url)
    && states[m].clients[steps[m].i].phase.Write? && w.valid(Written(states[m], steps[m]).body)
  }

  lemma {:induction false} LastIs(states: seq<State>, steps: seq<Step>, url: string, m: nat, k: nat)
    requires m < k <= |steps| < |states|
    ensures LastWrite(states, steps, url, k) == Some(m) <==>
            Writes(states[m], steps[m], url) && Untouched(states, steps, url, m + 1, k)
    decreases k - m
  {
    if m + 1 < k {
      LastIs(states, steps, url, m, k - 1);
    }
  }

  predicate GoodLoads(w: World, s: State, url: string) {
    var found := Loaded(w, s.disk, url);
    found.Some? && w.valid(found.value.body)
  }

  lemma GoodStays(w: World, states: seq<State>, steps: seq<Step>, url: string, m: nat, k: nat)
    requires IsRun(w, states, steps) && m < k <= |steps|
    requires PutsGood(w, states, steps, url, m) && Untouched(states, steps, url, m + 1, k)
    ensures GoodLoads(w, states[k], url)
  {
    LoadsLastWrite(w, states, steps, url, k);
    LastIs(states, steps, url, m, k);
  }

  lemma GoodCame(w: World, states: seq<State>, steps: seq<Step>, url: string, j: nat, k: nat) returns (m: nat)
    requires IsRun(w, states, steps) && j < k <= |steps| && steps[j].Load?
    requires Loaded(w, states[j].disk, url).Some? && !GoodLoads(w, states[j], url) && GoodLoads(w, states[k], url)
    ensures j < m < k && PutsGood(w, states, steps, url, m) && Untouched(states, steps, url, m + 1, k)
  {
    LoadsLastWrite(w, states, steps, url, j);
    LoadsLastWrite(w, states, steps, url, k);
    LastWriteMoves(states, steps, url, j, k);
    m := LastWrite(states, steps, url, k).value;
    LastIs(states, steps, url, m, k);
  }

  // The race, step by step.

  ghost predicate IsSegment(w: World, states: seq<State>, steps: seq<Step>) {
    && |states| == |steps| + 1
    && forall k | 0 <= k < |steps| :: Enabled(w, states[k], steps[k]) && states[k + 1] == Apply(w, states[k], steps[k])
  }

  ghost function LastOf(states: seq<State>): State
    requires states != []
  {
    states[|states| - 1]
  }

  lemma Then(w: World, states: seq<State>, steps: seq<Step>, step: Step) returns (more: seq<State>, longer: seq<Step>)
    requires IsSegment(w, states, steps) && Enabled(w, LastOf(states), step)
    ensures IsSegment(w, more, longer) && more[0] == states[0] && longer == steps + [step]
    ensures LastOf(more) == Apply(w, LastOf(states), step) && more[|steps|] == LastOf(states)
  {
    more, longer := states + [Apply(w, LastOf(states), step)], steps + [step];
  }

  // Only reader `i` moves.
  predicate Elsewhere(s: State, t: State, i: nat) {
    && t.current == s.current && t.versions == s.versions && |t.clients| == |s.clients|
    && forall k | 0 <= k < |s.clients| && k != i :: t.clients[k] == s.clients[k]
  }

  // A reader that asks whatever it finds, and saves what it gets.
  predicate IsFetcher(s: State, i: nat) {
    i < |s.clients| && s.clients[i].keep.Revalidated? && s.clients[i].caches && !s.clients[i].validates
  }

  lemma FetchLoads(w: World, s: State, i: nat)
    requires IsFetcher(s, i) && s.clients[i].phase.Start?
    ensures Enabled(w, s, Load(i))
    ensures var t := Apply(w, s, Load(i));
            && Elsewhere(s, t, i) && IsFetcher(t, i) && t.clients[i].url == s.clients[i].url
            && t.disk == s.disk && t.clients[i].phase.Ask?
  {
  }

  lemma FetchAsks(w: World, s: State, i: nat)
    requires IsFetcher(s, i) && s.clients[i].phase.Ask? && s.clients[i].url in s.current
    ensures Enabled(w, s, Answered(i, Fresh))
    ensures var t := Apply(w, s, Answered(i, Fresh));
            && Elsewhere(s, t, i) && t.clients[i].url == s.clients[i].url
            && t.disk == s.disk && t.clients[i].phase == Save(s.current[s.clients[i].url])
  {
  }

  lemma FetchCreates(w: World, s: State, i: nat, tmp: string)
    requires i < |s.clients| && s.clients[i].phase.Save? && w.isTemp(tmp) && tmp !in s.disk
    ensures Enabled(w, s, Create(i, tmp))
    ensures var t := Apply(w, s, Create(i, tmp));
            && Elsewhere(s, t, i) && t.clients[i].url == s.clients[i].url
            && t.disk == s.disk[tmp := ""] && t.clients[i].phase == Write(tmp, s.clients[i].phase.entry, 0)
  {
  }

  lemma FetchWrites(w: World, s: State, i: nat, tmp: string)
    requires i < |s.clients| && s.clients[i].phase.Write? && s.clients[i].phase.tmp == tmp
    requires s.clients[i].phase.written == 0 && tmp in s.disk
    ensures var full := |w.encode(s.clients[i].phase.entry)|;
            && Enabled(w, s, Append(i, full))
            && var t := Apply(w, s, Append(i, full));
               && Elsewhere(s, t, i) && t.clients[i].url == s.clients[i].url
               && t.disk == s.disk[tmp := w.encode(s.clients[i].phase.entry)]
               && t.clients[i].phase == Write(tmp, s.clients[i].phase.entry, full)
  {
    var text := w.encode(s.clients[i].phase.entry);
    assert text[..|text|] == text;
  }

  lemma FetchRenames(w: World, s: State, i: nat, tmp: string)
    requires i < |s.clients| && s.clients[i].phase.Write? && s.clients[i].phase.tmp == tmp && tmp in s.disk
    requires s.clients[i].phase.written == |w.encode(s.clients[i].phase.entry)|
    ensures Enabled(w, s, Rename(i))
    ensures var t := Apply(w, s, Rename(i));
            && Elsewhere(s, t, i)
            && t.disk == (s.disk - {tmp})[w.name(s.clients[i].url) := s.disk[tmp]]
  {
  }

  // One process asks, and gets what is served now.
  lemma Fetches(w: World, states: seq<State>, steps: seq<Step>, i: nat)
    returns (more: seq<State>, longer: seq<Step>)
    requires IsSegment(w, states, steps) && IsFetcher(LastOf(states), i)
    requires LastOf(states).clients[i].phase.Start? && LastOf(states).clients[i].url in LastOf(states).current
    ensures IsSegment(w, more, longer) && more[0] == states[0] && |longer| == |steps| + 2
    ensures var s, t := LastOf(states), LastOf(more);
            && Elsewhere(s, t, i) && t.disk == s.disk && t.clients[i].url == s.clients[i].url
            && t.clients[i].phase == Save(s.current[s.clients[i].url])
  {
    FetchLoads(w, LastOf(states), i);
    more, longer := Then(w, states, steps, Load(i));
    FetchAsks(w, LastOf(more), i);
    more, longer := Then(w, more, longer, Answered(i, Fresh));
  }

  // It then saves that: the location holds it, and nothing else on the disk has changed.
  lemma Stores(w: World, states: seq<State>, steps: seq<Step>, i: nat, tmp: string)
    returns (more: seq<State>, longer: seq<Step>)
    requires IsSegment(w, states, steps) && i < |LastOf(states).clients| && LastOf(states).clients[i].phase.Save?
    requires w.isTemp(tmp) && tmp !in LastOf(states).disk
    ensures IsSegment(w, more, longer) && more[0] == states[0] && |longer| == |steps| + 3
    ensures var s, t := LastOf(states), LastOf(more);
            && Elsewhere(s, t, i)
            && t.disk == s.disk[w.name(s.clients[i].url) := w.encode(s.clients[i].phase.entry)]
  {
    var s := LastOf(states);
    var e := s.clients[i].phase.entry;
    FetchCreates(w, s, i, tmp);
    more, longer := Then(w, states, steps, Create(i, tmp));
    FetchWrites(w, LastOf(more), i, tmp);
    more, longer := Then(w, more, longer, Append(i, |w.encode(e)|));
    FetchRenames(w, LastOf(more), i, tmp);
    more, longer := Then(w, more, longer, Rename(i));
    assert LastOf(more).disk == s.disk[w.name(s.clients[i].url) := w.encode(e)];
  }

  lemma Saves(w: World, states: seq<State>, steps: seq<Step>, i: nat, tmp: string)
    returns (more: seq<State>, longer: seq<Step>)
    requires IsSegment(w, states, steps) && w.isTemp(tmp) && tmp !in LastOf(states).disk
    requires IsFetcher(LastOf(states), i) && LastOf(states).clients[i].phase.Start?
    requires LastOf(states).clients[i].url in LastOf(states).current
    ensures IsSegment(w, more, longer) && more[0] == states[0] && |longer| == |steps| + 5
    ensures var s, t, url := LastOf(states), LastOf(more), LastOf(states).clients[i].url;
            Elsewhere(s, t, i) && t.disk == s.disk[w.name(url) := w.encode(s.current[url])]
  {
    more, longer := Fetches(w, states, steps, i);
    more, longer := Stores(w, more, longer, i, tmp);
  }

  ghost predicate RaceBegins(w: World, s: State, url: string) {
    && Initial(w, s) && s.disk == map[] && |s.clients| == 3
    && (forall i | 0 <= i < 3 :: s.clients[i].url == url && s.clients[i].caches)
    && IsFetcher(s, 0) && IsFetcher(s, 2)
    && s.clients[1].keep.Immutable? && s.clients[1].validates
  }

  // A bad entry is saved, and a reader that validates finds it.
  lemma BadEntryFound(w: World, start: State, url: string, tmp: string, bad: Entry)
    returns (states: seq<State>, steps: seq<Step>)
    requires Faithful(w) && w.isTemp(tmp) && RaceBegins(w, start, url) && !w.valid(bad.body)
    ensures IsSegment(w, states, steps) && |steps| == 7 && states[0] == start
    ensures var s := LastOf(states);
            && |s.clients| == 3 && s.clients[1].phase.Remove? && s.clients[1].url == url
            && s.clients[2] == start.clients[2]
            && s.disk.Keys == {w.name(url)} && s.versions == {(url, bad)}
  {
    states, steps := Then(w, [start], [], Publish(url, bad));
    states, steps := Saves(w, states, steps, 0, tmp);
    states, steps := Then(w, states, steps, Load(1));
  }

  // A good entry can be lost: a reader finds a bad one, another process renames a good one into place, and then the
  // first removes what it takes to be the bad one.
  lemma GoodEntryLost(w: World, start: State, url: string, tmp: string, bad: Entry, good: Entry)
    returns (states: seq<State>, steps: seq<Step>)
    requires Faithful(w) && w.isTemp(tmp) && RaceBegins(w, start, url)
    requires !w.valid(bad.body) && w.valid(good.body) && good.etag != bad.etag
    ensures IsRun(w, states, steps) && |steps| == 14 && states[0] == start
    ensures steps[13] == Removed(1, true)
    ensures Loaded(w, states[13].disk, url) == Some(good) && Loaded(w, states[14].disk, url).None?
  {
    states, steps := BadEntryFound(w, start, url, tmp, bad);
    states, steps := Then(w, states, steps, Publish(url, good));
    states, steps := Saves(w, states, steps, 2, tmp);
    assert Loaded(w, LastOf(states).disk, url) == Some(good);
    states, steps := Then(w, states, steps, Removed(1, true));
  }

  // A temporary file is left over only by a crash, or by a clean-up that failed: any other was there from the start, or
  // belongs to a process that is still writing it.
  ghost predicate LeavesTemp(step: Step) {
    step.Crash? || (step.GiveUp? && !step.cleaned)
  }

  ghost predicate BeingWritten(s: State, name: string) {
    exists i | 0 <= i < |s.clients| :: s.clients[i].phase.Write? && s.clients[i].phase.tmp == name
  }

  lemma {:induction false} TempsAreCleared(w: World, states: seq<State>, steps: seq<Step>, k: nat, name: string)
    requires IsRun(w, states, steps) && k <= |steps| && w.isTemp(name) && name in states[k].disk
    ensures || name in states[0].disk
            || BeingWritten(states[k], name)
            || exists j | 0 <= j < k :: LeavesTemp(steps[j])
  {
    if k > 0 && !LeavesTemp(steps[k - 1]) {
      TempStays(w, states[k - 1], steps[k - 1], name);
      if name in states[k - 1].disk {
        TempsAreCleared(w, states, steps, k - 1, name);
        if BeingWritten(states[k - 1], name) {
          StillWritten(w, states[k - 1], steps[k - 1], name);
        }
      }
    } else if k > 0 {
      assert LeavesTemp(steps[k - 1]);
    }
  }

  lemma TempStays(w: World, s: State, step: Step, name: string)
    requires Faithful(w) && Enabled(w, s, step) && w.isTemp(name) && name in Apply(w, s, step).disk
    ensures name in s.disk || BeingWritten(Apply(w, s, step), name)
  {
    if step.Create? && name !in s.disk {
      assert Apply(w, s, step).clients[step.i].phase.tmp == name;
    }
  }

  lemma StillWritten(w: World, s: State, step: Step, name: string)
    requires Faithful(w) && Enabled(w, s, step) && !LeavesTemp(step) && BeingWritten(s, name) && w.isTemp(name)
    requires name in Apply(w, s, step).disk
    ensures BeingWritten(Apply(w, s, step), name)
  {
    var t := Apply(w, s, step);
    var i :| 0 <= i < |s.clients| && s.clients[i].phase.Write? && s.clients[i].phase.tmp == name;
    if step.Publish? || step.i != i {
      assert t.clients[i] == s.clients[i];
    } else if step.Append? {
      assert t.clients[i].phase.tmp == name;
    }
  }
}
