// The disk cache and the requests around it, as a step relation over one cache directory: any number of reads, each in
// its own process, interleaved with each other and with a registry that changes what it serves, any of which may fail
// or crash between any two steps.
//
// The file system gives an exclusive create, writes that can stop part-way, and an atomic rename. The registry gives
// strong validators: two versions of a location with the same entity tag have the same body.
module CacheProtocol {
  import opened Retry

  datatype Option<+T> = None | Some(value: T)

  datatype Entry = Entry(body: string, etag: string)

  // What the protocol is given: file names for locations, the entry encoding, schema validation, the base wait, and
  // whether the registry answers "not modified" only to its current validator.
  datatype World = World(
    name: string -> string, isTemp: string -> bool,
    encode: Entry -> string, decode: string -> Option<Entry>,
    valid: string -> bool, base: int, honest: bool)

  ghost predicate Faithful(w: World) {
    && (forall e :: w.decode(w.encode(e)) == Some(e))
    && (forall u :: !w.isTemp(w.name(u)))
    && (forall u, v | w.name(u) == w.name(v) :: u == v)
  }

  datatype Freshness = Immutable | Revalidated

  datatype Result = Got(body: string) | Failed

  datatype Phase =
    | Start
    | Remove
    | Ask
    | Sleep
    | Save(entry: Entry)
    | Write(tmp: string, entry: Entry, written: nat)
    | Done(out: Result)
    | Crashed

  // One call of getValidated. `requests`, `waits` and `seen` are history: `seen` is what the registry was serving when
  // it gave the answer this read ended on.
  datatype Client = Client(
    url: string, keep: Freshness, validates: bool, caches: bool,
    phase: Phase, cached: Option<string>, etag: string, attempt: nat,
    requests: nat, waits: seq<int>, seen: Option<string>)

  // `versions` is everything the registry ever had, and `served` what its responses carried.
  datatype State = State(
    disk: map<string, string>, clients: seq<Client>, current: map<string, Entry>,
    versions: set<(string, Entry)>, served: set<(string, Entry)>)

  datatype Answer =
    | Fresh
    | NotModified
    | NotFound
    | Status(code: int, after: int)
    | Broken

  datatype Step =
    | Publish(url: string, entry: Entry)
    | Load(i: nat)
    | Removed(i: nat, ok: bool)
    | Answered(i: nat, answer: Answer)
    | Slept(i: nat, ok: bool)
    | Create(i: nat, tmp: string)
    | Append(i: nat, more: nat)
    | Rename(i: nat)
    | GiveUp(i: nat, cleaned: bool)
    | Crash(i: nat)

  // diskCache.load.
  function Loaded(w: World, disk: map<string, string>, url: string): Option<Entry> {
    if w.name(url) in disk then w.decode(disk[w.name(url)]) else None
  }

  predicate Runs(s: State, i: nat) {
    i < |s.clients| && !s.clients[i].phase.Done? && !s.clients[i].phase.Crashed?
  }

  ghost predicate Enabled(w: World, s: State, step: Step) {
    match step
    case Publish(url, entry) =>
      entry.etag != "" ==> forall b | (url, Entry(b, entry.etag)) in s.versions :: b == entry.body
    case Load(i) => Runs(s, i) && s.clients[i].phase.Start?
    case Removed(i, _) => Runs(s, i) && s.clients[i].phase.Remove?
    case Answered(i, answer) =>
      && Runs(s, i) && s.clients[i].phase.Ask?
      && ((answer.Fresh? || answer.NotModified?) ==> s.clients[i].url in s.current)
      && (answer.NotModified? && w.honest ==>
            s.clients[i].etag != "" && s.clients[i].etag == s.current[s.clients[i].url].etag)
    case Slept(i, _) => Runs(s, i) && s.clients[i].phase.Sleep?
    case Create(i, tmp) => Runs(s, i) && s.clients[i].phase.Save? && w.isTemp(tmp) && tmp !in s.disk
    case Append(i, more) =>
      && Runs(s, i) && s.clients[i].phase.Write? && s.clients[i].phase.tmp in s.disk
      && s.clients[i].phase.written + more <= |w.encode(s.clients[i].phase.entry)|
    case Rename(i) =>
      && Runs(s, i) && s.clients[i].phase.Write? && s.clients[i].phase.tmp in s.disk
      && s.clients[i].phase.written == |w.encode(s.clients[i].phase.entry)|
    case GiveUp(i, _) => Runs(s, i) && (s.clients[i].phase.Save? || s.clients[i].phase.Write?)
    case Crash(i) => Runs(s, i)
  }

  // Store.cached, on what the disk held.
  function AfterLoad(w: World, c: Client, found: Option<Entry>): Client {
    if !c.caches || found.None? then c.(phase := Ask)
    else if c.keep.Immutable? then
      if c.validates && !w.valid(found.value.body) then c.(phase := Remove)
      else c.(phase := Done(Got(found.value.body)))
    else c.(phase := Ask, cached := Some(found.value.body), etag := found.value.etag)
  }

  // attempt, served.read and the retry decision of getValidated.
  function AfterAnswer(w: World, c: Client, current: Option<Entry>, answer: Answer): Client
    requires answer.Fresh? || answer.NotModified? ==> current.Some?
  {
    var asked := c.(requests := c.requests + 1);
    match answer
    case Fresh =>
      var d := asked.(seen := Some(current.value.body));
      if c.validates && !w.valid(current.value.body) then d.(phase := Done(Failed))
      else if c.caches then d.(phase := Save(current.value))
      else d.(phase := Done(Got(current.value.body)))
    case NotModified =>
      if c.cached.None? then asked.(phase := Done(Failed))
      else asked.(seen := Some(current.value.body), phase := Done(Got(c.cached.value)))
    case NotFound => asked.(phase := Done(Failed))
    case Broken => asked.(phase := Done(Failed))
    case Status(code, after) =>
      if !Retryable(code) || c.attempt == FETCH_ATTEMPTS - 1 then asked.(phase := Done(Failed))
      else asked.(phase := Sleep, waits := c.waits + [RetryDelay(c.attempt, w.base, after)])
  }

  function Set(s: State, i: nat, c: Client): State
    requires i < |s.clients|
  {
    s.(clients := s.clients[i := c])
  }

  ghost function Apply(w: World, s: State, step: Step): State
    requires Enabled(w, s, step)
  {
    match step
    case Publish(url, entry) => s.(current := s.current[url := entry], versions := s.versions + {(url, entry)})
    case Load(i) => Set(s, i, AfterLoad(w, s.clients[i], Loaded(w, s.disk, s.clients[i].url)))
    case Removed(i, ok) =>
      var t := Set(s, i, s.clients[i].(phase := Ask));
      if ok then t.(disk := s.disk - {w.name(s.clients[i].url)}) else t
    case Answered(i, answer) =>
      var c := s.clients[i];
      var current := if c.url in s.current then Some(s.current[c.url]) else None;
      var t := Set(s, i, AfterAnswer(w, c, current, answer));
      if answer.Fresh? then t.(served := s.served + {(c.url, s.current[c.url])}) else t
    case Slept(i, ok) =>
      var c := s.clients[i];
      Set(s, i, if ok then c.(phase := Ask, attempt := c.attempt + 1) else c.(phase := Done(Failed)))
    case Create(i, tmp) =>
      Set(s, i, s.clients[i].(phase := Write(tmp, s.clients[i].phase.entry, 0))).(disk := s.disk[tmp := ""])
    case Append(i, more) =>
      var p := s.clients[i].phase;
      Set(s, i, s.clients[i].(phase := p.(written := p.written + more)))
        .(disk := s.disk[p.tmp := w.encode(p.entry)[..p.written + more]])
    case Rename(i) =>
      var p := s.clients[i].phase;
      Set(s, i, s.clients[i].(phase := Done(Got(p.entry.body))))
        .(disk := (s.disk - {p.tmp})[w.name(s.clients[i].url) := s.disk[p.tmp]])
    case GiveUp(i, cleaned) =>
      var p := s.clients[i].phase;
      var t := Set(s, i, s.clients[i].(phase := Done(Got(p.entry.body))));
      if cleaned && p.Write? then t.(disk := s.disk - {p.tmp}) else t
    case Crash(i) => Set(s, i, s.clients[i].(phase := Crashed))
  }

  // Where a run may start: reads that have done nothing, and a directory in which nothing loads.
  ghost predicate Initial(w: World, s: State) {
    && (forall u :: Loaded(w, s.disk, u).None?)
    && s.versions == {} && s.served == {} && s.current == map[]
    && forall i | 0 <= i < |s.clients| ::
         var c := s.clients[i];
         c.phase.Start? && c.cached.None? && c.etag == "" && c.attempt == 0 && c.requests == 0
         && c.waits == [] && c.seen.None?
  }

  // The invariant.

  ghost predicate CountsRight(c: Client) {
    && (forall d | d in c.waits :: d <= MAX_RETRY_DELAY)
    && c.attempt <= 2 && |c.waits| <= 2 && c.requests <= FETCH_ATTEMPTS
    && (c.phase.Start? || c.phase.Remove? ==> c.attempt == 0)
    && (c.phase.Start? || c.phase.Remove? || c.phase.Ask? ==> c.requests == |c.waits| == c.attempt)
    && (c.phase.Sleep? ==> c.requests == |c.waits| == c.attempt + 1 <= 2)
  }

  ghost predicate ReadRight(w: World, s: State, c: Client) {
    && (c.cached.None? ==> c.etag == "")
    && (c.cached.Some? ==> c.keep.Revalidated? && (c.url, Entry(c.cached.value, c.etag)) in s.served)
    && (c.phase.Save? || c.phase.Write? ==>
          && (c.url, c.phase.entry) in s.served
          && c.seen == Some(c.phase.entry.body)
          && (c.validates ==> w.valid(c.phase.entry.body)))
    && (c.phase.Done? && c.phase.out.Got? ==>
          && (c.keep.Revalidated? && w.honest ==> c.seen == Some(c.phase.out.body))
          && (c.keep.Immutable? && c.validates ==> w.valid(c.phase.out.body)))
  }

  ghost predicate TempRight(w: World, s: State, c: Client) {
    c.phase.Write? ==>
      && w.isTemp(c.phase.tmp) && c.phase.tmp in s.disk
      && c.phase.written <= |w.encode(c.phase.entry)|
      && s.disk[c.phase.tmp] == w.encode(c.phase.entry)[..c.phase.written]
  }

  ghost predicate RegistryRight(s: State) {
    && s.served <= s.versions
    && (forall u | u in s.current :: (u, s.current[u]) in s.versions)
    && (forall u, a, b, tag {:trigger (u, Entry(a, tag)) in s.versions, (u, Entry(b, tag)) in s.versions} |
          tag != "" && (u, Entry(a, tag)) in s.versions && (u, Entry(b, tag)) in s.versions :: a == b)
  }

  // Every loadable entry is one that a single response carried.
  ghost predicate DiskRight(w: World, s: State) {
    forall u | Loaded(w, s.disk, u).Some? :: (u, Loaded(w, s.disk, u).value) in s.served
  }

  ghost predicate TempsApart(s: State) {
    forall i, j | 0 <= i < |s.clients| && 0 <= j < |s.clients| && s.clients[i].phase.Write? && s.clients[j].phase.Write?
      && s.clients[i].phase.tmp == s.clients[j].phase.tmp :: i == j
  }

  ghost predicate ClientRight(w: World, s: State, c: Client) {
    CountsRight(c) && ReadRight(w, s, c) && TempRight(w, s, c)
  }

  ghost predicate Inv(w: World, s: State) {
    && RegistryRight(s) && DiskRight(w, s) && TempsApart(s)
    && forall i | 0 <= i < |s.clients| :: ClientRight(w, s, s.clients[i])
  }

  lemma InitialInv(w: World, s: State)
    requires Initial(w, s)
    ensures Inv(w, s)
  {
  }

  // What the other clients know survives a step that leaves the registry's history in place and their temporary files
  // alone.
  lemma OthersKeep(w: World, s: State, t: State, i: nat)
    requires Inv(w, s) && i < |s.clients| == |t.clients| && s.served <= t.served
    requires forall j | 0 <= j < |s.clients| && j != i :: t.clients[j] == s.clients[j]
    requires forall j | 0 <= j < |s.clients| && j != i && s.clients[j].phase.Write? ::
               var tmp := s.clients[j].phase.tmp;
               tmp in t.disk && t.disk[tmp] == s.disk[tmp]
    ensures forall j | 0 <= j < |s.clients| && j != i :: ClientRight(w, t, t.clients[j])
  {
    forall j | 0 <= j < |s.clients| && j != i
      ensures ClientRight(w, t, t.clients[j])
    {
      assert ClientRight(w, s, s.clients[j]);
    }
  }

  lemma PublishKeeps(w: World, s: State, url: string, entry: Entry)
    requires Inv(w, s) && Enabled(w, s, Publish(url, entry))
    ensures Inv(w, Apply(w, s, Publish(url, entry)))
  {
    var t := Apply(w, s, Publish(url, entry));
    forall i | 0 <= i < |t.clients|
      ensures ClientRight(w, t, t.clients[i])
    {
      assert ClientRight(w, s, s.clients[i]);
    }
  }

  // Steps that touch neither the disk nor the registry.
  lemma LoadReads(w: World, s: State, c: Client)
    requires DiskRight(w, s) && ReadRight(w, s, c) && CountsRight(c) && c.phase.Start?
    ensures ReadRight(w, s, AfterLoad(w, c, Loaded(w, s.disk, c.url)))
    ensures CountsRight(AfterLoad(w, c, Loaded(w, s.disk, c.url)))
  {
  }

  lemma LocalKeeps(w: World, s: State, step: Step)
    requires Inv(w, s) && Enabled(w, s, step)
    requires step.Load? || step.Slept? || step.Crash?
    ensures Inv(w, Apply(w, s, step))
  {
    var i := step.i;
    var t := Apply(w, s, step);
    assert ClientRight(w, s, s.clients[i]);
    OthersKeep(w, s, t, i);
    if step.Load? {
      LoadReads(w, s, s.clients[i]);
    }
    assert ClientRight(w, t, t.clients[i]);
  }

  lemma RemovedKeeps(w: World, s: State, step: Step)
    requires Faithful(w) && Inv(w, s) && Enabled(w, s, step) && step.Removed?
    ensures Inv(w, Apply(w, s, step))
  {
    var i := step.i;
    var t := Apply(w, s, step);
    assert ClientRight(w, s, s.clients[i]);
    forall j | 0 <= j < |s.clients| && j != i && s.clients[j].phase.Write?
      ensures s.clients[j].phase.tmp in t.disk
    {
      assert ClientRight(w, s, s.clients[j]);
    }
    OthersKeep(w, s, t, i);
    forall u | Loaded(w, t.disk, u).Some?
      ensures (u, Loaded(w, t.disk, u).value) in t.served
    {
      assert Loaded(w, t.disk, u) == Loaded(w, s.disk, u);
    }
  }

  lemma AnswerCounts(w: World, c: Client, current: Option<Entry>, answer: Answer)
    requires CountsRight(c) && c.phase.Ask? && (answer.Fresh? || answer.NotModified? ==> current.Some?)
    ensures CountsRight(AfterAnswer(w, c, current, answer))
  {
  }

  lemma AnswerReads(w: World, s: State, t: State, c: Client, answer: Answer)
    requires RegistryRight(s) && ReadRight(w, s, c) && c.phase.Ask?
    requires s.served <= t.served
    requires answer.Fresh? || answer.NotModified? ==> c.url in s.current
    requires answer.Fresh? ==> (c.url, s.current[c.url]) in t.served
    requires answer.NotModified? && w.honest ==> c.etag != "" && c.etag == s.current[c.url].etag
    ensures ReadRight(w, t, AfterAnswer(w, c, if c.url in s.current then Some(s.current[c.url]) else None, answer))
  {
    if answer.NotModified? && w.honest {
      var e := s.current[c.url];
      assert (c.url, Entry(e.body, e.etag)) in s.versions;
      assert (c.url, Entry(c.cached.value, c.etag)) in s.versions;
    }
  }

  lemma AnsweredKeeps(w: World, s: State, step: Step)
    requires Inv(w, s) && Enabled(w, s, step) && step.Answered?
    ensures Inv(w, Apply(w, s, step))
  {
    var i := step.i;
    var t := Apply(w, s, step);
    var c := s.clients[i];
    assert ClientRight(w, s, c);
    OthersKeep(w, s, t, i);
    AnswerCounts(w, c, if c.url in s.current then Some(s.current[c.url]) else None, step.answer);
    AnswerReads(w, s, t, c, step.answer);
    assert ClientRight(w, t, t.clients[i]);
  }

  lemma CreateKeeps(w: World, s: State, step: Step)
    requires Faithful(w) && Inv(w, s) && Enabled(w, s, step) && step.Create?
    ensures Inv(w, Apply(w, s, step))
  {
    var i := step.i;
    var t := Apply(w, s, step);
    assert ClientRight(w, s, s.clients[i]);
    forall j | 0 <= j < |s.clients| && j != i && s.clients[j].phase.Write?
      ensures s.clients[j].phase.tmp != step.tmp && s.clients[j].phase.tmp in s.disk
    {
      assert ClientRight(w, s, s.clients[j]);
    }
    OthersKeep(w, s, t, i);
    forall u
      ensures Loaded(w, t.disk, u) == Loaded(w, s.disk, u)
    {
      assert w.name(u) != step.tmp;
    }
  }

  lemma AppendKeeps(w: World, s: State, step: Step)
    requires Faithful(w) && Inv(w, s) && Enabled(w, s, step) && step.Append?
    ensures Inv(w, Apply(w, s, step))
  {
    var i := step.i;
    var t := Apply(w, s, step);
    var tmp := s.clients[i].phase.tmp;
    assert ClientRight(w, s, s.clients[i]);
    forall j | 0 <= j < |s.clients| && j != i && s.clients[j].phase.Write?
      ensures s.clients[j].phase.tmp != tmp && s.clients[j].phase.tmp in s.disk
    {
      assert ClientRight(w, s, s.clients[j]);
    }
    OthersKeep(w, s, t, i);
    forall u
      ensures Loaded(w, t.disk, u) == Loaded(w, s.disk, u)
    {
      assert w.name(u) != tmp;
    }
  }

  // Publication: the one step that makes an entry loadable, and it makes a whole one loadable.
  lemma RenameKeeps(w: World, s: State, step: Step)
    requires Faithful(w) && Inv(w, s) && Enabled(w, s, step) && step.Rename?
    ensures Inv(w, Apply(w, s, step))
    ensures Loaded(w, Apply(w, s, step).disk, s.clients[step.i].url) == Some(s.clients[step.i].phase.entry)
  {
    var i := step.i;
    var t := Apply(w, s, step);
    var c := s.clients[i];
    var tmp := c.phase.tmp;
    assert ClientRight(w, s, c);
    assert s.disk[tmp] == w.encode(c.phase.entry);
    forall j | 0 <= j < |s.clients| && j != i && s.clients[j].phase.Write?
      ensures s.clients[j].phase.tmp != tmp && s.clients[j].phase.tmp in s.disk && w.isTemp(s.clients[j].phase.tmp)
    {
      assert ClientRight(w, s, s.clients[j]);
    }
    OthersKeep(w, s, t, i);
    forall u | Loaded(w, t.disk, u).Some?
      ensures (u, Loaded(w, t.disk, u).value) in t.served
    {
      if u != c.url {
        assert w.name(u) != tmp && w.name(u) != w.name(c.url);
        assert Loaded(w, t.disk, u) == Loaded(w, s.disk, u);
      }
    }
  }

  lemma GiveUpKeeps(w: World, s: State, step: Step)
    requires Faithful(w) && Inv(w, s) && Enabled(w, s, step) && step.GiveUp?
    ensures Inv(w, Apply(w, s, step))
  {
    var i := step.i;
    var t := Apply(w, s, step);
    assert ClientRight(w, s, s.clients[i]);
    forall j | 0 <= j < |s.clients| && j != i && s.clients[j].phase.Write?
      ensures s.clients[j].phase.tmp in t.disk
    {
      assert ClientRight(w, s, s.clients[j]);
    }
    OthersKeep(w, s, t, i);
    forall u
      ensures Loaded(w, t.disk, u) == Loaded(w, s.disk, u)
    {
      assert s.clients[i].phase.Write? ==> w.name(u) != s.clients[i].phase.tmp;
    }
  }

  lemma StepKeeps(w: World, s: State, step: Step)
    requires Faithful(w) && Inv(w, s) && Enabled(w, s, step)
    ensures Inv(w, Apply(w, s, step))
  {
    match step
    case Publish(url, entry) => PublishKeeps(w, s, url, entry);
    case Load(_) => LocalKeeps(w, s, step);
    case Slept(_, _) => LocalKeeps(w, s, step);
    case Crash(_) => LocalKeeps(w, s, step);
    case Removed(_, _) => RemovedKeeps(w, s, step);
    case Answered(_, _) => AnsweredKeeps(w, s, step);
    case Create(_, _) => CreateKeeps(w, s, step);
    case Append(_, _) => AppendKeeps(w, s, step);
    case Rename(_) => RenameKeeps(w, s, step);
    case GiveUp(_, _) => GiveUpKeeps(w, s, step);
  }

  // Runs.

  ghost predicate IsRun(w: World, states: seq<State>, steps: seq<Step>) {
    && Faithful(w)
    && |states| == |steps| + 1
    && Initial(w, states[0])
    && forall k | 0 <= k < |steps| :: Enabled(w, states[k], steps[k]) && states[k + 1] == Apply(w, states[k], steps[k])
  }

  lemma {:induction false} RunInv(w: World, states: seq<State>, steps: seq<Step>, k: nat)
    requires IsRun(w, states, steps) && k < |states|
    ensures Inv(w, states[k])
  {
    if k == 0 {
      InitialInv(w, states[0]);
    } else {
      RunInv(w, states, steps, k - 1);
      StepKeeps(w, states[k - 1], steps[k - 1]);
    }
  }

  // At every point of every run, crashes included, whatever loads from the cache is a body and a validator that one
  // response carried together for that location.
  lemma EntriesAreWhole(w: World, states: seq<State>, steps: seq<Step>, k: nat, url: string)
    requires IsRun(w, states, steps) && k < |states|
    ensures Loaded(w, states[k].disk, url).Some? ==> (url, Loaded(w, states[k].disk, url).value) in states[k].served
  {
    RunInv(w, states, steps, k);
  }

  // A read that revalidates returns the body the registry was serving when it gave the final answer; a read of an
  // immutable location returns only a body that passed validation; no read makes more than three requests or two waits,
  // and no wait is longer than ten seconds.
  lemma ReadsAreRight(w: World, states: seq<State>, steps: seq<Step>, k: nat, i: nat)
    requires IsRun(w, states, steps) && k < |states| && i < |states[k].clients|
    ensures var c := states[k].clients[i];
            && c.requests <= 3 && |c.waits| <= 2
            && (forall d | d in c.waits :: d <= 10_000)
            && (c.phase.Done? && c.phase.out.Got? ==>
                  && (c.keep.Revalidated? && w.honest ==> c.seen == Some(c.phase.out.body))
                  && (c.keep.Immutable? && c.validates ==> w.valid(c.phase.out.body)))
  {
    RunInv(w, states, steps, k);
    assert ClientRight(w, states[k], states[k].clients[i]);
  }

  // A write cut short leaves the previous entry intact: what a location loads changes only when a complete entry for it
  // is renamed into place, or when a reader that found a bad entry there drops whatever is there by then. CacheHistory
  // says when that is still the entry it found.
  lemma EntriesChangeOnlyWhole(w: World, states: seq<State>, steps: seq<Step>, k: nat, url: string)
    requires IsRun(w, states, steps) && k < |steps|
    requires Loaded(w, states[k + 1].disk, url) != Loaded(w, states[k].disk, url)
    ensures var step, s := steps[k], states[k];
            || (step.Rename? && s.clients[step.i].url == url
                && Loaded(w, states[k + 1].disk, url) == Some(s.clients[step.i].phase.entry))
            || (step.Removed? && step.ok && s.clients[step.i].url == url && Loaded(w, states[k + 1].disk, url).None?)
  {
    RunInv(w, states, steps, k);
    var step, s := steps[k], states[k];
    if !step.Publish? {
      assert ClientRight(w, s, s.clients[step.i]);
    }
    if step.Rename? {
      RenameKeeps(w, s, step);
    }
  }
}
