// What a read returns, told by what it met: what the cache held when it looked, and what the registry answered. However
// many other reads run at the same time, and whatever they do to the cache in between, that is all a read goes by.
module CacheReads {
  import opened CacheProtocol
  import opened Retry

  datatype Reply = Reply(answer: Answer, current: Option<Entry>)

  // What a read met so far. `dropped` says it tried to remove the entry it found, `stopped` that a wait was cut short.
  datatype Story = Story(loaded: bool, found: Option<Entry>, dropped: bool, replies: seq<Reply>, stopped: bool)

  const NOTHING := Story(false, None, false, [], false)

  function Served(s: State, url: string): Option<Entry> {
    if url in s.current then Some(s.current[url]) else None
  }

  ghost function StoryOf(w: World, states: seq<State>, steps: seq<Step>, k: nat, i: nat): Story
    requires k <= |steps| < |states|
  {
    if k == 0 then NOTHING
    else
      var before, s := StoryOf(w, states, steps, k - 1, i), states[k - 1];
      if i >= |s.clients| then before
      else OneMore(w, s, s.clients[i].url, steps[k - 1], i, before)
  }

  function OneMore(w: World, s: State, url: string, step: Step, i: nat, before: Story): Story {
    if step == Load(i) then before.(loaded := true, found := Loaded(w, s.disk, url))
    else if step.Removed? && step.i == i then before.(dropped := true)
    else if step.Answered? && step.i == i then
      before.(replies := before.replies + [Reply(step.answer, Served(s, url))])
    else if step == Slept(i, false) then before.(stopped := true)
    else before
  }

  // An entry that was found and may be used: any, where it is revalidated; one that is valid, where it never changes.

  ghost predicate Trusted(w: World, c: Client, story: Story) {
    && c.caches && c.keep.Immutable? && story.found.Some?
    && (c.validates ==> w.valid(story.found.value.body))
  }

  ghost predicate Refused(w: World, c: Client, story: Story) {
    && c.caches && c.keep.Immutable? && story.found.Some?
    && c.validates && !w.valid(story.found.value.body)
  }

  ghost predicate Offered(c: Client, story: Story) {
    c.caches && c.keep.Revalidated? && story.found.Some?
  }

  ghost predicate AsksAgain(reply: Reply) {
    reply.answer.Status? && (reply.answer.code == 429 || reply.answer.code >= 500)
  }

  // What the read comes to, once it has met enough: no request at all where the cache has it, and otherwise what the
  // last answer gives. Three failures the registry may get over are one too many.
  ghost function Outcome(w: World, c: Client, story: Story): Option<Result> {
    if !story.loaded then None
    else if Trusted(w, c, story) then Some(Got(story.found.value.body))
    else if story.replies == [] then None
    else
      var last := story.replies[|story.replies| - 1];
      match last.answer
      case Fresh =>
        if last.current.None? then None
        else if c.validates && !w.valid(last.current.value.body) then Some(Failed)
        else Some(Got(last.current.value.body))
      case NotModified => if Offered(c, story) then Some(Got(story.found.value.body)) else Some(Failed)
      case NotFound => Some(Failed)
      case Broken => Some(Failed)
      case Status(_, _) =>
        if AsksAgain(last) && |story.replies| < 3 && !story.stopped then None else Some(Failed)
  }

  // How long the wait after each failure is, in milliseconds.
  ghost predicate WaitsFor(w: World, reply: Reply, nth: nat, wait: int) {
    && reply.answer.Status?
    && var wanted := if reply.answer.after > 0 then reply.answer.after else if nth == 0 then w.base else 2 * w.base;
       wait == if wanted < 10_000 then wanted else 10_000
  }

  // A read that has stopped stopped with that outcome, and one that has not has none yet or is still saving the body it
  // will return.
  ghost predicate EndsSo(w: World, c: Client, story: Story) {
    match c.phase
    case Start => !story.loaded
    case Remove => Refused(w, c, story) && !story.dropped && story.replies == []
    case Ask => Outcome(w, c, story).None?
    case Sleep => Outcome(w, c, story).None? && story.replies != []
    case Save(entry) => c.caches && Saving(w, c, story, entry)
    case Write(_, entry, _) => c.caches && Saving(w, c, story, entry)
    case Done(out) => Outcome(w, c, story) == Some(out)
    case Crashed => true
  }

  ghost predicate Saving(w: World, c: Client, story: Story, entry: Entry) {
    && story.replies != []
    && var last := story.replies[|story.replies| - 1];
       last.answer.Fresh? && last.current == Some(entry) && Outcome(w, c, story) == Some(Got(entry.body))
  }

  ghost predicate Tells(w: World, c: Client, story: Story) {
    && EndsSo(w, c, story)
    // Nothing is asked before the cache was looked at, nor before a refused entry was dropped, nor after a trusted one.
    && (!story.loaded ==> story == NOTHING)
    && (c.phase.Start? || c.phase.Crashed? || story.loaded)
    && (story.replies != [] ==> !Trusted(w, c, story) && (Refused(w, c, story) ==> story.dropped))
    && (c.phase.Ask? && Refused(w, c, story) ==> story.dropped)
    && (story.dropped ==> Refused(w, c, story))
    // What is asked with: the validator of the entry found where it is to be revalidated, and otherwise nothing.
    && (Offered(c, story) ==> c.cached == Some(story.found.value.body) && c.etag == story.found.value.etag)
    && (!Offered(c, story) ==> c.cached.None? && c.etag == "")
    // Requests and waits: one for each answer, and one for each answer that is worth asking again.
    && c.requests == |story.replies| <= 3
    && (forall m | 0 <= m < |story.replies| - 1 :: AsksAgain(story.replies[m]))
    && |c.waits| <= |story.replies| <= |c.waits| + 1
    && (forall m | 0 <= m < |c.waits| :: WaitsFor(w, story.replies[m], m, c.waits[m]))
    && Attempts(c, story)
  }

  ghost predicate Attempts(c: Client, story: Story) {
    && (c.phase.Start? || c.phase.Remove? || c.phase.Ask? ==>
          c.attempt == |story.replies| == |c.waits| && !story.stopped)
    && (c.phase.Sleep? ==> c.attempt + 1 == |story.replies| == |c.waits| && !story.stopped)
  }

  lemma StartTells(w: World, c: Client)
    requires c.phase.Start? && c.cached.None? && c.etag == "" && c.attempt == 0 && c.requests == 0 && c.waits == []
    ensures Tells(w, c, NOTHING)
  {
  }

  lemma LoadTells(w: World, c: Client, found: Option<Entry>, story: Story)
    requires c.phase.Start? && Tells(w, c, story)
    ensures Tells(w, AfterLoad(w, c, found), story.(loaded := true, found := found))
  {
  }

  lemma WaitIsRight(w: World, reply: Reply, attempt: nat)
    requires reply.answer.Status? && attempt < 2
    ensures WaitsFor(w, reply, attempt, RetryDelay(attempt, w.base, reply.answer.after))
  {
    assert Shift(w.base, 0) == w.base;
    assert Shift(w.base, 1) == 2 * w.base;
  }

  // One answer more, which either settles the outcome or earns another wait.
  lemma AnswerTells(w: World, c: Client, current: Option<Entry>, answer: Answer, story: Story)
    requires c.phase.Ask? && Tells(w, c, story) && !answer.Status?
    requires answer.Fresh? || answer.NotModified? ==> current.Some?
    ensures Tells(w, AfterAnswer(w, c, current, answer), story.(replies := story.replies + [Reply(answer, current)]))
  {
    AllAskAgain(w, c, story);
    OneReplyMore(w, c, story, Reply(answer, current));
  }

  lemma StatusTells(w: World, c: Client, current: Option<Entry>, answer: Answer, story: Story)
    requires c.phase.Ask? && Tells(w, c, story) && answer.Status?
    ensures Tells(w, AfterAnswer(w, c, current, answer), story.(replies := story.replies + [Reply(answer, current)]))
  {
    if Retryable(answer.code) && c.attempt < 2 {
      AgainTells(w, c, current, answer, story);
    } else {
      AllAskAgain(w, c, story);
      OneReplyMore(w, c, story, Reply(answer, current));
    }
  }

  lemma AgainTells(w: World, c: Client, current: Option<Entry>, answer: Answer, story: Story)
    requires c.phase.Ask? && Tells(w, c, story) && answer.Status? && Retryable(answer.code) && c.attempt < 2
    ensures Tells(w, AfterAnswer(w, c, current, answer), story.(replies := story.replies + [Reply(answer, current)]))
  {
    AllAskAgain(w, c, story);
    OneReplyMore(w, c, story, Reply(answer, current));
    WaitIsRight(w, Reply(answer, current), c.attempt);
  }

  // A read that asks has only had answers worth asking again.
  lemma AllAskAgain(w: World, c: Client, story: Story)
    requires c.phase.Ask? && Tells(w, c, story)
    ensures |story.replies| < 3 && forall m | 0 <= m < |story.replies| :: AsksAgain(story.replies[m])
  {
  }

  lemma OneReplyMore(w: World, c: Client, story: Story, reply: Reply)
    requires c.phase.Ask? && Tells(w, c, story)
    ensures var more := story.replies + [reply];
            && (forall m | 0 <= m < |story.replies| :: more[m] == story.replies[m])
            && (forall m | 0 <= m < |c.waits| :: WaitsFor(w, more[m], m, c.waits[m]))
  {
  }

  lemma SleptTells(w: World, c: Client, ok: bool, story: Story)
    requires c.phase.Sleep? && Tells(w, c, story)
    ensures ok ==> Tells(w, c.(phase := Ask, attempt := c.attempt + 1), story)
    ensures !ok ==> Tells(w, c.(phase := Done(Failed)), story.(stopped := true))
  {
  }

  // Saving a body, or failing to, makes no difference to what is returned.
  lemma SavingTells(w: World, c: Client, phase: Phase, story: Story)
    requires c.phase.Save? || c.phase.Write?
    requires phase == Done(Got(c.phase.entry.body)) || (phase.Write? && phase.entry == c.phase.entry)
    requires Tells(w, c, story)
    ensures Tells(w, c.(phase := phase), story)
  {
  }

  // The steps of others are not part of the story.
  lemma OthersTell(w: World, s: State, step: Step, i: nat, story: Story)
    requires Enabled(w, s, step) && i < |s.clients| && (step.Publish? || step.i != i)
    ensures Apply(w, s, step).clients[i] == s.clients[i] && OneMore(w, s, s.clients[i].url, step, i, story) == story
  {
  }

  lemma StepTells(w: World, s: State, step: Step, i: nat, story: Story)
    requires Enabled(w, s, step) && i < |s.clients| && Tells(w, s.clients[i], story)
    ensures |Apply(w, s, step).clients| == |s.clients|
    ensures Tells(w, Apply(w, s, step).clients[i], OneMore(w, s, s.clients[i].url, step, i, story))
  {
    if step.Publish? || step.i != i {
      OthersTell(w, s, step, i, story);
    } else {
      OwnStepTells(w, s, step, story);
    }
  }

  lemma OwnStepTells(w: World, s: State, step: Step, story: Story)
    requires Enabled(w, s, step) && !step.Publish? && Tells(w, s.clients[step.i], story)
    ensures Tells(w, Apply(w, s, step).clients[step.i], OneMore(w, s, s.clients[step.i].url, step, step.i, story))
  {
    var c := s.clients[step.i];
    match step
    case Load(_) => LoadTells(w, c, Loaded(w, s.disk, c.url), story);
    case Removed(_, _) => DroppedTells(w, c, story);
    case Answered(_, answer) => AnsweredTells(w, s, step, story);
    case Slept(_, ok) => SleptTells(w, c, ok, story);
    case Crash(_) => CrashTells(w, c, story);
    case _ => SavingStepTells(w, s, step, story);
  }

  lemma AnsweredTells(w: World, s: State, step: Step, story: Story)
    requires Enabled(w, s, step) && step.Answered? && Tells(w, s.clients[step.i], story)
    ensures Tells(w, Apply(w, s, step).clients[step.i], OneMore(w, s, s.clients[step.i].url, step, step.i, story))
  {
    var c := s.clients[step.i];
    assert Apply(w, s, step).clients[step.i] == AfterAnswer(w, c, Served(s, c.url), step.answer);
    if step.answer.Status? {
      StatusTells(w, c, Served(s, c.url), step.answer, story);
    } else {
      AnswerTells(w, c, Served(s, c.url), step.answer, story);
    }
  }

  lemma SavingStepTells(w: World, s: State, step: Step, story: Story)
    requires Enabled(w, s, step) && (step.Create? || step.Append? || step.Rename? || step.GiveUp?)
    requires Tells(w, s.clients[step.i], story)
    ensures Tells(w, Apply(w, s, step).clients[step.i], story)
  {
    SavingTells(w, s.clients[step.i], Apply(w, s, step).clients[step.i].phase, story);
  }

  lemma DroppedTells(w: World, c: Client, story: Story)
    requires c.phase.Remove? && Tells(w, c, story)
    ensures Tells(w, c.(phase := Ask), story.(dropped := true))
  {
  }

  lemma CrashTells(w: World, c: Client, story: Story)
    requires Tells(w, c, story)
    ensures Tells(w, c.(phase := Crashed), story)
  {
  }

  // What was asked for stays what it was.
  ghost predicate SameRead(c: Client, d: Client) {
    d.url == c.url && d.keep == c.keep && d.validates == c.validates && d.caches == c.caches
  }

  lemma StepIsSameRead(w: World, s: State, step: Step, i: nat)
    requires Enabled(w, s, step) && i < |s.clients|
    ensures |Apply(w, s, step).clients| == |s.clients| && SameRead(s.clients[i], Apply(w, s, step).clients[i])
  {
    if step.Publish? || step.i != i {
      OthersTell(w, s, step, i, NOTHING);
    } else if step.Answered? {
      assert Apply(w, s, step).clients[i] == AfterAnswer(w, s.clients[i], Served(s, s.clients[i].url), step.answer);
    } else if step.Load? {
      assert Apply(w, s, step).clients[i] == AfterLoad(w, s.clients[i], Loaded(w, s.disk, s.clients[i].url));
    }
  }

  lemma {:induction false} StaysSameRead(w: World, states: seq<State>, steps: seq<Step>, k: nat, i: nat)
    requires IsRun(w, states, steps) && k <= |steps| && i < |states[0].clients|
    ensures |states[k].clients| == |states[0].clients| && SameRead(states[0].clients[i], states[k].clients[i])
  {
    if k > 0 {
      StaysSameRead(w, states, steps, k - 1, i);
      StepIsSameRead(w, states[k - 1], steps[k - 1], i);
    }
  }

  // In every run, every read stands where what it met says.
  lemma {:induction false} ReadTells(w: World, states: seq<State>, steps: seq<Step>, k: nat, i: nat)
    requires IsRun(w, states, steps) && k <= |steps| && i < |states[0].clients|
    ensures |states[k].clients| == |states[0].clients| && SameRead(states[0].clients[i], states[k].clients[i])
    ensures Tells(w, states[k].clients[i], StoryOf(w, states, steps, k, i))
  {
    StaysSameRead(w, states, steps, k, i);
    if k == 0 {
      StartTells(w, states[0].clients[i]);
    } else {
      ReadTells(w, states, steps, k - 1, i);
      StepTells(w, states[k - 1], steps[k - 1], i, StoryOf(w, states, steps, k - 1, i));
    }
  }

  // The step in which a read looks into the cache: an entry that can be trusted is returned at once, without a request;
  // one to be revalidated is offered with its validator; one that fails validation is dropped first.
  lemma LoadDecides(w: World, states: seq<State>, steps: seq<Step>, k: nat, i: nat)
    requires IsRun(w, states, steps) && k < |steps| && i < |states[0].clients| && steps[k] == Load(i)
    ensures |states[k].clients| == |states[k + 1].clients| == |states[0].clients|
    ensures var c, found := states[k + 1].clients[i], Loaded(w, states[k].disk, states[0].clients[i].url);
            && c.requests == 0
            && (c.caches && found.Some? && c.keep.Immutable? ==>
                  c.phase == if c.validates && !w.valid(found.value.body) then Remove else Done(Got(found.value.body)))
            && (c.caches && found.Some? && c.keep.Revalidated? ==>
                  c.phase.Ask? && c.cached == Some(found.value.body) && c.etag == found.value.etag)
            && (!c.caches || found.None? ==> c.phase.Ask? && c.cached.None? && c.etag == "")
  {
    ReadTells(w, states, steps, k, i);
    ReadTells(w, states, steps, k + 1, i);
    LoadedPhase(w, states[k], i);
  }

  lemma LoadedPhase(w: World, s: State, i: nat)
    requires Enabled(w, s, Load(i))
    ensures var c := Apply(w, s, Load(i)).clients[i]; c.phase.Ask? || c.phase.Remove? || c.phase.Done?
  {
  }

  // And a read ends without a request in no other way.
  lemma NoRequestMeansTrusted(w: World, states: seq<State>, steps: seq<Step>, k: nat, i: nat)
    requires IsRun(w, states, steps) && k <= |steps| && i < |states[0].clients| == |states[k].clients|
    requires states[k].clients[i].phase.Done? && states[k].clients[i].requests == 0
    ensures exists j | 0 <= j < k && steps[j] == Load(i) ::
              var c, found := states[0].clients[i], Loaded(w, states[j].disk, states[0].clients[i].url);
              && c.caches && c.keep.Immutable? && found.Some? && (c.validates ==> w.valid(found.value.body))
              && states[k].clients[i].phase.out == Got(found.value.body)
  {
    ReadTells(w, states, steps, k, i);
    var j := LoadedBefore(w, states, steps, k, i);
  }

  lemma StoryFinds(w: World, states: seq<State>, steps: seq<Step>, k: nat, i: nat)
    requires 0 < k <= |steps| < |states| && i < |states[k - 1].clients|
    ensures var before, now := StoryOf(w, states, steps, k - 1, i), StoryOf(w, states, steps, k, i);
            if steps[k - 1] == Load(i) then now.found == Loaded(w, states[k - 1].disk, states[k - 1].clients[i].url)
            else now.found == before.found && now.loaded == before.loaded
  {
  }

  // What was found was found by loading.
  lemma {:induction false} LoadedBefore(w: World, states: seq<State>, steps: seq<Step>, k: nat, i: nat) returns (j: nat)
    requires IsRun(w, states, steps) && k <= |steps| && i < |states[0].clients|
    requires StoryOf(w, states, steps, k, i).loaded
    ensures j < k && steps[j] == Load(i)
    ensures StoryOf(w, states, steps, k, i).found == Loaded(w, states[j].disk, states[0].clients[i].url)
  {
    StaysSameRead(w, states, steps, k - 1, i);
    StoryFinds(w, states, steps, k, i);
    if steps[k - 1] == Load(i) {
      j := k - 1;
    } else {
      j := LoadedBefore(w, states, steps, k - 1, i);
    }
  }
}
