/** What the commands come to: from the moment one is given to the engine's answer, whatever
    happens in between, told in the fields of the tables alone. */
module GeofenceCommands {
  import opened Common
  import opened Geofences

  /** A command puts exactly one request on its way, or none for an unknown key, and touches
      neither the tables nor the engine. */
  lemma CommandsSend(s: State, key: Key, options: Options, info: Info)
    ensures Step(s, AddFence(key, options, info)) ==
      State(s.index, s.pending[s.next := Add(key, options, info)], s.next + 1, s.engine)
    ensures key !in s.index.ids ==>
      Step(s, RemoveFence(key)) == Step(s, PauseFence(key)) == Step(s, ResumeFence(key)) == Step(s, ModifyFence(key, options)) == s
    ensures key in s.index.ids ==>
      var h := s.index.ids[key];
      && Step(s, RemoveFence(key)) == State(s.index, s.pending[s.next := Remove(h)], s.next + 1, s.engine)
      && Step(s, PauseFence(key)) == State(s.index, s.pending[s.next := Pause(h)], s.next + 1, s.engine)
      && Step(s, ResumeFence(key)) == State(s.index, s.pending[s.next := Resume(h)], s.next + 1, s.engine)
      && Step(s, ModifyFence(key, options)) == State(s.index, s.pending[s.next := Modify(h, options)], s.next + 1, s.engine)
  {
  }

  /** What an answer does to the tables and to the engine. */
  ghost predicate AnswerDoes(s: State, s': State, r: Request, ok: bool, given: HwId, pauseOk: bool) {
    if !ok then s'.index == s.index && s'.engine == s.engine
    else match r
      case Add(key, options, info) =>
        && s'.index == Index(s.index.geofences[given := Fence(key, options, info, false)], s.index.ids[key := given])
        && s'.engine == s.engine[given := false]
      case ReAdd(f) =>
        && s'.index == Index(s.index.geofences[given := Fence(f.key, f.options, f.info, false)], s.index.ids[f.key := given])
        && s'.engine == s.engine[given := f.paused && pauseOk]
      case Remove(h) =>
        && s'.engine == s.engine - {h}
        && s'.index == if h in s.index.geofences && s.index.geofences[h].key in s.index.ids
                       then Index(s.index.geofences - {h}, s.index.ids - {s.index.geofences[h].key}) else s.index
      case StopRemove(h) =>
        s'.index == Index(s.index.geofences - {h}, s.index.ids) && s'.engine == s.engine - {h}
      case Pause(h) => FlagSet(s, s', h, true)
      case Resume(h) => FlagSet(s, s', h, false)
      case Modify(h, options) =>
        && s'.engine == s.engine && s'.index.ids == s.index.ids
        && s'.index.geofences == if h in s.index.geofences
                                 then s.index.geofences[h := Fence(s.index.geofences[h].key, options, s.index.geofences[h].info, s.index.geofences[h].paused)]
                                 else s.index.geofences
  }

  ghost predicate FlagSet(s: State, s': State, h: HwId, paused: bool) {
    && s'.index.ids == s.index.ids
    && s'.index.geofences == (if h in s.index.geofences
                              then s.index.geofences[h := Fence(s.index.geofences[h].key, s.index.geofences[h].options,
                                                                s.index.geofences[h].info, paused)]
                              else s.index.geofences)
    && s'.engine == if h in s.engine then s.engine[h := paused] else s.engine
  }

  lemma AnswersExactly(s: State, t: nat, ok: bool, given: HwId, pauseOk: bool)
    requires t in s.pending
    ensures var s' := Step(s, Answer(t, ok, given, pauseOk));
      AnswerDoes(s, s', s.pending[t], ok, given, pauseOk) && s'.pending == s.pending - {t} && s'.next == s.next
  {
  }

  // ------------------------------------------------------------ until the answer comes

  predicate Unanswered(mid: seq<Event>, t: nat) {
    forall e :: e in mid ==> !(e.Answer? && e.ticket == t)
  }

  ghost predicate FairTo(events: seq<Event>) {
    PossibleRun(events) && FairRun(events)
  }

  lemma {:induction false} FairPrefix(events: seq<Event>, more: seq<Event>)
    requires FairTo(events + more)
    ensures FairTo(events)
    decreases |more|
  {
    if more == [] {
      assert events + more == events;
    } else {
      assert (events + more)[..|events + more| - 1] == events + more[..|more| - 1];
      FairPrefix(events, more[..|more| - 1]);
    }
  }

  lemma OneMore(events: seq<Event>, e: Event)
    requires FairTo(events + [e])
    ensures FairTo(events) && Possible(Run(events), e) && FairEngine(Run(events), e)
    ensures Run(events + [e]) == Step(Run(events), e)
  {
    assert (events + [e])[..|events|] == events;
  }

  /** The request at `t` is still on its way, and the fence it is about, if still there, is the
      one for the key. */
  ghost predicate Waiting(s: State, t: nat, r: Request, key: Key) {
    && t in s.pending && s.pending[t] == r
    && forall h :: About(r, h) && h in s.index.geofences ==> s.index.geofences[h].key == key
  }

  lemma StepWaits(s: State, e: Event, t: nat, r: Request, key: Key)
    requires Consistent(s) && Possible(s, e) && FairEngine(s, e)
    requires !(e.Answer? && e.ticket == t) && !r.ReAdd? && !r.StopRemove? && Waiting(s, t, r, key)
    ensures Waiting(Step(s, e), t, r, key)
  {
    match e
    case StopClient(client, keys) =>
      StopTakesIds(s, client, keys);
      StopKeepsFences(s, client, keys);
    case Restart(order) =>
    case Answer(u, ok, given, pauseOk) => AnswersExactly(s, u, ok, given, pauseOk);
    case _ =>
  }

  lemma {:induction false} RequestWaits(events: seq<Event>, mid: seq<Event>, t: nat, r: Request, key: Key)
    requires FairTo(events + mid) && FairTo(events) && Unanswered(mid, t)
    requires !r.ReAdd? && !r.StopRemove? && Waiting(Run(events), t, r, key)
    ensures Waiting(Run(events + mid), t, r, key)
    decreases |mid|
  {
    if mid == [] {
      assert events + mid == events;
    } else {
      var n := |mid| - 1;
      assert mid == mid[..n] + [mid[n]] && mid[n] in mid;
      assert events + mid == (events + mid[..n]) + [mid[n]];
      OneMore(events + mid[..n], mid[n]);
      assert Unanswered(mid[..n], t);
      RequestWaits(events, mid[..n], t, r, key);
      IndexStaysConsistent(events + mid[..n]);
      StepWaits(Run(events + mid[..n]), mid[n], t, r, key);
    }
  }

  /** The request that a command about a known fence sends. */
  function RequestOf(e: Event, h: HwId): Request
    requires e.RemoveFence? || e.PauseFence? || e.ResumeFence? || e.ModifyFence?
  {
    match e
    case RemoveFence(_) => Remove(h)
    case PauseFence(_) => Pause(h)
    case ResumeFence(_) => Resume(h)
    case ModifyFence(_, options) => Modify(h, options)
  }

  /** A command about a known fence, once it is confirmed: whatever came in between, answers,
      other clients' commands, clients that left, an engine restart, it takes effect on that
      fence if it is still there, and on no other; refused, it has none. */
  lemma CommandTakesEffect(events: seq<Event>, e: Event, mid: seq<Event>, ok: bool, given: HwId, pauseOk: bool)
    requires e.RemoveFence? || e.PauseFence? || e.ResumeFence? || e.ModifyFence?
    requires FairTo(events) && e.key in Run(events).index.ids && Unanswered(mid, Run(events).next)
    requires FairTo(events + [e] + mid + [Answer(Run(events).next, ok, given, pauseOk)])
    ensures FairTo(events + [e] + mid)
    ensures var h := Run(events).index.ids[e.key];
      var (s, s') := (Run(events + [e] + mid), Run(events + [e] + mid + [Answer(Run(events).next, ok, given, pauseOk)]));
      && AnswerDoes(s, s', RequestOf(e, h), ok, given, pauseOk)
      && (h in s.index.geofences ==> s.index.geofences[h].key == e.key)
  {
    var t, h, early := Run(events).next, Run(events).index.ids[e.key], events + [e];
    OneMore(early + mid, Answer(t, ok, given, pauseOk));
    FairPrefix(early, mid);
    OneMore(events, e);
    IndexStaysConsistent(events);
    CommandsSend(Run(events), e.key, if e.ModifyFence? then e.newOptions else Options(0, 0, 0), Info(0.0, 0.0, 0.0));
    assert Waiting(Run(early), t, RequestOf(e, h), e.key);
    RequestWaits(early, mid, t, RequestOf(e, h), e.key);
    AnswersExactly(Run(early + mid), t, ok, given, pauseOk);
  }

  /** An addition, once it is confirmed: the fence is there under the id given and found through
      its key, not paused; refused, nothing is. */
  lemma AdditionTakesEffect(events: seq<Event>, e: Event, mid: seq<Event>, ok: bool, given: HwId, pauseOk: bool)
    requires e.AddFence? && FairTo(events) && Unanswered(mid, Run(events).next)
    requires FairTo(events + [e] + mid + [Answer(Run(events).next, ok, given, pauseOk)])
    ensures FairTo(events + [e] + mid)
    ensures AnswerDoes(Run(events + [e] + mid), Run(events + [e] + mid + [Answer(Run(events).next, ok, given, pauseOk)]),
                       Add(e.key, e.options, e.info), ok, given, pauseOk)
  {
    var t, r, early := Run(events).next, Add(e.key, e.options, e.info), events + [e];
    OneMore(early + mid, Answer(t, ok, given, pauseOk));
    FairPrefix(early, mid);
    OneMore(events, e);
    assert Waiting(Run(early), t, r, e.key);
    RequestWaits(early, mid, t, r, e.key);
    AnswersExactly(Run(early + mid), t, ok, given, pauseOk);
  }
}
