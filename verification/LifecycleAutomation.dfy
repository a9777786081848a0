/** The background automation behind the dashboard: single flight and throttling,
    as steps of an event loop over three module variables. */
module LifecycleAutomation {
  import opened Text

  const INTERVAL_MS: int := 5 * 60 * 1000

  type RunId = nat
  type CallerId = nat

  datatype Summary = Summary(ranAt: int, counts: seq<nat>, skipped: bool)

  /** What the promise of a run settles to. */
  datatype Outcome = Resolved(summary: Summary) | Thrown

  // The module variables ----------------------------------------------------

  datatype Vars = Vars(lastRunAt: int, lastSummary: Option<Summary>, inFlight: Option<RunId>)

  datatype Decision = Join(run: RunId) | Skip(summary: Summary) | Start

  /** What a call does before its first await. */
  function Decide(v: Vars, now: int, force: bool): Decision {
    if v.inFlight.Some? then Join(v.inFlight.value)
    else if !force && v.lastSummary.Some? && now - v.lastRunAt < INTERVAL_MS then Skip(v.lastSummary.value.(skipped := true))
    else Start
  }

  /** The variables after a start, after a body that resolved, and after the starter
      has returned. */
  function Started(v: Vars, now: int, run: RunId): Vars {
    v.(lastRunAt := now, inFlight := Some(run))
  }

  function Summarised(v: Vars, summary: Summary): Vars {
    v.(lastSummary := Some(summary))
  }

  function Cleared(v: Vars): Vars {
    v.(inFlight := None)
  }

  class Automation {
    var lastRunAt: int
    var lastSummary: Option<Summary>
    var inFlight: Option<RunId>

    function Value(): Vars
      reads this
    {
      Vars(lastRunAt, lastSummary, inFlight)
    }

    constructor ()
      ensures Value() == Vars(0, None, None)
    {
      lastRunAt, lastSummary, inFlight := 0, None, None;
    }

    /** A call up to its first await; `run` names the run it would start. */
    method Begin(now: int, force: bool, run: RunId) returns (d: Decision)
      modifies this
      ensures d == Decide(old(Value()), now, force)
      ensures Value() == if d == Start then Started(old(Value()), now, run) else old(Value())
    {
      if inFlight.Some? {
        return Join(inFlight.value);
      }
      if !force && lastSummary.Some? && now - lastRunAt < INTERVAL_MS {
        return Skip(lastSummary.value.(skipped := true));
      }
      lastRunAt := now;
      inFlight := Some(run);
      return Start;
    }

    /** The last step of a body that did not throw. */
    method BodyResolves(startedAt: int, counts: seq<nat>) returns (outcome: Outcome)
      modifies this
      ensures outcome == Resolved(Summary(startedAt, counts, false))
      ensures Value() == Summarised(old(Value()), outcome.summary)
    {
      var summary := Summary(startedAt, counts, false);
      lastSummary := Some(summary);
      outcome := Resolved(summary);
    }

    /** The finally block of the call that started the run. */
    method StarterReturns()
      modifies this
      ensures Value() == Cleared(old(Value()))
    {
      inFlight := None;
    }
  }

  // Event loop --------------------------------------------------------------

  datatype Running = Running(startedAt: int, starter: CallerId, outcome: Option<Outcome>)

  /** A call waits for a run, or has returned what a run settled to, or has
      returned the last summary. */
  datatype Caller =
    | Waiting(run: RunId)
    | Returned(run: RunId, outcome: Outcome)
    | Skipped(summary: Summary)

  datatype StartRecord = StartRecord(at: int, forced: bool, succeededBefore: bool)

  datatype State = State(vars: Vars, runs: seq<Running>, callers: map<CallerId, Caller>, starts: seq<StartRecord>)

  const INITIAL: State := State(Vars(0, None, None), [], map[], [])

  datatype Event =
    | Call(caller: CallerId, force: bool, now: int)
    | BodyEnds(run: RunId, succeeds: bool, counts: seq<nat>)
    | Resume(caller: CallerId)

  /** One step of the event loop; an event that is not due changes nothing. */
  function Step(s: State, e: Event): State {
    match e
    case Call(caller, force, now) =>
      if caller in s.callers then s
      else (match Decide(s.vars, now, force)
            case Join(run) => s.(callers := s.callers[caller := Waiting(run)])
            case Skip(summary) => s.(callers := s.callers[caller := Skipped(summary)])
            case Start =>
              State(Started(s.vars, now, |s.runs|),
                    s.runs + [Running(now, caller, None)],
                    s.callers[caller := Waiting(|s.runs|)],
                    s.starts + [StartRecord(now, force, s.vars.lastSummary.Some?)]))
    case BodyEnds(run, succeeds, counts) =>
      if run >= |s.runs| || s.runs[run].outcome.Some? then s
      else
        var r := s.runs[run];
        var summary := Summary(r.startedAt, counts, false);
        if succeeds
        then s.(vars := Summarised(s.vars, summary),
                runs := s.runs[run := r.(outcome := Some(Resolved(summary)))])
        else s.(runs := s.runs[run := r.(outcome := Some(Thrown))])
    case Resume(caller) =>
      if caller !in s.callers || !s.callers[caller].Waiting? then s
      else
        var run := s.callers[caller].run;
        if run >= |s.runs| || s.runs[run].outcome.None? then s
        else
          var t := s.(callers := s.callers[caller := Returned(run, s.runs[run].outcome.value)]);
          if s.runs[run].starter == caller then t.(vars := Cleared(t.vars)) else t
  }

  function Run(events: seq<Event>): State {
    if events == [] then INITIAL else Step(Run(events[..|events| - 1]), events[|events| - 1])
  }

  /** The event loop over the module variables: the calls that wait, and the promises
      of the runs. */
  class EventLoop {
    const automation: Automation
    var runs: seq<Running>
    var callers: map<CallerId, Caller>
    var starts: seq<StartRecord>

    function Value(): State
      reads this, automation
    {
      State(automation.Value(), runs, callers, starts)
    }

    constructor ()
      ensures Value() == INITIAL && fresh(automation)
    {
      automation := new Automation();
      runs, callers, starts := [], map[], [];
    }

    /** Every step runs the code: a call up to its await, the last step of a body, or
        the return of a waiting call with the finally block of the starter. */
    method Handle(e: Event)
      modifies this, automation
      ensures Value() == Step(old(Value()), e)
    {
      match e {
        case Call(caller, force, now) =>
          if caller !in callers {
            var hadSummary := automation.lastSummary.Some?;
            var d := automation.Begin(now, force, |runs|);
            match d {
              case Join(run) => callers := callers[caller := Waiting(run)];
              case Skip(summary) => callers := callers[caller := Skipped(summary)];
              case Start =>
                callers := callers[caller := Waiting(|runs|)];
                runs := runs + [Running(now, caller, None)];
                starts := starts + [StartRecord(now, force, hadSummary)];
            }
          }
        case BodyEnds(run, succeeds, counts) =>
          if run < |runs| && runs[run].outcome.None? {
            var outcome := Thrown;
            if succeeds {
              outcome := automation.BodyResolves(runs[run].startedAt, counts);
            }
            runs := runs[run := runs[run].(outcome := Some(outcome))];
          }
        case Resume(caller) =>
          if caller in callers && callers[caller].Waiting? {
            var run := callers[caller].run;
            if run < |runs| && runs[run].outcome.Some? {
              callers := callers[caller := Returned(run, runs[run].outcome.value)];
              if runs[run].starter == caller {
                automation.StarterReturns();
              }
            }
          }
      }
    }
  }

  // Single flight -----------------------------------------------------------

  /** Whether the call that started a run has not returned yet. */
  predicate Outstanding(s: State, run: RunId)
    requires run < |s.runs|
  {
    s.runs[run].starter in s.callers && s.callers[s.runs[run].starter] == Waiting(run)
  }

  /** The variable names exactly the run whose starter has not returned, and that
      is the only run whose body can still be going. */
  ghost predicate SingleFlight(s: State) {
    && (s.vars.inFlight.Some? ==> s.vars.inFlight.value < |s.runs| && Outstanding(s, s.vars.inFlight.value))
    && (forall run :: 0 <= run < |s.runs| ==>
          && (Outstanding(s, run) ==> s.vars.inFlight == Some(run))
          && (s.runs[run].outcome.None? ==> Outstanding(s, run)))
    && (forall c :: c in s.callers && s.callers[c].Waiting? ==> s.callers[c].run < |s.runs|)
    && (forall run :: 0 <= run < |s.runs| ==> s.runs[run].starter in s.callers)
  }

  lemma StepKeepsSingleFlight(s: State, e: Event)
    requires SingleFlight(s)
    ensures SingleFlight(Step(s, e))
  {
    var t := Step(s, e);
    forall run | 0 <= run < |t.runs|
      ensures Outstanding(t, run) ==> t.vars.inFlight == Some(run)
      ensures t.runs[run].outcome.None? ==> Outstanding(t, run)
    {
      if run < |s.runs| {
        assert Outstanding(s, run) ==> s.vars.inFlight == Some(run);
        assert s.runs[run].starter in s.callers;
      }
    }
  }

  lemma {:induction false} AlwaysSingleFlight(events: seq<Event>)
    ensures SingleFlight(Run(events))
  {
    if events != [] {
      AlwaysSingleFlight(events[..|events| - 1]);
      StepKeepsSingleFlight(Run(events[..|events| - 1]), events[|events| - 1]);
    }
  }

  /** At most one body is going at any time, and a call made meanwhile joins it. */
  lemma AtMostOneBody(events: seq<Event>, a: RunId, b: RunId)
    requires var runs := Run(events).runs;
             a < |runs| && b < |runs| && runs[a].outcome.None? && runs[b].outcome.None?
    ensures a == b
    ensures forall now, force :: Decide(Run(events).vars, now, force) == Join(a)
  {
    AlwaysSingleFlight(events);
    assert Outstanding(Run(events), a) && Outstanding(Run(events), b);
  }

  /** Only the return of the starter clears the variable, and only after its run
      has settled. */
  lemma OnlyStarterClears(events: seq<Event>, e: Event, run: RunId)
    requires Run(events).vars.inFlight == Some(run)
    requires Step(Run(events), e).vars.inFlight != Some(run)
    ensures run < |Run(events).runs| && Run(events).runs[run].outcome.Some?
    ensures e == Resume(Run(events).runs[run].starter)
    ensures Step(Run(events), e).vars.inFlight == None
  {
    AlwaysSingleFlight(events);
    var s := Run(events);
    if e.Resume? && e.caller in s.callers && s.callers[e.caller].Waiting? {
      var other := s.callers[e.caller].run;
      if other < |s.runs| && s.runs[other].starter == e.caller {
        assert Outstanding(s, other);
      }
    }
  }

  // What callers get --------------------------------------------------------

  /** Results never change once given, and each one is what its run settled to. */
  ghost predicate Answered(s: State) {
    forall c :: c in s.callers ==>
      match s.callers[c]
      case Waiting(run) => true
      case Returned(run, outcome) => run < |s.runs| && s.runs[run].outcome == Some(outcome)
      case Skipped(summary) => summary.skipped
  }

  lemma {:induction false} AlwaysAnswered(events: seq<Event>)
    ensures Answered(Run(events))
  {
    if events != [] {
      AlwaysAnswered(events[..|events| - 1]);
    }
  }

  predicate Succeeded(r: Running) {
    r.outcome.Some? && r.outcome.value.Resolved?
  }

  /** No run behind this one has succeeded. */
  predicate LatestSuccess(runs: seq<Running>, run: RunId) {
    run < |runs| && Succeeded(runs[run]) && forall other :: run < other < |runs| ==> !Succeeded(runs[other])
  }

  /** The run in flight is the last one, the summary in hand is that of the latest run
      that has succeeded, and a summary tells when its run started and that it ran. */
  ghost predicate SummaryOfLatest(s: State) {
    && (s.vars.inFlight.Some? ==> s.vars.inFlight.value == |s.runs| - 1)
    && (s.vars.lastSummary.None? ==> forall run :: 0 <= run < |s.runs| ==> !Succeeded(s.runs[run]))
    && (s.vars.lastSummary.Some? ==>
          exists run: RunId :: LatestSuccess(s.runs, run) && s.runs[run].outcome.value.summary == s.vars.lastSummary.value)
    && (forall run :: 0 <= run < |s.runs| && Succeeded(s.runs[run]) ==>
          s.runs[run].outcome.value.summary.ranAt == s.runs[run].startedAt && !s.runs[run].outcome.value.summary.skipped)
  }

  lemma StepKeepsSummary(s: State, e: Event)
    requires SingleFlight(s) && SummaryOfLatest(s)
    ensures SummaryOfLatest(Step(s, e))
  {
    var t := Step(s, e);
    if e.BodyEnds? && e.run < |s.runs| && s.runs[e.run].outcome.None? {
      assert Outstanding(s, e.run);
      if e.succeeds {
        assert LatestSuccess(t.runs, e.run);
      } else {
        SameLatest(s.runs, t.runs);
      }
    } else {
      SameLatest(s.runs, t.runs);
    }
  }

  /** Runs that start or throw leave the latest success as it is. */
  lemma SameLatest(before: seq<Running>, after: seq<Running>)
    requires |before| <= |after| && forall run :: |before| <= run < |after| ==> !Succeeded(after[run])
    requires forall run :: 0 <= run < |before| ==>
               after[run] == before[run] || (!Succeeded(before[run]) && !Succeeded(after[run]))
    ensures forall run: RunId :: LatestSuccess(before, run) ==> LatestSuccess(after, run) && after[run] == before[run]
  {
  }

  lemma {:induction false} AlwaysSummaryOfLatest(events: seq<Event>)
    ensures SummaryOfLatest(Run(events))
  {
    if events != [] {
      AlwaysSummaryOfLatest(events[..|events| - 1]);
      AlwaysSingleFlight(events[..|events| - 1]);
      StepKeepsSummary(Run(events[..|events| - 1]), events[|events| - 1]);
    }
  }

  /** What a body leaves behind when it ends: its outcome, with the time at which it
      started and its counts. */
  lemma BodySettles(s: State, run: RunId, succeeds: bool, counts: seq<nat>)
    requires run < |s.runs| && s.runs[run].outcome.None?
    ensures var t := Step(s, BodyEnds(run, succeeds, counts));
            && |t.runs| == |s.runs|
            && t.runs[run].outcome == Some(if succeeds then Resolved(Summary(s.runs[run].startedAt, counts, false)) else Thrown)
            && (forall other :: 0 <= other < |s.runs| && other != run ==> t.runs[other] == s.runs[other])
            && t.callers == s.callers && t.starts == s.starts
  {
  }

  /** A call whose run has settled returns when it is resumed. */
  lemma SettledCallReturns(events: seq<Event>, caller: CallerId)
    requires caller in Run(events).callers && Run(events).callers[caller].Waiting?
    ensures var (s, run) := (Run(events), Run(events).callers[caller].run);
            && run < |s.runs|
            && (s.runs[run].outcome.Some? ==>
                  Step(s, Resume(caller)).callers[caller] == Returned(run, s.runs[run].outcome.value))
  {
    AlwaysSingleFlight(events);
  }

  /** A call joins the run in flight, starts one, or, less than five minutes after the
      last start, gets the summary of the latest run that has succeeded, marked
      skipped. */
  ghost predicate Served(s: State, t: State, caller: CallerId, force: bool, now: int)
    requires caller in t.callers
  {
    || (s.vars.inFlight.Some? && t.callers[caller] == Waiting(s.vars.inFlight.value))
    || (&& s.vars.inFlight.None? && t.callers[caller] == Waiting(|s.runs|)
        && t.runs == s.runs + [Running(now, caller, None)]
        && t.starts == s.starts + [StartRecord(now, force, exists run :: 0 <= run < |s.runs| && Succeeded(s.runs[run]))])
    || (&& s.vars.inFlight.None? && !force && s.starts != [] && now - s.starts[|s.starts| - 1].at < 5 * 60 * 1000
        && exists run: RunId :: LatestSuccess(s.runs, run)
                         && t.callers[caller] == Skipped(s.runs[run].outcome.value.summary.(skipped := true)))
  }

  /** So is every call, in every reachable state. */
  lemma EveryCallIsServed(events: seq<Event>, caller: CallerId, force: bool, now: int)
    requires caller !in Run(events).callers
    ensures var s := Run(events);
            var t := Step(s, Call(caller, force, now));
            caller in t.callers && Served(s, t, caller, force, now)
  {
    AlwaysSummaryOfLatest(events);
    AlwaysThrottled(events);
    hide Run, SummaryOfLatest, Throttled, Served;
    CallIsServed(Run(events), caller, force, now);
  }

  lemma CallIsServed(s: State, caller: CallerId, force: bool, now: int)
    requires caller !in s.callers && SummaryOfLatest(s) && Throttled(s)
    ensures caller in Step(s, Call(caller, force, now)).callers
    ensures Served(s, Step(s, Call(caller, force, now)), caller, force, now)
  {
    if s.vars.lastSummary.Some? {
      var run: RunId :| LatestSuccess(s.runs, run) && s.runs[run].outcome.value.summary == s.vars.lastSummary.value;
      assert Succeeded(s.runs[run]);
    }
  }

  /** A waiting call keeps waiting for the same run until it returns that run's
      outcome. */
  lemma WaitingIsFaithful(events: seq<Event>, e: Event, caller: CallerId)
    requires caller in Run(events).callers && Run(events).callers[caller].Waiting?
    ensures var run := Run(events).callers[caller].run;
            var t := Step(Run(events), e);
            && caller in t.callers
            && (t.callers[caller] == Waiting(run)
                || (run < |t.runs| && t.runs[run].outcome.Some? && t.callers[caller] == Returned(run, t.runs[run].outcome.value)))
  {
  }

  // The throttle ------------------------------------------------------------

  ghost predicate Throttled(s: State) {
    && |s.starts| == |s.runs|
    && (s.starts != [] ==> s.vars.lastRunAt == s.starts[|s.starts| - 1].at)
    && (s.vars.lastSummary.Some? ==> s.starts != [])
    && (forall i :: 0 < i < |s.starts| && !s.starts[i].forced && s.starts[i].succeededBefore ==>
          s.starts[i].at - s.starts[i - 1].at >= 5 * 60 * 1000)
    && (|s.starts| > 0 ==> !s.starts[0].succeededBefore)
  }

  /** Once any run has succeeded, an unforced start comes at least five minutes
      after the start before it, whether that one succeeded or not. */
  lemma {:induction false} AlwaysThrottled(events: seq<Event>)
    ensures Throttled(Run(events))
  {
    if events != [] {
      AlwaysThrottled(events[..|events| - 1]);
    }
  }

  /** Success is remembered: with a summary in hand every later start is marked so. */
  lemma SuccessIsRemembered(s: State, e: Event)
    requires s.vars.lastSummary.Some?
    ensures Step(s, e).vars.lastSummary.Some?
    ensures |Step(s, e).starts| > |s.starts| ==> Step(s, e).starts[|s.starts|].succeededBefore
  {
  }

  /** A call starts a run exactly when no starter is outstanding and it is forced,
      or nothing has succeeded yet, or five minutes have passed since the last
      start. */
  lemma StartsIff(events: seq<Event>, now: int, force: bool)
    ensures var s := Run(events);
            Decide(s.vars, now, force) == Start
            <==> && (forall run :: 0 <= run < |s.runs| ==> !Outstanding(s, run))
                 && (force
                     || (forall run :: 0 <= run < |s.runs| ==> !Succeeded(s.runs[run]))
                     || (s.starts != [] && now - s.starts[|s.starts| - 1].at >= 5 * 60 * 1000))
  {
    AlwaysSingleFlight(events);
    AlwaysThrottled(events);
    AlwaysSummaryOfLatest(events);
    hide Run, SingleFlight, Throttled, SummaryOfLatest, Decide;
    NoneOutstandingIff(Run(events));
    NoneSucceededIff(Run(events));
    StartDecided(Run(events), now, force);
  }

  lemma NoneOutstandingIff(s: State)
    requires SingleFlight(s)
    ensures s.vars.inFlight.None? <==> forall run :: 0 <= run < |s.runs| ==> !Outstanding(s, run)
  {
  }

  lemma NoneSucceededIff(s: State)
    requires SummaryOfLatest(s)
    ensures s.vars.lastSummary.None? <==> forall run :: 0 <= run < |s.runs| ==> !Succeeded(s.runs[run])
  {
    if s.vars.lastSummary.Some? {
      var run: RunId :| LatestSuccess(s.runs, run);
      assert Succeeded(s.runs[run]);
    }
  }

  lemma StartDecided(s: State, now: int, force: bool)
    requires Throttled(s)
    ensures Decide(s.vars, now, force) == Start
            <==> && s.vars.inFlight.None?
                 && (force || s.vars.lastSummary.None? || (s.starts != [] && now - s.starts[|s.starts| - 1].at >= 5 * 60 * 1000))
  {
  }
}
