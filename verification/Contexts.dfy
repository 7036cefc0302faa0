/** The life cycle of a context and of the tasks allocated from it. */
module Contexts {
  import opened DocaResult

  type Task = nat

  datatype State = Idle | Starting | Running | Stopping

  /** `limit` is the configured number of tasks; `stopsOnError` says whether a task that completes
      with an error makes the context stop, as it does for DMA. */
  datatype Context = Context(state: State, limit: nat, stopsOnError: bool, held: set<Task>, flying: set<Task>)

  /** Calls of the user, and what the progress engine reports: Connected, Drained and Completed. */
  datatype Event =
    | Configure(limit: nat)
    | Start(background: bool)
    | Connected
    | Stop
    | Drained
    | Alloc(task: Task)
    | Submit(task: Task, valid: bool)
    | Completed(task: Task, ok: bool)
    | Free(task: Task)

  /** The edges of the drawn state machine. */
  predicate Edge(a: State, b: State)
  {
    match a
    case Idle => b == Starting || b == Running
    case Starting => b == Running || b == Stopping
    case Running => b == Stopping
    case Stopping => b == Idle
  }

  /** A user calls Submit and Free only on tasks it owns.  An event of the progress engine can happen
      only when there is something to report: a task in flight, or a stopping context without
      allocated tasks.  A newly allocated task is not one that is already allocated. */
  predicate Enabled(c: Context, e: Event)
  {
    match e
    case Connected => c.state == Starting
    case Drained => c.state == Stopping && c.held == {} && c.flying == {}
    case Alloc(t) => t !in c.held && t !in c.flying
    case Submit(t, _) => t in c.held
    case Completed(t, _) => t in c.flying
    case Free(t) => t in c.held
    case _ => true
  }

  function Answer(c: Context, e: Event): Status
  {
    match e
    case Configure(_) => if c.state == Idle then Done else Refused(BadState)
    case Start(background) =>
      if c.state != Idle then Refused(BadState) else if background then Refused(InProgress) else Done
    case Stop =>
      if c.state == Idle then Refused(BadState)
      else if c.held + c.flying == {} && c.state != Stopping then Done else Refused(InProgress)
    case Alloc(_) =>
      if c.state != Running then Refused(BadState)
      else if |c.held| + |c.flying| >= c.limit then Refused(NoMemory) else Done
    case Submit(_, valid) =>
      if c.state != Running then Refused(BadState) else if !valid then Refused(InvalidValue) else Done
    case _ => Done
  }

  /** The states an event takes the context through, as reported by the state changed callback. */
  function Moves(c: Context, e: Event): seq<State>
  {
    match e
    case Start(background) => if c.state != Idle then [] else if background then [Starting] else [Running]
    case Connected => if c.state == Starting then [Running] else []
    case Stop =>
      if c.state == Idle || c.state == Stopping then []
      else if c.held + c.flying == {} then [Stopping, Idle] else [Stopping]
    case Drained => if Enabled(c, e) then [Idle] else []
    case Completed(t, ok) => if t in c.flying && !ok && c.stopsOnError && c.state == Running then [Stopping] else []
    case _ => []
  }

  function Last(from: State, moves: seq<State>): State
  {
    if |moves| == 0 then from else moves[|moves| - 1]
  }

  function Step(c: Context, e: Event): Context
  {
    if !Enabled(c, e) then c
    else
      var d := c.(state := Last(c.state, Moves(c, e)));
      match e
      case Configure(limit) => if Answer(c, e) == Done then d.(limit := limit) else d
      case Alloc(t) => if Answer(c, e) == Done then d.(held := c.held + {t}) else d
      case Submit(t, _) => if Answer(c, e) == Done then d.(held := c.held - {t}, flying := c.flying + {t}) else d
      case Completed(t, _) => d.(held := c.held + {t}, flying := c.flying - {t})
      case Free(t) => d.(held := c.held - {t})
      case _ => d
  }

  /** A task has one owner, tasks are within the configured number, and there are none before the
      context runs and after it has stopped. */
  ghost predicate Sound(c: Context)
  {
    && c.held !! c.flying && |c.held| + |c.flying| <= c.limit
    && (c.state == Idle || c.state == Starting ==> c.held == {} && c.flying == {})
  }

  lemma HandOverKept(c: Context, e: Event)
    requires Sound(c) && Enabled(c, e) && (e.Submit? || e.Completed?) && Step(c, e).held != c.held
    ensures var d := Step(c, e); d.held !! d.flying && |d.held| + |d.flying| == |c.held| + |c.flying|
  {
    var t, d := e.task, Step(c, e);
    if e.Completed? {
      assert |d.held| == |c.held| + 1 && |d.flying| == |c.flying| - 1;
    } else {
      assert |d.held| == |c.held| - 1 && |d.flying| == |c.flying| + 1;
    }
  }

  lemma OwnershipKept(c: Context, e: Event)
    requires Sound(c) && Enabled(c, e) && (e.Alloc? || e.Submit? || e.Completed? || e.Free?)
    ensures var d := Step(c, e); d.held !! d.flying && |d.held| + |d.flying| <= d.limit
  {
    if (e.Submit? || e.Completed?) && Step(c, e).held != c.held {
      HandOverKept(c, e);
    }
  }

  lemma StopKeepsState(c: Context)
    requires Sound(c)
    ensures var d := Step(c, Stop); d.state == Idle || d.state == Starting ==> d.held == {} && d.flying == {}
  {
    assert c.held + c.flying == {} ==> c.held == {} && c.flying == {};
  }

  lemma TaskKeepsState(c: Context, e: Event)
    requires Sound(c) && (e.Alloc? || e.Submit? || e.Completed? || e.Free?)
    ensures Step(c, e) == c || Step(c, e).state == Running || Step(c, e).state == Stopping
  {
  }

  lemma StateKept(c: Context, e: Event)
    requires Sound(c)
    ensures var d := Step(c, e); d.state == Idle || d.state == Starting ==> d.held == {} && d.flying == {}
  {
    if e.Stop? {
      StopKeepsState(c);
    } else if e.Alloc? || e.Submit? || e.Completed? || e.Free? {
      TaskKeepsState(c, e);
    }
  }

  lemma OthersKept(c: Context, e: Event)
    requires Sound(c) && !(Enabled(c, e) && (e.Alloc? || e.Submit? || e.Completed? || e.Free?))
    ensures var d := Step(c, e); d.held == c.held && d.flying == c.flying && (d.limit == c.limit || c.state == Idle)
  {
  }

  lemma StepSound(c: Context, e: Event)
    requires Sound(c)
    ensures Sound(Step(c, e))
  {
    StateKept(c, e);
    if Enabled(c, e) && (e.Alloc? || e.Submit? || e.Completed? || e.Free?) {
      OwnershipKept(c, e);
    } else {
      OthersKept(c, e);
    }
  }

  function Run(c: Context, events: seq<Event>): Context
  {
    if |events| == 0 then c else Step(Run(c, events[..|events| - 1]), events[|events| - 1])
  }

  function Created(limit: nat, stopsOnError: bool): Context
  {
    Context(Idle, limit, stopsOnError, {}, {})
  }

  lemma {:induction false} RunSound(c: Context, events: seq<Event>)
    requires Sound(c)
    ensures Sound(Run(c, events))
  {
    if |events| > 0 {
      RunSound(c, events[..|events| - 1]);
      StepSound(Run(c, events[..|events| - 1]), events[|events| - 1]);
    }
  }

  /* The configured number of tasks. */

  /** What the last configuration made while the context was idle asked for, or what it was created
      with. */
  function Configured(n: nat, stopsOnError: bool, events: seq<Event>): nat
  {
    if |events| == 0 then n
    else
      var front, e := events[..|events| - 1], events[|events| - 1];
      if e.Configure? && Run(Created(n, stopsOnError), front).state == Idle then e.limit
      else Configured(n, stopsOnError, front)
  }

  /** After any run there are no more tasks than configured; and while the context runs, allocation is
      refused for lack of tasks exactly when there are as many. */
  lemma {:induction false} WithinConfigured(n: nat, stopsOnError: bool, events: seq<Event>)
    ensures var c, most := Run(Created(n, stopsOnError), events), Configured(n, stopsOnError, events);
            && c.limit == most && |c.held| + |c.flying| <= most
            && (c.state == Running ==> forall t ::
                  Answer(c, Alloc(t)) == if |c.held| + |c.flying| == most then Refused(NoMemory) else Done)
  {
    RunSound(Created(n, stopsOnError), events);
    if |events| > 0 {
      WithinConfigured(n, stopsOnError, events[..|events| - 1]);
    }
  }

  /* The drawn state machine. */

  /** All states a run goes through. */
  function Visited(c: Context, events: seq<Event>): seq<State>
  {
    if |events| == 0 then [c.state]
    else
      var front := events[..|events| - 1];
      Visited(c, front) + Moves(Run(c, front), events[|events| - 1])
  }

  ghost predicate Path(states: seq<State>)
  {
    forall i: nat :: i + 1 < |states| ==> Edge(states[i], states[i + 1])
  }

  lemma JoinPaths(a: seq<State>, b: seq<State>)
    requires Path(a) && |a| > 0 && Path([a[|a| - 1]] + b)
    ensures Path(a + b) && (a + b)[|a + b| - 1] == Last(a[|a| - 1], b)
  {
    var c := [a[|a| - 1]] + b;
    forall i: nat | i + 1 < |a + b|
      ensures Edge((a + b)[i], (a + b)[i + 1])
    {
      if i + 1 >= |a| {
        assert Edge(c[i + 1 - |a|], c[i + 2 - |a|]);
      }
    }
  }

  lemma MovesEnd(c: Context, e: Event)
    ensures Step(c, e).state == Last(c.state, Moves(c, e))
  {
  }

  lemma MovesAlongEdges(c: Context, e: Event)
    ensures Path([c.state] + Moves(c, e))
  {
  }

  /** Every run follows the drawn edges, whatever calls are made in whatever state, and the states
      reported are the ones the context is in. */
  lemma {:induction false} RunFollowsDrawing(c: Context, events: seq<Event>)
    ensures var v := Visited(c, events);
            |v| > 0 && v[0] == c.state && v[|v| - 1] == Run(c, events).state && Path(v)
  {
    if |events| > 0 {
      var front, e := events[..|events| - 1], events[|events| - 1];
      RunFollowsDrawing(c, front);
      var d, v := Run(c, front), Visited(c, front);
      MovesAlongEdges(d, e);
      MovesEnd(d, e);
      assert v[|v| - 1] == d.state;
      JoinPaths(v, Moves(d, e));
    }
  }

  /* Submissions and completions. */

  predicate Accepts(c: Context, e: Event, t: Task)
  {
    e.Submit? && e.task == t && Enabled(c, e) && Answer(c, e) == Done
  }

  predicate Completes(c: Context, e: Event, t: Task)
  {
    e.Completed? && e.task == t && Enabled(c, e)
  }

  /** How often a task was submitted with success. */
  function Submissions(c: Context, events: seq<Event>, t: Task): nat
  {
    if |events| == 0 then 0
    else
      var front := events[..|events| - 1];
      Submissions(c, front, t) + if Accepts(Run(c, front), events[|events| - 1], t) then 1 else 0
  }

  /** How often it completed, with success or with an error. */
  function Completions(c: Context, events: seq<Event>, t: Task): nat
  {
    if |events| == 0 then 0
    else
      var front := events[..|events| - 1];
      Completions(c, front, t) + if Completes(Run(c, front), events[|events| - 1], t) then 1 else 0
  }

  function InFlight(c: Context, t: Task): nat
  {
    if t in c.flying then 1 else 0
  }

  lemma StepCompletes(c: Context, e: Event, t: Task)
    requires Sound(c)
    ensures (if Accepts(c, e, t) then 1 else 0) + InFlight(c, t)
         == (if Completes(c, e, t) then 1 else 0) + InFlight(Step(c, e), t)
  {
  }

  /** At every point of every run a task has completed as often as it was submitted, except for the
      one submission that is in flight; when the context is idle there is no exception.  Applied to all
      prefixes: submissions and completions of a task alternate. */
  lemma {:induction false} SubmissionsComplete(c: Context, events: seq<Event>, t: Task)
    requires Sound(c)
    ensures Sound(Run(c, events))
    ensures Submissions(c, events, t) + InFlight(c, t) == Completions(c, events, t) + InFlight(Run(c, events), t)
    ensures c.state == Idle && Run(c, events).state == Idle ==> Submissions(c, events, t) == Completions(c, events, t)
  {
    RunSound(c, events);
    if |events| > 0 {
      var front := events[..|events| - 1];
      SubmissionsComplete(c, front, t);
      StepCompletes(Run(c, front), events[|events| - 1], t);
    }
  }

  function AllSubmissions(c: Context, events: seq<Event>): nat
  {
    if |events| == 0 then 0
    else
      var front, e := events[..|events| - 1], events[|events| - 1];
      AllSubmissions(c, front) + if e.Submit? && Accepts(Run(c, front), e, e.task) then 1 else 0
  }

  function AllCompletions(c: Context, events: seq<Event>): nat
  {
    if |events| == 0 then 0
    else
      var front, e := events[..|events| - 1], events[|events| - 1];
      AllCompletions(c, front) + if e.Completed? && Completes(Run(c, front), e, e.task) then 1 else 0
  }

  lemma StepInFlight(c: Context, e: Event)
    requires Sound(c)
    ensures |Step(c, e).flying| + (if e.Completed? && Completes(c, e, e.task) then 1 else 0)
         == |c.flying| + (if e.Submit? && Accepts(c, e, e.task) then 1 else 0)
  {
  }

  /** The number in flight is submissions minus completions. */
  lemma {:induction false} InFlightCount(c: Context, events: seq<Event>)
    requires Sound(c)
    ensures |Run(c, events).flying| + AllCompletions(c, events) == |c.flying| + AllSubmissions(c, events)
  {
    if |events| > 0 {
      var front, e := events[..|events| - 1], events[|events| - 1];
      InFlightCount(c, front);
      RunSound(c, front);
      StepInFlight(Run(c, front), e);
    }
  }

  /* Stopping. */

  /** The context is stopping before each event of the run. */
  predicate StaysStopping(c: Context, events: seq<Event>)
  {
    |events| == 0 || (Run(c, events[..|events| - 1]).state == Stopping && StaysStopping(c, events[..|events| - 1]))
  }

  lemma StoppingStep(c: Context, e: Event)
    requires c.state == Stopping
    ensures !(e.Submit? && Accepts(c, e, e.task))
    ensures Step(c, e).held + Step(c, e).flying <= c.held + c.flying
    ensures Step(c, e).state == Stopping || Step(c, e).state == Idle
  {
  }

  /** Once a context is stopping, nothing is submitted or allocated until it is idle, whatever is
      called.  So every completion takes one task out of flight for good. */
  lemma {:induction false} NothingEntersWhileStopping(c: Context, events: seq<Event>)
    requires Sound(c) && c.state == Stopping && StaysStopping(c, events)
    ensures AllSubmissions(c, events) == 0
    ensures |Run(c, events).flying| == |c.flying| - AllCompletions(c, events)
    ensures Run(c, events).held + Run(c, events).flying <= c.held + c.flying
    ensures Run(c, events).state == Stopping || Run(c, events).state == Idle
  {
    InFlightCount(c, events);
    if |events| > 0 {
      var front, e := events[..|events| - 1], events[|events| - 1];
      NothingEntersWhileStopping(c, front);
      StoppingStep(Run(c, front), e);
    }
  }

  /** It is idle after exactly as many completions as tasks were in flight, one per task, and by then
      every task has been freed. */
  lemma StopDrainsExactly(c: Context, events: seq<Event>)
    requires Sound(c) && c.state == Stopping && StaysStopping(c, events) && Run(c, events).state == Idle
    ensures AllCompletions(c, events) == |c.flying|
    ensures forall t :: Completions(c, events, t) == InFlight(c, t)
    ensures Run(c, events).held == {} && Run(c, events).flying == {}
  {
    NothingEntersWhileStopping(c, events);
    RunSound(c, events);
    forall t
      ensures Completions(c, events, t) == InFlight(c, t)
    {
      SubmissionsComplete(c, events, t);
      NoSubmissions(c, events, t);
    }
  }

  lemma {:induction false} NoSubmissions(c: Context, events: seq<Event>, t: Task)
    ensures Submissions(c, events, t) <= AllSubmissions(c, events)
  {
    if |events| > 0 {
      NoSubmissions(c, events[..|events| - 1], t);
    }
  }

  /* Reaching idle. */

  /** Something that takes a stopping context further: a completion, the user freeing a task, or the
      end of stopping. */
  predicate Effective(c: Context, e: Event)
  {
    Enabled(c, e) && (e.Completed? || e.Free? || e.Drained?)
  }

  predicate AllEffective(c: Context, events: seq<Event>)
  {
    |events| == 0 ||
    (AllEffective(c, events[..|events| - 1]) && Effective(Run(c, events[..|events| - 1]), events[|events| - 1]))
  }

  /** How many such events are left: a completion and a free for each task in flight, a free for each
      task of the user, and the end. */
  function StepsToIdle(c: Context): nat
  {
    if c.state == Stopping then 2 * |c.flying| + |c.held| + 1 else 0
  }

  lemma EffectiveStep(c: Context, e: Event)
    requires Sound(c) && c.state == Stopping && Effective(c, e)
    ensures StepsToIdle(Step(c, e)) + 1 == StepsToIdle(c)
  {
    match e
    case Completed(t, _) =>
      assert t !in c.held;
      assert |c.held + {t}| == |c.held| + 1 && |c.flying - {t}| == |c.flying| - 1;
    case _ =>
  }

  /** Stopping cannot get stuck. */
  lemma StoppingGoesOn(c: Context) returns (e: Event)
    requires c.state == Stopping
    ensures Effective(c, e)
  {
    if c.flying != {} {
      var t :| t in c.flying;
      e := Completed(t, true);
    } else if c.held != {} {
      var t :| t in c.held;
      e := Free(t);
    } else {
      e := Drained;
    }
  }

  /** However completions and frees interleave, a stopping context is idle after a fixed number of
      effective events and not before; and by then it had as many completions as tasks were in
      flight. */
  lemma {:induction false} EveryDrainEnds(c: Context, events: seq<Event>)
    requires Sound(c) && c.state == Stopping && AllEffective(c, events)
    ensures StaysStopping(c, events) && |events| + StepsToIdle(Run(c, events)) == StepsToIdle(c)
    ensures Run(c, events).state == Idle <==> |events| == StepsToIdle(c)
    ensures |events| == StepsToIdle(c) ==> AllCompletions(c, events) == |c.flying|
  {
    if |events| > 0 {
      var front, e := events[..|events| - 1], events[|events| - 1];
      EveryDrainEnds(c, front);
      RunSound(c, front);
      EffectiveNeedsStopping(Run(c, front), e);
      EffectiveStep(Run(c, front), e);
      StoppingStep(Run(c, front), e);
    }
    if Run(c, events).state == Idle {
      StopDrainsExactly(c, events);
    }
  }

  lemma EffectiveNeedsStopping(c: Context, e: Event)
    requires Sound(c) && (c.state == Stopping || c.state == Idle) && Effective(c, e)
    ensures c.state == Stopping
  {
  }

  lemma RunAppended(c: Context, events: seq<Event>, e: Event)
    ensures Run(c, events + [e]) == Step(Run(c, events), e)
    ensures AllEffective(c, events) && Effective(Run(c, events), e) ==> AllEffective(c, events + [e])
  {
    assert (events + [e])[..|events|] == events;
  }

  /** Progress takes every stopping context to idle, in exactly as many completions as tasks were in
      flight. */
  lemma StopReachesIdle(c: Context) returns (events: seq<Event>)
    requires Sound(c) && c.state == Stopping
    ensures AllEffective(c, events) && StaysStopping(c, events) && Run(c, events).state == Idle
    ensures AllCompletions(c, events) == |c.flying|
  {
    events := [];
    while Run(c, events).state != Idle
      invariant AllEffective(c, events)
      invariant |events| <= StepsToIdle(c) && (Run(c, events).state != Idle ==> Run(c, events).state == Stopping)
      decreases StepsToIdle(c) - |events|
    {
      EveryDrainEnds(c, events);
      var e := StoppingGoesOn(Run(c, events));
      RunAppended(c, events, e);
      events := events + [e];
      EveryDrainEnds(c, events);
      StoppingStep(Run(c, events[..|events| - 1]), e);
    }
    EveryDrainEnds(c, events);
  }

  /** After any run in which a context is stopping, the next progress makes it idle exactly if as many
      completions were seen as tasks were in flight and the user has freed all tasks. */
  lemma IdleAfterLastCompletion(c: Context, events: seq<Event>)
    requires Sound(c) && c.state == Stopping && StaysStopping(c, events) && Run(c, events).state == Stopping
    ensures Step(Run(c, events), Drained).state == Idle
       <==> AllCompletions(c, events) == |c.flying| && Run(c, events).held == {}
  {
    NothingEntersWhileStopping(c, events);
  }
}
