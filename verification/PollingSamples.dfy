/** Two programs that poll the progress engine: one that stops the context half-way, one that
    resubmits tasks from the completion callback.  The source polls in a loop until a counter or a
    flag is reached; here a loop also ends when the progress engine has nothing left to report, which
    is where the source polls forever. */
module PollingSamples {
  import opened Collections
  import opened DocaResult
  import opened Contexts
  import opened ProgressEngine

  method AllocateTasks(engine: Engine, n: nat) returns (tasks: seq<Task>)
    requires engine.Valid() && engine.View().state == Running && engine.View().limit == n
    requires engine.View().held == {} && engine.View().flying == {}
    modifies engine
    ensures engine.Valid() && engine.View() == old(engine.View()).(held := engine.View().held)
    ensures |tasks| == n && Distinct(tasks) && forall t :: t in engine.View().held <==> t in tasks
  {
    tasks := [];
    for i := 0 to n
      invariant engine.Valid() && engine.View() == old(engine.View()).(held := engine.View().held)
      invariant |tasks| == i == |engine.View().held| && Distinct(tasks)
      invariant forall t :: t in engine.View().held <==> t in tasks
    {
      var status, t := engine.AllocTask();
      assert status == Done && t !in tasks;
      tasks := tasks + [t];
    }
  }

  /** A client that configures the number of tasks: exactly that many can be allocated. */
  method ExhaustTasks(created: nat, n: nat, stopsOnError: bool) returns (tasks: seq<Task>, last: Status)
    ensures |tasks| == n && Distinct(tasks) && last == Refused(NoMemory)
  {
    var engine := new Engine(created, stopsOnError);
    var status := engine.SetNumTasks(n);
    status := engine.StartCtx(false);
    tasks := AllocateTasks(engine, n);
    DistinctLength(tasks, engine.View().held);
    var extra;
    last, extra := engine.AllocTask();
  }

  /** The first `i` tasks of a context have been submitted. */
  ghost predicate Submitted(start: Context, c: Context, tasks: seq<Task>, i: nat)
    requires i <= |tasks|
  {
    && c == start.(held := c.held, flying := c.flying) && c.held + c.flying == start.held && |c.flying| == i
    && forall j :: i <= j < |tasks| ==> tasks[j] in c.held
  }

  lemma SubmittedStep(start: Context, c: Context, tasks: seq<Task>, i: nat)
    requires i < |tasks| && Distinct(tasks) && Sound(c) && c.state == Running && Submitted(start, c, tasks, i)
    ensures Submitted(start, Step(c, Submit(tasks[i], true)), tasks, i + 1)
  {
    var d := Step(c, Submit(tasks[i], true));
    assert d.held + d.flying == c.held + c.flying;
  }

  lemma SubmittedAll(start: Context, c: Context, tasks: seq<Task>)
    requires Submitted(start, c, tasks, |tasks|) && Sound(c) && c.limit == |tasks|
    ensures c.held == {} && c.flying == start.held
  {
    assert c.held == {};
  }

  method SubmitNext(engine: Engine, tasks: seq<Task>, i: nat, ghost start: Context)
    requires engine.Valid() && i < |tasks| && Distinct(tasks) && Submitted(start, engine.View(), tasks, i)
    requires start.state == Running
    modifies engine
    ensures engine.Valid() && Submitted(start, engine.View(), tasks, i + 1)
  {
    SubmittedStep(start, engine.View(), tasks, i);
    var status := engine.SubmitTask(tasks[i], true);
    assert status == Done;
  }

  method SubmitTasks(engine: Engine, tasks: seq<Task>)
    requires engine.Valid() && engine.View().state == Running && engine.View().limit == |tasks|
    requires engine.View().flying == {} && Distinct(tasks) && forall t :: t in engine.View().held <==> t in tasks
    modifies engine
    ensures engine.Valid() && engine.View() == old(engine.View()).(held := {}, flying := old(engine.View().held))
    ensures |engine.View().flying| == |tasks|
  {
    for i := 0 to |tasks|
      invariant engine.Valid() && Submitted(old(engine.View()), engine.View(), tasks, i)
    {
      SubmitNext(engine, tasks, i, old(engine.View()));
    }
    SubmittedAll(old(engine.View()), engine.View(), tasks);
  }

  /** A running context with `n` tasks in flight. */
  method StartWith(n: nat, stopsOnError: bool) returns (engine: Engine, tasks: seq<Task>)
    ensures fresh(engine) && engine.Valid() && engine.View() == Context(Running, n, stopsOnError, {}, engine.View().flying)
    ensures |engine.View().flying| == n == |tasks| && Distinct(tasks)
    ensures forall t :: t in engine.View().flying <==> t in tasks
  {
    engine := new Engine(n, stopsOnError);
    var status := engine.StartCtx(false);
    tasks := AllocateTasks(engine, n);
    SubmitTasks(engine, tasks);
  }

  /* Stopping half-way. */

  /** After `k` completions with these outcomes the context has been told to stop, by the success
      callback of completion n / 2 or by an error. */
  ghost predicate ToldToStop(n: nat, stopsOnError: bool, ok: seq<bool>, k: nat)
    requires k <= n == |ok|
  {
    || (2 <= n && n / 2 <= k && ok[n / 2 - 1])
    || (stopsOnError && exists i :: 0 <= i < k && !ok[i])
  }

  /** One completion and its callback, which frees the task and asks the context to stop at the
      half-way point.  Some tasks are then still in flight, so stopping is only begun. */
  method CompleteOne(engine: Engine, n: nat, ok: bool, k: nat)
    requires engine.Valid() && k < n && |engine.View().flying| == n - k && engine.View().held == {}
    requires engine.View().state == Running || engine.View().state == Stopping
    modifies engine
    ensures engine.Valid() && |engine.View().flying| == n - k - 1 && engine.View().held == {}
    ensures engine.View().stopsOnError == old(engine.View().stopsOnError)
    ensures engine.View().state == if (ok && k + 1 == n / 2) || (!ok && engine.View().stopsOnError) then Stopping else old(engine.View().state)
  {
    var made := engine.ProgressOnce(ok);
    engine.FreeTask(made.task);
    if made.ok && k + 1 == n / 2 {
      var status := engine.StopCtx();
      assert status == Refused(InProgress);
    }
  }

  method PollForStop(engine: Engine) returns (stopped: bool, extra: nat)
    requires engine.Valid() && engine.View().held == {} && engine.View().flying == {}
    requires engine.state == Running || engine.state == Stopping
    modifies engine
    ensures stopped == old(engine.View().state == Stopping) && stopped == (engine.View().state == Idle)
    ensures extra == if stopped then 1 else 0
  {
    stopped, extra := false, 0;
    var more := true;
    while !stopped && more
      invariant engine.Valid() && extra == if stopped then 1 else 0
      invariant if stopped then engine.View().state == Idle && old(engine.View().state == Stopping) else engine.View() == old(engine.View())
      invariant !more ==> old(engine.View().state != Stopping)
      decreases !stopped, more
    {
      var made := engine.ProgressOnce(true);
      if made == StateChange {
        stopped, extra := true, extra + 1;
      } else {
        more := false;
      }
    }
  }

  /** The context stops exactly when the middle completion is a success or errors stop it; then one
      more call of the progress engine after the last completion takes it to idle.  With at least two
      tasks and errors that stop the context, as for DMA, it always stops. */
  method AsyncStop(n: nat, stopsOnError: bool, ok: seq<bool>) returns (stopped: bool, extra: nat)
    requires |ok| == n
    ensures stopped <==> (2 <= n && ok[n / 2 - 1]) || (stopsOnError && exists i :: 0 <= i < n && !ok[i])
    ensures extra == if stopped then 1 else 0
    ensures 2 <= n && stopsOnError ==> stopped
  {
    var engine, _ := StartWith(n, stopsOnError);
    var completed := 0;
    while completed < n
      invariant completed <= n && engine.Valid() && fresh(engine)
      invariant engine.View().stopsOnError == stopsOnError
      invariant engine.View().held == {} && |engine.View().flying| == n - completed
      invariant engine.View().state == if ToldToStop(n, stopsOnError, ok, completed) then Stopping else Running
    {
      CompleteOne(engine, n, ok[completed], completed);
      completed := completed + 1;
    }
    stopped, extra := PollForStop(engine);
  }

  /* Resubmitting from the callback. */

  /** `n` tasks copy `|ok| == |accept|` buffer pairs; `ok` are the outcomes in order of completion and
      `accept` says which pairs make a valid task. */
  datatype Plan = Plan(n: nat, stopsOnError: bool, ok: seq<bool>, accept: seq<bool>)
  {
    predicate Valid()
    {
      n <= |ok| == |accept|
    }

    /** An error of one of the first `k` completions has stopped the context. */
    predicate StoppedBy(k: nat)
      requires k <= |ok|
    {
      stopsOnError && exists e :: 0 <= e < k && !ok[e]
    }

    /** Resubmission with pair `j` is refused: as invalid, or because the context was stopped by an
        error of one of the completions up to the one whose callback resubmits. */
    predicate IsRefused(j: nat)
      requires Valid() && n <= j < |ok|
    {
      !accept[j] || StoppedBy(j - n + 1)
    }

    /** How many of the resubmissions with pairs n..upto are refused. */
    function Refusals(upto: nat): (r: nat)
      requires Valid() && n <= upto <= |ok|
      ensures r <= upto - n
    {
      if upto == n then 0 else Refusals(upto - 1) + if IsRefused(upto - 1) then 1 else 0
    }
  }

  lemma {:induction false} RefusalsGrow(plan: Plan, upto: nat, later: nat)
    requires plan.Valid() && plan.n <= upto <= later <= |plan.ok|
    ensures plan.Refusals(upto) <= plan.Refusals(later)
  {
    if upto < later {
      RefusalsGrow(plan, upto, later - 1);
    }
  }

  /** Which pair each task in flight uses, how often each pair was released, and the next pair. */
  datatype Pairs = Pairs(of: map<Task, nat>, released: multiset<nat>, next: nat)

  /** A pair below the next one is in flight, or was released once; no other pair is or was. */
  ghost predicate PairAt(p: Pairs, j: nat)
  {
    p.released[j] + (if j in p.of.Values then 1 else 0) == if j < p.next then 1 else 0
  }

  /** No two tasks in flight use the same pair. */
  ghost predicate TasksAt(p: Pairs, t: Task, u: Task)
  {
    t in p.of && u in p.of && p.of[t] == p.of[u] ==> t == u
  }

  ghost predicate Apart(p: Pairs)
  {
    (forall j :: PairAt(p, j)) && (forall t, u :: TasksAt(p, t, u))
  }

  /** The buffers of a completed task are released; it may be resubmitted with the next pair, or the
      next pair is released with it when the resubmission is refused. */
  function Turn(p: Pairs, t: Task, more: bool, again: bool): Pairs
    requires t in p.of
  {
    var freed := Pairs(p.of - {t}, p.released + multiset{p.of[t]}, p.next);
    if !more then freed
    else if again then Pairs(p.of[t := p.next], freed.released, p.next + 1)
    else Pairs(freed.of, freed.released + multiset{p.next}, p.next + 1)
  }

  lemma TurnApart(p: Pairs, t: Task, more: bool, again: bool)
    requires Apart(p) && t in p.of
    ensures Apart(Turn(p, t, more, again))
  {
    var q := Turn(p, t, more, again);
    assert PairAt(p, p.of[t]);
    forall j
      ensures PairAt(q, j)
    {
      assert PairAt(p, j);
      if j in p.of.Values {
        var u :| u in p.of && p.of[u] == j;
        assert TasksAt(p, t, u);
        if u != t {
          assert u in q.of && q.of[u] == j;
        }
      }
      if j in q.of.Values {
        var u :| u in q.of && q.of[u] == j;
        assert TasksAt(p, t, u);
      }
      if more && again {
        assert q.of[t] == p.next;
      }
    }
    forall u, v
      ensures TasksAt(q, u, v)
    {
      assert TasksAt(p, u, v);
      if u in p.of {
        assert PairAt(p, p.of[u]);
      }
      if v in p.of {
        assert PairAt(p, p.of[v]);
      }
    }
  }

  /** Task i starts with pair i. */
  function FirstPairs(tasks: seq<Task>): (p: Pairs)
    requires Distinct(tasks)
    ensures p.next == |tasks| && p.released == multiset{} && Apart(p)
    ensures forall t :: t in p.of <==> t in tasks
  {
    if |tasks| == 0 then Pairs(map[], multiset{}, 0)
    else
      var n := |tasks| - 1;
      assert tasks == tasks[..n] + [tasks[n]];
      var front := FirstPairs(tasks[..n]);
      FirstPairsStep(front, tasks[n]);
      Pairs(front.of[tasks[n] := n], multiset{}, n + 1)
  }

  lemma FirstPairsStep(p: Pairs, t: Task)
    requires Apart(p) && t !in p.of
    ensures Apart(Pairs(p.of[t := p.next], p.released, p.next + 1))
  {
    var q := Pairs(p.of[t := p.next], p.released, p.next + 1);
    forall j
      ensures PairAt(q, j)
    {
      assert PairAt(p, j);
      if j in p.of.Values {
        var u :| u in p.of && p.of[u] == j;
        assert q.of[u] == j;
      }
      assert q.of[t] == p.next;
    }
    forall u, v
      ensures TasksAt(q, u, v)
    {
      assert TasksAt(p, u, v);
      if u in p.of {
        assert PairAt(p, p.of[u]);
      }
      if v in p.of {
        assert PairAt(p, p.of[v]);
      }
    }
  }

  /** The completion callback for a task that `more` pairs wait for, or none: the task is resubmitted
      or freed.  A task whose resubmission is refused is freed and counts as completed again. */
  method Callback(engine: Engine, t: Task, more: bool, valid: bool) returns (again: bool)
    requires engine.Valid() && engine.View().held == {t}
    modifies engine
    ensures engine.Valid() && engine.View() == old(engine.View()).(held := {}, flying := engine.View().flying)
    ensures again <==> more && valid && engine.View().state == Running
    ensures engine.View().flying == old(engine.View().flying) + if again then {t} else {}
  {
    if more {
      var status := engine.SubmitTask(t, valid);
      if status == Done {
        assert engine.View().held == {};
        return true;
      }
    }
    engine.FreeTask(t);
    assert engine.View().held == {};
    again := false;
  }

  /** Where things stand after `k` completions, with `flying` tasks in flight and `next` the next pair. */
  ghost predicate Counted(plan: Plan, k: nat, completed: nat, flying: nat, next: nat)
    requires plan.Valid()
  {
    && k <= completed <= |plan.ok| && next == (if plan.n + k < |plan.ok| then plan.n + k else |plan.ok|)
    && completed + flying == next && completed == k + plan.Refusals(next)
    && (plan.n < next == |plan.ok| ==> plan.Refusals(|plan.ok| - 1) < plan.n)
  }

  lemma CountedStep(plan: Plan, k: nat, completed: nat, flying: nat, next: nat, again: bool)
    requires plan.Valid() && Counted(plan, k, completed, flying, next) && flying > 0 && completed < |plan.ok|
    requires again <==> next < |plan.ok| && plan.accept[next] && !plan.StoppedBy(k + 1)
    ensures var more := next < |plan.ok|;
            Counted(plan, k + 1, completed + (if more && !again then 2 else 1),
                    if again then flying else flying - 1, if more then next + 1 else next)
  {
    if next < |plan.ok| {
      assert plan.IsRefused(next) <==> !again;
    }
  }

  lemma CountedEnd(plan: Plan, k: nat, completed: nat, flying: nat, next: nat)
    requires plan.Valid() && Counted(plan, k, completed, flying, next) && (completed == |plan.ok| || flying == 0)
    ensures flying == 0 && completed == next && plan.n <= completed
    ensures completed < |plan.ok| ==> plan.Refusals(completed) == plan.n
    ensures completed == |plan.ok| <==> |plan.ok| == plan.n || plan.Refusals(|plan.ok| - 1) < plan.n
  {
    if completed < |plan.ok| && plan.n < |plan.ok| {
      RefusalsGrow(plan, next, |plan.ok| - 1);
    }
  }

  ghost predicate Agrees(c: Context, plan: Plan, k: nat, p: Pairs)
    requires k <= |plan.ok|
  {
    && c.stopsOnError == plan.stopsOnError && c.held == {} && p.of.Keys == c.flying
    && c.state == if plan.StoppedBy(k) then Stopping else Running
  }

  lemma AgreesAfter(c: Context, d: Context, plan: Plan, k: nat, p: Pairs, t: Task, again: bool)
    requires k < |plan.ok| && Agrees(c, plan, k, p) && t in c.flying
    requires d.stopsOnError == c.stopsOnError && d.held == {}
    requires d.state == if !plan.ok[k] && c.stopsOnError && c.state == Running then Stopping else c.state
    requires d.flying == c.flying - {t} + if again then {t} else {}
    requires again ==> p.next < |plan.ok|
    ensures Agrees(d, plan, k + 1, Turn(p, t, p.next < |plan.ok|, again))
    ensures |d.flying| == |c.flying| - if again then 0 else 1
  {
    TurnKeys(p, t, p.next < |plan.ok|, again);
    if again {
      assert d.flying == c.flying;
    }
  }

  lemma TurnKeys(p: Pairs, t: Task, more: bool, again: bool)
    requires t in p.of
    ensures Turn(p, t, more, again).of.Keys == p.of.Keys - {t} + if more && again then {t} else {}
  {
  }

  method SubmitFirst(plan: Plan) returns (engine: Engine, p: Pairs)
    requires plan.Valid()
    ensures fresh(engine) && engine.Valid() && Agrees(engine.View(), plan, 0, p) && Apart(p)
    ensures p.next == |engine.View().flying| == plan.n
  {
    var tasks;
    engine, tasks := StartWith(plan.n, plan.stopsOnError);
    p := FirstPairs(tasks);
    assert p.of.Keys == engine.View().flying;
  }

  /** A task completes and is the user's again. */
  method CompleteNext(engine: Engine, ok: bool) returns (t: Task)
    requires engine.Valid() && engine.View().flying != {} && engine.View().held == {}
    modifies engine
    ensures engine.Valid() && t in old(engine.View().flying)
    ensures var c := old(engine.View());
            engine.View() == c.(held := {t}, flying := c.flying - {t},
                                state := if !ok && c.stopsOnError && c.state == Running then Stopping else c.state)
  {
    var made := engine.ProgressOnce(ok);
    t := made.task;
  }

  /** One turn of the polling loop. */
  method CompleteAndResubmit(engine: Engine, plan: Plan, k: nat, p: Pairs) returns (again: bool, q: Pairs)
    requires engine.Valid() && plan.Valid() && k < |plan.ok|
    requires Agrees(engine.View(), plan, k, p) && Apart(p) && engine.View().flying != {}
    modifies engine
    ensures engine.Valid() && Agrees(engine.View(), plan, k + 1, q) && Apart(q)
    ensures again <==> p.next < |plan.ok| && plan.accept[p.next] && !plan.StoppedBy(k + 1)
    ensures |engine.View().flying| == |old(engine.View().flying)| - if again then 0 else 1
    ensures q.next == if p.next < |plan.ok| then p.next + 1 else p.next
  {
    var t := CompleteNext(engine, plan.ok[k]);
    var more := p.next < |plan.ok|;
    again := Callback(engine, t, more, more && plan.accept[p.next]);
    TurnApart(p, t, more, again);
    q := Turn(p, t, more, again);
    AgreesAfter(old(engine.View()), engine.View(), plan, k, p, t, again);
  }

  /** All pairs get completed or refused, so that polling ends, exactly when fewer than `n` of the
      resubmissions before the last one are refused: every refusal takes a task away.  Every pair that
      was used is released once. */
  method Resubmit(plan: Plan) returns (completed: nat, released: multiset<nat>)
    requires plan.Valid()
    ensures completed <= |plan.ok| && forall j: nat :: released[j] == if j < completed then 1 else 0
    ensures completed == |plan.ok| <==> |plan.ok| == plan.n || plan.Refusals(|plan.ok| - 1) < plan.n
    ensures plan.n <= completed && (completed < |plan.ok| ==> plan.Refusals(completed) == plan.n)
  {
    var engine, p := SubmitFirst(plan);
    var k := 0;
    completed := 0;
    while completed < |plan.ok| && engine.inFlight > 0
      invariant engine.Valid() && fresh(engine)
      invariant Counted(plan, k, completed, |engine.View().flying|, p.next)
      invariant Agrees(engine.View(), plan, k, p) && Apart(p)
      decreases |plan.ok| - p.next + |engine.View().flying|
    {
      ghost var flying := |engine.View().flying|;
      var again, q := CompleteAndResubmit(engine, plan, k, p);
      CountedStep(plan, k, completed, flying, p.next, again);
      completed := completed + if p.next < |plan.ok| && !again then 2 else 1;
      p, k := q, k + 1;
    }
    released := p.released;
    CountedEnd(plan, k, completed, |engine.View().flying|, p.next);
    FinallyReleased(p);
  }

  lemma FinallyReleased(p: Pairs)
    requires Apart(p) && forall t :: t !in p.of
    ensures forall j: nat :: p.released[j] == if j < p.next then 1 else 0
  {
    forall j: nat
      ensures p.released[j] == if j < p.next then 1 else 0
    {
      assert PairAt(p, j);
    }
  }

  /** Without invalid tasks, no resubmission is refused up to the first error and all are after it. */
  lemma {:induction false} RefusalsAfterError(plan: Plan, first: nat, upto: nat)
    requires plan.Valid() && plan.stopsOnError && forall j :: 0 <= j < |plan.accept| ==> plan.accept[j]
    requires first < |plan.ok| && !plan.ok[first] && forall e :: 0 <= e < first ==> plan.ok[e]
    requires plan.n <= upto <= |plan.ok|
    ensures plan.Refusals(upto) == if upto <= plan.n + first then 0 else upto - plan.n - first
  {
    if upto > plan.n {
      RefusalsAfterError(plan, first, upto - 1);
      assert plan.IsRefused(upto - 1) <==> first <= upto - 1 - plan.n;
    }
  }

  lemma {:induction false} NoRefusals(plan: Plan, upto: nat)
    requires plan.Valid() && forall j :: 0 <= j < |plan.accept| ==> plan.accept[j]
    requires plan.n <= upto <= |plan.ok| && !plan.StoppedBy(|plan.ok|)
    ensures plan.Refusals(upto) == 0
  {
    if upto > plan.n {
      NoRefusals(plan, upto - 1);
      assert !plan.IsRefused(upto - 1);
    }
  }

  lemma {:induction false} FirstError(ok: seq<bool>, k: nat) returns (first: nat)
    requires k < |ok| && !ok[k]
    ensures first <= k && !ok[first] && forall e :: 0 <= e < first ==> ok[e]
  {
    first := k;
    if e :| 0 <= e < k && !ok[e] {
      first := FirstError(ok, e);
    }
  }

  /** With an engine that errors stop, as they do for DMA, the polling of `Resubmit` ends exactly when
      no completion but the last 2n of them fails: the stop refuses the next n resubmissions, and that
      must be all of the remaining ones but one. */
  lemma ErrorsEndPolling(plan: Plan)
    requires plan.Valid() && plan.stopsOnError && 0 < plan.n < |plan.ok|
    requires forall j :: 0 <= j < |plan.accept| ==> plan.accept[j]
    ensures plan.Refusals(|plan.ok| - 1) < plan.n <==> forall e :: 0 <= e < |plan.ok| - 2 * plan.n ==> plan.ok[e]
  {
    if plan.StoppedBy(|plan.ok|) {
      var k :| 0 <= k < |plan.ok| && !plan.ok[k];
      var first := FirstError(plan.ok, k);
      RefusalsAfterError(plan, first, |plan.ok| - 1);
    } else {
      NoRefusals(plan, |plan.ok| - 1);
    }
  }

  /** The sample: 4 tasks, 16 pairs, valid tasks, and a DMA context. */
  method ResubmitSample(ok: seq<bool>) returns (completed: nat, released: multiset<nat>)
    requires |ok| == 16
    ensures completed == 16 <==> forall e :: 0 <= e < 8 ==> ok[e]
    ensures forall j: nat :: released[j] == if j < completed then 1 else 0
  {
    var plan := Plan(4, true, ok, seq(16, _ => true));
    ErrorsEndPolling(plan);
    completed, released := Resubmit(plan);
  }

  /** If its first completion fails, the four tasks are refused and gone when 8 pairs are accounted
      for: waiting for 16 never ends. */
  method FirstErrorHangs(ok: seq<bool>) returns (completed: nat)
    requires |ok| == 16 && !ok[0]
    ensures completed == 8
  {
    var plan := Plan(4, true, ok, seq(16, _ => true));
    ErrorsEndPolling(plan);
    var released;
    completed, released := Resubmit(plan);
    RefusalsAfterError(plan, 0, completed);
  }
}
