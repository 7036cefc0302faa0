/** A context that keeps its tasks in slots, driven by its progress engine. */
module ProgressEngine {
  import opened DocaResult
  import opened Contexts

  /** Who owns the task of a slot; a task that is nobody's is not allocated. */
  datatype Owner = Nobody | User | Library

  function OwnedBy(slots: seq<Owner>, o: Owner): set<Task>
  {
    set i | 0 <= i < |slots| && slots[i] == o
  }

  lemma OwnersAfter(slots: seq<Owner>, i: nat, o: Owner, p: Owner)
    requires i < |slots| && slots[i] != o
    ensures p == o ==> OwnedBy(slots[i := o], p) == OwnedBy(slots, p) + {i} && i !in OwnedBy(slots, p)
    ensures p == slots[i] ==> OwnedBy(slots[i := o], p) == OwnedBy(slots, p) - {i} && i in OwnedBy(slots, p)
    ensures p != o && p != slots[i] ==> OwnedBy(slots[i := o], p) == OwnedBy(slots, p)
  {
    var after := slots[i := o];
    forall j
      ensures j in OwnedBy(after, p) <==> (j == i && p == o) || (j != i && j in OwnedBy(slots, p))
    {
    }
  }

  /** Handing a task over takes it from one owner and gives it to another. */
  lemma HandedOver(slots: seq<Owner>, i: nat, o: Owner, p: Owner)
    requires i < |slots| && slots[i] != o
    ensures OwnedBy(slots[i := o], p)
         == if p == o then OwnedBy(slots, p) + {i} else if p == slots[i] then OwnedBy(slots, p) - {i} else OwnedBy(slots, p)
    ensures |OwnedBy(slots[i := o], p)|
         == |OwnedBy(slots, p)| + (if p == o then 1 else 0) - (if p == slots[i] then 1 else 0)
  {
    OwnersAfter(slots, i, o, p);
  }

  /** Every slot has one owner. */
  lemma {:induction false} OwnersAddUp(slots: seq<Owner>)
    ensures |OwnedBy(slots, Nobody)| + |OwnedBy(slots, User)| + |OwnedBy(slots, Library)| == |slots|
  {
    if |slots| > 0 {
      var n := |slots| - 1;
      OwnersAddUp(slots[..n]);
      LastSlot(slots, Nobody);
      LastSlot(slots, User);
      LastSlot(slots, Library);
    }
  }

  lemma LastSlot(slots: seq<Owner>, o: Owner)
    requires |slots| > 0
    ensures |OwnedBy(slots, o)| == |OwnedBy(slots[..|slots| - 1], o)| + if slots[|slots| - 1] == o then 1 else 0
  {
    var n := |slots| - 1;
    assert OwnedBy(slots, o) == OwnedBy(slots[..n], o) + if slots[n] == o then {n} else {};
    assert n !in OwnedBy(slots[..n], o);
  }

  function Unused(n: nat): (slots: seq<Owner>)
    ensures |slots| == n && forall i :: 0 <= i < n ==> slots[i] == Nobody
  {
    seq(n, _ => Nobody)
  }

  /** What a call of the progress engine did. */
  datatype Progress = Nothing | TaskDone(task: Task, ok: bool) | StateChange

  class Engine {
    var state: State
    var stopsOnError: bool
    var slots: seq<Owner>
    var inFlight: nat
    var inUse: nat

    ghost function View(): Context
      reads this
    {
      Context(state, |slots|, stopsOnError, OwnedBy(slots, User), OwnedBy(slots, Library))
    }

    /** The counters are right. */
    ghost predicate Valid()
      reads this
    {
      && Sound(View())
      && inFlight == |OwnedBy(slots, Library)| && inUse == |OwnedBy(slots, User)| + |OwnedBy(slots, Library)|
    }

    constructor (limit: nat, stopsOnError: bool)
      ensures Valid() && View() == Created(limit, stopsOnError)
    {
      state, this.stopsOnError, slots, inFlight, inUse := Idle, stopsOnError, Unused(limit), 0, 0;
      new;
      assert OwnedBy(slots, User) == {} && OwnedBy(slots, Library) == {};
    }

    /** The number of tasks is configured while the context is idle; all slots are then unused. */
    method SetNumTasks(limit: nat) returns (status: Status)
      requires Valid()
      modifies this
      ensures Valid() && View() == old(Step(View(), Configure(limit)))
      ensures status == if old(state) == Idle then Done else Refused(BadState)
      ensures View() == if status == Done then Context(Idle, limit, stopsOnError, {}, {}) else old(View())
      ensures stopsOnError == old(stopsOnError)
    {
      if state != Idle {
        return Refused(BadState);
      }
      slots := Unused(limit);
      assert OwnedBy(slots, User) == {} && OwnedBy(slots, Library) == {};
      status := Done;
    }

    /** From idle only: running at once, or starting in the background. */
    method StartCtx(background: bool) returns (status: Status)
      requires Valid()
      modifies this`state
      ensures Valid() && View() == old(Step(View(), Start(background)))
      ensures old(state) != Idle ==> status == Refused(BadState) && state == old(state)
      ensures old(state) == Idle && !background ==> status == Done && state == Running
      ensures old(state) == Idle && background ==> status == Refused(InProgress) && state == Starting
    {
      if state != Idle {
        return Refused(BadState);
      }
      state := if background then Starting else Running;
      status := if background then Refused(InProgress) else Done;
    }

    /** Idle at once if there are no tasks, which is known from the count, and else stopping. */
    method StopCtx() returns (status: Status)
      requires Valid()
      modifies this`state
      ensures Valid() && View() == old(Step(View(), Stop))
      ensures old(state) == Idle ==> status == Refused(BadState) && state == Idle
      ensures old(state) != Idle ==>
                if old(state) != Stopping && old(View().held) == {} && old(View().flying) == {}
                then status == Done && state == Idle
                else status == Refused(InProgress) && state == Stopping
    {
      if state == Idle {
        return Refused(BadState);
      }
      assert inUse == 0 <==> View().held + View().flying == {};
      if state == Stopping || inUse > 0 {
        state := Stopping;
        return Refused(InProgress);
      }
      state := Idle;
      status := Done;
    }

    /** Looks for a slot that is nobody's. */
    method FindUnused() returns (found: bool, task: Task)
      requires Valid()
      ensures found <==> |View().held| + |View().flying| < |slots|
      ensures found ==> task < |slots| && slots[task] == Nobody
    {
      OwnersAddUp(slots);
      task := 0;
      while task < |slots| && slots[task] != Nobody
        invariant task <= |slots| && forall i :: 0 <= i < task ==> slots[i] != Nobody
      {
        task := task + 1;
      }
      found := task < |slots|;
      if found {
        assert task in OwnedBy(slots, Nobody);
      } else {
        assert OwnedBy(slots, Nobody) == {};
      }
    }

    method AllocTask() returns (status: Status, task: Task)
      requires Valid()
      modifies this`slots, this`inUse
      ensures Valid() && status == old(Answer(View(), Alloc(task)))
      ensures status == Refused(BadState) <==> state != Running
      ensures status == Refused(NoMemory) <==> state == Running && |old(View().held)| + |old(View().flying)| == |slots|
      ensures status == Done ==>
                && old(Enabled(View(), Alloc(task))) && View() == old(Step(View(), Alloc(task)))
                && task !in old(View().held) && task !in old(View().flying)
                && View() == old(View()).(held := old(View().held) + {task})
      ensures status != Done ==> View() == old(View())
    {
      var found;
      found, task := FindUnused();
      if state != Running {
        return Refused(BadState), task;
      }
      if !found {
        return Refused(NoMemory), task;
      }
      StepSound(View(), Alloc(task));
      Hand(task, User);
      inUse := inUse + 1;
      status := Done;
    }

    /** Changes the owner of a slot. */
    method Hand(task: Task, o: Owner)
      requires task < |slots| && slots[task] != o
      modifies this`slots
      ensures slots == old(slots)[task := o]
      ensures var was := old(slots)[task];
              forall p :: |OwnedBy(slots, p)| == |old(OwnedBy(slots, p))| + (if p == o then 1 else 0) - (if p == was then 1 else 0)
      ensures var was := old(slots)[task];
              forall p :: OwnedBy(slots, p) == if p == o then old(OwnedBy(slots, p)) + {task}
                                               else if p == was then old(OwnedBy(slots, p)) - {task}
                                               else old(OwnedBy(slots, p))
    {
      forall p
        ensures |OwnedBy(slots[task := o], p)|
             == |OwnedBy(slots, p)| + (if p == o then 1 else 0) - (if p == slots[task] then 1 else 0)
        ensures OwnedBy(slots[task := o], p) == if p == o then OwnedBy(slots, p) + {task}
                                                else if p == slots[task] then OwnedBy(slots, p) - {task}
                                                else OwnedBy(slots, p)
      {
        HandedOver(slots, task, o, p);
      }
      slots := slots[task := o];
    }

    method SubmitTask(task: Task, valid: bool) returns (status: Status)
      requires Valid() && task in View().held
      modifies this`slots, this`inFlight
      ensures Valid() && View() == old(Step(View(), Submit(task, valid)))
      ensures status == if state != Running then Refused(BadState) else if !valid then Refused(InvalidValue) else Done
      ensures var c := old(View());
              View() == if status == Done then c.(held := c.held - {task}, flying := c.flying + {task}) else c
    {
      if state != Running {
        return Refused(BadState);
      }
      if !valid {
        return Refused(InvalidValue);
      }
      StepSound(View(), Submit(task, valid));
      Hand(task, Library);
      inFlight := inFlight + 1;
      status := Done;
    }

    method FreeTask(task: Task)
      requires Valid() && task in View().held
      modifies this`slots, this`inUse
      ensures Valid() && View() == old(Step(View(), Free(task)))
      ensures View() == old(View()).(held := old(View().held) - {task})
    {
      StepSound(View(), Free(task));
      Hand(task, Nobody);
      inUse := inUse - 1;
    }

    /** The counter is the number of tasks that the library owns. */
    method GetNumInflightTasks() returns (n: nat)
      requires Valid()
      ensures n == |View().flying|
    {
      n := inFlight;
    }

    /** One call of the progress engine in which the device reports whatever there is to report: any
        task in flight, with the outcome `ok`, or else the end of starting or of stopping. */
    method ProgressOnce(ok: bool) returns (made: Progress)
      requires Valid()
      modifies this
      ensures Valid()
      ensures made.TaskDone? <==> old(View().flying) != {}
      ensures made.TaskDone? ==>
                made.task in old(View().flying) && made.ok == ok && View() == old(Step(View(), Completed(made.task, ok)))
      ensures made.TaskDone? ==>
                var c := old(View());
                View() == c.(held := c.held + {made.task}, flying := c.flying - {made.task},
                             state := if !ok && c.stopsOnError && c.state == Running then Stopping else c.state)
      ensures made == StateChange <==>
                old(View().flying) == {} && (old(state) == Starting || (old(state) == Stopping && old(View().held) == {}))
      ensures made == StateChange ==> View() == old(View()).(state := if old(state) == Starting then Running else Idle)
      ensures made == Nothing ==> View() == old(View())
    {
      if inFlight > 0 {
        assert OwnedBy(slots, Library) != {};
        var t :| 0 <= t < |slots| && slots[t] == Library;
        Complete(t, ok);
        return TaskDone(t, ok);
      }
      assert inUse == 0 <==> View().held == {};
      if state == Stopping && inUse == 0 {
        state := Idle;
        return StateChange;
      }
      if state == Starting {
        state := Running;
        return StateChange;
      }
      made := Nothing;
    }

    method Complete(t: Task, ok: bool)
      requires Valid() && t in View().flying
      modifies this
      ensures Valid() && View() == old(Step(View(), Completed(t, ok)))
    {
      StepSound(View(), Completed(t, ok));
      Hand(t, User);
      inFlight := inFlight - 1;
      if !ok && stopsOnError && state == Running {
        state := Stopping;
      }
    }
  }
}
