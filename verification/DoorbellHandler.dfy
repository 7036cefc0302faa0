/** The documented handler for multiple doorbells as a program over a device whose state changes in
    place, with the host driver writing doorbells between any two of its calls. */
module DoorbellHandler {
  import opened Collections
  import opened Doorbell
  import opened DoorbellGuarantees

  const DOCUMENTED := Flow(true, true)

  /** `budget` is how many more calls driver and host make while the handler runs: any number, but
      not without end.  `gone` are the doorbells destroyed since the handler last woke up. */
  class Device {
    var bells: map<Db, Bell>
    var max: nat
    var queue: seq<Db>
    var taken: seq<Db>
    var contextArmed: bool
    var wake: bool
    var place: Place
    var budget: nat
    ghost var trace: seq<Event>
    ghost var gone: set<Db>

    ghost function View(): State
      reads this
    {
      State(bells, max, queue, taken, contextArmed, wake, place)
    }

    /** The device is where the protocol gets by the recorded events; so everything that holds of
        reachable states holds of it. */
    ghost predicate Valid()
      reads this
    {
      View() == Run(DOCUMENTED, Initial(max), trace)
    }

    constructor (max: nat, budget: nat)
      ensures Valid() && View() == Initial(max) && this.budget == budget
    {
      bells, this.max, queue, taken, this.budget := map[], max, [], [], budget;
      contextArmed, wake, place, trace, gone := true, false, Asleep, [], {};
    }

    /* The host. */

    /** A new doorbell is stopped, unbound and armed; there are at most `max`. */
    method CreateDb(db: Db) returns (done: bool)
      requires Valid()
      modifies this`bells, this`trace
      ensures Valid() && trace == old(trace) + [Create(db)]
      ensures done <==> db !in old(bells) && |old(bells)| < max
      ensures bells == if done then old(bells)[db := Bell(false, false, true, 0, 0, 0, 0, 0)] else old(bells)
    {
      done := db !in bells && |bells| < max;
      if done {
        bells := bells[db := Bell(false, false, true, 0, 0, 0, 0, 0)];
      }
      Record(Create(db));
    }

    /** Only a stopped and unbound doorbell without outstanding completion is destroyed, and none
        that the handler is about to read. */
    method DestroyDb(db: Db) returns (done: bool)
      requires Valid()
      modifies this`bells, this`trace, this`gone
      ensures Valid() && trace == old(trace) + [Destroy(db)]
      ensures done <==>
                && db in old(bells) && !old(bells)[db].started && !old(bells)[db].bound
                && db !in old(queue) && db !in InHand(old(place))
      ensures bells == (if done then old(bells) - {db} else old(bells)) && gone == old(gone) + if done then {db} else {}
    {
      if db in bells {
        NotOutstanding(db);
      }
      done := db in bells && !bells[db].started && !bells[db].bound && bells[db].armed
              && (place.Between? ==> db !in place.todo);
      if done {
        bells, gone := bells - {db}, gone + {db};
      }
      Record(Destroy(db));
    }

    /** From now on a write rings, if the doorbell is started and armed.  Fails if there is no such
        doorbell. */
    method BindDb(db: Db) returns (done: bool)
      requires Valid()
      modifies this`bells, this`trace
      ensures Valid() && trace == old(trace) + [Bind(db)] && done == (db in old(bells)) && Quiet(old(bells), bells)
      ensures done ==> (Rings(bells, db) <==> old(bells)[db].started && old(bells)[db].armed)
      ensures forall d :: d != db ==> (Rings(bells, d) <==> Rings(old(bells), d))
    {
      done := db in bells;
      if done {
        bells := bells[db := bells[db].(bound := true)];
      }
      Record(Bind(db));
    }

    /** From now on no write rings. */
    method UnbindDb(db: Db) returns (done: bool)
      requires Valid()
      modifies this`bells, this`trace
      ensures Valid() && trace == old(trace) + [Unbind(db)] && done == (db in old(bells)) && Quiet(old(bells), bells)
      ensures !Rings(bells, db) && forall d :: d != db ==> (Rings(bells, d) <==> Rings(old(bells), d))
    {
      done := db in bells;
      if done {
        bells := bells[db := bells[db].(bound := false)];
      }
      Record(Unbind(db));
    }

    /** From now on a write rings, if the doorbell is bound and armed. */
    method StartDb(db: Db) returns (done: bool)
      requires Valid()
      modifies this`bells, this`trace
      ensures Valid() && trace == old(trace) + [Start(db)] && done == (db in old(bells)) && Quiet(old(bells), bells)
      ensures done ==> (Rings(bells, db) <==> old(bells)[db].bound && old(bells)[db].armed)
      ensures forall d :: d != db ==> (Rings(bells, d) <==> Rings(old(bells), d))
    {
      done := db in bells;
      if done {
        bells := bells[db := bells[db].(started := true)];
      }
      Record(Start(db));
    }

    /** From now on no write rings. */
    method StopDb(db: Db) returns (done: bool)
      requires Valid()
      modifies this`bells, this`trace
      ensures Valid() && trace == old(trace) + [Stop(db)] && done == (db in old(bells)) && Quiet(old(bells), bells)
      ensures !Rings(bells, db) && forall d :: d != db ==> (Rings(bells, d) <==> Rings(old(bells), d))
    {
      done := db in bells;
      if done {
        bells := bells[db := bells[db].(started := false)];
      }
      Record(Stop(db));
    }

    /** An event that has happened is added to the record. */
    ghost method Record(e: Event)
      requires View() == Step(DOCUMENTED, Run(DOCUMENTED, Initial(max), trace), e)
      modifies this`trace
      ensures Valid() && trace == old(trace) + [e]
    {
      RunUnfolds(DOCUMENTED, Initial(max), trace, e);
      trace := trace + [e];
    }

    /* The driver. */

    /** The driver writes a doorbell (or the host modifies its value).  The write rings, that is, it
        queues one completion, if the doorbell is started, bound and armed; then the doorbell is not
        armed any more, and a thread whose context is armed is woken.  Any other write is silent. */
    method WriteDoorbell(db: Db, value: nat)
      requires Valid() && db in bells
      modifies this`bells, this`queue, this`contextArmed, this`wake, this`trace
      ensures Valid() && trace == old(trace) + [Write(db, value)]
      ensures bells.Keys == old(bells).Keys && forall d :: d in bells && d != db ==> bells[d] == old(bells)[d]
      ensures var b, c := old(bells)[db], bells[db];
              var rings := Rings(old(bells), db);
              && c.value == value && c.writes == b.writes + 1
              && c.due == (if b.started && b.bound then c.writes else b.due)
              && c.seen == b.seen && c.read == b.read && c.started == b.started && c.bound == b.bound
              && c.armed == (b.armed && !rings)
              && queue == old(queue) + (if rings then [db] else [])
              && wake == (old(wake) || (rings && old(contextArmed)))
              && contextArmed == (old(contextArmed) && !rings)
    {
      var b := bells[db];
      var c := b.(value := value, writes := b.writes + 1);
      if b.started && b.bound {
        c := c.(due := c.writes);
        if b.armed {
          c := c.(armed := false);
          queue := queue + [db];
          wake := wake || contextArmed;
          contextArmed := false;
        }
      }
      bells := bells[db := c];
      Record(Write(db, value));
    }

    /** One call by the driver or the host, on any doorbell. */
    method OtherCall()
      requires Valid()
      modifies this`bells, this`queue, this`contextArmed, this`wake, this`trace, this`gone
      ensures Valid() && old(gone) <= gone && OthersActed(old(View()), View(), gone)
    {
      var db: Db, value: nat := *, *;
      if * {
        CreateOrDestroy(db);
      } else if db in bells {
        if * {
          DriverWrites(db, value);
        } else {
          ChangeDb(db);
        }
      }
    }

    method CreateOrDestroy(db: Db)
      requires Valid()
      modifies this`bells, this`trace, this`gone
      ensures Valid() && old(gone) <= gone && OthersActed(old(View()), View(), gone)
    {
      if * {
        var _ := CreateDb(db);
      } else {
        var _ := DestroyDb(db);
      }
    }

    method DriverWrites(db: Db, value: nat)
      requires Valid() && db in bells
      modifies this`bells, this`queue, this`contextArmed, this`wake, this`trace
      ensures Valid() && OthersActed(old(View()), View(), gone)
    {
      DueIsWritten(db);
      WriteDoorbell(db, value);
    }

    /** A doorbell is bound, unbound, started or stopped. */
    method ChangeDb(db: Db)
      requires Valid()
      modifies this`bells, this`trace
      ensures Valid() && OthersActed(old(View()), View(), gone)
    {
      ghost var before := View();
      if * {
        var _ := BindDb(db);
      } else if * {
        var _ := UnbindDb(db);
      } else if * {
        var _ := StartDb(db);
      } else {
        var _ := StopDb(db);
      }
      QuietIsKept(before, View(), gone);
    }

    /** Any number of calls by the driver and the host, within the budget. */
    method Interfere()
      requires Valid()
      modifies this`bells, this`queue, this`contextArmed, this`wake, this`trace, this`gone, this`budget
      ensures Valid() && old(gone) <= gone && OthersActed(old(View()), View(), gone)
      ensures budget <= old(budget) && (budget == old(budget) ==> View() == old(View()) && gone == old(gone))
    {
      var n: nat := *;
      while n > 0 && budget > 0
        invariant Valid() && old(gone) <= gone && OthersActed(old(View()), View(), gone)
        invariant budget <= old(budget) && (budget == old(budget) ==> View() == old(View()) && gone == old(gone))
        decreases n
      {
        ghost var before, was := View(), gone;
        OtherCall();
        OthersActedTransitive(old(View()), before, was, View(), gone);
        n, budget := n - 1, budget - 1;
      }
    }

    /* The handler. */

    method GetDbCompletion() returns (found: bool, db: Db)
      requires Valid() && place.Polling?
      modifies this`queue, this`taken, this`place, this`trace
      ensures Valid() && trace == old(trace) + [Handle] && Advanced(old(View()), View(), gone)
      ensures found == (|old(queue)| > 0)
      ensures if found then [db] + queue == old(queue) && place == Polling(old(place).dbs + [db])
              else queue == [] && place == Acking(old(place).dbs)
    {
      found, db := |queue| > 0, 0;
      if found {
        db := queue[0];
        queue, taken, place := queue[1..], taken + [db], Polling(place.dbs + [db]);
      } else {
        place := Acking(place.dbs);
      }
      Record(Handle);
    }

    method AckCompletions(count: nat)
      requires Valid() && place.Acking? && count == |place.dbs|
      modifies this`taken, this`place, this`trace
      ensures taken == [] && place == Arming(old(place).dbs)
      ensures Valid() && trace == old(trace) + [Handle] && Advanced(old(View()), View(), gone)
    {
      ReachableIsSound(DOCUMENTED, max, trace);
      taken, place := taken[count..], Arming(place.dbs);
      Record(Handle);
    }

    method RequestContextNotification()
      requires Valid() && place.Arming?
      modifies this`contextArmed, this`wake, this`place, this`trace
      ensures contextArmed == (|queue| == 0) && wake == (old(wake) || |queue| > 0)
      ensures place == Serving(old(place).dbs)
      ensures Valid() && trace == old(trace) + [Handle] && Advanced(old(View()), View(), gone)
    {
      if |queue| > 0 {
        wake, contextArmed := true, false;
      } else {
        contextArmed := true;
      }
      place := Serving(place.dbs);
      Record(Handle);
    }

    method RequestDbNotification(db: Db)
      requires Valid() && place.Serving? && |place.todo| > 0 && place.todo[0] == db
      modifies this`bells, this`place, this`trace
      ensures db in old(bells) && bells == old(bells)[db := old(bells)[db].(armed := true)]
      ensures place == Between(old(place).todo)
      ensures Valid() && trace == old(trace) + [Handle] && Advanced(old(View()), View(), gone)
    {
      Advances();
      TodoIsKnown();
      bells := bells[db := bells[db].(armed := true)];
      place := Between(place.todo);
      Record(Handle);
    }

    method GetValue(db: Db) returns (value: nat)
      requires Valid() && place.Between? && |place.todo| > 0 && place.todo[0] == db
      modifies this`bells, this`place, this`trace
      ensures Valid() && trace == old(trace) + [Handle] && Advanced(old(View()), View(), gone)
      ensures db in old(bells) && value == old(bells)[db].value
      ensures db in bells && bells[db].due <= bells[db].writes == bells[db].seen
      ensures ReadOne(old(View()), View(), db, value, gone)
      ensures SameWritten(old(bells), bells)
      ensures place == Serving(old(place).todo[1..])
    {
      Advances();
      TodoIsKnown();
      var b := bells[db];
      value := b.value;
      bells := bells[db := b.(seen := b.writes, read := b.value)];
      place := Serving(place.todo[1..]);
      Record(Handle);
    }

    /** One round of the polling loop. */
    method Poll(dbs: seq<Db>) returns (found: bool, collected: seq<Db>)
      requires Valid() && place == Polling(dbs) && |dbs| <= max
      modifies this`queue, this`taken, this`place, this`trace
      ensures Valid() && Advanced(old(View()), View(), gone)
      ensures place == if found then Polling(collected) else Acking(collected)
      ensures dbs + old(queue) == (if found then collected + queue else collected)
      ensures !found ==> queue == []
      ensures |collected| <= max && (if found then |dbs| < |collected| else dbs == collected)
    {
      var db;
      found, db := GetDbCompletion();
      collected := dbs;
      if found {
        collected := dbs + [db];
        assert collected + queue == dbs + ([db] + queue);
        Fits(collected);
      }
    }

    /** Steps 1 to 3: the polling loop ends however the driver writes, because every doorbell is
        collected at most once. */
    method Collect() returns (dbs: seq<Db>)
      requires Valid() && place == Polling([])
      modifies this`bells, this`queue, this`contextArmed, this`wake, this`taken, this`place, this`trace, this`gone, this`budget
      ensures Valid() && old(gone) <= gone && Advanced(old(View()), View(), gone)
      ensures place == Acking(dbs) && queue == []
      ensures budget <= old(budget) && (budget == old(budget) ==> bells == old(bells))
      ensures old(queue) <= dbs
    {
      dbs := [];
      var found := true;
      while found
        invariant Valid() && old(gone) <= gone && Advanced(old(View()), View(), gone)
        invariant place == if found then Polling(dbs) else Acking(dbs)
        invariant |dbs| <= max && (!found ==> queue == [])
        invariant budget <= old(budget) && (budget == old(budget) ==> bells == old(bells))
        invariant old(queue) <= (if found then dbs + queue else dbs)
        decreases max - |dbs|, found
      {
        ghost var before, was := View(), gone;
        Interfere();
        ghost var between := View();
        PrefixKept(dbs, before.queue, queue);
        found, dbs := Poll(dbs);
        AdvancedTransitive(old(View()), before, was, between, gone);
        AdvancedTransitive(old(View()), between, gone, View(), gone);
      }
    }

    /** Step 6.1, after some calls of the others. */
    method ArmOne(db: Db)
      requires Valid() && place.Serving? && |place.todo| > 0 && place.todo[0] == db
      modifies this`bells, this`queue, this`contextArmed, this`wake, this`place, this`trace, this`gone, this`budget
      ensures Valid() && old(gone) <= gone && Advanced(old(View()), View(), gone)
      ensures place == Between(old(place).todo) && ReadsKept(old(View()), View(), gone)
      ensures budget <= old(budget) && (budget == old(budget) ==> queue == old(queue) && SameWritten(old(bells), bells))
    {
      ghost var s := View();
      Interfere();
      ghost var r := View();
      RequestDbNotification(db);
      AdvancedTransitive(s, r, gone, View(), gone);
    }

    /** Step 6 for one doorbell: arm, then read, with other calls before each. */
    method ServeOne(db: Db) returns (value: nat)
      requires Valid() && place.Serving? && |place.todo| > 0 && place.todo[0] == db
      modifies this`bells, this`queue, this`contextArmed, this`wake, this`place, this`trace, this`gone, this`budget
      ensures Valid() && old(gone) <= gone && Advanced(old(View()), View(), gone)
      ensures place == Serving(old(place).todo[1..])
      ensures db in bells && bells[db].due <= bells[db].seen && ReadOne(old(View()), View(), db, value, gone)
      ensures budget <= old(budget) && (budget == old(budget) ==> queue == old(queue) && SameWritten(old(bells), bells))
    {
      ghost var s := View();
      ArmOne(db);
      ghost var t, was := View(), gone;
      Interfere();
      ghost var u := View();
      value := GetValue(db);
      AdvancedTransitive(s, t, was, u, gone);
      AdvancedTransitive(s, u, gone, View(), gone);
      SameWrittenTransitive(s.bells, t.bells, bells);
    }

    /** Step 6. */
    method ServeAll(dbs: seq<Db>) returns (values: seq<nat>)
      requires Valid() && place == Serving(dbs) && Distinct(dbs)
      modifies this`bells, this`queue, this`contextArmed, this`wake, this`place, this`trace, this`gone, this`budget
      ensures Valid() && old(gone) <= gone && Advanced(old(View()), View(), gone)
      ensures place == Serving([]) && Reported(View(), dbs, values, gone)
      ensures CaughtUp(old(View()), View(), dbs, gone)
      ensures budget <= old(budget) && (budget == old(budget) ==> queue == old(queue) && SameWritten(old(bells), bells))
    {
      values := [];
      for i := 0 to |dbs|
        invariant Valid() && old(gone) <= gone && Advanced(old(View()), View(), gone)
        invariant place == Serving(dbs[i..]) && Reported(View(), dbs[..i], values, gone)
        invariant CaughtUp(old(View()), View(), dbs[..i], gone)
        invariant budget <= old(budget) && (budget == old(budget) ==> queue == old(queue) && SameWritten(old(bells), bells))
      {
        ghost var before, was := View(), gone;
        assert dbs[i..][1..] == dbs[i + 1..];
        var value := ServeOne(dbs[i]);
        ReportedStep(before, was, View(), gone, dbs, values, i, value);
        values := values + [value];
        CaughtUpStep(old(View()), before, was, View(), gone, dbs, i);
        SameWrittenTransitive(old(bells), before.bells, bells);
      }
      assert dbs[..|dbs|] == dbs;
    }

    /** Steps 4 to 6. */
    method Serve(dbs: seq<Db>) returns (values: seq<nat>)
      requires Valid() && place == Acking(dbs) && Distinct(dbs)
      modifies this`bells, this`queue, this`contextArmed, this`wake, this`taken, this`place, this`trace, this`gone, this`budget
      ensures Valid() && old(gone) <= gone && Advanced(old(View()), View(), gone)
      ensures place == Serving([]) && Reported(View(), dbs, values, gone)
      ensures CaughtUp(old(View()), View(), dbs, gone)
      ensures budget <= old(budget) && (budget == old(budget) ==> queue == old(queue) && SameWritten(old(bells), bells))
    {
      ghost var s := View();
      AckAndArm(dbs);
      ghost var u, was := View(), gone;
      values := ServeAll(dbs);
      AdvancedTransitive(s, u, was, View(), gone);
      CaughtUpEarlier(s, u, was, View(), gone, dbs);
    }

    /** Steps 4 and 5. */
    method AckAndArm(dbs: seq<Db>)
      requires Valid() && place == Acking(dbs)
      modifies this`bells, this`queue, this`contextArmed, this`wake, this`taken, this`place, this`trace, this`gone, this`budget
      ensures Valid() && old(gone) <= gone && Advanced(old(View()), View(), gone)
      ensures place == Serving(dbs) && budget <= old(budget) && (budget == old(budget) ==> queue == old(queue) && bells == old(bells))
    {
      ghost var s := View();
      Interfere();
      ghost var r := View();
      AckCompletions(|dbs|);
      ghost var t, was := View(), gone;
      AdvancedTransitive(s, r, gone, t, gone);
      Interfere();
      ghost var u := View();
      RequestContextNotification();
      AdvancedTransitive(s, t, was, u, gone);
      AdvancedTransitive(s, u, gone, View(), gone);
    }

    /** One activation of the thread, with other calls at any point in between.  The pass ends; it
        collects distinct doorbells, at most as many as are configured; among them are all whose
        completion was queued at the start; each of them that was not destroyed is read at least as far
        as the writes that were due at the start; and the values are what these reads returned. */
    method HandleCompletions() returns (dbs: seq<Db>, values: seq<nat>)
      requires Valid() && place == Asleep && wake
      modifies this`bells, this`queue, this`contextArmed, this`wake, this`taken, this`place, this`trace, this`gone, this`budget
      ensures Valid() && Advanced(old(View()), View(), gone)
      ensures place == Asleep
      ensures Distinct(dbs) && |dbs| <= max && |values| == |dbs|
      ensures old(queue) <= dbs
      ensures CaughtUp(old(View()), View(), dbs, gone) && Reported(View(), dbs, values, gone)
      ensures budget <= old(budget) && (budget == old(budget) ==> !wake && SameWritten(old(bells), bells))
    {
      gone := {};
      place, wake := Polling([]), false;
      Record(Handle);
      dbs := Collect();
      Room();
      ghost var s, was := View(), gone;
      values := Serve(dbs);
      AdvancedTransitive(old(View()), s, was, View(), gone);
      CaughtUpEarlier(old(View()), s, was, View(), gone, dbs);
      place := Asleep;
      Record(Handle);
      WokenForWork();
    }

    /** The thread is run as long as something wakes it.  Once driver and host have made their calls it
        comes to rest, and then it has seen every write that was due. */
    method Settle() returns (passes: nat)
      requires Valid() && place == Asleep
      modifies this`bells, this`queue, this`contextArmed, this`wake, this`taken, this`place, this`trace, this`gone, this`budget
      ensures Valid() && Quiescent(View()) && AllSeen(View())
      ensures old(wake) ==> passes > 0
      ensures budget <= old(budget) && (budget == old(budget) ==> SameWritten(old(bells), bells))
    {
      passes := 0;
      while wake
        invariant Valid() && place == Asleep && (old(wake) && passes == 0 ==> wake)
        invariant budget <= old(budget) && (budget == old(budget) ==> SameWritten(old(bells), bells))
        decreases budget, wake
      {
        ghost var before := bells;
        var _, _ := HandleCompletions();
        SameWrittenTransitive(old(bells), before, bells);
        passes := passes + 1;
      }
      NoLostWakeup(DOCUMENTED, max, trace);
    }

    /** A doorbell is armed, and not being read, exactly if it has no completion in the queue or with
        the handler. */
    lemma NotOutstanding(db: Db)
      requires Valid() && db in bells
      ensures bells[db].armed && (place.Between? ==> db !in place.todo) <==> db !in queue && db !in InHand(place)
    {
      ReachableIsSound(DOCUMENTED, max, trace);
      assert Outstanding(DOCUMENTED, View())[db] == multiset(queue)[db] + multiset(Unserved(DOCUMENTED, place))[db];
      if place.Between? {
        assert place.todo == [place.todo[0]] + place.todo[1..];
      }
    }

    lemma DueIsWritten(db: Db)
      requires Valid() && db in bells
      ensures bells[db].due <= bells[db].writes
    {
      ReachableIsSound(DOCUMENTED, max, trace);
    }

    lemma WokenForWork()
      requires Valid() && place == Asleep
      ensures wake <==> |queue| > 0
    {
      ReachableIsSound(DOCUMENTED, max, trace);
    }

    lemma Advances()
      requires Valid() && HandlerReady(View())
      ensures Advanced(View(), HandlerStep(DOCUMENTED, View()), gone)
    {
      ReachableIsSound(DOCUMENTED, max, trace);
      HandlerAdvances(View(), gone);
    }

    lemma TodoIsKnown()
      requires Valid() && (place.Serving? || place.Between?) && |place.todo| > 0
      ensures place.todo[0] in bells && bells[place.todo[0]].due <= bells[place.todo[0]].writes
    {
      ReachableIsSound(DOCUMENTED, max, trace);
      assert place.Serving? ==> place.todo[0] in Outstanding(DOCUMENTED, View());
    }

    lemma Fits(dbs: seq<Db>)
      requires Valid() && place == Polling(dbs)
      ensures |dbs| <= max
    {
      Room();
    }

    /** The doorbells of a pass are distinct and fit the handler's array. */
    lemma Room()
      requires Valid()
      ensures Distinct(Unserved(DOCUMENTED, place)) && |Unserved(DOCUMENTED, place)| <= max
    {
      CompletionsAreUnique(DOCUMENTED, max, trace);
    }
  }

  /** The doorbells that the handler has collected and is not done with. */
  function InHand(p: Place): seq<Db>
  {
    match p
    case Asleep => []
    case Polling(dbs) => dbs
    case Acking(dbs) => dbs
    case Arming(dbs) => dbs
    case Serving(todo) => todo
    case Between(todo) => todo
  }

  /** A write to this doorbell queues a completion. */
  predicate Rings(bells: map<Db, Bell>, db: Db)
  {
    db in bells && bells[db].started && bells[db].bound && bells[db].armed
  }

  /** What was written to a doorbell, and how much of it is due, is the same. */
  ghost predicate WrittenAt(a: map<Db, Bell>, b: map<Db, Bell>, db: Db)
  {
    && (db in a <==> db in b)
    && (db in a ==> a[db].value == b[db].value && a[db].writes == b[db].writes && a[db].due == b[db].due)
  }

  ghost predicate SameWritten(a: map<Db, Bell>, b: map<Db, Bell>)
  {
    forall db :: WrittenAt(a, b, db)
  }

  lemma SameWrittenTransitive(a: map<Db, Bell>, b: map<Db, Bell>, c: map<Db, Bell>)
    ensures SameWritten(a, b) && SameWritten(b, c) ==> SameWritten(a, c)
  {
    if SameWritten(a, b) && SameWritten(b, c) {
      forall db
        ensures WrittenAt(a, c, db)
      {
        assert WrittenAt(a, b, db) && WrittenAt(b, c, db);
      }
    }
  }

  /** Nothing is written or read. */
  ghost predicate Quiet(a: map<Db, Bell>, b: map<Db, Bell>)
  {
    && SameWritten(a, b)
    && forall db :: db in a ==> db in b && a[db].seen == b[db].seen && a[db].read == b[db].read && a[db].armed == b[db].armed
  }

  lemma QuietIsKept(s: State, t: State, gone: set<Db>)
    requires Quiet(s.bells, t.bells) && t == s.(bells := t.bells)
    ensures OthersActed(s, t, gone)
  {
    forall db | db !in gone
      ensures KeptAt(s, t, db)
    {
      assert WrittenAt(s.bells, t.bells, db);
    }
  }

  /** Doorbells that are not destroyed stay, their writes accumulate and reads catch up. */
  ghost predicate AdvancedAt(s: State, t: State, db: Db)
  {
    db in s.bells ==> db in t.bells && s.bells[db].due <= t.bells[db].due && s.bells[db].seen <= t.bells[db].seen
  }

  ghost predicate Advanced(s: State, t: State, gone: set<Db>)
  {
    t.max == s.max && forall db :: db !in gone ==> AdvancedAt(s, t, db)
  }

  lemma AdvancedTransitive(s: State, t: State, g: set<Db>, u: State, h: set<Db>)
    requires (Advanced(s, t, g) || OthersActed(s, t, g)) && (Advanced(t, u, h) || OthersActed(t, u, h)) && g <= h
    ensures Advanced(s, u, h)
  {
    forall db | db !in h
      ensures AdvancedAt(s, u, db)
    {
      assert Advanced(s, t, g) ==> AdvancedAt(s, t, db);
      assert OthersActed(s, t, g) ==> KeptAt(s, t, db);
      assert Advanced(t, u, h) ==> AdvancedAt(t, u, db);
      assert OthersActed(t, u, h) ==> KeptAt(t, u, db);
    }
  }

  lemma HandlerAdvances(s: State, gone: set<Db>)
    requires ReadIsCurrent(s) && HandlerReady(s)
    ensures Advanced(s, HandlerStep(DOCUMENTED, s), gone)
  {
    if s.place.Serving? || s.place.Between? {
      if |s.place.todo| > 0 {
        ReadAdvances(s, s.place.todo[0], gone);
      }
    }
  }

  lemma ReadAdvances(s: State, db: Db, gone: set<Db>)
    requires ReadIsCurrent(s)
    ensures Advanced(s, Read(s, db), gone) && Advanced(s, Armed(s, db), gone)
  {
  }

  /** Each of these doorbells that was there and is not destroyed has been read at least as far as
      what was due in the earlier state. */
  ghost predicate CaughtUp(s: State, t: State, dbs: seq<Db>, gone: set<Db>)
  {
    forall db :: db in dbs && db in s.bells && db !in gone ==> db in t.bells && s.bells[db].due <= t.bells[db].seen
  }

  /** One doorbell was read and gave `value`; what was read of the others is unchanged. */
  ghost predicate ReadOne(s: State, t: State, db: Db, value: nat, gone: set<Db>)
  {
    && db in t.bells && t.bells[db].read == value
    && forall d :: d in s.bells && d != db && d !in gone ==> d in t.bells && t.bells[d].read == s.bells[d].read
  }

  ghost predicate ReadsKept(s: State, t: State, gone: set<Db>)
  {
    forall d :: d in s.bells && d !in gone ==> d in t.bells && t.bells[d].read == s.bells[d].read
  }

  /** `values` are what the last reads of `dbs` returned. */
  ghost predicate Reported(t: State, dbs: seq<Db>, values: seq<nat>, gone: set<Db>)
  {
    && |values| == |dbs|
    && forall i :: 0 <= i < |dbs| && dbs[i] !in gone ==> dbs[i] in t.bells && t.bells[dbs[i]].read == values[i]
  }

  lemma ReportedStep(
      s: State, g: set<Db>, t: State, h: set<Db>, dbs: seq<Db>, values: seq<nat>, i: nat, value: nat)
    requires i < |dbs| && Distinct(dbs) && Reported(s, dbs[..i], values, g) && ReadOne(s, t, dbs[i], value, h) && g <= h
    ensures Reported(t, dbs[..i + 1], values + [value], h)
  {
    forall j | 0 <= j < i + 1 && dbs[j] !in h
      ensures dbs[j] in t.bells && t.bells[dbs[j]].read == (values + [value])[j]
    {
      if j < i {
        assert dbs[..i][j] == dbs[j];
      }
    }
  }

  lemma CaughtUpStep(s: State, t: State, g: set<Db>, u: State, h: set<Db>, dbs: seq<Db>, i: nat)
    requires i < |dbs| && Advanced(s, t, g) && Advanced(t, u, h) && CaughtUp(s, t, dbs[..i], g) && g <= h
    requires dbs[i] in u.bells && u.bells[dbs[i]].due <= u.bells[dbs[i]].seen
    ensures Advanced(s, u, h) && CaughtUp(s, u, dbs[..i + 1], h)
  {
    AdvancedTransitive(s, t, g, u, h);
    var upto := dbs[..i + 1];
    assert upto == dbs[..i] + [dbs[i]];
    forall db | db in upto && db in s.bells && db !in h
      ensures db in u.bells && s.bells[db].due <= u.bells[db].seen
    {
      assert AdvancedAt(s, u, db) && AdvancedAt(t, u, db);
    }
  }

  lemma CaughtUpEarlier(s: State, t: State, g: set<Db>, u: State, h: set<Db>, dbs: seq<Db>)
    requires Advanced(s, t, g) && CaughtUp(t, u, dbs, h) && g <= h
    ensures CaughtUp(s, u, dbs, h)
  {
    forall db | db in dbs && db in s.bells && db !in h
      ensures db in u.bells && s.bells[db].due <= u.bells[db].seen
    {
      assert AdvancedAt(s, t, db);
    }
  }

  /** Between the two states only driver and host acted: completions were queued, and what the handler
      has read is unchanged. */
  ghost predicate OthersActed(s: State, t: State, gone: set<Db>)
  {
    && t.max == s.max && t.taken == s.taken && t.place == s.place && s.queue <= t.queue
    && forall db :: db !in gone ==> KeptAt(s, t, db)
  }

  ghost predicate KeptAt(s: State, t: State, db: Db)
  {
    db in s.bells ==>
      && db in t.bells && s.bells[db].due <= t.bells[db].due
      && s.bells[db].seen == t.bells[db].seen && s.bells[db].read == t.bells[db].read
  }

  lemma OthersActedTransitive(s: State, t: State, g: set<Db>, u: State, h: set<Db>)
    requires OthersActed(s, t, g) && OthersActed(t, u, h) && g <= h
    ensures OthersActed(s, u, h)
  {
    forall db | db !in h
      ensures KeptAt(s, u, db)
    {
      assert KeptAt(s, t, db) && KeptAt(t, u, db);
    }
  }

  lemma RunUnfolds(flow: Flow, s: State, events: seq<Event>, e: Event)
    ensures Run(flow, s, events + [e]) == Step(flow, Run(flow, s, events), e)
  {
    assert (events + [e])[..|events|] == events;
  }

  lemma PrefixKept(dbs: seq<Db>, a: seq<Db>, b: seq<Db>)
    requires a <= b
    ensures dbs + a <= dbs + b
  {
  }

  /** A client: one doorbell is set up and written, and the thread runs until it rests, while driver
      and host may make up to `budget` further calls.  The thread does run, and no write is lost; if
      there are no further calls it has read the value that was written. */
  method RingAndSettle(max: nat, budget: nat, db: Db, value: nat) returns (device: Device, passes: nat)
    requires max > 0
    ensures device.Valid() && Quiescent(device.View()) && AllSeen(device.View()) && passes > 0
    ensures budget == 0 ==> db in device.bells && device.bells[db].value == value == device.bells[db].read
  {
    device := new Device(max, budget);
    var created := device.CreateDb(db);
    var bound := device.BindDb(db);
    var started := device.StartDb(db);
    device.WriteDoorbell(db, value);
    assert created && bound && started && device.wake;
    ghost var before := device.bells;
    passes := device.Settle();
    assert budget == 0 ==> WrittenAt(before, device.bells, db);
  }
}
