/** The doorbell notification protocol between a host driver, which writes doorbells, and a DPA
    thread, which runs the documented handler flow.  Every API call is one atomic step and the
    steps of the two sides interleave freely.

    What the headers leave open and the model fixes:
    - arming is one-shot, for a doorbell and for the completion context;
    - a doorbell and the completion context start out armed;
    - arming a completion context that holds unread elements wakes the thread;
    - a doorbell is destroyed only when stopped, unbound and not outstanding. */
module Doorbell {

  type Db = nat

  /** `writes` numbers the values written; `due` is the number of the last write made while the
      doorbell was started and bound; `seen` is the number of the write that the last get_value
      returned, and `read` what it returned. */
  datatype Bell = Bell(
    started: bool,
    bound: bool,
    armed: bool,
    value: nat,
    writes: nat,
    due: nat,
    seen: nat,
    read: nat)

  /** Where the handler is.  `dbs` are the doorbells collected in this pass; `todo` those whose
      request_notification and get_value are still to come, `Between` when the first doorbell of
      `todo` has had one of the two. */
  datatype Place =
    | Asleep
    | Polling(dbs: seq<Db>)
    | Acking(dbs: seq<Db>)
    | Arming(dbs: seq<Db>)
    | Serving(todo: seq<Db>)
    | Between(todo: seq<Db>)

  /** `multi`: the flow for multiple doorbells, else the flow for a single one.
      `armFirst`: request_notification before get_value, as documented. */
  datatype Flow = Flow(multi: bool, armFirst: bool)

  datatype State = State(
    bells: map<Db, Bell>,
    max: nat,
    queue: seq<Db>,
    taken: seq<Db>,
    contextArmed: bool,
    wake: bool,
    place: Place)

  datatype Event =
    | Write(db: Db, value: nat)
    | Create(db: Db)
    | Destroy(db: Db)
    | Bind(db: Db)
    | Unbind(db: Db)
    | Start(db: Db)
    | Stop(db: Db)
    | Handle

  function Initial(max: nat): State
  {
    State(map[], max, [], [], true, false, Asleep)
  }

  /* The device. */

  /** A value is written.  An armed doorbell that is started and bound completes and disarms; the
      completion wakes the thread if the context is armed, which disarms it. */
  function Written(s: State, db: Db, value: nat): State
    requires db in s.bells
  {
    var b := s.bells[db];
    var n := b.writes + 1;
    if !(b.started && b.bound) then s.(bells := s.bells[db := b.(value := value, writes := n)])
    else if !b.armed then s.(bells := s.bells[db := b.(value := value, writes := n, due := n)])
    else s.(bells := s.bells[db := b.(value := value, writes := n, due := n, armed := false)],
            queue := s.queue + [db],
            wake := s.wake || s.contextArmed,
            contextArmed := false)
  }

  function ContextArmed(s: State): State
  {
    if |s.queue| > 0 then s.(wake := true, contextArmed := false) else s.(contextArmed := true)
  }

  function Armed(s: State, db: Db): State
  {
    if db in s.bells then s.(bells := s.bells[db := s.bells[db].(armed := true)]) else s
  }

  function Read(s: State, db: Db): State
  {
    if db in s.bells then
      var b := s.bells[db];
      s.(bells := s.bells[db := b.(seen := b.writes, read := b.value)])
    else s
  }

  /* The handler. */

  predicate HandlerReady(s: State)
  {
    s.place.Asleep? ==> s.wake
  }

  function HandlerStep(flow: Flow, s: State): State
    requires HandlerReady(s)
  {
    match s.place
    case Asleep => s.(place := Polling([]), wake := false)
    case Polling(dbs) =>
      if |s.queue| > 0 && (flow.multi || |dbs| == 0) then
        s.(queue := s.queue[1..], taken := s.taken + [s.queue[0]], place := Polling(dbs + [s.queue[0]]))
      else if !flow.multi && |dbs| == 0 then s.(place := Asleep)
      else s.(place := Acking(dbs))
    case Acking(dbs) =>
      s.(taken := if |dbs| <= |s.taken| then s.taken[|dbs|..] else [], place := Arming(dbs))
    case Arming(dbs) => ContextArmed(s).(place := Serving(dbs))
    case Serving(todo) =>
      if |todo| == 0 then s.(place := Asleep)
      else (if flow.armFirst then Armed(s, todo[0]) else Read(s, todo[0])).(place := Between(todo))
    case Between(todo) =>
      if |todo| == 0 then s.(place := Asleep)
      else (if flow.armFirst then Read(s, todo[0]) else Armed(s, todo[0])).(place := Serving(todo[1..]))
  }

  /* Steps and runs. */

  predicate Destroyable(s: State, db: Db)
  {
    && db in s.bells && !s.bells[db].started && !s.bells[db].bound && s.bells[db].armed
    && (s.place.Between? ==> db !in s.place.todo)
  }

  /** A refused call leaves the state as it is. */
  function Step(flow: Flow, s: State, e: Event): State
  {
    match e
    case Write(db, value) => if db in s.bells then Written(s, db, value) else s
    case Create(db) =>
      if db !in s.bells && |s.bells| < s.max
      then s.(bells := s.bells[db := Bell(false, false, true, 0, 0, 0, 0, 0)]) else s
    case Destroy(db) => if Destroyable(s, db) then s.(bells := s.bells - {db}) else s
    case Bind(db) => if db in s.bells then s.(bells := s.bells[db := s.bells[db].(bound := true)]) else s
    case Unbind(db) => if db in s.bells then s.(bells := s.bells[db := s.bells[db].(bound := false)]) else s
    case Start(db) => if db in s.bells then s.(bells := s.bells[db := s.bells[db].(started := true)]) else s
    case Stop(db) => if db in s.bells then s.(bells := s.bells[db := s.bells[db].(started := false)]) else s
    case Handle => if HandlerReady(s) then HandlerStep(flow, s) else s
  }

  function Run(flow: Flow, s: State, events: seq<Event>): State
    decreases |events|
  {
    if |events| == 0 then s
    else Step(flow, Run(flow, s, events[..|events| - 1]), events[|events| - 1])
  }

  /* What holds in every reachable state. */

  /** The doorbells that the handler has collected and not yet armed again. */
  function Unserved(flow: Flow, p: Place): seq<Db>
  {
    match p
    case Asleep => []
    case Polling(dbs) => dbs
    case Acking(dbs) => dbs
    case Arming(dbs) => dbs
    case Serving(todo) => todo
    case Between(todo) => if flow.armFirst && |todo| > 0 then todo[1..] else todo
  }

  /** The handler is past request_notification and before get_value of this doorbell. */
  predicate ReadAhead(flow: Flow, p: Place, db: Db)
  {
    flow.armFirst && p.Between? && |p.todo| > 0 && p.todo[0] == db
  }

  /** The completions queued or being served. */
  function Outstanding(flow: Flow, s: State): multiset<Db>
  {
    multiset(s.queue) + multiset(Unserved(flow, s.place))
  }

  /** A doorbell is disarmed exactly when it has one completion that is queued or being served. */
  ghost predicate OneEach(flow: Flow, s: State)
  {
    forall db: Db :: Outstanding(flow, s)[db] == if db in s.bells && !s.bells[db].armed then 1 else 0
  }

  /** Completions read and not acknowledged are those of the current pass. */
  ghost predicate TakenMatches(s: State)
  {
    match s.place
    case Polling(dbs) => s.taken == dbs
    case Acking(dbs) => s.taken == dbs
    case _ => s.taken == []
  }

  /** The thread is running, or is woken for unread completions, or will be woken by the next one;
      and it never wakes up for nothing. */
  ghost predicate NoSleepOnWork(s: State)
  {
    match s.place
    case Polling(dbs) => !s.wake && !s.contextArmed && (|dbs| == 0 ==> |s.queue| > 0)
    case Acking(_) => !s.wake && !s.contextArmed
    case Arming(_) => !s.wake && !s.contextArmed
    case _ => (s.wake <==> |s.queue| > 0) && (s.contextArmed <==> |s.queue| == 0)
  }

  /** What get_value returned is the value of the write it is said to have seen. */
  ghost predicate ReadIsCurrent(s: State)
  {
    forall db :: db in s.bells ==>
      && s.bells[db].seen <= s.bells[db].writes && s.bells[db].due <= s.bells[db].writes
      && (0 < s.bells[db].seen == s.bells[db].writes ==> s.bells[db].read == s.bells[db].value)
  }

  ghost predicate HandlerSound(s: State)
  {
    && TakenMatches(s) && NoSleepOnWork(s)
    && |s.bells| <= s.max
    && (s.place.Between? ==> |s.place.todo| > 0 && s.place.todo[0] in s.bells)
  }

  ghost predicate Sound(flow: Flow, s: State)
  {
    OneEach(flow, s) && HandlerSound(s) && ReadIsCurrent(s)
  }

  /** A write made while the doorbell was started and bound is seen, or its doorbell is still
      outstanding, or the handler's get_value of it is still to come. */
  ghost predicate Covered(flow: Flow, s: State)
  {
    forall db :: db in s.bells ==>
      s.bells[db].due <= s.bells[db].seen || db in Outstanding(flow, s) || ReadAhead(flow, s.place, db)
  }

  /* Writes. */

  ghost predicate GoodBell(b: Bell)
  {
    && b.seen <= b.writes && b.due <= b.writes
    && (0 < b.seen == b.writes ==> b.read == b.value)
  }

  /** Nothing about arming changes when the outstanding completions and the armed flags stay. */
  lemma OneEachKept(flow: Flow, s: State, t: State)
    requires OneEach(flow, s) && Outstanding(flow, t) == Outstanding(flow, s)
    requires forall db :: (db in t.bells && !t.bells[db].armed) == (db in s.bells && !s.bells[db].armed)
    ensures OneEach(flow, t)
  {
  }

  /** A completion appears as its doorbell disarms, or goes as its doorbell is armed. */
  lemma OneEachMoved(flow: Flow, s: State, t: State, db: Db)
    requires Outstanding(flow, t) == Outstanding(flow, s) + multiset{db}
    requires t.bells.Keys == s.bells.Keys && db in s.bells && s.bells[db].armed && !t.bells[db].armed
    requires forall d :: d in s.bells && d != db ==> t.bells[d].armed == s.bells[d].armed
    ensures OneEach(flow, s) <==> OneEach(flow, t)
  {
    if OneEach(flow, s) {
      forall d: Db
        ensures Outstanding(flow, t)[d] == if d in t.bells && !t.bells[d].armed then 1 else 0
      {
        assert Outstanding(flow, t)[d] == Outstanding(flow, s)[d] + multiset{db}[d];
      }
    }
    if OneEach(flow, t) {
      forall d: Db
        ensures Outstanding(flow, s)[d] == if d in s.bells && !s.bells[d].armed then 1 else 0
      {
        assert Outstanding(flow, t)[d] == Outstanding(flow, s)[d] + multiset{db}[d];
      }
    }
  }

  /** Changing one doorbell without arming or disarming it. */
  lemma BellChanged(flow: Flow, s: State, db: Db, b: Bell)
    requires Sound(flow, s) && db in s.bells && b.armed == s.bells[db].armed && GoodBell(b)
    ensures Sound(flow, s.(bells := s.bells[db := b]))
  {
    var t := s.(bells := s.bells[db := b]);
    assert t.bells.Keys == s.bells.Keys;
    OneEachKept(flow, s, t);
  }

  lemma BellChangedCovered(flow: Flow, s: State, db: Db, b: Bell)
    requires Covered(flow, s) && db in s.bells
    requires (b.due == s.bells[db].due && b.seen == s.bells[db].seen) || db in Outstanding(flow, s)
    ensures Covered(flow, s.(bells := s.bells[db := b]))
  {
    assert Outstanding(flow, s.(bells := s.bells[db := b])) == Outstanding(flow, s);
  }

  function Queued(s: State, db: Db, b: Bell): State
  {
    s.(bells := s.bells[db := b], queue := s.queue + [db], wake := s.wake || s.contextArmed, contextArmed := false)
  }

  lemma CompletionQueued(flow: Flow, s: State, db: Db, b: Bell)
    requires Sound(flow, s) && db in s.bells && s.bells[db].armed && !b.armed && GoodBell(b)
    ensures Sound(flow, Queued(s, db, b))
  {
    var t := Queued(s, db, b);
    assert t.bells.Keys == s.bells.Keys;
    assert Outstanding(flow, t) == Outstanding(flow, s) + multiset{db};
    OneEachMoved(flow, s, t, db);
  }

  lemma QueuedCovered(flow: Flow, s: State, db: Db, b: Bell)
    requires Covered(flow, s)
    ensures Covered(flow, Queued(s, db, b))
  {
    assert Outstanding(flow, Queued(s, db, b)) == Outstanding(flow, s) + multiset{db};
  }

  lemma QuietWrite(flow: Flow, s: State, db: Db, value: nat)
    requires Sound(flow, s) && db in s.bells
    requires !(s.bells[db].started && s.bells[db].bound && s.bells[db].armed)
    ensures Sound(flow, Written(s, db, value))
    ensures Covered(flow, s) ==> Covered(flow, Written(s, db, value))
  {
    var b := s.bells[db];
    var c := b.(value := value, writes := b.writes + 1, due := if b.started && b.bound then b.writes + 1 else b.due);
    assert Written(s, db, value) == s.(bells := s.bells[db := c]);
    assert GoodBell(b);
    BellChanged(flow, s, db, c);
    if Covered(flow, s) {
      assert !b.armed ==> Outstanding(flow, s)[db] == 1;
      BellChangedCovered(flow, s, db, c);
    }
  }

  lemma WrittenKeeps(flow: Flow, s: State, db: Db, value: nat)
    requires Sound(flow, s) && db in s.bells
    ensures Sound(flow, Written(s, db, value))
    ensures Covered(flow, s) ==> Covered(flow, Written(s, db, value))
  {
    var b := s.bells[db];
    var n := b.writes + 1;
    if b.started && b.bound && b.armed {
      var c := b.(value := value, writes := n, due := n, armed := false);
      assert Written(s, db, value) == Queued(s, db, c);
      assert GoodBell(b);
      CompletionQueued(flow, s, db, c);
      if Covered(flow, s) {
        QueuedCovered(flow, s, db, c);
      }
    } else {
      QuietWrite(flow, s, db, value);
    }
  }

  /* The handler. */

  /** A step that moves completions without creating or ending any, and touches no doorbell. */
  lemma MovedKeeps(flow: Flow, s: State, t: State)
    requires Sound(flow, s) && HandlerSound(t) && t.bells == s.bells
    requires Outstanding(flow, t) == Outstanding(flow, s)
    requires forall db :: ReadAhead(flow, s.place, db) ==> ReadAhead(flow, t.place, db)
    ensures Sound(flow, t)
    ensures Covered(flow, s) ==> Covered(flow, t)
  {
  }

  lemma PollOutstanding(flow: Flow, s: State)
    requires s.place.Polling?
    ensures Outstanding(flow, HandlerStep(flow, s)) == Outstanding(flow, s) || HandlerStep(flow, s).place == Asleep
  {
    if |s.queue| > 0 {
      assert s.queue == [s.queue[0]] + s.queue[1..];
    }
  }

  lemma PollKeeps(flow: Flow, s: State)
    requires Sound(flow, s) && s.place.Polling?
    ensures Sound(flow, HandlerStep(flow, s))
    ensures Covered(flow, s) ==> Covered(flow, HandlerStep(flow, s))
  {
    PollOutstanding(flow, s);
    MovedKeeps(flow, s, HandlerStep(flow, s));
  }

  lemma QuietKeeps(flow: Flow, s: State)
    requires Sound(flow, s) && HandlerReady(s)
    requires s.place.Asleep? || s.place.Acking? || s.place.Arming? || s.place == Serving([])
    ensures Sound(flow, HandlerStep(flow, s))
    ensures Covered(flow, s) ==> Covered(flow, HandlerStep(flow, s))
  {
    var t := HandlerStep(flow, s);
    assert Outstanding(flow, t) == Outstanding(flow, s);
    assert HandlerSound(t);
    MovedKeeps(flow, s, t);
  }

  ghost predicate ServingPlace(s: State, p: Place)
  {
    && (s.place.Serving? || s.place.Between?) && (p.Serving? || p.Between?)
    && (p.Between? ==> |p.todo| > 0 && p.todo[0] in s.bells)
  }

  lemma ArmedIsOneEach(flow: Flow, s: State, db: Db, p: Place)
    requires OneEach(flow, s)
    requires multiset(Unserved(flow, s.place)) == multiset(Unserved(flow, p)) + multiset{db}
    ensures db in s.bells && OneEach(flow, Armed(s, db).(place := p))
  {
    assert Outstanding(flow, s)[db] > 0;
    var t := Armed(s, db).(place := p);
    assert t.bells.Keys == s.bells.Keys;
    assert Outstanding(flow, s) == Outstanding(flow, t) + multiset{db};
    OneEachMoved(flow, t, s, db);
  }

  /** request_notification of a collected doorbell ends its being outstanding. */
  lemma ArmedAgain(flow: Flow, s: State, db: Db, p: Place)
    requires Sound(flow, s) && ServingPlace(s, p)
    requires multiset(Unserved(flow, s.place)) == multiset(Unserved(flow, p)) + multiset{db}
    ensures Sound(flow, Armed(s, db).(place := p))
  {
    ArmedIsOneEach(flow, s, db, p);
    assert Armed(s, db).bells.Keys == s.bells.Keys;
  }

  lemma ArmedAgainCovered(flow: Flow, s: State, db: Db, p: Place)
    requires Covered(flow, s) && !s.place.Between? && ReadAhead(flow, p, db)
    requires multiset(Unserved(flow, s.place)) == multiset(Unserved(flow, p)) + multiset{db}
    ensures Covered(flow, Armed(s, db).(place := p))
  {
    var t := Armed(s, db).(place := p);
    assert Outstanding(flow, s) == Outstanding(flow, t) + multiset{db};
  }

  /** get_value of a doorbell catches up with its writes. */
  lemma ReadKeeps(flow: Flow, s: State, db: Db, p: Place)
    requires Sound(flow, s) && ServingPlace(s, p)
    requires multiset(Unserved(flow, s.place)) == multiset(Unserved(flow, p))
    ensures Sound(flow, Read(s, db).(place := p))
  {
    var t := Read(s, db).(place := p);
    assert Outstanding(flow, s) == Outstanding(flow, t);
    OneEachKept(flow, s, t);
    ReadIsRight(s, db);
  }

  lemma ReadIsRight(s: State, db: Db)
    requires ReadIsCurrent(s)
    ensures Read(s, db).bells.Keys == s.bells.Keys && ReadIsCurrent(Read(s, db))
  {
  }

  lemma ReadCovers(flow: Flow, s: State, db: Db, p: Place)
    requires Sound(flow, s) && Covered(flow, s)
    requires multiset(Unserved(flow, s.place)) == multiset(Unserved(flow, p))
    requires forall d :: ReadAhead(flow, s.place, d) ==> d == db
    ensures Covered(flow, Read(s, db).(place := p))
  {
    assert Outstanding(flow, s) == Outstanding(flow, Read(s, db).(place := p));
  }

  /* The four steps that serve a doorbell: first and second call, in either order. */

  lemma ArmFirstKeeps(flow: Flow, s: State)
    requires Sound(flow, s) && s.place.Serving? && |s.place.todo| > 0 && flow.armFirst
    ensures Sound(flow, HandlerStep(flow, s))
    ensures Covered(flow, s) ==> Covered(flow, HandlerStep(flow, s))
  {
    var todo := s.place.todo;
    assert todo == [todo[0]] + todo[1..];
    assert Outstanding(flow, s)[todo[0]] > 0;
    ArmedAgain(flow, s, todo[0], Between(todo));
    if Covered(flow, s) {
      ArmedAgainCovered(flow, s, todo[0], Between(todo));
    }
  }

  lemma ReadSecondKeeps(flow: Flow, s: State)
    requires Sound(flow, s) && s.place.Between? && |s.place.todo| > 0 && flow.armFirst
    ensures Sound(flow, HandlerStep(flow, s))
    ensures Covered(flow, s) ==> Covered(flow, HandlerStep(flow, s))
  {
    var todo := s.place.todo;
    ReadKeeps(flow, s, todo[0], Serving(todo[1..]));
    if Covered(flow, s) {
      ReadCovers(flow, s, todo[0], Serving(todo[1..]));
    }
  }

  lemma ReadFirstKeeps(flow: Flow, s: State)
    requires Sound(flow, s) && s.place.Serving? && |s.place.todo| > 0 && !flow.armFirst
    ensures Sound(flow, HandlerStep(flow, s))
  {
    assert Outstanding(flow, s)[s.place.todo[0]] > 0;
    ReadKeeps(flow, s, s.place.todo[0], Between(s.place.todo));
  }

  lemma ArmSecondKeeps(flow: Flow, s: State)
    requires Sound(flow, s) && s.place.Between? && |s.place.todo| > 0 && !flow.armFirst
    ensures Sound(flow, HandlerStep(flow, s))
  {
    var todo := s.place.todo;
    assert todo == [todo[0]] + todo[1..];
    ArmedAgain(flow, s, todo[0], Serving(todo[1..]));
  }

  lemma ServeKeeps(flow: Flow, s: State)
    requires Sound(flow, s) && (s.place.Serving? || s.place.Between?) && |s.place.todo| > 0
    ensures Sound(flow, HandlerStep(flow, s))
    ensures flow.armFirst && Covered(flow, s) ==> Covered(flow, HandlerStep(flow, s))
  {
    if s.place.Serving? && flow.armFirst {
      ArmFirstKeeps(flow, s);
    } else if s.place.Serving? {
      ReadFirstKeeps(flow, s);
    } else if flow.armFirst {
      ReadSecondKeeps(flow, s);
    } else {
      ArmSecondKeeps(flow, s);
    }
  }

  lemma HandlerKeeps(flow: Flow, s: State)
    requires Sound(flow, s) && HandlerReady(s)
    ensures Sound(flow, HandlerStep(flow, s))
    ensures flow.armFirst && Covered(flow, s) ==> Covered(flow, HandlerStep(flow, s))
  {
    if s.place.Polling? {
      PollKeeps(flow, s);
    } else if (s.place.Serving? || s.place.Between?) && |s.place.todo| > 0 {
      ServeKeeps(flow, s);
    } else {
      QuietKeeps(flow, s);
    }
  }

  /* The host. */

  lemma CreatedKeeps(flow: Flow, s: State, db: Db, b: Bell)
    requires Sound(flow, s) && db !in s.bells && |s.bells| < s.max && b == Bell(false, false, true, 0, 0, 0, 0, 0)
    ensures Sound(flow, s.(bells := s.bells[db := b]))
    ensures Covered(flow, s) ==> Covered(flow, s.(bells := s.bells[db := b]))
  {
    var t := s.(bells := s.bells[db := b]);
    assert Outstanding(flow, t) == Outstanding(flow, s);
    OneEachKept(flow, s, t);
  }

  lemma DestroyedKeeps(flow: Flow, s: State, db: Db)
    requires Sound(flow, s) && Destroyable(s, db)
    ensures Sound(flow, s.(bells := s.bells - {db}))
    ensures Covered(flow, s) ==> Covered(flow, s.(bells := s.bells - {db}))
  {
    var t := s.(bells := s.bells - {db});
    assert Outstanding(flow, t) == Outstanding(flow, s);
    assert t.bells.Keys == s.bells.Keys - {db};
    OneEachKept(flow, s, t);
  }

  lemma HostKeeps(flow: Flow, s: State, db: Db, b: Bell)
    requires Sound(flow, s) && db in s.bells
    requires b == s.bells[db].(bound := b.bound, started := b.started)
    ensures Sound(flow, s.(bells := s.bells[db := b]))
    ensures Covered(flow, s) ==> Covered(flow, s.(bells := s.bells[db := b]))
  {
    BellChanged(flow, s, db, b);
    if Covered(flow, s) {
      BellChangedCovered(flow, s, db, b);
    }
  }

  lemma HostStepKeeps(flow: Flow, s: State, e: Event)
    requires Sound(flow, s) && Step(flow, s, e) != s && (e.Bind? || e.Unbind? || e.Start? || e.Stop?)
    ensures Sound(flow, Step(flow, s, e))
    ensures Covered(flow, s) ==> Covered(flow, Step(flow, s, e))
  {
    var b := s.bells[e.db];
    var c := match e
      case Bind(_) => b.(bound := true)
      case Unbind(_) => b.(bound := false)
      case Start(_) => b.(started := true)
      case _ => b.(started := false);
    HostKeeps(flow, s, e.db, c);
  }

  /** Every step keeps the protocol sound; under the documented order it also keeps every write
      covered. */
  lemma StepKeeps(flow: Flow, s: State, e: Event)
    requires Sound(flow, s)
    ensures Sound(flow, Step(flow, s, e))
    ensures flow.armFirst && Covered(flow, s) ==> Covered(flow, Step(flow, s, e))
  {
    if Step(flow, s, e) != s {
      if e.Write? {
        WrittenKeeps(flow, s, e.db, e.value);
      } else if e.Handle? {
        HandlerKeeps(flow, s);
      } else if e.Create? {
        CreatedKeeps(flow, s, e.db, Bell(false, false, true, 0, 0, 0, 0, 0));
      } else if e.Destroy? {
        DestroyedKeeps(flow, s, e.db);
      } else {
        HostStepKeeps(flow, s, e);
      }
    }
  }
}
