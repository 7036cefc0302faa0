/** What the doorbell protocol guarantees over whole runs. */
module DoorbellGuarantees {
  import opened Collections
  import opened Doorbell

  /** The handler sleeps and nothing will wake it. */
  predicate Quiescent(s: State)
  {
    s.place.Asleep? && !s.wake
  }

  /** Every write made while its doorbell was started and bound has been read, or overtaken by a
      later one that has; and a doorbell whose last write was such a write was last read at its
      present value. */
  ghost predicate AllSeen(s: State)
  {
    forall db :: db in s.bells ==>
      && s.bells[db].due <= s.bells[db].seen
      && (0 < s.bells[db].due == s.bells[db].writes ==> s.bells[db].read == s.bells[db].value)
  }

  lemma InitialIsSound(flow: Flow, max: nat)
    ensures Sound(flow, Initial(max)) && Covered(flow, Initial(max))
  {
  }

  lemma StepKeepsMax(flow: Flow, s: State, e: Event)
    ensures Step(flow, s, e).max == s.max
  {
  }

  lemma {:induction false} ReachableIsSound(flow: Flow, max: nat, events: seq<Event>)
    ensures Sound(flow, Run(flow, Initial(max), events))
    ensures flow.armFirst ==> Covered(flow, Run(flow, Initial(max), events))
    ensures Run(flow, Initial(max), events).max == max
    decreases |events|
  {
    if |events| == 0 {
      InitialIsSound(flow, max);
    } else {
      var before, last := Run(flow, Initial(max), events[..|events| - 1]), events[|events| - 1];
      ReachableIsSound(flow, max, events[..|events| - 1]);
      StepKeeps(flow, before, last);
      StepKeepsMax(flow, before, last);
    }
  }

  lemma QuiescentIsSeen(flow: Flow, s: State)
    requires Sound(flow, s) && Covered(flow, s) && Quiescent(s)
    ensures AllSeen(s)
  {
    assert s.queue == [];
    assert Outstanding(flow, s) == multiset{};
  }

  /** No lost wake-up: with the documented order, the handler never goes to sleep for good on a
      write it has not seen, whatever the interleaving. */
  lemma NoLostWakeup(flow: Flow, max: nat, events: seq<Event>)
    requires flow.armFirst && Quiescent(Run(flow, Initial(max), events))
    ensures AllSeen(Run(flow, Initial(max), events))
  {
    ReachableIsSound(flow, max, events);
    QuiescentIsSeen(flow, Run(flow, Initial(max), events));
  }

  /* At most one completion per doorbell. */

  lemma SingleCopies<T(!new)>(s: seq<T>)
    requires forall x :: multiset(s)[x] <= 1
    ensures Distinct(s)
  {
    forall i, j | 0 <= i < j < |s|
      ensures s[i] != s[j]
    {
      assert s == s[..j] + [s[j]] + s[j + 1..];
      assert multiset(s) == multiset(s[..j]) + multiset{s[j]} + multiset(s[j + 1..]);
      assert s[..j][i] == s[i];
      assert multiset(s[..j])[s[i]] > 0;
      assert s[i] == s[j] ==> multiset(s)[s[j]] >= 2;
    }
  }

  lemma {:induction false} BoundedByKeys<T>(m: multiset<T>, keys: set<T>)
    requires forall x :: x in m ==> x in keys && m[x] <= 1
    ensures |m| <= |keys|
    decreases keys
  {
    if m != multiset{} {
      var x :| x in m;
      BoundedByKeys(m - multiset{x}, keys - {x});
    }
  }

  lemma SoundIsUnique(flow: Flow, s: State)
    requires Sound(flow, s)
    ensures Distinct(s.queue + s.taken)
    ensures |s.queue| + |s.taken| <= |s.bells| <= s.max
    ensures Distinct(Unserved(flow, s.place)) && |Unserved(flow, s.place)| <= |s.bells|
  {
    var all := Outstanding(flow, s);
    assert multiset(s.queue + s.taken) <= all;
    assert forall x :: multiset(s.queue + s.taken)[x] <= all[x];
    SingleCopies(s.queue + s.taken);
    BoundedByKeys(multiset(s.queue + s.taken), s.bells.Keys);
    assert |multiset(s.queue + s.taken)| == |s.queue + s.taken|;
    assert forall x :: multiset(Unserved(flow, s.place))[x] <= all[x];
    SingleCopies(Unserved(flow, s.place));
    BoundedByKeys(multiset(Unserved(flow, s.place)), s.bells.Keys);
  }

  /** In every reachable state each doorbell has at most one completion that is not acknowledged;
      so the doorbells collected in a pass are pairwise distinct and fit the handler's array, and
      unacknowledged completions never outnumber the doorbells, nor these the configured maximum. */
  lemma CompletionsAreUnique(flow: Flow, max: nat, events: seq<Event>)
    ensures var s := Run(flow, Initial(max), events);
            && Distinct(s.queue + s.taken)
            && |s.queue| + |s.taken| <= |s.bells| <= max
            && Distinct(Unserved(flow, s.place))
            && |Unserved(flow, s.place)| <= |s.bells|
  {
    ReachableIsSound(flow, max, events);
    SoundIsUnique(flow, Run(flow, Initial(max), events));
  }

  /* Every write is delivered. */

  function HandlerRun(flow: Flow, s: State, n: nat): State
    decreases n
  {
    if n == 0 then s else HandlerRun(flow, Step(flow, s, Handle), n - 1)
  }

  /** How many steps the handler takes before it next reads a completion or goes to sleep for good. */
  function StepsLeft(s: State): nat
  {
    var again := if |s.queue| > 0 then 2 else 0;
    match s.place
    case Asleep => again
    case Polling(dbs) => if |s.queue| > 0 && |dbs| == 0 then 1 else 4 + 2 * |dbs| + again
    case Acking(dbs) => 3 + 2 * |dbs| + again
    case Arming(dbs) => 2 + 2 * |dbs| + again
    case Serving(todo) => 1 + 2 * |todo| + again
    case Between(todo) => 2 * |todo| + again
  }

  lemma HandlerProgress(flow: Flow, s: State)
    requires Sound(flow, s) && !Quiescent(s)
    ensures HandlerReady(s)
    ensures var t := HandlerStep(flow, s);
            |t.queue| < |s.queue| || (|t.queue| == |s.queue| && StepsLeft(t) < StepsLeft(s))
  {
  }

  /** The handler neither adds nor removes doorbells, nor makes writes due. */
  ghost predicate SameWrites(s: State, t: State)
  {
    t.bells.Keys == s.bells.Keys && forall db :: db in s.bells ==> t.bells[db].due == s.bells[db].due
  }

  lemma HandlerKeepsWrites(flow: Flow, s: State)
    requires HandlerReady(s)
    ensures SameWrites(s, HandlerStep(flow, s))
  {
    if |Unserved(flow, s.place)| > 0 {
      ReadKeepsWrites(s, Unserved(flow, s.place)[0]);
    }
    if s.place.Between? && |s.place.todo| > 0 {
      ReadKeepsWrites(s, s.place.todo[0]);
    }
  }

  lemma ReadKeepsWrites(s: State, db: Db)
    ensures SameWrites(s, Read(s, db)) && SameWrites(s, Armed(s, db))
  {
  }

  lemma SameWritesTransitive(s: State, t: State, u: State)
    requires SameWrites(s, t) && SameWrites(t, u)
    ensures SameWrites(s, u)
  {
  }

  lemma {:induction false} HandlerRunKeeps(flow: Flow, s: State, n: nat)
    requires Sound(flow, s) && Covered(flow, s) && flow.armFirst
    ensures Sound(flow, HandlerRun(flow, s, n)) && Covered(flow, HandlerRun(flow, s, n))
    decreases n
  {
    if n > 0 {
      StepKeeps(flow, s, Handle);
      HandlerRunKeeps(flow, Step(flow, s, Handle), n - 1);
    }
  }

  lemma {:induction false} HandlerRunKeepsWrites(flow: Flow, s: State, n: nat)
    ensures SameWrites(s, HandlerRun(flow, s, n))
    decreases n
  {
    if n > 0 {
      var t := Step(flow, s, Handle);
      if HandlerReady(s) {
        HandlerKeepsWrites(flow, s);
      }
      HandlerRunKeepsWrites(flow, t, n - 1);
      SameWritesTransitive(s, t, HandlerRun(flow, t, n - 1));
    }
  }

  /** Once the writes stop, the handler comes to rest. */
  lemma {:induction false} HandlerRests(flow: Flow, s: State) returns (n: nat)
    requires Sound(flow, s)
    ensures Quiescent(HandlerRun(flow, s, n))
    decreases |s.queue|, StepsLeft(s)
  {
    if Quiescent(s) {
      n := 0;
    } else {
      HandlerProgress(flow, s);
      StepKeeps(flow, s, Handle);
      var rest := HandlerRests(flow, Step(flow, s, Handle));
      n := rest + 1;
    }
  }

  /** After any run of writes, host calls and handler steps, the handler alone comes to rest having
      read every write that was due. */
  lemma EveryWriteIsDelivered(flow: Flow, max: nat, events: seq<Event>) returns (n: nat)
    requires flow.armFirst
    ensures var s := Run(flow, Initial(max), events);
            var t := HandlerRun(flow, s, n);
            && Quiescent(t) && AllSeen(t) && SameWrites(s, t)
            && forall db :: db in s.bells ==> s.bells[db].due <= t.bells[db].seen
  {
    var s := Run(flow, Initial(max), events);
    ReachableIsSound(flow, max, events);
    n := HandlerRests(flow, s);
    HandlerRunKeeps(flow, s, n);
    QuiescentIsSeen(flow, HandlerRun(flow, s, n));
    HandlerRunKeepsWrites(flow, s, n);
  }

  /* The order of the two calls matters. */

  const SET_UP: seq<Event> := [Create(0), Bind(0), Start(0), Write(0, 1)]

  /** Wake up, get the completion, stop polling, acknowledge, arm the context. */
  const COLLECT: seq<Event> := [Handle, Handle, Handle, Handle, Handle]

  /** Read the doorbell; a second write; arm the doorbell; sleep. */
  const LOSE: seq<Event> := [Handle, Write(0, 2), Handle, Handle]

  lemma {:induction false} RunConcat(flow: Flow, s: State, a: seq<Event>, b: seq<Event>)
    ensures Run(flow, s, a + b) == Run(flow, Run(flow, s, a), b)
    decreases |b|
  {
    if |b| == 0 {
      assert a + b == a;
    } else {
      var n := |b| - 1;
      assert (a + b)[..|a + b| - 1] == a + b[..n] && (a + b)[|a + b| - 1] == b[n];
      RunConcat(flow, s, a, b[..n]);
      RunLast(flow, s, a + b);
      RunLast(flow, Run(flow, s, a), b);
    }
  }

  lemma RunLast(flow: Flow, s: State, events: seq<Event>)
    requires |events| > 0
    ensures Run(flow, s, events) == Step(flow, Run(flow, s, events[..|events| - 1]), events[|events| - 1])
  {
  }

  lemma RunOfTwo(flow: Flow, s: State, e: Event, f: Event)
    ensures Run(flow, s, [e, f]) == Step(flow, Step(flow, s, e), f)
  {
    assert [e, f][..1] == [e] && [e][..0] == [];
    assert Run(flow, s, [e]) == Step(flow, s, e);
  }

  lemma RunOfFour(flow: Flow, s: State, e: Event, f: Event, g: Event, h: Event)
    ensures Run(flow, s, [e, f, g, h]) == Step(flow, Step(flow, Step(flow, Step(flow, s, e), f), g), h)
  {
    RunOfTwo(flow, s, e, f);
    RunOfTwo(flow, Run(flow, s, [e, f]), g, h);
    RunConcat(flow, s, [e, f], [g, h]);
    assert [e, f] + [g, h] == [e, f, g, h];
  }

  const RUNG := Bell(true, true, false, 1, 1, 1, 0, 0)

  lemma AfterSetUp(flow: Flow, max: nat)
    requires max > 0
    ensures Run(flow, Initial(max), SET_UP) == State(map[0 := RUNG], max, [0], [], false, true, Asleep)
  {
    var s := Initial(max);
    var b := Bell(false, false, true, 0, 0, 0, 0, 0);
    RunOfFour(flow, s, Create(0), Bind(0), Start(0), Write(0, 1));
    var t := Step(flow, s, Create(0));
    assert t == s.(bells := map[0 := b]);
    var u := Step(flow, t, Bind(0));
    assert u == s.(bells := map[0 := b.(bound := true)]);
    var v := Step(flow, u, Start(0));
    assert v == s.(bells := map[0 := b.(bound := true, started := true)]);
  }

  lemma AfterCollect(flow: Flow, max: nat)
    ensures Run(flow, State(map[0 := RUNG], max, [0], [], false, true, Asleep), COLLECT)
         == State(map[0 := RUNG], max, [], [], true, false, Serving([0]))
  {
    var s := State(map[0 := RUNG], max, [0], [], false, true, Asleep);
    var four := [Handle, Handle, Handle, Handle];
    RunOfFour(flow, s, Handle, Handle, Handle, Handle);
    var t := Step(flow, s, Handle);
    assert t == s.(place := Polling([]), wake := false);
    var u := Step(flow, t, Handle);
    assert u == t.(queue := [], taken := [0], place := Polling([0]));
    var v := Step(flow, u, Handle);
    assert v == u.(place := Acking([0]));
    assert Step(flow, v, Handle) == v.(taken := [], place := Arming([0]));
    assert COLLECT[..4] == four;
    assert Run(flow, s, COLLECT) == Step(flow, Run(flow, s, four), Handle);
  }

  lemma AfterLose(flow: Flow, max: nat)
    requires !flow.armFirst
    ensures Run(flow, State(map[0 := RUNG], max, [], [], true, false, Serving([0])), LOSE)
         == State(map[0 := Bell(true, true, true, 2, 2, 2, 1, 1)], max, [], [], true, false, Asleep)
  {
    var s := State(map[0 := RUNG], max, [], [], true, false, Serving([0]));
    RunOfFour(flow, s, Handle, Write(0, 2), Handle, Handle);
    var t := Step(flow, s, Handle);
    assert t == s.(bells := map[0 := RUNG.(seen := 1, read := 1)], place := Between([0]));
    var u := Step(flow, t, Write(0, 2));
    assert u == t.(bells := map[0 := Bell(true, true, false, 2, 2, 2, 1, 1)]);
    assert Step(flow, u, Handle) == u.(bells := map[0 := Bell(true, true, true, 2, 2, 2, 1, 1)], place := Serving([]));
  }

  /** With get_value before request_notification, a second write between the two is never seen. */
  lemma SwappedOrderLoses(flow: Flow, max: nat)
    requires !flow.armFirst && max > 0
    ensures Quiescent(Run(flow, Initial(max), SET_UP + COLLECT + LOSE))
    ensures !AllSeen(Run(flow, Initial(max), SET_UP + COLLECT + LOSE))
  {
    RunConcat(flow, Initial(max), SET_UP, COLLECT);
    RunConcat(flow, Initial(max), SET_UP + COLLECT, LOSE);
    AfterSetUp(flow, max);
    AfterCollect(flow, max);
    AfterLose(flow, max);
  }

  /** Every run that comes to rest has seen every write exactly under the documented order. */
  lemma LosslessIffArmFirst(flow: Flow, max: nat)
    requires max > 0
    ensures (forall events :: Quiescent(Run(flow, Initial(max), events)) ==> AllSeen(Run(flow, Initial(max), events)))
       <==> flow.armFirst
  {
    if flow.armFirst {
      forall events | Quiescent(Run(flow, Initial(max), events))
        ensures AllSeen(Run(flow, Initial(max), events))
      {
        NoLostWakeup(flow, max, events);
      }
    } else {
      SwappedOrderLoses(flow, max);
    }
  }
}
