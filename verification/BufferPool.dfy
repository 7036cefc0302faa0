/** The buffer pool: where its elements lie in the memory range of the mmap, and who holds them. */
module BufferPool {
  import opened Collections
  import opened DocaResult
  import BufferStore

  /* Placement. */

  predicate IsPowerOfTwo(a: nat)
  {
    a == 1 || (a > 1 && a % 2 == 0 && IsPowerOfTwo(a / 2))
  }

  /** Products with a common factor are apart by at least the factor. */
  lemma ProductsApart(a: nat, i: int, j: int)
    requires i < j
    ensures a * i + a <= a * j
  {
    assert a * j - a * i == a * (j - i);
    Scaled(a, j - i);
  }

  lemma Scaled(a: nat, d: nat)
    requires d > 0
    ensures a <= a * d
  {
    assert a * d == a + a * (d - 1);
  }

  lemma ProductIsMultiple(a: nat, k: int)
    requires a > 0
    ensures (a * k) % a == 0
  {
    var q, r := a * k / a, (a * k) % a;
    assert a * k == a * q + r;
    if q < k {
      ProductsApart(a, q, k);
    } else if k < q {
      ProductsApart(a, k, q);
    }
  }

  lemma SumIsMultiple(x: int, y: int, a: nat)
    requires a > 0 && x % a == 0 && y % a == 0
    ensures (x + y) % a == 0 && (x - y) % a == 0
  {
    assert x == a * (x / a) && y == a * (y / a);
    assert x + y == a * (x / a + y / a) && x - y == a * (x / a - y / a);
    ProductIsMultiple(a, x / a + y / a);
    ProductIsMultiple(a, x / a - y / a);
  }

  function PowerOfTwo(k: nat): (p: nat)
    ensures p > 0
  {
    if k == 0 then 1 else 2 * PowerOfTwo(k - 1)
  }

  lemma {:induction false} PowerIsPower(k: nat)
    ensures IsPowerOfTwo(PowerOfTwo(k))
  {
    if k > 0 {
      PowerIsPower(k - 1);
    }
  }

  lemma {:induction false} Exponent(a: nat) returns (k: nat)
    requires IsPowerOfTwo(a)
    ensures a == PowerOfTwo(k)
  {
    k := 0;
    if a > 1 {
      k := Exponent(a / 2);
      k := k + 1;
    }
  }

  /** Halving recognises the powers of two. */
  lemma IsPowerIff(a: nat)
    ensures IsPowerOfTwo(a) <==> exists k :: a == PowerOfTwo(k)
  {
    if IsPowerOfTwo(a) {
      var k := Exponent(a);
    }
    if k :| a == PowerOfTwo(k) {
      PowerIsPower(k);
    }
  }

  function RoundUp(x: nat, a: nat): (r: nat)
    requires a > 0
    ensures x <= r < x + a && r % a == 0
  {
    var k := (x + a - 1) / a;
    ProductIsMultiple(a, k);
    a * k
  }

  /** The first multiple at or above x is below every other one. */
  lemma RoundUpIsLeast(x: nat, a: nat, y: nat)
    requires a > 0 && x <= y && y % a == 0
    ensures RoundUp(x, a) <= y
  {
    var r := RoundUp(x, a);
    if y < r {
      assert r == a * (r / a) && y == a * (y / a);
      if r / a <= y / a {
        assert r / a == y / a || r / a < y / a;
        if r / a < y / a {
          ProductsApart(a, r / a, y / a);
        }
      } else {
        ProductsApart(a, y / a, r / a);
      }
      assert false;
    }
  }

  datatype Layout = Layout(count: nat, size: nat, align: nat, base: nat, length: nat)
  {
    predicate Valid()
    {
      count > 0 && size > 0 && align > 0
    }

    function First(): nat
      requires Valid()
    {
      RoundUp(base, align)
    }

    function Stride(): nat
      requires Valid()
    {
      RoundUp(size, align)
    }

    function Address(i: nat): nat
      requires Valid()
    {
      First() + i * Stride()
    }

    /** The memory range holds all elements. */
    predicate Fits()
      requires Valid()
    {
      Address(count - 1) + size <= base + length
    }
  }

  predicate Disjoint(a: nat, b: nat, size: nat)
  {
    a + size <= b || b + size <= a
  }

  lemma {:induction false} AddressAligned(l: Layout, i: nat)
    requires l.Valid()
    ensures l.Address(i) % l.align == 0
  {
    if i > 0 {
      AddressAligned(l, i - 1);
      NextAddress(l, i - 1);
      SumIsMultiple(l.Address(i - 1), l.Stride(), l.align);
    }
  }

  lemma NextAddress(l: Layout, i: nat)
    requires l.Valid()
    ensures l.Address(i + 1) == l.Address(i) + l.Stride()
  {
  }

  lemma {:induction false} AddressGrows(l: Layout, i: nat, j: nat)
    requires l.Valid() && i <= j
    ensures l.Address(i) <= l.Address(j) && (i < j ==> l.Address(i) + l.size <= l.Address(j))
  {
    if i < j {
      AddressGrows(l, i, j - 1);
      NextAddress(l, j - 1);
    }
  }

  /** Where a range is accepted, the elements are aligned, inside it and disjoint. */
  lemma PlacedWell(l: Layout, i: nat, j: nat)
    requires l.Valid() && l.Fits() && i < l.count
    ensures l.Address(i) % l.align == 0
    ensures l.base <= l.Address(i) && l.Address(i) + l.size <= l.base + l.length
    ensures i != j ==> Disjoint(l.Address(i), l.Address(j), l.size)
  {
    AddressAligned(l, i);
    AddressGrows(l, 0, i);
    AddressGrows(l, i, l.count - 1);
    AddressGrows(l, if i < j then i else j, if i < j then j else i);
  }

  /** `addresses` is some way to place that many elements in the memory range. */
  ghost predicate IsPlacement(l: Layout, addresses: set<nat>)
    requires l.Valid()
  {
    && (forall a :: a in addresses ==> l.base <= a && a % l.align == 0 && a + l.size <= l.base + l.length)
    && (forall a, b :: a in addresses && b in addresses && a != b ==> Disjoint(a, b, l.size))
  }

  /** Aligned elements that do not overlap are a stride apart. */
  lemma StrideApart(l: Layout, a: nat, b: nat)
    requires l.Valid() && a % l.align == 0 && b % l.align == 0 && a + l.size <= b
    ensures a + l.Stride() <= b
  {
    SumIsMultiple(b, a, l.align);
    RoundUpIsLeast(l.size, l.align, b - a);
  }

  lemma {:induction false} Greatest(s: set<nat>) returns (m: nat)
    requires s != {}
    ensures m in s && forall a :: a in s ==> a <= m
  {
    m :| m in s;
    var rest := s - {m};
    assert s == rest + {m};
    if rest != {} {
      var g := Greatest(rest);
      if g > m {
        m := g;
      }
    }
  }

  /** However the elements are placed, the last one is no lower than in this layout. */
  lemma {:induction false} LastIsFar(l: Layout, addresses: set<nat>) returns (last: nat)
    requires l.Valid() && IsPlacement(l, addresses) && addresses != {}
    ensures last in addresses && (forall a :: a in addresses ==> a <= last) && l.Address(|addresses| - 1) <= last
    decreases |addresses|
  {
    last := Greatest(addresses);
    var rest := addresses - {last};
    if rest == {} {
      assert addresses == {last};
      RoundUpIsLeast(l.base, l.align, last);
    } else {
      var before := LastIsFar(l, rest);
      StrideApart(l, before, last);
      NextAddress(l, |rest| - 1);
    }
  }

  function Places(l: Layout, n: nat): set<nat>
    requires l.Valid()
  {
    if n == 0 then {} else Places(l, n - 1) + {l.Address(n - 1)}
  }

  lemma {:induction false} PlaceOf(l: Layout, n: nat, a: nat) returns (i: nat)
    requires l.Valid() && a in Places(l, n)
    ensures i < n && a == l.Address(i)
  {
    i := n - 1;
    if a != l.Address(n - 1) {
      i := PlaceOf(l, n - 1, a);
    }
  }

  lemma {:induction false} PlacesCount(l: Layout, n: nat)
    requires l.Valid()
    ensures |Places(l, n)| == n
  {
    if n > 0 {
      PlacesCount(l, n - 1);
      if l.Address(n - 1) in Places(l, n - 1) {
        var i := PlaceOf(l, n - 1, l.Address(n - 1));
        AddressGrows(l, i, n - 1);
      }
    }
  }

  lemma PlacesArePlacement(l: Layout)
    requires l.Valid() && l.Fits()
    ensures IsPlacement(l, Places(l, l.count))
  {
    forall a | a in Places(l, l.count)
      ensures l.base <= a && a % l.align == 0 && a + l.size <= l.base + l.length
    {
      var i := PlaceOf(l, l.count, a);
      AddressAligned(l, i);
      AddressGrows(l, 0, i);
      AddressGrows(l, i, l.count - 1);
    }
    forall a, b | a in Places(l, l.count) && b in Places(l, l.count) && a != b
      ensures Disjoint(a, b, l.size)
    {
      var i := PlaceOf(l, l.count, a);
      var j := PlaceOf(l, l.count, b);
      AddressGrows(l, if i < j then i else j, if i < j then j else i);
    }
  }

  /** Starting a pool is refused for lack of memory exactly when there is no way at all to place its
      elements aligned and without overlap in the memory range. */
  lemma FitsIffPlaceable(l: Layout)
    requires l.Valid()
    ensures l.Fits() <==> exists addresses :: |addresses| == l.count && IsPlacement(l, addresses)
  {
    if l.Fits() {
      PlacesCount(l, l.count);
      PlacesArePlacement(l);
    }
    if addresses :| |addresses| == l.count && IsPlacement(l, addresses) {
      var last := LastIsFar(l, addresses);
    }
  }

  /* Operation. */

  /** `refs` are the elements that are out, with their reference counts. */
  datatype Pool = Pool(layout: Layout, started: bool, refs: map<nat, nat>)

  datatype Call =
    | SetAlignment(align: nat)
    | Start(mmapStarted: bool)
    | Stop
    | Alloc(index: nat)
    | Increase(index: nat)
    | Decrease(index: nat)

  /** The allocator picks any element that is not out; reference counts are those of held elements. */
  predicate Enabled(p: Pool, c: Call)
  {
    match c
    case Alloc(i) => i < p.layout.count && i !in p.refs
    case Increase(i) => i in p.refs
    case Decrease(i) => i in p.refs
    case _ => true
  }

  predicate Sound(p: Pool)
  {
    && p.layout.Valid() && (p.started ==> p.layout.Fits()) && (!p.started ==> p.refs == map[])
    && (forall i :: i in p.refs ==> i < p.layout.count && 0 < p.refs[i] <= BufferStore.MAX_REFCOUNT)
  }

  function Answer(p: Pool, c: Call): Status
    requires Sound(p)
  {
    match c
    case SetAlignment(a) =>
      if p.started then Refused(BadState) else if !IsPowerOfTwo(a) then Refused(InvalidValue) else Done
    case Start(mmapStarted) =>
      if !mmapStarted then Refused(BadState) else if !p.layout.Fits() then Refused(Initialization) else Done
    case Stop => if p.refs != map[] then Refused(InUse) else Done
    case Alloc(_) =>
      if !p.started then Refused(BadState) else if |p.refs| == p.layout.count then Refused(Empty) else Done
    case Increase(i) => if i in p.refs && p.refs[i] >= BufferStore.MAX_REFCOUNT then Refused(TooBig) else Done
    case _ => Done
  }

  function Step(p: Pool, c: Call): Pool
    requires Sound(p)
  {
    if !Enabled(p, c) || Answer(p, c) != Done then p
    else
      match c
      case SetAlignment(a) => p.(layout := p.layout.(align := a))
      case Start(_) => p.(started := true)
      case Stop => p.(started := false)
      case Alloc(i) => p.(refs := p.refs[i := 1])
      case Increase(i) => p.(refs := p.refs[i := p.refs[i] + 1])
      case Decrease(i) => p.(refs := if p.refs[i] == 1 then p.refs - {i} else p.refs[i := p.refs[i] - 1])
  }

  lemma StepSound(p: Pool, c: Call)
    requires Sound(p)
    ensures Sound(Step(p, c))
  {
  }

  function Run(p: Pool, calls: seq<Call>): (q: Pool)
    requires Sound(p)
    ensures Sound(q)
    decreases |calls|
  {
    if |calls| == 0 then p
    else
      var q := Run(p, calls[..|calls| - 1]);
      StepSound(q, calls[|calls| - 1]);
      Step(q, calls[|calls| - 1])
  }

  /** A byte belongs to the memory of an element that is out. */
  predicate Holds(p: Pool, i: nat, at: nat)
    requires p.layout.Valid()
  {
    i in p.refs && p.layout.Address(i) <= at < p.layout.Address(i) + p.layout.size
  }

  /** After any run, every byte of memory has at most one holder, and held bytes are in the range. */
  lemma OneHolder(p: Pool, calls: seq<Call>, i: nat, j: nat, at: nat)
    requires Sound(p) && Holds(Run(p, calls), i, at) && Holds(Run(p, calls), j, at)
    ensures i == j && p.layout.base <= at < p.layout.base + p.layout.length
  {
    var q := Run(p, calls);
    RunKeepsRange(p, calls);
    PlacedWell(q.layout, i, j);
  }

  lemma {:induction false} RunKeepsRange(p: Pool, calls: seq<Call>)
    requires Sound(p)
    ensures var l := Run(p, calls).layout; l == p.layout.(align := l.align)
    decreases |calls|
  {
    if |calls| > 0 {
      RunKeepsRange(p, calls[..|calls| - 1]);
    }
  }

  function References(p: Pool, i: nat): nat
  {
    if i in p.refs then p.refs[i] else 0
  }

  function Gain(p: Pool, c: Call, i: nat): nat
    requires Sound(p)
  {
    if Enabled(p, c) && Answer(p, c) == Done && (c == Alloc(i) || c == Increase(i)) then 1 else 0
  }

  function Loss(p: Pool, c: Call, i: nat): nat
  {
    if Enabled(p, c) && c == Decrease(i) then 1 else 0
  }

  function Gains(p: Pool, calls: seq<Call>, i: nat): nat
    requires Sound(p)
    decreases |calls|
  {
    if |calls| == 0 then 0
    else
      var n := |calls| - 1;
      Gains(p, calls[..n], i) + Gain(Run(p, calls[..n]), calls[n], i)
  }

  function Losses(p: Pool, calls: seq<Call>, i: nat): nat
    requires Sound(p)
    decreases |calls|
  {
    if |calls| == 0 then 0
    else
      var n := |calls| - 1;
      Losses(p, calls[..n], i) + Loss(Run(p, calls[..n]), calls[n], i)
  }

  lemma StepReferences(p: Pool, c: Call, i: nat)
    requires Sound(p)
    ensures References(Step(p, c), i) + Loss(p, c, i) == References(p, i) + Gain(p, c, i)
  {
  }

  /** After any run an element is out exactly while more references to it were handed out than given
      back. */
  lemma {:induction false} ReferencesAddUp(p: Pool, calls: seq<Call>, i: nat)
    requires Sound(p)
    ensures References(Run(p, calls), i) + Losses(p, calls, i) == References(p, i) + Gains(p, calls, i)
    ensures i in Run(p, calls).refs <==> References(p, i) + Gains(p, calls, i) > Losses(p, calls, i)
    decreases |calls|
  {
    if |calls| > 0 {
      var n := |calls| - 1;
      ReferencesAddUp(p, calls[..n], i);
      StepReferences(Run(p, calls[..n]), calls[n], i);
    }
  }

  /** An element stays where it is from the call that hands it out to the one that takes it back. */
  ghost predicate HeldThroughout(p: Pool, calls: seq<Call>, i: nat)
    requires Sound(p)
    decreases |calls|
  {
    i in Run(p, calls).refs && (|calls| > 0 ==> HeldThroughout(p, calls[..|calls| - 1], i))
  }

  lemma {:induction false} HeldStaysPut(p: Pool, calls: seq<Call>, i: nat)
    requires Sound(p) && HeldThroughout(p, calls, i)
    ensures Run(p, calls).layout.Address(i) == p.layout.Address(i)
    ensures Run(p, calls).layout == p.layout && Run(p, calls).started
    decreases |calls|
  {
    if |calls| > 0 {
      HeldStaysPut(p, calls[..|calls| - 1], i);
    }
  }

  /* The pool in memory, with a list of free elements. */

  ghost predicate IsFreeList(l: seq<nat>, count: nat, refs: map<nat, nat>)
  {
    Distinct(l) && forall i: nat :: i in l <==> i < count && i !in refs
  }

  class BufPool {
    var layout: Layout
    var started: bool
    var free: seq<nat>
    var refs: map<nat, nat>

    ghost function View(): Pool
      reads this
    {
      Pool(layout, started, refs)
    }

    ghost predicate Valid()
      reads this
    {
      Sound(View()) && IsFreeList(free, layout.count, refs)
    }

    constructor (count: nat, size: nat, base: nat, length: nat)
      requires count > 0 && size > 0
      ensures Valid() && View() == Pool(Layout(count, size, 1, base, length), false, map[])
    {
      layout := Layout(count, size, 1, base, length);
      started, refs := false, map[];
      free := seq(count, i => i);
      new;
      forall i: nat | i < count
        ensures i in free
      {
        assert free[i] == i;
      }
    }

    /** Refused while started, and for everything but powers of two; otherwise all elements will lie
        at multiples of the alignment.  Nobody holds an element that this could move. */
    method SetElementAlignment(align: nat) returns (status: Status)
      requires Valid()
      modifies this`layout
      ensures Valid() && View() == old(Step(View(), SetAlignment(align)))
      ensures status == Refused(BadState) <==> started
      ensures status == Done <==> !started && exists k :: align == PowerOfTwo(k)
      ensures status != Done ==> layout == old(layout) && (status == Refused(BadState) || status == Refused(InvalidValue))
      ensures status == Done ==>
                layout.align == align && refs == map[] && forall i: nat :: layout.Address(i) % align == 0
    {
      IsPowerIff(align);
      if started {
        return Refused(BadState);
      }
      if !IsPowerOfTwo(align) {
        return Refused(InvalidValue);
      }
      layout := layout.(align := align);
      forall i: nat
        ensures layout.Address(i) % align == 0
      {
        AddressAligned(layout, i);
      }
      status := Done;
    }

    method StartPool(mmapStarted: bool) returns (status: Status)
      requires Valid()
      modifies this`started
      ensures Valid() && status == old(Answer(View(), Start(mmapStarted))) && View() == old(Step(View(), Start(mmapStarted)))
      ensures status == Refused(BadState) <==> !mmapStarted
      ensures status == Done <==>
                mmapStarted && exists addresses :: |addresses| == layout.count && IsPlacement(layout, addresses)
      ensures status == Done || status == Refused(BadState) || status == Refused(Initialization)
      ensures started == (old(started) || status == Done)
    {
      FitsIffPlaceable(layout);
      if !mmapStarted {
        return Refused(BadState);
      }
      if layout.Address(layout.count - 1) + layout.size > layout.base + layout.length {
        return Refused(Initialization);
      }
      started := true;
      status := Done;
    }

    method StopPool() returns (status: Status)
      requires Valid()
      modifies this`started
      ensures Valid() && status == old(Answer(View(), Stop)) && View() == old(Step(View(), Stop))
      ensures status == if refs == map[] then Done else Refused(InUse)
      ensures started == (old(started) && status != Done)
    {
      FreeListLength(free, layout.count, refs);
      if |free| < layout.count {
        return Refused(InUse);
      }
      assert refs == map[];
      started := false;
      status := Done;
    }

    /** Hands out an element that nobody holds. */
    method BufAlloc() returns (status: Status, i: nat)
      requires Valid()
      modifies this`free, this`refs
      ensures Valid() && status == old(Answer(View(), Alloc(i))) && View() == old(Step(View(), Alloc(i)))
      ensures status == if !started then Refused(BadState)
                        else if AllOut(layout.count, old(refs)) then Refused(Empty) else Done
      ensures status == Done ==> i < layout.count && i !in old(refs) && refs == old(refs)[i := 1]
      ensures status != Done ==> refs == old(refs)
    {
      i := 0;
      FreeListLength(free, layout.count, refs);
      EmptyIff(free, layout.count, refs);
      if !started {
        return Refused(BadState), i;
      }
      if |free| == 0 {
        return Refused(Empty), i;
      }
      var n := |free| - 1;
      i := free[n];
      assert i in free && free == free[..n] + [i];
      free, refs := free[..n], refs[i := 1];
      status := Done;
    }

    /** One more reference, unless there are as many as can be counted; the element stays out. */
    method IncRefcount(i: nat) returns (status: Status, previous: nat)
      requires Valid() && i in refs
      modifies this`refs
      ensures Valid() && View() == old(Step(View(), Increase(i)))
      ensures status == if previous == 65535 then Refused(TooBig) else Done
      ensures previous == old(refs)[i] && i in refs && refs[i] == previous + if status == Done then 1 else 0
    {
      previous := refs[i];
      if previous == BufferStore.MAX_REFCOUNT {
        return Refused(TooBig), previous;
      }
      refs := refs[i := previous + 1];
      status := Done;
    }

    /** Drops a reference; with the last one the element is free again. */
    method DecRefcount(i: nat) returns (previous: nat)
      requires Valid() && i in refs
      modifies this`free, this`refs
      ensures Valid() && View() == old(Step(View(), Decrease(i)))
      ensures previous == old(refs)[i] && (i in refs <==> previous > 1) && (i in free <==> previous == 1)
    {
      previous := refs[i];
      if previous == 1 {
        free, refs := free + [i], refs - {i};
      } else {
        refs := refs[i := previous - 1];
      }
    }

    method GetNumFreeElements() returns (n: nat)
      requires Valid()
      ensures n == layout.count - |refs|
    {
      FreeListLength(free, layout.count, refs);
      n := |free|;
    }
  }

  method CreatePool(count: nat, size: nat, base: nat, length: nat) returns (r: Result<BufPool>)
    ensures r == Failure(InvalidValue) <==> count == 0 || size == 0
    ensures r.Success? <==> count > 0 && size > 0
    ensures r.Success? ==>
              && fresh(r.value) && r.value.Valid()
              && r.value.View() == Pool(Layout(count, size, 1, base, length), false, map[])
  {
    if count == 0 || size == 0 {
      return Failure(InvalidValue);
    }
    var pool := new BufPool(count, size, base, length);
    r := Success(pool);
  }

  /** Every element is out. */
  ghost predicate AllOut(count: nat, refs: map<nat, nat>)
  {
    forall e: nat :: e < count ==> e in refs
  }

  lemma EmptyIff(l: seq<nat>, count: nat, refs: map<nat, nat>)
    requires IsFreeList(l, count, refs)
    ensures |l| == 0 <==> AllOut(count, refs)
  {
    if |l| > 0 {
      assert l[0] in l;
    }
    if e: nat :| e < count && e !in refs {
      assert e in l;
    }
  }

  /** Free elements and elements that are out add up to all. */
  lemma FreeListLength(l: seq<nat>, count: nat, refs: map<nat, nat>)
    requires IsFreeList(l, count, refs) && forall i :: i in refs ==> i < count
    ensures |l| + |refs| == count
  {
    DistinctLength(l, Interval(0, count) - refs.Keys);
    assert Interval(0, count) == (Interval(0, count) - refs.Keys) + refs.Keys;
  }
}
