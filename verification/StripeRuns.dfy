/** A stripe over its whole life: encoded once, then rewritten, damaged and repaired any number of
    times. */
module StripeRuns {
  import opened Collections
  import opened GaloisField
  import opened LinearAlgebra
  import opened ErasureCoding
  import opened CodingGuarantees
  import opened DecodeSample

  /** The stored blocks.  `lost` are the positions whose contents cannot be relied on: i for data block
      i, and k + j for redundancy block j of a stripe of k data blocks. */
  datatype Stripe<F> = Stripe(data: seq<seq<F>>, parity: seq<seq<F>>, lost: set<nat>)

  /** Blocks of either kind are lost, and hold anything from then on; data blocks are rewritten through
      an update task; data blocks are rebuilt through a recover task from the chosen redundancy
      blocks; the redundancy is made afresh through a create task. */
  datatype Event<F> =
    | Lose(positions: seq<nat>, garbage: seq<seq<F>>)
    | Rewrite(indices: seq<nat>, blocks: seq<seq<F>>)
    | Repair(missing: seq<nat>, chosen: seq<nat>)
    | Encode

  /** Writes `blocks` over the positions `indices`. */
  function Overwrite<T>(s: seq<T>, indices: seq<nat>, blocks: seq<T>): (r: seq<T>)
    requires |indices| == |blocks| && Below(indices, |s|)
    ensures |r| == |s|
    ensures forall i :: 0 <= i < |s| && i !in indices ==> r[i] == s[i]
    decreases |indices|
  {
    if |indices| == 0 then s
    else
      var last := |indices| - 1;
      assert forall i :: i in indices[..last] ==> i in indices;
      assert indices[last] in indices;
      Overwrite(s, indices[..last], blocks[..last])[indices[last] := blocks[last]]
  }

  lemma {:induction false} OverwriteAt<T>(s: seq<T>, indices: seq<nat>, blocks: seq<T>, q: nat)
    requires |indices| == |blocks| && Below(indices, |s|) && Ascending(indices) && q < |indices|
    ensures Overwrite(s, indices, blocks)[indices[q]] == blocks[q]
    decreases |indices|
  {
    var last := |indices| - 1;
    if q < last {
      OverwriteAt(s, indices[..last], blocks[..last], q);
    }
  }

  lemma {:induction false} OverwriteBlocks<F>(s: seq<seq<F>>, indices: seq<nat>, blocks: seq<seq<F>>, length: nat)
    requires |indices| == |blocks| && Below(indices, |s|)
    requires AreBlocks(s, length) && AreBlocks(blocks, length)
    ensures AreBlocks(Overwrite(s, indices, blocks), length)
    decreases |indices|
  {
    if |indices| > 0 {
      var last := |indices| - 1;
      OverwriteBlocks(s, indices[..last], blocks[..last], length);
    }
  }

  ghost predicate Applicable<F>(m: Matrix<F>, e: Event<F>, length: nat)
  {
    match e
    case Lose(positions, garbage) =>
      Below(positions, m.inputs + |m.rows|) && |garbage| == |positions| && AreBlocks(garbage, length)
    case Rewrite(indices, blocks) =>
      Ascending(indices) && Below(indices, m.inputs) && |blocks| == |indices| && AreBlocks(blocks, length)
    case Repair(missing, chosen) => RecoverArguments(m, missing, chosen)
    case Encode => true
  }

  ghost predicate StripeShape<F>(m: Matrix<F>, s: Stripe<F>, length: nat)
  {
    && |s.data| == m.inputs && AreBlocks(s.data, length)
    && |s.parity| == |m.rows| && AreBlocks(s.parity, length)
    && forall i :: i in s.lost ==> i < m.inputs + |m.rows|
  }

  function Redundant<F>(m: Matrix<F>): (r: set<nat>)
    ensures forall i: nat :: i in r <==> m.inputs <= i < m.inputs + |m.rows|
  {
    Interval(m.inputs, m.inputs + |m.rows|)
  }

  /* The tasks read stored blocks only; what they read and is lost makes what they write lost. */

  ghost function Damaged<F>(m: Matrix<F>, s: Stripe<F>, positions: seq<nat>, garbage: seq<seq<F>>): Stripe<F>
    requires |s.data| == m.inputs && |s.parity| == |m.rows|
    requires Below(positions, m.inputs + |m.rows|) && |garbage| == |positions|
  {
    var all := Overwrite(s.data + s.parity, positions, garbage);
    Stripe(all[..m.inputs], all[m.inputs..], s.lost + Members(positions))
  }

  ghost predicate RewritesLost<F>(s: Stripe<F>, indices: seq<nat>)
  {
    exists q :: 0 <= q < |indices| && indices[q] in s.lost
  }

  ghost function Rewritten<F>(
      f: Field<F>, m: Matrix<F>, s: Stripe<F>, indices: seq<nat>, blocks: seq<seq<F>>, length: nat): Stripe<F>
    requires WellFormed(m) && StripeShape(m, s, length) && Applicable(m, Rewrite(indices, blocks), length)
  {
    var data := Overwrite(s.data, indices, blocks);
    OverwriteBlocks(s.data, indices, blocks, length);
    InterleaveBlocks(s.data, data, indices, length);
    Stripe(data,
           Apply(f, CreateUpdate(f, m, indices).value, Interleave(s.data, data, indices) + s.parity, length),
           (s.lost - Members(indices)) + if RewritesLost(s, indices) then Redundant(m) else {})
  }

  ghost predicate ReadsLost<F>(m: Matrix<F>, s: Stripe<F>, missing: seq<nat>, chosen: seq<nat>)
  {
    || (exists i :: 0 <= i < m.inputs && i in s.lost && i !in missing)
    || (exists c :: 0 <= c < |chosen| && m.inputs + chosen[c] in s.lost)
  }

  ghost function Repaired<F>(
      f: Field<F>, m: Matrix<F>, s: Stripe<F>, missing: seq<nat>, chosen: seq<nat>, length: nat): Stripe<F>
    requires WellFormed(m) && StripeShape(m, s, length) && RecoverArguments(m, missing, chosen)
    requires CreateRecover(f, m, missing, chosen).Success?
  {
    var rebuilt := Apply(f, CreateRecover(f, m, missing, chosen).value,
                         AvailableBlocks(s.data, s.parity, missing, chosen), length);
    Stripe(Overwrite(s.data, missing, rebuilt), s.parity,
           if ReadsLost(m, s, missing, chosen) then s.lost + Members(missing) else s.lost - Members(missing))
  }

  ghost function Encoded<F>(f: Field<F>, m: Matrix<F>, s: Stripe<F>, length: nat): Stripe<F>
    requires WellFormed(m) && StripeShape(m, s, length)
  {
    Stripe(s.data, Apply(f, m, s.data, length),
           if s.lost <= Redundant(m) then {} else s.lost + Redundant(m))
  }

  /** A repair fails, and leaves the stripe as it is, when there is no recover matrix. */
  ghost function Step<F>(f: Field<F>, m: Matrix<F>, s: Stripe<F>, e: Event<F>, length: nat): (t: Stripe<F>)
    requires WellFormed(m) && StripeShape(m, s, length) && Applicable(m, e, length)
    ensures StripeShape(m, t, length)
  {
    match e
    case Lose(positions, garbage) =>
      OverwriteBlocks(s.data + s.parity, positions, garbage, length);
      Damaged(m, s, positions, garbage)
    case Rewrite(indices, blocks) =>
      OverwriteBlocks(s.data, indices, blocks, length);
      Rewritten(f, m, s, indices, blocks, length)
    case Repair(missing, chosen) =>
      if CreateRecover(f, m, missing, chosen).Failure? then s
      else RepairedShape(f, m, s, missing, chosen, length); Repaired(f, m, s, missing, chosen, length)
    case Encode => Encoded(f, m, s, length)
  }

  lemma RepairedShape<F>(
      f: Field<F>, m: Matrix<F>, s: Stripe<F>, missing: seq<nat>, chosen: seq<nat>, length: nat)
    requires WellFormed(m) && StripeShape(m, s, length) && RecoverArguments(m, missing, chosen)
    requires CreateRecover(f, m, missing, chosen).Success?
    ensures StripeShape(m, Repaired(f, m, s, missing, chosen, length), length)
  {
    var rebuilt := Apply(f, CreateRecover(f, m, missing, chosen).value,
                         AvailableBlocks(s.data, s.parity, missing, chosen), length);
    OverwriteBlocks(s.data, missing, rebuilt, length);
  }

  ghost predicate AllApplicable<F>(m: Matrix<F>, events: seq<Event<F>>, length: nat)
  {
    forall i :: 0 <= i < |events| ==> Applicable(m, events[i], length)
  }

  ghost function Run<F>(f: Field<F>, m: Matrix<F>, s: Stripe<F>, events: seq<Event<F>>, length: nat): (t: Stripe<F>)
    requires WellFormed(m) && StripeShape(m, s, length) && AllApplicable(m, events, length)
    ensures StripeShape(m, t, length)
    decreases |events|
  {
    if |events| == 0 then s
    else
      var last := |events| - 1;
      Step(f, m, Run(f, m, s, events[..last], length), events[last], length)
  }

  /** What the user has written after an event. */
  ghost function Next<F>(w: seq<seq<F>>, e: Event<F>): (r: seq<seq<F>>)
    requires e.Rewrite? ==> |e.blocks| == |e.indices| && Below(e.indices, |w|)
    ensures |r| == |w|
  {
    if e.Rewrite? then Overwrite(w, e.indices, e.blocks) else w
  }

  /** What the user wrote: the rewrites alone, applied to the data. */
  ghost function Written<F>(m: Matrix<F>, data: seq<seq<F>>, events: seq<Event<F>>, length: nat): (r: seq<seq<F>>)
    requires |data| == m.inputs && AreBlocks(data, length) && AllApplicable(m, events, length)
    ensures |r| == |data| && AreBlocks(r, length)
    decreases |events|
  {
    if |events| == 0 then data
    else
      var last := |events| - 1;
      var before := Written(m, data, events[..last], length);
      assert Applicable(m, events[last], length);
      if events[last].Rewrite? then
        OverwriteBlocks(before, events[last].indices, events[last].blocks, length);
        Next(before, events[last])
      else Next(before, events[last])
  }

  /* What is not lost is right. */

  ghost predicate DataIntact<F>(s: Stripe<F>, w: seq<seq<F>>)
    requires |s.data| == |w|
  {
    forall i :: 0 <= i < |w| && i !in s.lost ==> s.data[i] == w[i]
  }

  ghost predicate ParityIntact<F>(f: Field<F>, m: Matrix<F>, s: Stripe<F>, w: seq<seq<F>>, length: nat)
    requires WellFormed(m) && |w| == m.inputs && AreBlocks(w, length) && |s.parity| == |m.rows|
  {
    forall j :: 0 <= j < |m.rows| && m.inputs + j !in s.lost ==> s.parity[j] == Apply(f, m, w, length)[j]
  }

  ghost predicate Intact<F>(f: Field<F>, m: Matrix<F>, s: Stripe<F>, w: seq<seq<F>>, length: nat)
  {
    && WellFormed(m) && StripeShape(m, s, length) && |w| == m.inputs && AreBlocks(w, length)
    && DataIntact(s, w) && ParityIntact(f, m, s, w, length)
  }

  lemma LoseKeepsData<F>(m: Matrix<F>, s: Stripe<F>, w: seq<seq<F>>, positions: seq<nat>, garbage: seq<seq<F>>, i: nat)
    requires |s.data| == m.inputs == |w| && |s.parity| == |m.rows| && DataIntact(s, w)
    requires Below(positions, m.inputs + |m.rows|) && |garbage| == |positions|
    requires i < |w| && i !in Damaged(m, s, positions, garbage).lost
    ensures Damaged(m, s, positions, garbage).data[i] == w[i]
  {
    assert i !in positions && (s.data + s.parity)[i] == s.data[i];
  }

  lemma LoseKeepsParity<F>(m: Matrix<F>, s: Stripe<F>, positions: seq<nat>, garbage: seq<seq<F>>, j: nat)
    requires |s.data| == m.inputs && |s.parity| == |m.rows|
    requires Below(positions, m.inputs + |m.rows|) && |garbage| == |positions|
    requires j < |m.rows| && m.inputs + j !in Damaged(m, s, positions, garbage).lost
    ensures m.inputs + j !in s.lost && Damaged(m, s, positions, garbage).parity[j] == s.parity[j]
  {
    assert m.inputs + j !in positions && (s.data + s.parity)[m.inputs + j] == s.parity[j];
  }

  lemma LoseKeeps<F>(
      f: Field<F>, m: Matrix<F>, s: Stripe<F>, w: seq<seq<F>>, positions: seq<nat>, garbage: seq<seq<F>>, length: nat)
    requires Intact(f, m, s, w, length) && Applicable(m, Lose(positions, garbage), length)
    ensures var t := Damaged(m, s, positions, garbage); DataIntact(t, w) && ParityIntact(f, m, t, w, length)
  {
    var t := Damaged(m, s, positions, garbage);
    forall i | 0 <= i < |w| && i !in t.lost
      ensures t.data[i] == w[i]
    {
      LoseKeepsData(m, s, w, positions, garbage, i);
    }
    forall j | 0 <= j < |m.rows| && m.inputs + j !in t.lost
      ensures t.parity[j] == Apply(f, m, w, length)[j]
    {
      LoseKeepsParity(m, s, positions, garbage, j);
    }
  }

  /** Interleaving looks at the updated blocks only. */
  lemma {:induction false} InterleaveSame<T>(a: seq<T>, b: seq<T>, c: seq<T>, d: seq<T>, updates: seq<nat>)
    requires |a| == |b| == |c| == |d| && Below(updates, |a|)
    requires forall q :: 0 <= q < |updates| ==> a[updates[q]] == c[updates[q]] && b[updates[q]] == d[updates[q]]
    ensures Interleave(a, b, updates) == Interleave(c, d, updates)
  {
    if |updates| > 0 {
      InterleaveSame(a, b, c, d, updates[1..]);
    }
  }

  /** A redundancy block is updated from its own old contents. */
  lemma UpdateRow<F(!new)>(
      f: Field<F>, m: Matrix<F>, updates: seq<nat>, pairs: seq<seq<F>>, a: seq<seq<F>>, b: seq<seq<F>>, length: nat, j: nat)
    requires IsField(f) && WellFormed(m) && CreateUpdate(f, m, updates).Success? && j < |m.rows|
    requires |pairs| == 2 * |updates| && |a| == |b| == |m.rows| && a[j] == b[j]
    requires AreBlocks(pairs, length) && AreBlocks(a, length) && AreBlocks(b, length)
    ensures Apply(f, CreateUpdate(f, m, updates).value, pairs + a, length)[j]
         == Apply(f, CreateUpdate(f, m, updates).value, pairs + b, length)[j]
  {
    var u := CreateUpdate(f, m, updates).value;
    var x, y := Apply(f, u, pairs + a, length)[j], Apply(f, u, pairs + b, length)[j];
    forall p | 0 <= p < length
      ensures x[p] == y[p]
    {
      UpdateRowAt(f, m.rows[j], updates, pairs, a, length, j, p);
      UpdateRowAt(f, m.rows[j], updates, pairs, b, length, j, p);
    }
  }

  lemma UpdateRowAt<F(!new)>(
      f: Field<F>, row: seq<F>, updates: seq<nat>, pairs: seq<seq<F>>, a: seq<seq<F>>, length: nat, j: nat, p: nat)
    requires IsField(f) && Below(updates, |row|) && |pairs| == 2 * |updates| && j < |a| && p < length
    requires AreBlocks(pairs, length) && AreBlocks(a, length)
    ensures Dot(f, Twice(row, updates) + Unit(f, |a|, j), Column(pairs + a, p))
         == f.add(Dot(f, Twice(row, updates), Column(pairs, p)), a[j][p])
  {
    assert Column(pairs + a, p) == Column(pairs, p) + Column(a, p);
    DotConcat(f, Twice(row, updates), Unit(f, |a|, j), Column(pairs, p), Column(a, p));
    DotUnit(f, j, Column(a, p));
  }

  lemma RewriteKeepsData<F>(
      f: Field<F>, m: Matrix<F>, s: Stripe<F>, w: seq<seq<F>>, indices: seq<nat>, blocks: seq<seq<F>>, length: nat)
    requires Intact(f, m, s, w, length) && Applicable(m, Rewrite(indices, blocks), length)
    ensures DataIntact(Step(f, m, s, Rewrite(indices, blocks), length), Overwrite(w, indices, blocks))
  {
    var t := Step(f, m, s, Rewrite(indices, blocks), length);
    forall i | 0 <= i < |w| && i !in t.lost
      ensures t.data[i] == Overwrite(w, indices, blocks)[i]
    {
      if i in indices {
        var q :| 0 <= q < |indices| && indices[q] == i;
        OverwriteAt(s.data, indices, blocks, q);
        OverwriteAt(w, indices, blocks, q);
      }
    }
  }

  lemma RewriteReadsAt<F>(s: Stripe<F>, w: seq<seq<F>>, indices: seq<nat>, blocks: seq<seq<F>>, q: nat)
    requires |s.data| == |w| && DataIntact(s, w) && |blocks| == |indices| && Below(indices, |w|) && Ascending(indices)
    requires !RewritesLost(s, indices) && q < |indices|
    ensures s.data[indices[q]] == w[indices[q]]
    ensures Overwrite(s.data, indices, blocks)[indices[q]] == Overwrite(w, indices, blocks)[indices[q]]
  {
    OverwriteAt(s.data, indices, blocks, q);
    OverwriteAt(w, indices, blocks, q);
  }

  lemma RewriteReads<F>(s: Stripe<F>, w: seq<seq<F>>, indices: seq<nat>, blocks: seq<seq<F>>)
    requires |s.data| == |w| && DataIntact(s, w) && |blocks| == |indices| && Below(indices, |w|) && Ascending(indices)
    requires !RewritesLost(s, indices)
    ensures Interleave(s.data, Overwrite(s.data, indices, blocks), indices)
         == Interleave(w, Overwrite(w, indices, blocks), indices)
  {
    var a, b := Overwrite(s.data, indices, blocks), Overwrite(w, indices, blocks);
    forall q | 0 <= q < |indices|
      ensures s.data[indices[q]] == w[indices[q]] && a[indices[q]] == b[indices[q]]
    {
      RewriteReadsAt(s, w, indices, blocks, q);
    }
    InterleaveSame(s.data, a, w, b, indices);
  }

  /** The update law for one redundancy block, when others are lost. */
  lemma UpdateOneRow<F(!new)>(
      f: Field<F>, m: Matrix<F>, updates: seq<nat>, before: seq<seq<F>>, after: seq<seq<F>>, parity: seq<seq<F>>,
      length: nat, j: nat)
    requires IsField(f) && WellFormed(m) && CreateUpdate(f, m, updates).Success?
    requires |before| == |after| == m.inputs && AreBlocks(before, length) && AreBlocks(after, length)
    requires forall i :: 0 <= i < |before| && i !in updates ==> before[i] == after[i]
    requires |parity| == |m.rows| && AreBlocks(parity, length)
    requires j < |m.rows| && parity[j] == Apply(f, m, before, length)[j]
    ensures AreBlocks(Interleave(before, after, updates), length)
    ensures Apply(f, CreateUpdate(f, m, updates).value, Interleave(before, after, updates) + parity, length)[j]
         == Apply(f, m, after, length)[j]
  {
    InterleaveBlocks(before, after, updates, length);
    var pairs, encoded := Interleave(before, after, updates), Apply(f, m, before, length);
    calc {
      Apply(f, CreateUpdate(f, m, updates).value, pairs + parity, length)[j];
      { UpdateRow(f, m, updates, pairs, parity, encoded, length, j); }
      Apply(f, CreateUpdate(f, m, updates).value, pairs + encoded, length)[j];
      { UpdateEqualsReencode(f, m, updates, before, after, length); }
      Apply(f, m, after, length)[j];
    }
  }

  lemma RewrittenLost<F>(
      f: Field<F>, m: Matrix<F>, s: Stripe<F>, indices: seq<nat>, blocks: seq<seq<F>>, length: nat, j: nat)
    requires WellFormed(m) && StripeShape(m, s, length) && Applicable(m, Rewrite(indices, blocks), length)
    requires j < |m.rows| && m.inputs + j !in Rewritten(f, m, s, indices, blocks, length).lost
    ensures !RewritesLost(s, indices) && m.inputs + j !in s.lost
  {
    assert m.inputs + j in Redundant(m) && m.inputs + j !in Members(indices);
  }

  lemma RewriteKeepsRow<F(!new)>(
      f: Field<F>, m: Matrix<F>, s: Stripe<F>, w: seq<seq<F>>, indices: seq<nat>, blocks: seq<seq<F>>, length: nat, j: nat)
    requires IsField(f) && Intact(f, m, s, w, length) && Applicable(m, Rewrite(indices, blocks), length)
    requires AreBlocks(Overwrite(w, indices, blocks), length)
    requires j < |m.rows| && !RewritesLost(s, indices) && m.inputs + j !in s.lost
    ensures Rewritten(f, m, s, indices, blocks, length).parity[j] == Apply(f, m, Overwrite(w, indices, blocks), length)[j]
  {
    RewriteReads(s, w, indices, blocks);
    UpdateOneRow(f, m, indices, w, Overwrite(w, indices, blocks), s.parity, length, j);
  }

  lemma RewriteKeepsParity<F(!new)>(
      f: Field<F>, m: Matrix<F>, s: Stripe<F>, w: seq<seq<F>>, indices: seq<nat>, blocks: seq<seq<F>>, length: nat)
    requires IsField(f) && Intact(f, m, s, w, length) && Applicable(m, Rewrite(indices, blocks), length)
    requires AreBlocks(Overwrite(w, indices, blocks), length)
    ensures ParityIntact(f, m, Rewritten(f, m, s, indices, blocks, length), Overwrite(w, indices, blocks), length)
  {
    var t := Rewritten(f, m, s, indices, blocks, length);
    forall j | 0 <= j < |m.rows| && m.inputs + j !in t.lost
      ensures t.parity[j] == Apply(f, m, Overwrite(w, indices, blocks), length)[j]
    {
      RewrittenLost(f, m, s, indices, blocks, length, j);
      RewriteKeepsRow(f, m, s, w, indices, blocks, length, j);
    }
  }

  lemma RepairReads<F>(
      f: Field<F>, m: Matrix<F>, s: Stripe<F>, w: seq<seq<F>>, missing: seq<nat>, chosen: seq<nat>, length: nat)
    requires Intact(f, m, s, w, length) && RecoverArguments(m, missing, chosen) && !ReadsLost(m, s, missing, chosen)
    ensures AvailableBlocks(s.data, s.parity, missing, chosen)
         == AvailableBlocks(w, Apply(f, m, w, length), missing, chosen)
  {
    var remaining := Remaining(m.inputs, missing);
    forall c | 0 <= c < |remaining|
      ensures s.data[remaining[c]] == w[remaining[c]]
    {
      RemainingIsNotMissing(m.inputs, missing, c);
    }
    assert Pick(s.data, remaining) == Pick(w, remaining);
    assert Pick(s.parity, chosen) == Pick(Apply(f, m, w, length), chosen);
  }

  /** A repair that reads nothing lost writes back exactly what was written. */
  lemma RepairRestores<F(!new)>(
      f: Field<F>, m: Matrix<F>, s: Stripe<F>, w: seq<seq<F>>, missing: seq<nat>, chosen: seq<nat>, length: nat)
    requires IsField(f) && Intact(f, m, s, w, length) && RecoverArguments(m, missing, chosen)
    requires !ReadsLost(m, s, missing, chosen) && CreateRecover(f, m, missing, chosen).Success?
    ensures var t := Step(f, m, s, Repair(missing, chosen), length);
            forall q :: 0 <= q < |missing| ==> missing[q] !in t.lost && t.data[missing[q]] == w[missing[q]]
  {
    RepairReads(f, m, s, w, missing, chosen, length);
    RecoverInvertsEncode(f, m, missing, chosen, w, length);
    forall q | 0 <= q < |missing|
      ensures Overwrite(s.data, missing, Pick(w, missing))[missing[q]] == w[missing[q]]
    {
      OverwriteAt(s.data, missing, Pick(w, missing), q);
    }
  }

  lemma RepairKeeps<F(!new)>(
      f: Field<F>, m: Matrix<F>, s: Stripe<F>, w: seq<seq<F>>, missing: seq<nat>, chosen: seq<nat>, length: nat)
    requires IsField(f) && Intact(f, m, s, w, length) && RecoverArguments(m, missing, chosen)
    ensures var t := Step(f, m, s, Repair(missing, chosen), length); DataIntact(t, w) && ParityIntact(f, m, t, w, length)
  {
    if CreateRecover(f, m, missing, chosen).Success? {
      var t := Step(f, m, s, Repair(missing, chosen), length);
      if !ReadsLost(m, s, missing, chosen) {
        RepairRestores(f, m, s, w, missing, chosen, length);
      }
      forall i | 0 <= i < |w| && i !in t.lost
        ensures t.data[i] == w[i]
      {
        if i in missing {
          var q :| 0 <= q < |missing| && missing[q] == i;
        }
      }
    }
  }

  lemma EncodeKeeps<F>(f: Field<F>, m: Matrix<F>, s: Stripe<F>, w: seq<seq<F>>, length: nat)
    requires Intact(f, m, s, w, length)
    ensures var t := Step(f, m, s, Encode, length); DataIntact(t, w) && ParityIntact(f, m, t, w, length)
  {
    if s.lost <= Redundant(m) {
      assert s.data == w;
    }
  }

  lemma StepKeeps<F(!new)>(f: Field<F>, m: Matrix<F>, s: Stripe<F>, w: seq<seq<F>>, e: Event<F>, length: nat)
    requires IsField(f) && Intact(f, m, s, w, length) && Applicable(m, e, length)
    ensures Intact(f, m, Step(f, m, s, e, length), Next(w, e), length)
  {
    match e
    case Lose(positions, garbage) => LoseKeeps(f, m, s, w, positions, garbage, length);
    case Rewrite(indices, blocks) =>
      OverwriteBlocks(w, indices, blocks, length);
      RewriteKeepsData(f, m, s, w, indices, blocks, length);
      RewriteKeepsParity(f, m, s, w, indices, blocks, length);
    case Repair(missing, chosen) => RepairKeeps(f, m, s, w, missing, chosen, length);
    case Encode => EncodeKeeps(f, m, s, w, length);
  }

  ghost function Fresh<F>(f: Field<F>, m: Matrix<F>, data: seq<seq<F>>, length: nat): Stripe<F>
    requires WellFormed(m) && |data| == m.inputs && AreBlocks(data, length)
  {
    Stripe(data, Apply(f, m, data, length), {})
  }

  /** Over any run of losses, rewrites, repairs and encodings, every data block that is not lost is
      what the user wrote, and every redundancy block that is not lost is its encoding. */
  lemma {:induction false} StripeStaysConsistent<F(!new)>(
      f: Field<F>, m: Matrix<F>, data: seq<seq<F>>, events: seq<Event<F>>, length: nat)
    requires IsField(f) && WellFormed(m) && |data| == m.inputs && AreBlocks(data, length)
    requires AllApplicable(m, events, length)
    ensures Intact(f, m, Run(f, m, Fresh(f, m, data, length), events, length), Written(m, data, events, length), length)
    decreases |events|
  {
    if |events| > 0 {
      var last := |events| - 1;
      StripeStaysConsistent(f, m, data, events[..last], length);
      assert Applicable(m, events[last], length);
      StepKeeps(f, m, Run(f, m, Fresh(f, m, data, length), events[..last], length),
                Written(m, data, events[..last], length), events[last], length);
    }
  }

  /** A repair of lost blocks that reads nothing lost restores them if and only if the sub-matrix of
      the missing blocks and the chosen redundancy blocks is invertible; otherwise nothing changes. */
  lemma RepairsIffNonsingular<F(!new)>(
      f: Field<F>, m: Matrix<F>, s: Stripe<F>, w: seq<seq<F>>, missing: seq<nat>, chosen: seq<nat>, length: nat)
    requires IsField(f) && Intact(f, m, s, w, length) && RecoverArguments(m, missing, chosen)
    requires !ReadsLost(m, s, missing, chosen) && exists q :: 0 <= q < |missing| && missing[q] in s.lost
    ensures var t := Step(f, m, s, Repair(missing, chosen), length);
            var invertible := Nonsingular(f, SubMatrix(m, missing, chosen), |missing|);
            && (invertible <==> forall q :: 0 <= q < |missing| ==> missing[q] !in t.lost)
            && (invertible ==> forall q :: 0 <= q < |missing| ==> t.data[missing[q]] == w[missing[q]])
            && (!invertible ==> t == s)
  {
    RecoverableIffNonsingular(f, m, missing, chosen);
    if CreateRecover(f, m, missing, chosen).Success? {
      RepairRestores(f, m, s, w, missing, chosen, length);
    }
  }

  /* What gets written. */

  /** What was last written to data block `i`: by the last rewrite that names it, or at the start. */
  ghost function LastWritten<F>(data: seq<seq<F>>, events: seq<Event<F>>, i: nat): seq<F>
    requires i < |data|
    requires forall k :: 0 <= k < |events| && events[k].Rewrite? ==> |events[k].blocks| == |events[k].indices|
    decreases |events|
  {
    if |events| == 0 then data[i]
    else
      var e := events[|events| - 1];
      if e.Rewrite? && i in e.indices then
        var q :| 0 <= q < |e.indices| && e.indices[q] == i;
        e.blocks[q]
      else LastWritten(data, events[..|events| - 1], i)
  }

  /** The data that a run is measured against holds in each block what was last written to it. */
  lemma {:induction false} WrittenIsLast<F>(m: Matrix<F>, data: seq<seq<F>>, events: seq<Event<F>>, length: nat, i: nat)
    requires |data| == m.inputs && AreBlocks(data, length) && AllApplicable(m, events, length) && i < m.inputs
    requires forall k :: 0 <= k < |events| && events[k].Rewrite? ==> |events[k].blocks| == |events[k].indices|
    ensures Written(m, data, events, length)[i] == LastWritten(data, events, i)
    decreases |events|
  {
    if |events| > 0 {
      var last := |events| - 1;
      var e, before := events[last], Written(m, data, events[..last], length);
      WrittenIsLast(m, data, events[..last], length, i);
      assert Applicable(m, e, length);
      if e.Rewrite? && i in e.indices {
        var q :| 0 <= q < |e.indices| && e.indices[q] == i && LastWritten(data, events, i) == e.blocks[q];
        OverwriteAt(before, e.indices, e.blocks, q);
      }
    }
  }

  /** A loss really replaces the contents of the blocks it names, of either kind. */
  lemma LoseDamages<F>(
      f: Field<F>, m: Matrix<F>, s: Stripe<F>, positions: seq<nat>, garbage: seq<seq<F>>, length: nat, q: nat)
    requires WellFormed(m) && StripeShape(m, s, length) && Applicable(m, Lose(positions, garbage), length)
    requires Ascending(positions) && q < |positions|
    ensures var t := Step(f, m, s, Lose(positions, garbage), length);
            && positions[q] in t.lost && positions[q] < m.inputs + |m.rows|
            && (if positions[q] < m.inputs then t.data[positions[q]] else t.parity[positions[q] - m.inputs]) == garbage[q]
  {
    OverwriteAt(s.data + s.parity, positions, garbage, q);
  }

  /* What gets lost. */

  /** The task reads a block that is lost. */
  ghost predicate ReadsLostBlock<F>(m: Matrix<F>, s: Stripe<F>, e: Event<F>)
  {
    match e
    case Lose(_, _) => false
    case Rewrite(indices, _) => RewritesLost(s, indices)
    case Repair(missing, chosen) => ReadsLost(m, s, missing, chosen)
    case Encode => exists i: nat :: i < m.inputs && i in s.lost
  }

  /** Only losses and tasks that read lost blocks add to what is lost: any other task loses nothing,
      and what it wrote is not lost any more. */
  lemma LostOnlyByLoss<F>(f: Field<F>, m: Matrix<F>, s: Stripe<F>, e: Event<F>, length: nat)
    requires WellFormed(m) && StripeShape(m, s, length) && Applicable(m, e, length)
    ensures var t := Step(f, m, s, e, length);
            && (e.Lose? ==> t.lost == s.lost + Members(e.positions))
            && (!e.Lose? && !ReadsLostBlock(m, s, e) ==> t.lost <= s.lost)
            && (e.Rewrite? ==> Members(e.indices) !! t.lost)
            && (e.Repair? && !ReadsLostBlock(m, s, e) && CreateRecover(f, m, e.missing, e.chosen).Success? ==>
                  Members(e.missing) !! t.lost)
            && (e.Encode? && !ReadsLostBlock(m, s, e) ==> t.lost == {})
  {
    if e.Encode? && !ReadsLostBlock(m, s, e) {
      forall i | i in s.lost
        ensures i in Redundant(m)
      {
        assert !(i < m.inputs && i in s.lost);
      }
    }
  }

  /** A stripe that never loses a block is the encoding of what was written, whatever is rewritten,
      repaired or encoded. */
  lemma {:induction false} NothingLost<F(!new)>(
      f: Field<F>, m: Matrix<F>, data: seq<seq<F>>, events: seq<Event<F>>, length: nat)
    requires IsField(f) && WellFormed(m) && |data| == m.inputs && AreBlocks(data, length)
    requires AllApplicable(m, events, length) && forall i :: 0 <= i < |events| ==> !events[i].Lose?
    ensures Run(f, m, Fresh(f, m, data, length), events, length) == Fresh(f, m, Written(m, data, events, length), length)
    decreases |events|
  {
    if |events| > 0 {
      var last := |events| - 1;
      NothingLost(f, m, data, events[..last], length);
      var s, e := Run(f, m, Fresh(f, m, data, length), events[..last], length), events[last];
      assert Applicable(m, e, length);
      assert !ReadsLostBlock(m, s, e);
      LostOnlyByLoss(f, m, s, e, length);
    }
    StripeStaysConsistent(f, m, data, events, length);
    IntactIsFresh(f, m, Run(f, m, Fresh(f, m, data, length), events, length), Written(m, data, events, length), length);
  }

  lemma IntactIsFresh<F>(f: Field<F>, m: Matrix<F>, s: Stripe<F>, w: seq<seq<F>>, length: nat)
    requires Intact(f, m, s, w, length) && s.lost == {}
    ensures s == Fresh(f, m, w, length)
  {
    assert s.data == w;
    assert s.parity == Apply(f, m, w, length);
  }

  /* Cauchy stripes. */

  ghost function Present<F>(s: Stripe<F>, n: nat): (r: seq<bool>)
    ensures |r| == n && forall i :: 0 <= i < n ==> (r[i] <==> i !in s.lost)
  {
    seq(n, i requires 0 <= i < n => i !in s.lost)
  }

  lemma {:induction false} AmongMembers(present: seq<bool>, lo: nat, hi: nat, wanted: bool)
    requires lo <= hi <= |present|
    ensures forall i: nat :: i in Among(present, lo, hi, wanted) <==> lo <= i < hi && present[i] == wanted
    decreases hi
  {
    if lo < hi {
      AmongMembers(present, lo, hi - 1, wanted);
    }
  }

  /** If at most as many blocks are lost as there is redundancy, enough are left. */
  lemma EnoughLeft<F>(s: Stripe<F>, k: nat, m: nat)
    requires (forall i :: i in s.lost ==> i < k + m) && |s.lost| <= m
    ensures |Among(Present(s, k + m), 0, k + m, true)| >= k
  {
    var present := Present(s, k + m);
    AmongMembers(present, 0, k + m, false);
    AmongAscends(present, 0, k + m, false);
    DistinctLength(Among(present, 0, k + m, false), s.lost);
    AmongCounts(present, 0, k + m);
  }

  /** The loop that collects survivors stops somewhere. */
  lemma {:induction false} StopPoint(present: seq<bool>, k: nat, n: nat) returns (stop: nat)
    requires n <= |present| && |Among(present, 0, n, true)| >= k
    ensures stop <= n && |Among(present, 0, stop, true)| == k
    decreases n
  {
    stop := n;
    if |Among(present, 0, n, true)| > k {
      stop := StopPoint(present, k, n - 1);
    }
  }

  /** The lost data blocks, and as many redundancy blocks that are not lost. */
  lemma RepairPlan<F>(s: Stripe<F>, k: nat, m: nat) returns (missing: seq<nat>, chosen: seq<nat>)
    requires (forall i :: i in s.lost ==> i < k + m) && |s.lost| <= m
    ensures Ascending(missing) && Below(missing, k) && Ascending(chosen) && Below(chosen, m) && |chosen| == |missing|
    ensures forall i: nat :: i < k ==> (i in missing <==> i in s.lost)
    ensures forall c :: 0 <= c < |chosen| ==> k + chosen[c] !in s.lost
  {
    var present := Present(s, k + m);
    missing, chosen := Among(present, 0, k, false), [];
    AmongAscends(present, 0, k, false);
    AmongMembers(present, 0, k, false);
    if |missing| > 0 {
      EnoughLeft(s, k, m);
      var stop := StopBeyond(present, k);
      chosen := ChosenParity(present, k, stop);
      CollectedRedundancy(present, k, stop);
      ChosenPresent(present, k, stop);
    }
  }

  /** If a data block is lost, the loop goes on into the redundancy blocks. */
  lemma StopBeyond(present: seq<bool>, k: nat) returns (stop: nat)
    requires k <= |present| && |Among(present, 0, |present|, true)| >= k && |Among(present, 0, k, false)| > 0
    ensures k < stop <= |present| && |Among(present, 0, stop, true)| == k
  {
    stop := StopPoint(present, k, |present|);
    AmongCounts(present, 0, k);
    if stop <= k {
      AmongSplits(present, 0, stop, k, true);
    }
  }

  lemma ChosenPresent(present: seq<bool>, k: nat, stop: nat)
    requires k <= stop <= |present|
    ensures forall c :: 0 <= c < |ChosenParity(present, k, stop)| ==> present[k + ChosenParity(present, k, stop)[c]]
  {
    AmongPresent(present, k, stop);
    AmongAscends(present, k, stop, true);
    var chosen := ChosenParity(present, k, stop);
    forall c | 0 <= c < |chosen|
      ensures present[k + chosen[c]]
    {
      assert Among(present, k, stop, true)[c] == k + chosen[c];
    }
  }

  /** A repair of all lost data blocks that succeeds leaves only redundancy blocks lost. */
  lemma RepairedData<F(!new)>(
      f: Field<F>, coding: Matrix<F>, s: Stripe<F>, w: seq<seq<F>>, missing: seq<nat>, chosen: seq<nat>, length: nat)
    requires IsField(f) && Intact(f, coding, s, w, length) && RecoverArguments(coding, missing, chosen)
    requires CreateRecover(f, coding, missing, chosen).Success?
    requires forall i: nat :: i < coding.inputs ==> (i in missing <==> i in s.lost)
    requires forall c :: 0 <= c < |chosen| ==> coding.inputs + chosen[c] !in s.lost
    ensures var t := Step(f, coding, s, Repair(missing, chosen), length); t.data == w && t.lost <= Redundant(coding)
  {
    RepairRestores(f, coding, s, w, missing, chosen, length);
    RepairKeeps(f, coding, s, w, missing, chosen, length);
    var t := Step(f, coding, s, Repair(missing, chosen), length);
    forall i | i in t.lost
      ensures i in Redundant(coding)
    {
      assert i in s.lost && i !in missing;
    }
    assert t.data == w;
  }

  lemma RepairThenEncode<F(!new)>(
      f: Field<F>, coding: Matrix<F>, s: Stripe<F>, w: seq<seq<F>>, missing: seq<nat>, chosen: seq<nat>, length: nat)
    requires IsField(f) && Intact(f, coding, s, w, length) && RecoverArguments(coding, missing, chosen)
    requires CreateRecover(f, coding, missing, chosen).Success?
    requires forall i: nat :: i < coding.inputs ==> (i in missing <==> i in s.lost)
    requires forall c :: 0 <= c < |chosen| ==> coding.inputs + chosen[c] !in s.lost
    ensures Step(f, coding, Step(f, coding, s, Repair(missing, chosen), length), Encode, length) == Fresh(f, coding, w, length)
  {
    RepairedData(f, coding, s, w, missing, chosen, length);
  }

  /** While at most m blocks of a Cauchy stripe are lost, nothing is lost for good: one repair and one
      encoding bring back everything that was written and its redundancy. */
  lemma CauchyStripeHeals<F(!new)>(
      f: Field<F>, k: nat, m: nat, coding: Matrix<F>, s: Stripe<F>, w: seq<seq<F>>, length: nat)
      returns (missing: seq<nat>, chosen: seq<nat>)
    requires IsField(f) && k + m <= 256 && coding == CauchyMatrix(f, k, m)
    requires Intact(f, coding, s, w, length) && |s.lost| <= m
    ensures RecoverArguments(coding, missing, chosen)
    ensures Step(f, coding, Step(f, coding, s, Repair(missing, chosen), length), Encode, length) == Fresh(f, coding, w, length)
  {
    missing, chosen := RepairPlan(s, k, m);
    CauchyRecoverable(f, k, m, coding, missing, chosen);
    RepairThenEncode(f, coding, s, w, missing, chosen, length);
  }

  lemma CauchyRecoverable<F(!new)>(
      f: Field<F>, k: nat, m: nat, coding: Matrix<F>, missing: seq<nat>, chosen: seq<nat>)
    requires IsField(f) && k + m <= 256 && coding == CauchyMatrix(f, k, m)
    requires Ascending(missing) && Below(missing, k) && Ascending(chosen) && Below(chosen, m) && |chosen| == |missing|
    ensures WellFormed(coding) && coding.inputs == k && |coding.rows| == m
    ensures RecoverArguments(coding, missing, chosen) && CreateRecover(f, coding, missing, chosen).Success?
  {
    CauchySubMatrixInvertible(f, k, m, missing, chosen);
    RecoverableIffNonsingular(f, CauchyMatrix(f, k, m), missing, chosen);
  }

  /** So it is after every run. */
  lemma CauchyRunsHeal<F(!new)>(
      f: Field<F>, k: nat, m: nat, coding: Matrix<F>, data: seq<seq<F>>, events: seq<Event<F>>, length: nat)
      returns (missing: seq<nat>, chosen: seq<nat>)
    requires IsField(f) && k + m <= 256 && coding == CauchyMatrix(f, k, m)
    requires |data| == k && AreBlocks(data, length) && AllApplicable(coding, events, length)
    requires |Run(f, coding, Fresh(f, coding, data, length), events, length).lost| <= m
    ensures RecoverArguments(coding, missing, chosen)
    ensures var s := Run(f, coding, Fresh(f, coding, data, length), events, length);
            Step(f, coding, Step(f, coding, s, Repair(missing, chosen), length), Encode, length)
            == Fresh(f, coding, Written(coding, data, events, length), length)
  {
    StripeStaysConsistent(f, coding, data, events, length);
    var s := Run(f, coding, Fresh(f, coding, data, length), events, length);
    missing, chosen := CauchyStripeHeals(f, k, m, coding, s, Written(coding, data, events, length), length);
  }
}
