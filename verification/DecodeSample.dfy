/** The decode loop of the erasure coding sample, which decides which blocks recovery is fed and which
    indices are named as missing. */
module DecodeSample {
  import opened GaloisField
  import opened ErasureCoding
  import opened CodingGuarantees
  import opened DocaResult

  /** The indices in [lo, hi) whose block is present, respectively lost. */
  function Among(present: seq<bool>, lo: nat, hi: nat, wanted: bool): (r: seq<nat>)
    requires lo <= hi <= |present|
    decreases hi
  {
    if hi == lo then []
    else
      var r := Among(present, lo, hi - 1, wanted);
      if present[hi - 1] == wanted then r + [hi - 1] else r
  }

  lemma {:induction false} AmongAscends(present: seq<bool>, lo: nat, hi: nat, wanted: bool)
    requires lo <= hi <= |present|
    ensures Ascending(Among(present, lo, hi, wanted)) && Below(Among(present, lo, hi, wanted), hi)
    ensures forall i :: 0 <= i < |Among(present, lo, hi, wanted)| ==> lo <= Among(present, lo, hi, wanted)[i]
    decreases hi
  {
    if lo < hi {
      var r := Among(present, lo, hi - 1, wanted);
      AmongAscends(present, lo, hi - 1, wanted);
      OneMoreAscends(r, hi - 1);
      assert Among(present, lo, hi, wanted) == if present[hi - 1] == wanted then r + [hi - 1] else r;
    }
  }

  lemma OneMoreAscends(r: seq<nat>, x: nat)
    requires Ascending(r) && Below(r, x)
    ensures Ascending(r + [x]) && Below(r + [x], x + 1) && Below(r, x + 1)
  {
  }

  lemma {:induction false} AmongSplits(present: seq<bool>, lo: nat, mid: nat, hi: nat, wanted: bool)
    requires lo <= mid <= hi <= |present|
    ensures Among(present, lo, hi, wanted) == Among(present, lo, mid, wanted) + Among(present, mid, hi, wanted)
    decreases hi
  {
    if mid < hi {
      AmongSplits(present, lo, mid, hi - 1, wanted);
    }
  }

  lemma {:induction false} AmongCounts(present: seq<bool>, lo: nat, hi: nat)
    requires lo <= hi <= |present|
    ensures |Among(present, lo, hi, true)| + |Among(present, lo, hi, false)| == hi - lo
    decreases hi
  {
    if lo < hi {
      AmongCounts(present, lo, hi - 1);
    }
  }

  /** The data blocks that survive are what remains when the lost ones are removed. */
  lemma {:induction false} RemainingAreSurvivors(present: seq<bool>, k: nat)
    requires k <= |present|
    ensures Ascending(Among(present, 0, k, false)) && Below(Among(present, 0, k, false), k)
    ensures Remaining(k, Among(present, 0, k, false)) == Among(present, 0, k, true)
  {
    AmongAscends(present, 0, k, false);
    if k > 0 {
      RemainingAreSurvivors(present, k - 1);
      RemainingStep(k, Among(present, 0, k - 1, false));
    }
  }

  lemma RemainingStep(k: nat, lost: seq<nat>)
    requires k > 0 && Ascending(lost) && Below(lost, k - 1)
    ensures Ascending(lost + [k - 1]) && Below(lost + [k - 1], k)
    ensures Remaining(k, lost) == Remaining(k - 1, lost) + [k - 1]
    ensures Remaining(k, lost + [k - 1]) == Remaining(k - 1, lost)
  {
    assert (lost + [k - 1])[..|lost|] == lost;
  }

  /** Walks data blocks and then redundancy blocks until as many blocks as there are data blocks
      were read, and gives up if there are not enough or if nothing is lost.  `source` lists the
      blocks copied, `lost` the indices recorded as missing. */
  method CollectSurvivors(present: seq<bool>, k: nat, m: nat)
    returns (status: Status, source: seq<nat>, lost: seq<nat>, ghost stop: nat)
    requires |present| == k + m && 0 < k
    ensures status == Done <==> k <= |Among(present, 0, k + m, true)| && Among(present, 0, k, false) != []
    ensures status != Done ==> status == Refused(InvalidValue)
    ensures status == Done ==>
              k < stop <= k + m && |source| == k && present[stop - 1] &&
              source == Among(present, 0, stop, true) && lost == Among(present, 0, stop, false)
    ensures status == Done ==> (Below(lost, k) <==> FirstRedundancyPresent(present, k))
  {
    source, lost := [], [];
    var i := 0;
    while i < k + m && |source| < k
      invariant 0 <= i <= k + m
      invariant source == Among(present, 0, i, true) && lost == Among(present, 0, i, false)
      invariant |source| <= k
      invariant |source| == k ==> 0 < i && present[i - 1]
    {
      if present[i] {
        source := source + [i];
      } else {
        lost := lost + [i];
      }
      i := i + 1;
    }
    stop := i;
    AmongCounts(present, 0, i);
    AmongCounts(present, 0, k);
    AmongSplits(present, 0, i, k + m, true);
    if i > k {
      LastIsBeyond(present, k, i);
    }
    if |source| < k || |lost| == 0 {
      status := Refused(InvalidValue);
    } else {
      status := Done;
      RecordedAreDataBlocks(present, k, m, stop);
    }
  }

  /** If block i - 1 > k is present, fewer than all blocks below it and the data blocks are. */
  lemma LastIsBeyond(present: seq<bool>, k: nat, i: nat)
    requires k < i <= |present|
    ensures |Among(present, 0, k, true)| + (if present[i - 1] then 1 else 0) <= |Among(present, 0, i, true)|
  {
    AmongSplits(present, 0, k, i - 1, true);
  }

  /** The redundancy blocks among the collected ones. */
  ghost function ChosenParity(present: seq<bool>, k: nat, stop: nat): (r: seq<nat>)
    requires k <= stop <= |present|
    ensures Ascending(r) && Below(r, stop - k)
  {
    var s := Among(present, k, stop, true);
    AmongAscends(present, k, stop, true);
    seq(|s|, i requires 0 <= i < |s| => s[i] - k)
  }

  /** The collected blocks are the surviving data blocks followed by as many redundancy blocks as
      data blocks were lost: exactly the layout the recover task expects. */
  lemma CollectedLayout<T>(present: seq<bool>, k: nat, m: nat, stop: nat, data: seq<T>, parity: seq<T>)
    requires |present| == k + m && |data| == k && |parity| == m && k < stop <= k + m
    requires |Among(present, 0, stop, true)| == k
    ensures var missing := Among(present, 0, k, false);
            var chosen := ChosenParity(present, k, stop);
            |chosen| == |missing| && Ascending(missing) && Below(missing, k) &&
            Below(Among(present, 0, stop, true), k + m) &&
            Pick(data + parity, Among(present, 0, stop, true)) == AvailableBlocks(data, parity, missing, chosen)
  {
    RemainingAreSurvivors(present, k);
    AmongAscends(present, 0, stop, true);
    AmongAscends(present, k, stop, true);
    AmongSplits(present, 0, k, stop, true);
    AmongCounts(present, 0, k);
  }

  /** Any k of the k + m blocks of a Cauchy stripe suffice: whatever the pattern of losses, the
      blocks the decode loop collects rebuild every lost data block. */
  lemma AnySurvivorsSuffice<F(!new)>(
      f: Field<F>, k: nat, m: nat, present: seq<bool>, stop: nat, data: seq<seq<F>>, length: nat)
    requires IsField(f) && k + m <= 256 && |present| == k + m && k < stop <= k + m
    requires |Among(present, 0, stop, true)| == k
    requires |data| == k && AreBlocks(data, length)
    ensures Below(Among(present, 0, stop, true), k + m) && Below(Among(present, 0, k, false), k)
    ensures var coding := CauchyMatrix(f, k, m);
            var missing := Among(present, 0, k, false);
            var recover := CreateRecover(f, coding, missing, ChosenParity(present, k, stop));
            var collected := Pick(data + Apply(f, coding, data, length), Among(present, 0, stop, true));
            recover.Success? && AreBlocks(collected, length) &&
            Apply(f, recover.value, collected, length) == Pick(data, missing)
  {
    var coding := CauchyMatrix(f, k, m);
    CollectedLayout(present, k, m, stop, data, Apply(f, coding, data, length));
    CauchyRecoversEverything(f, k, m, Among(present, 0, k, false), ChosenParity(present, k, stop), data, length);
  }

  /** As many redundancy blocks as there are lost data blocks, counted from the first, are all there. */
  predicate FirstRedundancyPresent(present: seq<bool>, k: nat)
    requires k <= |present|
  {
    forall i :: k <= i < k + |Among(present, 0, k, false)| ==> i < |present| && present[i]
  }

  /** Where all blocks are present, all are collected. */
  lemma {:induction false} AllOf(present: seq<bool>, lo: nat, hi: nat)
    requires lo <= hi <= |present| && forall i :: lo <= i < hi ==> present[i]
    ensures |Among(present, lo, hi, true)| == hi - lo
    ensures forall c :: 0 <= c < hi - lo ==> Among(present, lo, hi, true)[c] == lo + c
    decreases hi
  {
    if lo < hi {
      AllOf(present, lo, hi - 1);
    }
  }

  /** The loop collects as many redundancy blocks as data blocks are lost. */
  lemma CollectedRedundancy(present: seq<bool>, k: nat, stop: nat)
    requires k <= stop <= |present| && |Among(present, 0, stop, true)| == k
    ensures |Among(present, k, stop, true)| == |Among(present, 0, k, false)|
  {
    AmongSplits(present, 0, k, stop, true);
    AmongCounts(present, 0, k);
  }

  /** If the first redundancy blocks are there, the loop stops right after them. */
  lemma StopsEarly(present: seq<bool>, k: nat, stop: nat)
    requires k < stop <= |present| && |Among(present, 0, stop, true)| == k && present[stop - 1]
    requires FirstRedundancyPresent(present, k)
    ensures stop == k + |Among(present, 0, k, false)|
  {
    var t := |Among(present, 0, k, false)|;
    CollectedRedundancy(present, k, stop);
    if stop < k + t {
      AllOf(present, k, stop);
    } else if stop > k + t {
      AllOf(present, k, k + t);
      AmongSplits(present, k, k + t, stop - 1, true);
    }
  }

  /** The loop records lost redundancy blocks in the same list.  That list holds indices of data
      blocks only, as the recover matrix asks for, exactly when as many redundancy blocks as there
      are lost data blocks, counted from the first, are all there. */
  lemma RecordedAreDataBlocks(present: seq<bool>, k: nat, m: nat, stop: nat)
    requires |present| == k + m && k < stop <= k + m && |Among(present, 0, stop, true)| == k && present[stop - 1]
    ensures Below(Among(present, 0, stop, false), k) <==> FirstRedundancyPresent(present, k)
    ensures FirstRedundancyPresent(present, k) ==> Among(present, 0, stop, false) == Among(present, 0, k, false)
  {
    AmongSplits(present, 0, k, stop, false);
    AmongAscends(present, 0, k, false);
    AmongAscends(present, k, stop, false);
    var head, tail := Among(present, 0, k, false), Among(present, k, stop, false);
    CollectedRedundancy(present, k, stop);
    AmongCounts(present, k, stop);
    if tail == [] {
      AllPresent(present, k, stop);
    } else {
      assert (head + tail)[|head|] == tail[0];
    }
    if FirstRedundancyPresent(present, k) {
      StopsEarly(present, k, stop);
    }
  }

  lemma {:induction false} AllPresent(present: seq<bool>, lo: nat, hi: nat)
    requires lo <= hi <= |present| && Among(present, lo, hi, false) == []
    ensures forall i :: lo <= i < hi ==> present[i]
    decreases hi
  {
    if lo < hi {
      AllPresent(present, lo, hi - 1);
    }
  }

  /** Two data and two redundancy blocks of which the first of each is lost: two blocks are left, as
      many as recovery takes, but the list of missing data blocks reads 0 and 2. */
  lemma RecordedListFails(present: seq<bool>, k: nat)
    requires present == [false, true, false, true] && k == 2
    ensures |Among(present, 0, 4, true)| == k && Among(present, 0, 4, false) == [0, 2]
    ensures !FirstRedundancyPresent(present, k)
  {
    assert Among(present, 0, 1, false) == [0] && Among(present, 0, 1, true) == [];
    assert Among(present, 0, 2, false) == [0] && Among(present, 0, 2, true) == [1];
    assert Among(present, 0, 3, false) == [0, 2] && Among(present, 0, 3, true) == [1];
    assert !present[k];
  }

  /** With the first redundancy blocks, the chosen ones are 0, 1, ... */
  lemma ChosenAreFirst(present: seq<bool>, k: nat, stop: nat)
    requires k < stop <= |present| && forall i :: k <= i < stop ==> present[i]
    ensures Consecutive(ChosenParity(present, k, stop))
  {
    AllOf(present, k, stop);
  }

  /** For both matrix types a recover matrix exists for the first redundancy blocks. */
  lemma FirstRedundancySuffices<F(!new)>(
      f: Field<F>, kind: MatrixType, k: nat, m: nat, missing: seq<nat>, chosen: seq<nat>)
    requires IsField(f) && k + m <= 256
    requires RecoverArguments(CreateMatrix(f, kind, k, m).value, missing, chosen) && Consecutive(chosen)
    ensures CreateRecover(f, CreateMatrix(f, kind, k, m).value, missing, chosen).Success?
  {
    match kind
    case Cauchy =>
      CauchySubMatrixInvertible(f, k, m, missing, chosen);
      RecoverableIffNonsingular(f, CauchyMatrix(f, k, m), missing, chosen);
    case Vandermonde => VandermondeConsecutiveRecovers(f, k, m, missing, chosen);
  }

  /** The redundancy blocks in the source buffer, which come after the data blocks. */
  function Redundancy(source: seq<nat>, k: nat): seq<nat>
  {
    if |source| == 0 || source[|source| - 1] < k then []
    else Redundancy(source[..|source| - 1], k) + [source[|source| - 1] - k]
  }

  lemma {:induction false} ChosenFromSource(present: seq<bool>, k: nat, stop: nat)
    requires k <= stop <= |present|
    ensures Redundancy(Among(present, 0, stop, true), k) == ChosenParity(present, k, stop)
    decreases stop
  {
    var source := Among(present, 0, stop, true);
    if stop == k {
      AmongAscends(present, 0, k, true);
    } else {
      ChosenFromSource(present, k, stop - 1);
      if present[stop - 1] {
        assert source[..|source| - 1] == Among(present, 0, stop - 1, true);
      }
    }
  }

  lemma {:induction false} AmongPresent(present: seq<bool>, lo: nat, hi: nat)
    requires lo <= hi <= |present|
    ensures forall c :: 0 <= c < |Among(present, lo, hi, true)| ==>
              Among(present, lo, hi, true)[c] < hi && present[Among(present, lo, hi, true)[c]]
    decreases hi
  {
    if lo < hi {
      AmongPresent(present, lo, hi - 1);
    }
  }

  lemma RecordedRecovers<F(!new)>(
      f: Field<F>, kind: MatrixType, k: nat, m: nat, present: seq<bool>, stop: nat, blocks: seq<seq<F>>, length: nat,
      data: seq<seq<F>>)
    requires IsField(f) && k + m <= 256 && |present| == k + m == |blocks| && AreBlocks(blocks, length)
    requires |data| == k && AreBlocks(data, length)
    requires forall i :: 0 <= i < k + m && present[i] ==>
               blocks[i] == (data + Apply(f, CreateMatrix(f, kind, k, m).value, data, length))[i]
    requires k < stop <= k + m && |Among(present, 0, stop, true)| == k && present[stop - 1]
    requires FirstRedundancyPresent(present, k)
    ensures Below(Among(present, 0, stop, true), k + m) && Below(Among(present, 0, k, false), k)
    ensures Among(present, 0, stop, false) == Among(present, 0, k, false)
    ensures var missing := Among(present, 0, k, false);
            var recover := CreateRecover(f, CreateMatrix(f, kind, k, m).value, missing, ChosenParity(present, k, stop));
            var collected := Pick(blocks, Among(present, 0, stop, true));
            recover.Success? && AreBlocks(collected, length) &&
            Apply(f, recover.value, collected, length) == Pick(data, missing)
  {
    var coding := CreateMatrix(f, kind, k, m).value;
    var missing, chosen, source := Among(present, 0, k, false), ChosenParity(present, k, stop), Among(present, 0, stop, true);
    var parity := Apply(f, coding, data, length);
    CollectedLayout(present, k, m, stop, data, parity);
    RecordedAreDataBlocks(present, k, m, stop);
    RecordedCreates(f, kind, k, m, present, stop);
    RecoverInvertsEncode(f, coding, missing, chosen, data, length);
    SameCollected(present, stop, blocks, data + parity);
  }

  /** Only blocks that are present are collected. */
  lemma SameCollected<T>(present: seq<bool>, stop: nat, a: seq<T>, b: seq<T>)
    requires |present| == |a| == |b| && stop <= |present| && forall i :: 0 <= i < |a| && present[i] ==> a[i] == b[i]
    ensures Below(Among(present, 0, stop, true), |a|)
    ensures Pick(a, Among(present, 0, stop, true)) == Pick(b, Among(present, 0, stop, true))
  {
    AmongPresent(present, 0, stop);
  }

  lemma RecordedCreates<F(!new)>(f: Field<F>, kind: MatrixType, k: nat, m: nat, present: seq<bool>, stop: nat)
    requires IsField(f) && k + m <= 256 && |present| == k + m
    requires k < stop <= k + m && |Among(present, 0, stop, true)| == k && present[stop - 1]
    requires FirstRedundancyPresent(present, k)
    ensures CreateRecover(f, CreateMatrix(f, kind, k, m).value, Among(present, 0, k, false), ChosenParity(present, k, stop)).Success?
  {
    AmongAscends(present, 0, k, false);
    CollectedRedundancy(present, k, stop);
    StopsEarly(present, k, stop);
    ChosenAreFirst(present, k, stop);
    FirstRedundancySuffices(f, kind, k, m, Among(present, 0, k, false), ChosenParity(present, k, stop));
  }

  /** What the sample makes of its input: `blocks` are the files, of which only the present ones are
      read; these hold the data and its redundancy.  The recorded list is what it asks the recover
      matrix for. */
  method Decode<F(==, !new)>(
      f: Field<F>, kind: MatrixType, k: nat, m: nat, present: seq<bool>, blocks: seq<seq<F>>, length: nat,
      ghost data: seq<seq<F>>) returns (r: Result<seq<seq<F>>>)
    requires IsField(f) && 0 < k && k + m <= 256 && |present| == k + m == |blocks| && AreBlocks(blocks, length)
    requires |data| == k && AreBlocks(data, length)
    requires forall i :: 0 <= i < k + m && present[i] ==>
               blocks[i] == (data + Apply(f, CreateMatrix(f, kind, k, m).value, data, length))[i]
    ensures r.Success? <==>
              && k <= |Among(present, 0, k + m, true)| && Among(present, 0, k, false) != []
              && FirstRedundancyPresent(present, k)
    ensures r.Failure? ==> r.error == InvalidValue
    ensures r.Success? ==> Below(Among(present, 0, k, false), k) && r.value == Pick(data, Among(present, 0, k, false))
  {
    var coding := CreateMatrix(f, kind, k, m).value;
    var status, source, recorded, stop := CollectSurvivors(present, k, m);
    if status != Done {
      return Failure(InvalidValue);
    }
    AmongAscends(present, 0, stop, true);
    var chosen := Redundancy(source, k);
    ChosenFromSource(present, k, stop);
    var recover := CreateRecover(f, coding, recorded, chosen);
    if FirstRedundancyPresent(present, k) {
      RecordedRecovers(f, kind, k, m, present, stop, blocks, length, data);
    }
    if recover.Failure? {
      return Failure(InvalidValue);
    }
    r := Success(Apply(f, recover.value, Pick(blocks, source), length));
  }
}
