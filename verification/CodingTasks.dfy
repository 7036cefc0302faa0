/** The coding tasks as the device runs them: flat source and destination buffers holding the
    blocks back to back.  The Galois multiplication, create, update and recover tasks differ only
    in the matrix and in what the caller puts in the source buffer. */
module CodingTasks {
  import opened GaloisField
  import opened LinearAlgebra
  import opened ErasureCoding
  import opened CodingGuarantees
  import opened Gf256
  import opened DocaResult

  const ALIGNMENT := 64

  /** The blocks held by a flat buffer. */
  function Blocks<F>(flat: seq<F>, count: nat, size: nat): (r: seq<seq<F>>)
    requires |flat| >= count * size
    ensures |r| == count && AreBlocks(r, size)
  {
    seq(count, i requires 0 <= i < count => Block(flat, count, size, i))
  }

  function Block<F>(flat: seq<F>, count: nat, size: nat, i: nat): (b: seq<F>)
    requires |flat| >= count * size && i < count
    ensures |b| == size
  {
    BlockFits(count, size, i);
    flat[i * size..i * size + size]
  }

  lemma BlockFits(count: nat, size: nat, i: nat)
    requires i < count
    ensures 0 <= i * size && i * size + size <= count * size
  {
    calc {
      count * size;
      (i + 1) * size + (count - i - 1) * size;
    }
    assert (count - i - 1) * size >= 0;
  }

  lemma PositionOf(i: nat, size: nat, p: nat)
    requires p < size
    ensures (i * size + p) / size == i && (i * size + p) % size == p
  {
    DivModUnique(i * size + p, size, i, p);
  }

  lemma MulMonotonic(a: int, b: int, d: nat)
    requires a <= b
    ensures a * d <= b * d
  {
  }

  lemma DivModUnique(x: nat, d: nat, q: nat, r: nat)
    requires d > 0 && x == q * d + r && r < d
    ensures x / d == q && x % d == r
  {
    assert x == (x / d) * d + x % d;
    if x / d > q {
      MulMonotonic(q + 1, x / d, d);
    }
    if x / d < q {
      MulMonotonic(x / d + 1, q, d);
    }
  }

  /** One output element, computed by running over the input blocks. */
  method OutputElement<F>(f: Field<F>, row: seq<F>, src: array<F>, size: nat, p: nat) returns (sum: F)
    requires src.Length == |row| * size && p < size
    ensures sum == Dot(f, row, Column(Blocks(src[..], |row|, size), p))
  {
    ghost var column := Column(Blocks(src[..], |row|, size), p);
    sum := f.zero;
    var i := |row|;
    while i > 0
      invariant 0 <= i <= |row|
      invariant sum == Dot(f, row[i..], column[i..])
    {
      i := i - 1;
      BlockFits(|row|, size, i);
      assert column[i] == src[i * size + p];
      sum := f.add(f.mul(row[i], src[i * size + p]), sum);
      assert row[i..][1..] == row[i + 1..] && column[i..][1..] == column[i + 1..];
    }
    assert row[0..] == row && column[0..] == column;
  }

  /** The source length fixes the block size; blocks are multiples of 64 bytes. */
  predicate BuffersFit<F>(m: Matrix<F>, sourceLength: nat, available: nat)
  {
    && m.inputs > 0
    && sourceLength % m.inputs == 0
    && sourceLength / m.inputs >= ALIGNMENT
    && (sourceLength / m.inputs) % ALIGNMENT == 0
    && |m.rows| * (sourceLength / m.inputs) <= available
  }

  /** The source holds one block of 64 * b bytes per input, and the destination has room for one per
      output. */
  predicate HoldsBlocks<F>(m: Matrix<F>, sourceLength: nat, available: nat, b: nat)
  {
    b > 0 && sourceLength == m.inputs * (64 * b) && |m.rows| * (64 * b) <= available
  }

  /** The buffers fit exactly when the blocks are some positive multiple of 64 bytes. */
  lemma FitIff<F>(m: Matrix<F>, sourceLength: nat, available: nat)
    ensures BuffersFit(m, sourceLength, available)
       <==> m.inputs > 0 && exists b: nat :: HoldsBlocks(m, sourceLength, available, b)
  {
    if BuffersFit(m, sourceLength, available) {
      var size := sourceLength / m.inputs;
      assert sourceLength == m.inputs * size && size == 64 * (size / 64);
      assert HoldsBlocks(m, sourceLength, available, size / 64);
    }
    if m.inputs > 0 {
      forall b: nat | HoldsBlocks(m, sourceLength, available, b)
        ensures BuffersFit(m, sourceLength, available)
      {
        SizeOf(sourceLength, m.inputs, 64 * b);
      }
    }
  }

  /** The element that belongs at position `q` of the destination. */
  ghost function OutputAt<F>(f: Field<F>, m: Matrix<F>, flat: seq<F>, size: nat, q: nat): F
    requires WellFormed(m) && |flat| == m.inputs * size && q < |m.rows| * size
  {
    QuotientFits(q, |m.rows|, size);
    Dot(f, m.rows[q / size], Column(Blocks(flat, m.inputs, size), q % size))
  }

  lemma QuotientFits(q: nat, count: nat, size: nat)
    requires q < count * size
    ensures size > 0 && q / size < count
  {
    if q / size >= count {
      MulMonotonic(count, q / size, size);
    }
  }

  method Fill<F>(f: Field<F>, m: Matrix<F>, src: array<F>, dst: array<F>, size: nat)
    requires WellFormed(m) && src != dst
    requires src.Length == m.inputs * size && |m.rows| * size <= dst.Length
    modifies dst
    ensures forall q :: 0 <= q < |m.rows| * size ==> dst[q] == OutputAt(f, m, src[..], size, q)
    ensures forall q :: |m.rows| * size <= q < dst.Length ==> dst[q] == old(dst[q])
  {
    var total := |m.rows| * size;
    var q := 0;
    while q < total
      invariant 0 <= q <= total
      invariant forall r :: 0 <= r < q ==> dst[r] == OutputAt(f, m, src[..], size, r)
      invariant forall r :: q <= r < dst.Length ==> dst[r] == old(dst[r])
    {
      QuotientFits(q, |m.rows|, size);
      dst[q] := OutputElement(f, m.rows[q / size], src, size, q % size);
      q := q + 1;
    }
  }

  /** Fills the destination with the product of the matrix and the source blocks. */
  method RunTask<F>(f: Field<F>, m: Matrix<F>, src: array<F>, dst: array<F>) returns (status: Status)
    requires WellFormed(m) && src != dst
    modifies dst
    ensures status == Done <==> m.inputs > 0 && exists b: nat :: HoldsBlocks(m, src.Length, dst.Length, b)
    ensures status == Done || status == Refused(InvalidValue)
    ensures status != Done ==> dst[..] == old(dst[..])
    ensures status == Done ==>
              var size := src.Length / m.inputs;
              src.Length == m.inputs * size &&
              Blocks(dst[..], |m.rows|, size) == Apply(f, m, Blocks(src[..], m.inputs, size), size)
    ensures status == Done ==>
              forall q :: |m.rows| * (src.Length / m.inputs) <= q < dst.Length ==> dst[q] == old(dst[q])
  {
    FitIff(m, src.Length, dst.Length);
    if !BuffersFit(m, src.Length, dst.Length) {
      return Refused(InvalidValue);
    }
    var size := src.Length / m.inputs;
    Fill(f, m, src, dst, size);
    FilledBlocks(f, m, src[..], dst[..], size);
    return Done;
  }

  lemma FilledBlocks<F>(f: Field<F>, m: Matrix<F>, source: seq<F>, flat: seq<F>, size: nat)
    requires WellFormed(m) && |source| == m.inputs * size && |m.rows| * size <= |flat|
    requires forall q :: 0 <= q < |m.rows| * size ==> flat[q] == OutputAt(f, m, source, size, q)
    ensures Blocks(flat, |m.rows|, size) == Apply(f, m, Blocks(source, m.inputs, size), size)
  {
    var out := Apply(f, m, Blocks(source, m.inputs, size), size);
    forall i | 0 <= i < |m.rows|
      ensures Block(flat, |m.rows|, size, i) == out[i]
    {
      BlockFits(|m.rows|, size, i);
      forall p | 0 <= p < size
        ensures Block(flat, |m.rows|, size, i)[p] == out[i][p]
      {
        PositionOf(i, size, p);
        assert flat[i * size + p] == OutputAt(f, m, source, size, i * size + p);
      }
    }
  }

  /* Creating the redundancy of a buffer and recovering lost blocks from it. */

  /** Blocks laid out back to back. */
  function Flat<F>(blocks: seq<seq<F>>, size: nat): (flat: seq<F>)
    requires AreBlocks(blocks, size)
    ensures |flat| == |blocks| * size
  {
    if |blocks| == 0 then [] else Flat(blocks[..|blocks| - 1], size) + blocks[|blocks| - 1]
  }

  lemma {:induction false} FlatBlock<F>(blocks: seq<seq<F>>, size: nat, i: nat)
    requires AreBlocks(blocks, size) && i < |blocks|
    ensures Block(Flat(blocks, size), |blocks|, size, i) == blocks[i]
  {
    var n := |blocks| - 1;
    if i < n {
      FlatBlock(blocks[..n], size, i);
      BlockFits(n, size, i);
    }
  }

  lemma BlocksOfFlat<F>(blocks: seq<seq<F>>, size: nat)
    requires AreBlocks(blocks, size)
    ensures Blocks(Flat(blocks, size), |blocks|, size) == blocks
  {
    forall i | 0 <= i < |blocks|
      ensures Block(Flat(blocks, size), |blocks|, size, i) == blocks[i]
    {
      FlatBlock(blocks, size, i);
    }
  }

  /** Runs a task into a buffer of its own, large enough for the output. */
  method RunInto<F(0)>(f: Field<F>, m: Matrix<F>, src: array<F>, size: nat) returns (dst: array<F>)
    requires WellFormed(m) && m.inputs > 0 && src.Length == m.inputs * size && size >= 64 && size % 64 == 0
    ensures fresh(dst) && dst.Length == |m.rows| * size
    ensures Blocks(dst[..], |m.rows|, size) == Apply(f, m, Blocks(src[..], m.inputs, size), size)
  {
    dst := new F[|m.rows| * size];
    SizeOf(src.Length, m.inputs, size);
    assert HoldsBlocks(m, src.Length, dst.Length, size / 64);
    var status := RunTask(f, m, src, dst);
    assert status == Done;
  }

  lemma SizeOf(total: nat, count: nat, size: nat)
    requires count > 0 && total == count * size
    ensures total / count == size && total % count == 0
  {
    assert total == size * count;
    DivModUnique(total, count, size, 0);
  }

  /** The redundancy of a buffer of k blocks is created; some data blocks are then not available any
      more, and are recovered from the others and the chosen redundancy blocks.  The recovered bytes are
      the lost ones. */
  method CreateThenRecover<F(==, 0, !new)>(
      f: Field<F>, k: nat, m: nat, data: array<F>, size: nat, missing: seq<nat>, chosen: seq<nat>) returns (out: array<F>)
    requires IsField(f) && 0 < k && k + m <= 256 && RecoverArguments(CauchyMatrix(f, k, m), missing, chosen)
    requires data.Length == k * size && size >= 64 && size % 64 == 0
    ensures fresh(out) && out.Length == |missing| * size
    ensures Blocks(out[..], |missing|, size) == Pick(Blocks(data[..], k, size), missing)
  {
    var coding := CauchyMatrix(f, k, m);
    var redundancy := RunInto(f, coding, data, size);
    ghost var blocks := Blocks(data[..], k, size);
    var available := AvailableBlocks(Blocks(data[..], k, size), Blocks(redundancy[..], m, size), missing, chosen);
    CauchyRecoversEverything(f, k, m, missing, chosen, blocks, size);
    var flat := Flat(available, size);
    BlocksOfFlat(available, size);
    var source := new F[|flat|](i requires 0 <= i < |flat| => flat[i]);
    assert source[..] == flat;
    var recover := CreateRecover(f, coding, missing, chosen).value;
    out := RunInto(f, recover, source, size);
  }

  /** The same for bytes. */
  method CreateThenRecoverBytes(
      k: nat, m: nat, data: array<Byte>, size: nat, missing: seq<nat>, chosen: seq<nat>) returns (out: array<Byte>)
    requires 0 < k && k + m <= 256 && RecoverArguments(CauchyMatrix(GF256, k, m), missing, chosen)
    requires data.Length == k * size && size >= 64 && size % 64 == 0
    ensures out.Length == |missing| * size
    ensures Blocks(out[..], |missing|, size) == Pick(Blocks(data[..], k, size), missing)
  {
    Gf256IsField();
    out := CreateThenRecover(GF256, k, m, data, size, missing, chosen);
  }
}
