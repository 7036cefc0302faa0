/** The device buffer array: packed structures in memory, reached through integer handles. */
module DpaBuffers {

  type Byte = b: nat | b < 256

  const WORD: nat := 0x1_0000_0000_0000_0000

  /* Little-endian numbers. */

  function Pow256(width: nat): (p: nat)
    ensures p > 0
  {
    if width == 0 then 1 else 256 * Pow256(width - 1)
  }

  function Encode(value: nat, width: nat): (bytes: seq<Byte>)
    ensures |bytes| == width
  {
    if width == 0 then [] else [value % 256] + Encode(value / 256, width - 1)
  }

  function Decode(bytes: seq<Byte>): nat
  {
    if |bytes| == 0 then 0 else bytes[0] + 256 * Decode(bytes[1..])
  }

  lemma {:induction false} DecodeEncode(value: nat, width: nat)
    requires value < Pow256(width)
    ensures Decode(Encode(value, width)) == value
  {
    if width > 0 {
      DecodeEncode(value / 256, width - 1);
    }
  }

  /** A further byte is the most significant one. */
  lemma {:induction false} DecodeMore(bytes: seq<Byte>, b: Byte)
    ensures Decode(bytes + [b]) == Decode(bytes) + Pow256(|bytes|) * b
  {
    if |bytes| > 0 {
      assert (bytes + [b])[1..] == bytes[1..] + [b];
      DecodeMore(bytes[1..], b);
      assert 256 * (Pow256(|bytes| - 1) * b) == Pow256(|bytes|) * b;
    } else {
      assert bytes + [b] == [b];
      assert Decode([b][1..]) == 0;
    }
  }

  /* Memory. */

  datatype Memory = Memory(base: nat, bytes: seq<Byte>)
  {
    /** The range is inside this memory, which is inside the address space. */
    predicate Has(at: nat, width: nat)
    {
      base + |bytes| <= WORD && base <= at && at + width <= base + |bytes|
    }

    function Load(at: nat, width: nat): nat
      requires Has(at, width)
    {
      Decode(bytes[at - base..at - base + width])
    }

    function Store(at: nat, width: nat, value: nat): Memory
      requires Has(at, width)
    {
      this.(bytes := bytes[..at - base] + Encode(value, width) + bytes[at - base + width..])
    }
  }

  predicate Apart(at: nat, width: nat, other: nat, otherWidth: nat)
  {
    at + width <= other || other + otherWidth <= at
  }

  lemma LoadStored(m: Memory, at: nat, width: nat, value: nat)
    requires m.Has(at, width) && value < Pow256(width)
    ensures m.Store(at, width, value).Has(at, width) && m.Store(at, width, value).Load(at, width) == value
  {
    DecodeEncode(value, width);
    assert m.Store(at, width, value).bytes[at - m.base..at - m.base + width] == Encode(value, width);
  }

  lemma LoadElsewhere(m: Memory, at: nat, width: nat, value: nat, other: nat, otherWidth: nat)
    requires m.Has(at, width) && m.Has(other, otherWidth) && Apart(at, width, other, otherWidth)
    ensures m.Store(at, width, value).Has(other, otherWidth)
    ensures m.Store(at, width, value).Load(other, otherWidth) == m.Load(other, otherWidth)
  {
    var i := other - m.base;
    assert m.Store(at, width, value).bytes[i..i + otherWidth] == m.bytes[i..i + otherWidth];
  }

  /* The packed structure of 32 bytes: address, length, mmap and 12 reserved bytes. */

  const SIZE: nat := 32

  datatype Field = Addr | Len | Mmap

  function Offset(f: Field): nat
  {
    match f
    case Addr => 0
    case Len => 8
    case Mmap => 16
  }

  function Width(f: Field): nat
  {
    match f
    case Addr => 8
    case Len => 8
    case Mmap => 4
  }

  /** The first eight bytes of the array structure point at the buffers. */
  function GetBuf(m: Memory, arr: nat, index: nat): nat
    requires m.Has(arr, 8)
  {
    (m.Load(arr, 8) + SIZE * index) % WORD
  }

  /** An array structure at `arr` whose `count` buffers are at `bufs`. */
  datatype Array = Array(arr: nat, bufs: nat, count: nat)

  /** The structure and the buffers are in memory, apart from each other. */
  predicate Room(base: nat, length: nat, a: Array)
  {
    && base + length <= WORD
    && base <= a.arr && a.arr + 64 <= base + length
    && base <= a.bufs && a.bufs + SIZE * a.count <= base + length
    && Apart(a.arr, 64, a.bufs, SIZE * a.count)
  }

  predicate Placed(m: Memory, a: Array)
  {
    Room(m.base, |m.bytes|, a) && m.Load(a.arr, 8) == a.bufs
  }

  /** Where a field of a buffer is in memory. */
  function At(a: Array, i: nat, f: Field): nat
  {
    a.bufs + SIZE * i + Offset(f)
  }

  /** The handle of a buffer is its address, without wrap-around. */
  lemma HandleIsAddress(m: Memory, a: Array, i: nat)
    requires Placed(m, a) && i < a.count
    ensures GetBuf(m, a.arr, i) == a.bufs + SIZE * i && m.Has(GetBuf(m, a.arr, i), SIZE)
  {
    assert SIZE * i + SIZE <= SIZE * a.count;
  }

  lemma FieldIsThere(base: nat, length: nat, a: Array, i: nat, f: Field)
    requires Room(base, length, a) && i < a.count
    ensures base <= At(a, i, f) && At(a, i, f) + Width(f) <= base + length
    ensures Apart(At(a, i, f), Width(f), a.arr, 8)
  {
    assert SIZE * i + SIZE <= SIZE * a.count;
  }

  lemma FieldsApart(a: Array, i: nat, f: Field, j: nat, g: Field)
    requires i != j || f != g
    ensures Apart(At(a, i, f), Width(f), At(a, j, g), Width(g))
  {
    if i < j {
      assert SIZE * i + SIZE <= SIZE * j;
    } else if j < i {
      assert SIZE * j + SIZE <= SIZE * i;
    }
  }

  /* Reads and writes of fields. */

  function Value(m: Memory, a: Array, i: nat, f: Field): nat
    requires Placed(m, a) && i < a.count
  {
    FieldIsThere(m.base, |m.bytes|, a, i, f);
    m.Load(At(a, i, f), Width(f))
  }

  datatype Write = Write(index: nat, field: Field, value: nat)

  predicate Fits(w: Write, count: nat)
  {
    w.index < count && w.value < Pow256(Width(w.field))
  }

  function Step(m: Memory, a: Array, w: Write): Memory
    requires Placed(m, a) && Fits(w, a.count)
  {
    FieldIsThere(m.base, |m.bytes|, a, w.index, w.field);
    m.Store(At(a, w.index, w.field), Width(w.field), w.value)
  }

  /** A write leaves the array where it is. */
  lemma StepPlaced(m: Memory, a: Array, w: Write)
    requires Placed(m, a) && Fits(w, a.count)
    ensures Step(m, a, w).base == m.base && |Step(m, a, w).bytes| == |m.bytes| && Placed(Step(m, a, w), a)
  {
    FieldIsThere(m.base, |m.bytes|, a, w.index, w.field);
    LoadElsewhere(m, At(a, w.index, w.field), Width(w.field), w.value, a.arr, 8);
  }

  /** A write changes the field it is for and no other field of any buffer. */
  lemma StepWrites(m: Memory, a: Array, w: Write, i: nat, f: Field)
    requires Placed(m, a) && Fits(w, a.count) && i < a.count
    ensures Placed(Step(m, a, w), a)
    ensures Value(Step(m, a, w), a, i, f) == if i == w.index && f == w.field then w.value else Value(m, a, i, f)
  {
    StepPlaced(m, a, w);
    FieldIsThere(m.base, |m.bytes|, a, w.index, w.field);
    if i == w.index && f == w.field {
      LoadStored(m, At(a, i, f), Width(f), w.value);
    } else {
      FieldIsThere(m.base, |m.bytes|, a, i, f);
      FieldsApart(a, w.index, w.field, i, f);
      LoadElsewhere(m, At(a, w.index, w.field), Width(w.field), w.value, At(a, i, f), Width(f));
    }
  }

  /* Runs. */

  ghost predicate AllFit(writes: seq<Write>, count: nat)
  {
    forall k :: 0 <= k < |writes| ==> Fits(writes[k], count)
  }

  ghost function Run(m: Memory, a: Array, writes: seq<Write>): (n: Memory)
    requires Placed(m, a) && AllFit(writes, a.count)
    ensures Placed(n, a) && n.base == m.base && |n.bytes| == |m.bytes|
    decreases |writes|
  {
    if |writes| == 0 then m
    else
      var k := |writes| - 1;
      var n := Run(m, a, writes[..k]);
      StepPlaced(n, a, writes[k]);
      Step(n, a, writes[k])
  }

  /** The last value written to a field, or the initial one. */
  ghost function LastWritten(initial: nat, writes: seq<Write>, i: nat, f: Field): nat
  {
    if |writes| == 0 then initial
    else
      var k := |writes| - 1;
      if writes[k].index == i && writes[k].field == f then writes[k].value
      else LastWritten(initial, writes[..k], i, f)
  }

  /** No run of setters changes a handle. */
  lemma HandlesStay(m: Memory, a: Array, writes: seq<Write>, i: nat)
    requires Placed(m, a) && AllFit(writes, a.count) && i < a.count
    ensures GetBuf(Run(m, a, writes), a.arr, i) == GetBuf(m, a.arr, i)
  {
    HandleIsAddress(m, a, i);
    HandleIsAddress(Run(m, a, writes), a, i);
  }

  /** After any run of setters, every field of every buffer reads back the last value written to it. */
  lemma {:induction false} ReadsBackLast(m: Memory, a: Array, writes: seq<Write>, i: nat, f: Field)
    requires Placed(m, a) && AllFit(writes, a.count) && i < a.count
    ensures Value(Run(m, a, writes), a, i, f) == LastWritten(Value(m, a, i, f), writes, i, f)
    decreases |writes|
  {
    if |writes| > 0 {
      var k := |writes| - 1;
      ReadsBackLast(m, a, writes[..k], i, f);
      StepWrites(Run(m, a, writes[..k]), a, writes[k], i, f);
    }
  }

  /** The address `at` is outside all the fields that are written. */
  ghost predicate AllMiss(a: Array, writes: seq<Write>, at: nat)
  {
    forall k :: 0 <= k < |writes| ==> Apart(at, 1, At(a, writes[k].index, writes[k].field), Width(writes[k].field))
  }

  /** No other byte of memory changes, the reserved ones of the buffers included. */
  lemma {:induction false} OtherBytesStay(m: Memory, a: Array, writes: seq<Write>, at: nat)
    requires Placed(m, a) && AllFit(writes, a.count) && m.base <= at < m.base + |m.bytes| && AllMiss(a, writes, at)
    ensures Run(m, a, writes).bytes[at - m.base] == m.bytes[at - m.base]
    decreases |writes|
  {
    if |writes| > 0 {
      var k := |writes| - 1;
      OtherBytesStay(m, a, writes[..k], at);
      StepMisses(Run(m, a, writes[..k]), a, writes[k], at);
    }
  }

  lemma StepMisses(m: Memory, a: Array, w: Write, at: nat)
    requires Placed(m, a) && Fits(w, a.count) && m.base <= at < m.base + |m.bytes|
    requires Apart(at, 1, At(a, w.index, w.field), Width(w.field))
    ensures |Step(m, a, w).bytes| == |m.bytes| && Step(m, a, w).bytes[at - m.base] == m.bytes[at - m.base]
  {
    FieldIsThere(m.base, |m.bytes|, a, w.index, w.field);
  }

  /* The layout in bytes. */

  lemma Powers()
    ensures Pow256(4) == 0x1_0000_0000 && Pow256(8) == 0x1_0000_0000_0000_0000
  {
    assert Pow256(2) == 0x1_0000;
    assert Pow256(4) == 256 * (256 * Pow256(2));
    assert Pow256(6) == 256 * (256 * Pow256(4));
    assert Pow256(8) == 256 * (256 * Pow256(6));
  }

  /** The first of the 32 bytes of a buffer, as an index into memory. */
  function StructAt(m: Memory, a: Array, index: nat): (o: nat)
    requires Placed(m, a) && index < a.count
    ensures o == a.bufs + 32 * index - m.base && o + 32 <= |m.bytes|
  {
    assert 32 * index + 32 <= 32 * a.count;
    a.bufs + 32 * index - m.base
  }

  /** The address is in bytes 0 to 7 of a buffer, the length in bytes 8 to 15 and the mmap in bytes 16
      to 19. */
  predicate FieldHolds(m: Memory, a: Array, index: nat, f: Field, value: nat)
    requires Placed(m, a) && index < a.count
  {
    var o := StructAt(m, a, index);
    match f
    case Addr => Decode(m.bytes[o..o + 8]) == value
    case Len => Decode(m.bytes[o + 8..o + 16]) == value
    case Mmap => Decode(m.bytes[o + 16..o + 20]) == value
  }

  lemma FieldBytes(m: Memory, a: Array, index: nat, f: Field)
    requires Placed(m, a) && index < a.count
    ensures FieldHolds(m, a, index, f, Value(m, a, index, f))
  {
    FieldIsThere(m.base, |m.bytes|, a, index, f);
  }

  /** The bytes that a setter writes, within the 32 bytes of a buffer. */
  predicate IsFieldByte(f: Field, k: int)
  {
    match f
    case Addr => 0 <= k < 8
    case Len => 8 <= k < 16
    case Mmap => 16 <= k < 20
  }

  /** All bytes but those of one field are the same. */
  ghost predicate OtherBytesSame(m: Memory, n: Memory, o: nat, f: Field)
  {
    && n.base == m.base && |n.bytes| == |m.bytes|
    && forall j :: 0 <= j < |m.bytes| && !IsFieldByte(f, j - o) ==> n.bytes[j] == m.bytes[j]
  }

  lemma SetBytes(m: Memory, a: Array, w: Write)
    requires Placed(m, a) && Fits(w, a.count)
    ensures OtherBytesSame(m, Step(m, a, w), StructAt(m, a, w.index), w.field)
  {
    StepPlaced(m, a, w);
    FieldIsThere(m.base, |m.bytes|, a, w.index, w.field);
    var n, o := Step(m, a, w), StructAt(m, a, w.index);
    forall j | 0 <= j < |m.bytes| && !IsFieldByte(w.field, j - o)
      ensures n.bytes[j] == m.bytes[j]
    {
      StepMisses(m, a, w, m.base + j);
    }
  }

  lemma SetDecodes(m: Memory, a: Array, w: Write)
    requires Placed(m, a) && Fits(w, a.count)
    ensures Placed(Step(m, a, w), a) && FieldHolds(Step(m, a, w), a, w.index, w.field, w.value)
  {
    StepWrites(m, a, w, w.index, w.field);
    FieldBytes(Step(m, a, w), a, w.index, w.field);
  }

  /** The device side calls, on memory updated in place. */
  class Device {
    var memory: Memory

    /** The first eight bytes of the array structure are the address of the buffers, which are 32
        bytes each. */
    method ArrayGetBuf(ghost a: Array, arr: nat, index: nat) returns (buf: nat)
      requires Placed(memory, a) && arr == a.arr && index < a.count
      ensures memory.Has(buf, 32) && buf == a.bufs + 32 * index
      ensures var o := arr - memory.base;
              0 <= o <= |memory.bytes| - 8 && buf == Decode(memory.bytes[o..o + 8]) + 32 * index
    {
      HandleIsAddress(memory, a, index);
      buf := (memory.Load(arr, 8) + SIZE * index) % WORD;
    }

    /** Writes its own bytes of the buffer and no other byte of memory. */
    method SetField(ghost a: Array, ghost index: nat, buf: nat, f: Field, value: nat)
      requires Placed(memory, a) && index < a.count && buf == a.bufs + 32 * index
      requires value < if f == Mmap then 0x1_0000_0000 else 0x1_0000_0000_0000_0000
      modifies this
      ensures Fits(Write(index, f, value), a.count) && memory == old(Step(memory, a, Write(index, f, value)))
      ensures Placed(memory, a) && FieldHolds(memory, a, index, f, value)
      ensures OtherBytesSame(old(memory), memory, a.bufs + 32 * index - old(memory.base), f)
    {
      Powers();
      SetBytes(memory, a, Write(index, f, value));
      SetDecodes(memory, a, Write(index, f, value));
      StoreField(a, index, buf, f, value);
    }

    method StoreField(ghost a: Array, ghost index: nat, buf: nat, f: Field, value: nat)
      requires Placed(memory, a) && Fits(Write(index, f, value), a.count) && buf == a.bufs + SIZE * index
      modifies this
      ensures memory == old(Step(memory, a, Write(index, f, value)))
    {
      FieldIsThere(memory.base, |memory.bytes|, a, index, f);
      memory := memory.Store(buf + Offset(f), Width(f), value);
    }

    method GetField(ghost a: Array, ghost index: nat, buf: nat, f: Field) returns (value: nat)
      requires Placed(memory, a) && index < a.count && buf == a.bufs + 32 * index
      ensures value == Value(memory, a, index, f) && FieldHolds(memory, a, index, f, value)
    {
      FieldBytes(memory, a, index, f);
      value := memory.Load(buf + Offset(f), Width(f));
    }
  }
}
