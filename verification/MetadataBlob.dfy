/** The parcel form of camera metadata (camera/CameraMetadata.cpp): the metadata is copied to an
    aligned address inside a larger blob, and the offset travels with it. */
module MetadataBlob {
  import opened Wrappers
  import opened Arithmetic

  const ADDRESSES := 0x1_0000_0000_0000_0000      // uintptr_t and size_t have 64 bits
  const INT32_RANGE := 0x1_0000_0000

  datatype Status = BadValue | NotEnoughData

  datatype Result<+T> = Ok(value: T) | Failure(error: Status)

  datatype Item = Int32(v: int) | Blob(bytes: seq<bv8>)

  // ---- Aligning an address ---------------------------------------------------------------------

  /** & on unsigned integers. */
  function BitAnd(x: nat, y: nat): nat {
    if x == 0 || y == 0 then 0 else 2 * BitAnd(x / 2, y / 2) + (if x % 2 == 1 && y % 2 == 1 then 1 else 0)
  }

  /** ~ on 64 bits. */
  function Complement(x: nat): nat
    requires x < ADDRESSES
  {
    ADDRESSES - 1 - x
  }

  /** The macro ALIGN_TO, for an alignment of 2 to the k. */
  function AlignTo(address: nat, k: nat): nat
    requires k < 64
  {
    Pow2Bound(k);
    BitAnd((address + (Pow2(k) - 1)) % ADDRESSES, Complement(Pow2(k) - 1))
  }

  lemma {:induction false} Pow2Monotone(j: nat, k: nat)
    requires j <= k
    ensures Pow2(j) <= Pow2(k)
    ensures j < k ==> 2 * Pow2(j) <= Pow2(k)
  {
    if j < k { Pow2Monotone(j, k - 1); }
  }

  lemma Pow2Of64()
    ensures Pow2(64) == ADDRESSES
  {
    assert Pow2(8) == 256;
    Pow2Sum(8, 8);
    Pow2Sum(16, 16);
    Pow2Sum(32, 32);
  }

  lemma {:induction false} Pow2Sum(j: nat, k: nat)
    ensures Pow2(j + k) == Pow2(j) * Pow2(k)
  {
    if j > 0 {
      Pow2Sum(j - 1, k);
      Associate(2, Pow2(j - 1), Pow2(k));
    }
  }

  lemma Associate(a: int, b: int, c: int)
    ensures a * (b * c) == (a * b) * c
  {
  }

  lemma Pow2Bound(k: nat)
    requires k < 64
    ensures Pow2(k) <= ADDRESSES / 2
  {
    Pow2Of64();
    Pow2Monotone(k, 64);
  }

  lemma {:induction false} AndAllOnes(x: nat, n: nat)
    requires x < Pow2(n)
    ensures BitAnd(x, Pow2(n) - 1) == x
  {
    if n > 0 {
      AndAllOnes(x / 2, n - 1);
      assert (Pow2(n) - 1) / 2 == Pow2(n - 1) - 1;
    }
  }

  lemma HalfModulo(x: nat, m: nat)
    requires 0 < m
    ensures x % (2 * m) == 2 * ((x / 2) % m) + x % 2
  {
    var q, r := x / 2 / m, (x / 2) % m;
    assert x / 2 == q * m + r;
    Associate(2, q, m);
    Associate(q, 2, m);
    assert x == q * (2 * m) + (2 * r + x % 2);
    DivideUnique(x, 2 * m, q, 2 * r + x % 2);
  }

  lemma AndEven(x: nat, h: nat)
    ensures BitAnd(x, 2 * h) == 2 * BitAnd(x / 2, h)
  {
  }

  lemma DoubleClears(x: nat, h: nat, m: nat, y: nat, a: nat)
    requires 0 < m && BitAnd(x / 2, h) == x / 2 - (x / 2) % m && y == 2 * h && a == 2 * m
    ensures BitAnd(x, y) == x - x % a
  {
    AndEven(x, h);
    HalfModulo(x, m);
  }

  lemma AndClearsNone(x: nat, n: nat)
    requires x < Pow2(n)
    ensures BitAnd(x, Pow2(n) - Pow2(0)) == x - x % Pow2(0)
  {
    AndAllOnes(x, n);
    assert Pow2(0) == 1 && x % 1 == 0;
  }

  /** n ones, of which the low k are cleared. */
  function HighOnes(n: nat, k: nat): nat
    requires k <= n
  {
    Pow2Monotone(k, n);
    Pow2(n) - Pow2(k)
  }

  /** Clearing the low k of n bits rounds down to a multiple of 2 to the k. */
  lemma {:induction false} AndClearsLowBits(x: nat, n: nat, k: nat)
    requires k <= n && x < Pow2(n)
    ensures BitAnd(x, HighOnes(n, k)) == x - x % Pow2(k)
    decreases n
  {
    if k == 0 {
      AndClearsNone(x, n);
    } else {
      assert x / 2 < Pow2(n - 1);
      AndClearsLowBits(x / 2, n - 1, k - 1);
      assert HighOnes(n, k) == 2 * HighOnes(n - 1, k - 1);
      DoubleClears(x, HighOnes(n - 1, k - 1), Pow2(k - 1), HighOnes(n, k), Pow2(k));
    }
  }

  lemma RoundDown(x: nat, a: nat)
    requires 0 < a
    ensures (x - x % a) % a == 0 && x - a < x - x % a <= x
  {
    assert x - x % a == (x / a) * a;
    MultipleModulo(x / a, a);
  }

  lemma DoesNotWrap(x: nat)
    requires x < ADDRESSES
    ensures x % ADDRESSES == x
  {
  }

  lemma AlignToRoundsDown(address: nat, k: nat)
    requires k < 64 && address + Pow2(k) <= ADDRESSES
    ensures AlignTo(address, k) == (address + (Pow2(k) - 1)) - (address + (Pow2(k) - 1)) % Pow2(k)
  {
    hide BitAnd, Pow2;
    var x := address + (Pow2(k) - 1);
    Pow2Bound(k);
    Pow2Of64();
    AndClearsLowBits(x, 64, k);
    DoesNotWrap(x);
    assert Complement(Pow2(k) - 1) == HighOnes(64, k);
  }

  /** The bit trick computes the next multiple of the alignment, for every address whose rounding
      does not leave the address space. */
  lemma AlignToIsNextMultiple(address: nat, k: nat)
    requires k < 64 && address + Pow2(k) <= ADDRESSES
    ensures var r := AlignTo(address, k);
            && r % Pow2(k) == 0
            && address <= r < address + Pow2(k)
  {
    AlignToRoundsDown(address, k);
    RoundDown(address + (Pow2(k) - 1), Pow2(k));
  }

  // ---- Writing ---------------------------------------------------------------------------------

  /** Storing a size_t in an int32_t, and reading an int32_t back as a size_t. */
  function ToInt32(x: nat): int { (x + 0x8000_0000) % INT32_RANGE - 0x8000_0000 }

  function ToSize(v: int): nat
    requires -0x8000_0000 <= v
  {
    if v < 0 then v + ADDRESSES else v
  }

  function Splice(blob: seq<bv8>, at: nat, bytes: seq<bv8>): seq<bv8>
    requires at + |bytes| <= |blob|
  {
    blob[..at] + bytes + blob[at + |bytes|..]
  }

  /** The blob the parcel provides lies in the half of the address space that programs use. */
  ghost predicate InAddressSpace(base: nat, k: nat, size: nat) {
    k < 31 && base + size + Pow2(k) <= ADDRESSES / 2
  }

  function OffsetAt(base: nat, k: nat): (offset: nat)
    requires k < 31 && base + Pow2(k) <= ADDRESSES
    ensures offset < Pow2(k)
  {
    AlignToIsNextMultiple(base, k);
    AlignTo(base, k) - base
  }

  /** What writeToParcel leaves in the parcel: base is the address of the blob, and fill what was in
      it before. */
  function Written(metadata: Option<seq<bv8>>, base: nat, k: nat, fill: seq<bv8>): seq<Item>
    requires metadata.Some? ==> InAddressSpace(base, k, |metadata.value|) && |fill| == |metadata.value| + Pow2(k)
  {
    match metadata
    case None => [Int32(0)]
    case Some(m) =>
      [Int32(ToInt32(|m| + Pow2(k))), Blob(Splice(fill, OffsetAt(base, k), m)), Int32(ToInt32(OffsetAt(base, k)))]
  }

  /** writeToParcel; the parcel provides the blob at the address base. */
  method WriteToParcel(metadata: Option<seq<bv8>>, base: nat, k: nat, blob: array<bv8>) returns (parcel: seq<Item>)
    requires metadata.Some? ==> InAddressSpace(base, k, |metadata.value|) && blob.Length == |metadata.value| + Pow2(k)
    modifies blob
    ensures parcel == Written(metadata, base, k, old(blob[..]))
  {
    if metadata.None? {
      return [Int32(0)];
    }
    hide BitAnd, AlignTo, Complement;
    var m := metadata.value;
    var alignment := Pow2(k);
    var blobSize := |m| + alignment;
    parcel := [Int32(ToInt32(blobSize))];
    AlignToIsNextMultiple(base, k);
    var metadataStart := AlignTo(base, k);
    var offset := metadataStart - base;
    assert offset == OffsetAt(base, k);
    forall i | 0 <= i < |m| {
      blob[offset + i] := m[i];
    }
    assert blob[..] == Splice(old(blob[..]), offset, m);
    parcel := parcel + [Blob(blob[..])];
    parcel := parcel + [Int32(ToInt32(offset))];
  }

  /** Where the metadata lies: inside the blob, at the first aligned address. */
  lemma Layout(m: seq<bv8>, base: nat, k: nat, fill: seq<bv8>)
    requires InAddressSpace(base, k, |m|) && |fill| == |m| + Pow2(k)
    ensures var blob := Written(Some(m), base, k, fill)[1].bytes;
            var offset := OffsetAt(base, k);
            && |blob| == |fill| && offset + |m| <= |blob|
            && blob[offset..offset + |m|] == m
            && (base + offset) % Pow2(k) == 0
            && (forall x :: base <= x < base + offset ==> x % Pow2(k) != 0)
  {
    AlignToIsNextMultiple(base, k);
    var a, r := Pow2(k), AlignTo(base, k);
    forall x | base <= x < r ensures x % a != 0 {
      ModuloDifference(x, r, a);
      DivideUnique(r - x, a, 0, r - x);
    }
  }

  // ---- Reading ---------------------------------------------------------------------------------

  /** readFromParcel; valid is the library's check of the bytes it is asked to copy. */
  function Read(parcel: seq<Item>, k: nat, valid: seq<bv8> -> bool): Result<Option<seq<bv8>>> {
    if |parcel| < 1 || !parcel[0].Int32? || parcel[0].v < -0x8000_0000 then Failure(NotEnoughData)
    else
      var blobSize := ToSize(parcel[0].v);
      if blobSize == 0 then Ok(None)
      else if blobSize <= Pow2(k) then Failure(BadValue)
      else if |parcel| < 2 || !parcel[1].Blob? || |parcel[1].bytes| != blobSize then Failure(NotEnoughData)
      else if |parcel| < 3 || !parcel[2].Int32? || parcel[2].v < -0x8000_0000 then Failure(NotEnoughData)
      else
        var offset := ToSize(parcel[2].v);
        if offset >= Pow2(k) then Failure(BadValue)
        else
          var copy := parcel[1].bytes[offset..offset + (blobSize - Pow2(k))];
          if valid(copy) then Ok(Some(copy)) else Failure(BadValue)
  }

  /** The parcel holds a size and a blob of it, with room for an alignment, and an offset within that
      room. */
  predicate Laid(parcel: seq<Item>, k: nat) {
    && |parcel| >= 3 && parcel[0].Int32? && parcel[1].Blob? && parcel[2].Int32?
    && -0x8000_0000 <= parcel[0].v && -0x8000_0000 <= parcel[2].v
    && Pow2(k) < ToSize(parcel[0].v) == |parcel[1].bytes|
    && ToSize(parcel[2].v) < Pow2(k)
  }

  /** The bytes between the offset and as much room again at the end of the blob. */
  function Carried(parcel: seq<Item>, k: nat): (m: seq<bv8>)
    requires Laid(parcel, k)
    ensures |m| + Pow2(k) == |parcel[1].bytes|
  {
    var offset := ToSize(parcel[2].v);
    parcel[1].bytes[offset..offset + |parcel[1].bytes| - Pow2(k)]
  }

  /** readFromParcel, item by item: no metadata for a size of zero, the bytes carried by a parcel that
      is laid out for the alignment and valid, and otherwise an error. */
  method ReadFromParcel(parcel: seq<Item>, k: nat, valid: seq<bv8> -> bool) returns (r: Result<Option<seq<bv8>>>)
    ensures r == Ok(None) <==> parcel != [] && parcel[0] == Int32(0)
    ensures r.Ok? && r.value.Some? <==> Laid(parcel, k) && valid(Carried(parcel, k))
    ensures r.Ok? && r.value.Some? ==> r.value.value == Carried(parcel, k)
    ensures r == Failure(NotEnoughData) ==> |parcel| < 3 || !parcel[0].Int32? || !parcel[1].Blob? || !parcel[2].Int32?
                                            || parcel[0].v < -0x8000_0000 || parcel[2].v < -0x8000_0000
                                            || |parcel[1].bytes| != ToSize(parcel[0].v)
    ensures r == Failure(BadValue) && Laid(parcel, k) ==> !valid(Carried(parcel, k))
    ensures r == Read(parcel, k, valid)
  {
    if |parcel| < 1 || !parcel[0].Int32? || parcel[0].v < -0x8000_0000 { return Failure(NotEnoughData); }
    var blobSize := ToSize(parcel[0].v);
    if blobSize == 0 { return Ok(None); }
    var alignment := Pow2(k);
    if blobSize <= alignment { return Failure(BadValue); }
    var metadataSize := blobSize - alignment;
    if |parcel| < 2 || !parcel[1].Blob? || |parcel[1].bytes| != blobSize { return Failure(NotEnoughData); }
    var blob := parcel[1].bytes;
    if |parcel| < 3 || !parcel[2].Int32? || parcel[2].v < -0x8000_0000 { return Failure(NotEnoughData); }
    var offset := ToSize(parcel[2].v);
    if offset >= alignment { return Failure(BadValue); }
    var copy := blob[offset..offset + metadataSize];
    if !valid(copy) { return Failure(BadValue); }
    r := Ok(Some(copy));
  }

  lemma ToInt32Small(x: nat)
    ensures ToInt32(x) == x <==> x < 0x8000_0000
    ensures x < ADDRESSES / 2 ==> (ToSize(ToInt32(x)) == x <==> x < 0x8000_0000)
    ensures -0x8000_0000 <= ToInt32(x) < 0x8000_0000
  {
  }

  lemma SmallAlignment(k: nat)
    requires k < 31
    ensures Pow2(k) <= 0x4000_0000
  {
    Pow2Monotone(k, 30);
    Pow2Sum(10, 10);
    Pow2Sum(20, 10);
  }

  /** For every writer address and alignment, the reader recovers the identical metadata exactly
      when there is some and the blob's size fits an int32_t. */
  lemma RoundTripIff(m: seq<bv8>, base: nat, k: nat, fill: seq<bv8>, valid: seq<bv8> -> bool)
    requires InAddressSpace(base, k, |m|) && |fill| == |m| + Pow2(k) && valid(m)
    ensures Read(Written(Some(m), base, k, fill), k, valid) == Ok(Some(m)) <==> m != [] && |m| + Pow2(k) < 0x8000_0000
  {
    Layout(m, base, k, fill);
    var size, offset := |m| + Pow2(k), OffsetAt(base, k);
    ToInt32Small(size);
    SmallAlignment(k);
    ToInt32Small(offset);
  }

  lemma NullTravelsAsNull(base: nat, k: nat, valid: seq<bv8> -> bool)
    ensures Read(Written(None, base, k, []), k, valid) == Ok(None)
  {
  }

  lemma ToInt32Zero(x: nat)
    ensures ToInt32(x) == 0 <==> x % INT32_RANGE == 0
    ensures -0x8000_0000 <= ToInt32(x)
  {
  }

  /** Metadata is taken for NULL, without an error, exactly when the size of its blob is a multiple of
      2 to the 32. */
  lemma HugeBlobReadsAsNull(m: seq<bv8>, base: nat, k: nat, fill: seq<bv8>, valid: seq<bv8> -> bool)
    requires InAddressSpace(base, k, |m|) && |fill| == |m| + Pow2(k)
    ensures Read(Written(Some(m), base, k, fill), k, valid) == Ok(None) <==> |fill| % INT32_RANGE == 0
  {
    hide OffsetAt, Splice, AlignTo;
    ToInt32Zero(|fill|);
    assert Written(Some(m), base, k, fill)[0] == Int32(ToInt32(|fill|));
    hide Pow2, Written, ToInt32;
  }

  /** The reader copies from an aligned address exactly when its blob is as far from alignment as
      the writer's was. */
  lemma ReaderAlignedIff(writerBase: nat, readerBase: nat, k: nat)
    requires k < 31 && writerBase + Pow2(k) <= ADDRESSES
    ensures (readerBase + OffsetAt(writerBase, k)) % Pow2(k) == 0 <==> readerBase % Pow2(k) == writerBase % Pow2(k)
  {
    AlignToIsNextMultiple(writerBase, k);
    var a, offset := Pow2(k), OffsetAt(writerBase, k);
    var w, r := writerBase + offset, readerBase + offset;
    ModuloDifference(writerBase, readerBase, a);
    ModuloDifference(w, r, a);
    assert r - w == readerBase - writerBase;
  }
}
