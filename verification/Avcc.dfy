/** cmds/stagefright/sf2.cpp: makeFormat turns an AVCDecoderConfigurationRecord (section 5.2.4.1 of
    ISO/IEC 14496-15:2004) into two buffers of parameter sets with start codes. */
module Avcc {

  type byte = b: int | 0 <= b < 256

  const START_CODE: seq<byte> := [0, 0, 0, 1]
  const CAPACITY := 1024

  /** U16_AT. */
  function U16(data: seq<byte>, i: nat): (n: nat)
    requires i + 2 <= |data|
    ensures n < 0x1_0000
  {
    data[i] as int * 256 + data[i + 1] as int
  }

  // ---- Records ---------------------------------------------------------------------------------

  /** A parameter set with its two-byte length is at position i. */
  ghost predicate SetAt(data: seq<byte>, i: nat, s: seq<byte>) {
    i + 2 + |s| <= |data| && U16(data, i) == |s| && data[i + 2..i + 2 + |s|] == s
  }

  function EncodedLength(sets: seq<seq<byte>>): nat {
    if sets == [] then 0 else EncodedLength(sets[..|sets| - 1]) + 2 + |sets[|sets| - 1]|
  }

  /** Parameter sets follow each other from position i. */
  ghost predicate SetsAt(data: seq<byte>, i: nat, sets: seq<seq<byte>>) {
    sets == [] ||
    var init := sets[..|sets| - 1];
    SetsAt(data, i, init) && SetAt(data, i + EncodedLength(init), sets[|sets| - 1])
  }

  /** The data starts with a record that holds these sequence and picture parameter sets. The upper
      bits of the sixth byte are not looked at. */
  ghost predicate Record(data: seq<byte>, seqSets: seq<seq<byte>>, picSets: seq<seq<byte>>) {
    && |data| >= 7 && data[0] == 1
    && |seqSets| == data[5] % 32 && SetsAt(data, 6, seqSets)
    && var p := 6 + EncodedLength(seqSets);
       p < |data| && |picSets| == data[p] && SetsAt(data, p + 1, picSets)
  }

  /** The sets one after another, a start code before each. */
  function WithStartCodes(sets: seq<seq<byte>>): seq<byte> {
    if sets == [] then [] else WithStartCodes(sets[..|sets| - 1]) + START_CODE + sets[|sets| - 1]
  }

  lemma SetsAtSnoc(data: seq<byte>, i: nat, sets: seq<seq<byte>>, s: seq<byte>)
    requires SetsAt(data, i, sets)
    ensures SetsAt(data, i, sets + [s]) <==> SetAt(data, i + EncodedLength(sets), s)
    ensures EncodedLength(sets + [s]) == EncodedLength(sets) + 2 + |s|
    ensures WithStartCodes(sets + [s]) == WithStartCodes(sets) + [0, 0, 0, 1] + s
  {
    assert (sets + [s])[..|sets|] == sets;
  }

  lemma {:induction false} SetsAtPrefix(data: seq<byte>, i: nat, sets: seq<seq<byte>>, k: nat)
    requires SetsAt(data, i, sets) && k <= |sets|
    ensures SetsAt(data, i, sets[..k])
    ensures k < |sets| ==> SetAt(data, i + EncodedLength(sets[..k]), sets[k])
    ensures |WithStartCodes(sets[..k])| + (if k < |sets| then 4 + |sets[k]| else 0) <= |WithStartCodes(sets)|
  {
    if k == |sets| {
      assert sets[..k] == sets;
    } else if k < |sets| - 1 {
      var init := sets[..|sets| - 1];
      SetsAtPrefix(data, i, init, k);
      assert init[..k] == sets[..k];
    }
  }

  /** The sets read from a position are determined by their number. */
  lemma {:induction false} SetsUnique(data: seq<byte>, i: nat, a: seq<seq<byte>>, b: seq<seq<byte>>)
    requires SetsAt(data, i, a) && SetsAt(data, i, b) && |a| == |b|
    ensures a == b
  {
    if a != [] {
      var m := |a| - 1;
      SetsUnique(data, i, a[..m], b[..m]);
      assert a[m] == b[m];
      assert a == a[..m] + [a[m]] && b == b[..m] + [b[m]];
    }
  }

  // ---- Encoding --------------------------------------------------------------------------------

  function Encode(s: seq<byte>): seq<byte>
    requires |s| < 0x1_0000
  {
    [|s| / 256, |s| % 256] + s
  }

  function EncodeSets(sets: seq<seq<byte>>): (r: seq<byte>)
    requires forall s :: s in sets ==> |s| < 0x1_0000
    ensures |r| == EncodedLength(sets)
  {
    if sets == [] then [] else EncodeSets(sets[..|sets| - 1]) + Encode(sets[|sets| - 1])
  }

  lemma {:induction false} SetsAtStable(data: seq<byte>, more: seq<byte>, i: nat, sets: seq<seq<byte>>)
    requires SetsAt(data, i, sets)
    ensures SetsAt(data + more, i, sets)
  {
    if sets != [] {
      var init, s := sets[..|sets| - 1], sets[|sets| - 1];
      SetsAtStable(data, more, i, init);
      var at := i + EncodedLength(init);
      assert (data + more)[at + 2..at + 2 + |s|] == data[at + 2..at + 2 + |s|];
    }
  }

  lemma EncodedSetAt(before: seq<byte>, s: seq<byte>)
    requires |s| < 0x1_0000
    ensures SetAt(before + Encode(s), |before|, s)
  {
    var data := before + Encode(s);
    assert data[|before|] == |s| / 256 && data[|before| + 1] == |s| % 256;
    assert data[|before| + 2..|before| + 2 + |s|] == s;
  }

  lemma {:induction false} EncodedSetsAt(before: seq<byte>, sets: seq<seq<byte>>)
    requires forall s :: s in sets ==> |s| < 0x1_0000
    ensures SetsAt(before + EncodeSets(sets), |before|, sets)
  {
    hide SetAt, Encode;
    if sets != [] {
      var init, s := sets[..|sets| - 1], sets[|sets| - 1];
      var data := before + EncodeSets(init);
      EncodedSetsAt(before, init);
      SetsAtStable(data, Encode(s), |before|, init);
      EncodedSetAt(data, s);
      assert before + EncodeSets(sets) == data + Encode(s);
    }
  }

  function EncodeRecord(profile: seq<byte>, upper: nat, seqSets: seq<seq<byte>>, picSets: seq<seq<byte>>): seq<byte>
    requires |profile| == 4 && upper < 8 && |seqSets| < 32 && |picSets| < 256
    requires forall s :: s in seqSets || s in picSets ==> |s| < 0x1_0000
  {
    [1] + profile + [upper * 32 + |seqSets|] + EncodeSets(seqSets) + [|picSets|] + EncodeSets(picSets)
  }

  /** Every encoded record is one, with the sets it was made of, whatever follows it. */
  lemma EncodedIsRecord(profile: seq<byte>, upper: nat, seqSets: seq<seq<byte>>, picSets: seq<seq<byte>>,
                        rest: seq<byte>)
    requires |profile| == 4 && upper < 8 && |seqSets| < 32 && |picSets| < 256
    requires forall s :: s in seqSets || s in picSets ==> |s| < 0x1_0000
    ensures Record(EncodeRecord(profile, upper, seqSets, picSets) + rest, seqSets, picSets)
  {
    hide SetsAt, EncodeSets, SetAt;
    var head := [1] + profile + [upper * 32 + |seqSets|];
    var one := head + EncodeSets(seqSets);
    var two := one + [|picSets|];
    var all := two + EncodeSets(picSets);
    EncodedSetsAt(head, seqSets);
    SetsAtStable(one, [|picSets|] + EncodeSets(picSets) + rest, 6, seqSets);
    assert one + ([|picSets|] + EncodeSets(picSets) + rest) == all + rest;
    EncodedSetsAt(two, picSets);
    SetsAtStable(all, rest, |two|, picSets);
    assert all == EncodeRecord(profile, upper, seqSets, picSets);
  }

  // ---- Parsing ---------------------------------------------------------------------------------

  /** A CHECK that fails ends the process; a copy past the end of a buffer is undefined. */
  datatype Outcome = Parsed | CheckFailed | Overrun

  /** No sets of this number can be read from a position, or all that can do not fit a buffer. */
  ghost predicate NoSets(data: seq<byte>, i: nat, count: nat) {
    forall sets :: SetsAt(data, i, sets) ==> |sets| != count
  }

  ghost predicate NoFit(data: seq<byte>, i: nat, count: nat) {
    forall sets :: SetsAt(data, i, sets) && |sets| == count ==> |WithStartCodes(sets)| > CAPACITY
  }

  /** A reading of more sets starts with the ones already read. */
  lemma ReadingGoesOn(data: seq<byte>, i: nat, read: seq<seq<byte>>, sets: seq<seq<byte>>)
    requires SetsAt(data, i, read) && SetsAt(data, i, sets) && |read| < |sets|
    ensures SetAt(data, i + EncodedLength(read), sets[|read|])
    ensures |WithStartCodes(read)| + 4 + |sets[|read|]| <= |WithStartCodes(sets)|
  {
    hide SetsAt, SetAt, WithStartCodes, EncodedLength;
    SetsAtPrefix(data, i, sets, |read|);
    SetsUnique(data, i, read, sets[..|read|]);
  }

  method MemCopy(buffer: array<byte>, offset: nat, bytes: seq<byte>)
    requires offset + |bytes| <= buffer.Length
    modifies buffer
    ensures buffer[..offset + |bytes|] == old(buffer[..offset]) + bytes
  {
    for k := 0 to |bytes|
      invariant buffer[..offset] == old(buffer[..offset])
      invariant buffer[offset..offset + k] == bytes[..k]
    {
      buffer[offset + k] := bytes[k];
      assert buffer[offset..offset + k + 1] == bytes[..k] + [bytes[k]];
    }
    assert buffer[..offset + |bytes|] == buffer[..offset] + buffer[offset..offset + |bytes|];
    assert bytes[..|bytes|] == bytes;
  }

  /** One of the two copying loops: on success the buffer holds exactly the sets read, in order, and
      the position is behind them; it fails a check only when the sets are not all there, and leaves
      the buffer only when they do not fit it. */
  method CopySets(data: seq<byte>, start: nat, count: nat, buffer: array<byte>)
    returns (outcome: Outcome, ptr: nat, length: nat, ghost sets: seq<seq<byte>>)
    requires start <= |data| && buffer.Length == CAPACITY
    modifies buffer
    ensures outcome == Parsed ==>
              && SetsAt(data, start, sets) && |sets| == count && ptr == start + EncodedLength(sets) <= |data|
              && length == |WithStartCodes(sets)| <= CAPACITY && buffer[..length] == WithStartCodes(sets)
    ensures outcome == CheckFailed ==> NoSets(data, start, count)
    ensures outcome == Overrun ==> NoFit(data, start, count)
  {
    hide SetsAt, WithStartCodes, EncodedLength;
    ptr, length, sets := start, 0, [];
    ghost var nothing: seq<seq<byte>> := [];
    Nothing(data, start);
    for i := 0 to count
      invariant SetsAt(data, start, sets) && |sets| == i && ptr == start + EncodedLength(sets) <= |data|
      invariant length == |WithStartCodes(sets)| <= CAPACITY && buffer[..length] == WithStartCodes(sets)
    {
      if |data| - ptr < 2 {
        forall more | SetsAt(data, start, more) ensures |more| != count {
          if |more| == count { ReadingGoesOn(data, start, sets, more); }
        }
        return CheckFailed, ptr, length, sets;
      }
      var size := U16(data, ptr);
      if |data| - ptr - 2 < size {
        forall more | SetsAt(data, start, more) ensures |more| != count {
          if |more| == count { ReadingGoesOn(data, start, sets, more); }
        }
        return CheckFailed, ptr, length, sets;
      }
      if length + 4 + size > CAPACITY {
        forall more | SetsAt(data, start, more) && |more| == count ensures |WithStartCodes(more)| > CAPACITY {
          ReadingGoesOn(data, start, sets, more);
        }
        return Overrun, ptr, length, sets;
      }
      var bytes := data[ptr + 2..ptr + 2 + size];
      MemCopy(buffer, length, START_CODE);
      MemCopy(buffer, length + 4, bytes);
      SetsAtSnoc(data, start, sets, bytes);
      sets := sets + [bytes];
      ptr, length := ptr + 2 + size, length + 4 + size;
    }
    outcome := Parsed;
  }

  lemma Nothing(data: seq<byte>, i: nat)
    ensures SetsAt(data, i, []) && EncodedLength([]) == 0 && WithStartCodes([]) == []
  {
  }

  /** The AVCC branch of makeFormat: success gives the two buffers of exactly the record's sets, and
      consumed plus remaining bytes are the size; it fails a check only when the data does not start
      with a record, and leaves a buffer only when the sets of no record in the data fit. */
  method MakeCsd(data: seq<byte>)
    returns (outcome: Outcome, csd0: seq<byte>, csd1: seq<byte>, consumed: nat, remaining: nat,
             ghost seqSets: seq<seq<byte>>, ghost picSets: seq<seq<byte>>)
    ensures outcome == Parsed ==>
              && Record(data, seqSets, picSets) && csd0 == WithStartCodes(seqSets) && csd1 == WithStartCodes(picSets)
              && |csd0| <= CAPACITY && |csd1| <= CAPACITY
              && consumed == 7 + EncodedLength(seqSets) + EncodedLength(picSets) && consumed + remaining == |data|
    ensures outcome == CheckFailed ==> forall a, b :: !Record(data, a, b)
    ensures outcome == Overrun ==>
              forall a, b :: Record(data, a, b) ==> |WithStartCodes(a)| > CAPACITY || |WithStartCodes(b)| > CAPACITY
    ensures forall a, b :: Record(data, a, b) ==>
              outcome == if |WithStartCodes(a)| <= CAPACITY && |WithStartCodes(b)| <= CAPACITY then Parsed else Overrun
  {
    hide SetsAt, WithStartCodes, EncodedLength;
    outcome, csd0, csd1, consumed, remaining, seqSets, picSets := CheckFailed, [], [], 0, 0, [], [];
    if |data| < 7 || data[0] != 1 { return; }
    var buffer := new byte[CAPACITY];
    var ptr, length;
    outcome, ptr, length, seqSets := CopySets(data, 6, data[5] % 32, buffer);
    if outcome != Parsed { return; }
    csd0 := buffer[..length];
    forall a, b | Record(data, a, b) ensures a == seqSets { SetsUnique(data, 6, a, seqSets); }
    if |data| - ptr < 1 { return CheckFailed, [], [], 0, 0, [], []; }
    buffer := new byte[CAPACITY];
    outcome, ptr, length, picSets := CopySets(data, ptr + 1, data[ptr], buffer);
    if outcome != Parsed { return; }
    csd1 := buffer[..length];
    consumed, remaining := ptr, |data| - ptr;
    forall a, b | Record(data, a, b) ensures a == seqSets && b == picSets {
      RecordUnique(data, a, b, seqSets, picSets);
    }
  }

  /** One set of more than 1020 bytes is enough to leave the buffer. */
  method OverrunBySet(profile: seq<byte>, s: seq<byte>) returns (outcome: Outcome)
    requires |profile| == 4 && 1020 < |s| < 0x1_0000
    ensures outcome == Overrun
  {
    var data := EncodeRecord(profile, 7, [s], []);
    EncodedIsRecord(profile, 7, [s], [], []);
    assert data + [] == data;
    assert [s][..0] == [];
    var csd0, csd1, consumed, remaining;
    ghost var seqSets, picSets;
    outcome, csd0, csd1, consumed, remaining, seqSets, picSets := MakeCsd(data);
  }

  lemma {:induction false} RecordUnique(data: seq<byte>, a: seq<seq<byte>>, b: seq<seq<byte>>,
                                        c: seq<seq<byte>>, d: seq<seq<byte>>)
    requires Record(data, a, b) && Record(data, c, d)
    ensures a == c && b == d
  {
    SetsUnique(data, 6, a, c);
    SetsUnique(data, 7 + EncodedLength(a), b, d);
  }
}
