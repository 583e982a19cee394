/** camera/CameraParameters.cpp: the same text form over a KeyedVector, which is sorted by key and
    where adding an existing key replaces its value. */
module SortedParameters {
  import opened Wrappers
  import opened ParameterText
  import SizeText
  import opened SortedVectors

  // ---- KeyedVector -----------------------------------------------------------------------------

  ghost predicate KeysAscend(list: seq<Entry>) {
    forall i, j :: 0 <= i < j < |list| ==> StringLess(list[i].key, list[j].key)
  }

  /** add and replaceValueFor. */
  function Put(list: seq<Entry>, e: Entry): seq<Entry> {
    if list == [] then [e]
    else if list[0].key == e.key then [e] + list[1..]
    else if StringLess(e.key, list[0].key) then [e] + list
    else [list[0]] + Put(list[1..], e)
  }

  function RemoveItem(list: seq<Entry>, key: string): seq<Entry> {
    if list == [] then []
    else if list[0].key == key then list[1..]
    else [list[0]] + RemoveItem(list[1..], key)
  }

  /** What a vector maps a key to. */
  ghost predicate Maps(list: seq<Entry>, key: string, value: string) { Entry(key, value) in list }

  lemma MapsCons(x: Entry, rest: seq<Entry>, k: string, v: string)
    ensures Maps([x] + rest, k, v) <==> x == Entry(k, v) || Maps(rest, k, v)
  {
  }

  lemma AscendCons(x: Entry, rest: seq<Entry>)
    requires KeysAscend(rest) && forall n: nat :: n < |rest| ==> StringLess(x.key, rest[n].key)
    ensures KeysAscend([x] + rest)
  {
  }

  lemma {:induction false} PutCorrect(list: seq<Entry>, e: Entry)
    requires KeysAscend(list)
    ensures KeysAscend(Put(list, e))
    ensures forall k, v :: Maps(Put(list, e), k, v) <==> if k == e.key then v == e.value else Maps(list, k, v)
  {
    if list == [] {
    } else if list[0].key == e.key || StringLess(e.key, list[0].key) {
      PutFirst(list, e);
    } else {
      OrdersAreStrict();
      var x, tail := list[0], list[1..];
      var rest := Put(tail, e);
      PutCorrect(tail, e);
      forall n: nat | n < |rest| ensures StringLess(x.key, rest[n].key) {
        assert Maps(rest, rest[n].key, rest[n].value);
        if rest[n].key != e.key { assert Maps(tail, rest[n].key, rest[n].value); }
      }
      AscendCons(x, rest);
      forall k, v ensures Maps(Put(list, e), k, v) <==> if k == e.key then v == e.value else Maps(list, k, v) {
        MapsCons(x, rest, k, v);
        MapsCons(x, tail, k, v);
        assert list == [x] + tail;
      }
    }
  }

  lemma PutFirst(list: seq<Entry>, e: Entry)
    requires KeysAscend(list) && list != [] && (list[0].key == e.key || StringLess(e.key, list[0].key))
    ensures KeysAscend(Put(list, e))
    ensures forall k, v :: Maps(Put(list, e), k, v) <==> if k == e.key then v == e.value else Maps(list, k, v)
  {
    OrdersAreStrict();
    assert list == [list[0]] + list[1..];
    assert forall n: nat :: 0 < n < |list| ==> StringLess(e.key, list[n].key);
  }

  lemma {:induction false} RemoveCorrect(list: seq<Entry>, key: string)
    requires KeysAscend(list)
    ensures KeysAscend(RemoveItem(list, key))
    ensures forall k, v :: Maps(RemoveItem(list, key), k, v) <==> k != key && Maps(list, k, v)
  {
    if list != [] {
      OrdersAreStrict();
      var x, tail := list[0], list[1..];
      var rest := RemoveItem(tail, key);
      RemoveCorrect(tail, key);
      forall k, v ensures Maps(list, k, v) <==> x == Entry(k, v) || Maps(tail, k, v) {
        MapsCons(x, tail, k, v);
        assert list == [x] + tail;
      }
      if x.key == key {
        assert forall n: nat :: n < |tail| ==> StringLess(key, tail[n].key);
      } else {
        forall n: nat | n < |rest| ensures StringLess(x.key, rest[n].key) {
          assert Maps(rest, rest[n].key, rest[n].value);
          assert Maps(tail, rest[n].key, rest[n].value);
        }
        AscendCons(x, rest);
        forall k, v ensures Maps(RemoveItem(list, key), k, v) <==> k != key && Maps(list, k, v) {
          MapsCons(x, rest, k, v);
        }
      }
    }
  }

  /** A vector is determined by what it maps. */
  lemma {:induction false} SameMappingSameVector(a: seq<Entry>, b: seq<Entry>)
    requires KeysAscend(a) && KeysAscend(b)
    requires forall k, v :: Maps(a, k, v) <==> Maps(b, k, v)
    ensures a == b
  {
    OrdersAreStrict();
    if a == [] {
      assert b == [] by { if b != [] { assert Maps(b, b[0].key, b[0].value); } }
    } else {
      assert Maps(a, a[0].key, a[0].value) && b != [];
      assert Maps(b, b[0].key, b[0].value);
      assert forall e :: e in a ==> e == a[0] || StringLess(a[0].key, e.key);
      assert forall e :: e in b ==> e == b[0] || StringLess(b[0].key, e.key);
      assert a[0] == b[0];
      assert a == [a[0]] + a[1..] && b == [b[0]] + b[1..];
      forall k, v ensures Maps(a[1..], k, v) <==> Maps(b[1..], k, v) {
        assert Maps(a[1..], k, v) <==> Maps(a, k, v) && Entry(k, v) != a[0];
        assert Maps(b[1..], k, v) <==> Maps(b, k, v) && Entry(k, v) != b[0];
      }
      SameMappingSameVector(a[1..], b[1..]);
    }
  }

  // ---- Reading a text --------------------------------------------------------------------------

  function PutAll(entries: seq<Entry>): seq<Entry> {
    if entries == [] then [] else Put(PutAll(entries[..|entries| - 1]), entries[|entries| - 1])
  }

  /** The value that the last of some entries gives a key. */
  function LastValue(entries: seq<Entry>, key: string): Option<string> {
    if entries == [] then None
    else if entries[|entries| - 1].key == key then Some(entries[|entries| - 1].value)
    else LastValue(entries[..|entries| - 1], key)
  }

  /** When a text repeats a key, its last value is the one that is kept. */
  lemma {:induction false} PutAllKeepsLast(entries: seq<Entry>)
    ensures KeysAscend(PutAll(entries))
    ensures forall k, v :: Maps(PutAll(entries), k, v) <==> LastValue(entries, k) == Some(v)
  {
    if entries != [] {
      PutAllKeepsLast(entries[..|entries| - 1]);
      PutCorrect(PutAll(entries[..|entries| - 1]), entries[|entries| - 1]);
    }
  }

  lemma {:induction false} LastOfVector(list: seq<Entry>, k: string, v: string)
    requires KeysAscend(list)
    ensures LastValue(list, k) == Some(v) <==> Maps(list, k, v)
  {
    if list != [] {
      OrdersAreStrict();
      var init, last := list[..|list| - 1], list[|list| - 1];
      assert list == init + [last];
      assert forall e :: e in init ==> StringLess(e.key, last.key);
      LastOfVector(init, k, v);
    }
  }

  lemma PutAllIdentity(list: seq<Entry>)
    requires KeysAscend(list)
    ensures PutAll(list) == list
  {
    PutAllKeepsLast(list);
    forall k, v ensures Maps(PutAll(list), k, v) <==> Maps(list, k, v) { LastOfVector(list, k, v); }
    SameMappingSameVector(PutAll(list), list);
  }

  lemma {:induction false} PutAllClean(entries: seq<Entry>)
    requires Clean(entries)
    ensures Clean(PutAll(entries))
  {
    PutAllKeepsLast(entries);
    forall e | e in PutAll(entries) ensures '=' !in e.key && ';' !in e.value {
      assert Maps(PutAll(entries), e.key, e.value);
      LastIsIn(entries, e.key);
    }
  }

  lemma {:induction false} LastIsIn(entries: seq<Entry>, key: string)
    ensures LastValue(entries, key).Some? ==> Entry(key, LastValue(entries, key).value) in entries
  {
    if entries != [] && entries[|entries| - 1].key != key { LastIsIn(entries[..|entries| - 1], key); }
  }

  ghost function Unflattened(text: string): seq<Entry> { PutAll(Parse(text)) }

  /** unflatten undoes flatten exactly on the vectors without an equal sign in a key or a semicolon in
      a value. */
  lemma VectorRoundTripIff(list: seq<Entry>)
    requires KeysAscend(list)
    ensures Unflattened(Print(list)) == list <==> Clean(list)
  {
    ParseClean(Print(list));
    PutAllClean(Parse(Print(list)));
    if Clean(list) {
      ParsePrint(list);
      PutAllIdentity(list);
    }
  }

  /** The text depends only on what is mapped, not on the order in which it was set. */
  lemma SameMappingSameText(a: seq<Entry>, b: seq<Entry>)
    requires KeysAscend(a) && KeysAscend(b)
    requires forall k, v :: Maps(a, k, v) <==> Maps(b, k, v)
    ensures Print(a) == Print(b)
  {
    SameMappingSameVector(a, b);
  }

  // ---- Histories -------------------------------------------------------------------------------

  datatype Op = OpSet(key: string, value: string) | OpRemove(key: string) | OpUnflatten(text: string)

  ghost function Apply(list: seq<Entry>, op: Op): seq<Entry> {
    match op
    case OpSet(key, value) => if Plain(key) && Plain(value) then Put(list, Entry(key, value)) else list
    case OpRemove(key) => RemoveItem(list, key)
    case OpUnflatten(text) => Unflattened(text)
  }

  ghost function Run(ops: seq<Op>): seq<Entry> {
    if ops == [] then [] else Apply(Run(ops[..|ops| - 1]), ops[|ops| - 1])
  }

  lemma ApplyKeeps(list: seq<Entry>, op: Op)
    requires KeysAscend(list) && Clean(list)
    ensures KeysAscend(Apply(list, op)) && Clean(Apply(list, op))
  {
    match op
    case OpSet(key, value) =>
      PutCorrect(list, Entry(key, value));
      assert forall e :: e in Apply(list, op) ==> Maps(Apply(list, op), e.key, e.value);
      assert forall e :: e in list <==> Maps(list, e.key, e.value);
    case OpRemove(key) =>
      RemoveCorrect(list, key);
      assert forall e :: e in Apply(list, op) ==> Maps(Apply(list, op), e.key, e.value);
      assert forall e :: e in list <==> Maps(list, e.key, e.value);
    case OpUnflatten(text) =>
      ParseClean(text);
      PutAllKeepsLast(Parse(text));
      PutAllClean(Parse(text));
  }

  /** Whatever was done, an unflatten of the flattened text restores the same parameters. */
  lemma {:induction false} EveryRunRoundTrips(ops: seq<Op>)
    ensures KeysAscend(Run(ops)) && Clean(Run(ops))
    ensures Unflattened(Print(Run(ops))) == Run(ops)
  {
    if ops != [] {
      EveryRunRoundTrips(ops[..|ops| - 1]);
      ApplyKeeps(Run(ops[..|ops| - 1]), ops[|ops| - 1]);
    }
    VectorRoundTripIff(Run(ops));
  }

  // ---- Sizes -----------------------------------------------------------------------------------

  const KEY_PREVIEW_SIZE := "preview-size"

  /** A pair that was set is the only value of its key, and is read back. */
  lemma PairSetIsRead(list: seq<Entry>, key: string, size: SizeText.Size, delim: char)
    requires KeysAscend(list) && Plain(key) && (delim == 'x' || delim == ',')
    requires SizeText.IsInt(size.width) && SizeText.IsInt(size.height)
    ensures var text := SizeText.PrintPair(size, delim);
            var next := Apply(list, OpSet(key, text));
            text != "" && forall v :: Maps(next, key, v) <==> v == text
    ensures SizeText.Read(SizeText.PrintPair(size, delim), delim) == size
  {
    hide SizeText.Read, SizeText.PrintPair, Put;
    var text := SizeText.PrintPair(size, delim);
    SizeText.ReadPrinted(size, delim);
    assert Plain(text);
    PutCorrect(list, Entry(key, text));
  }

  // ---- The class -------------------------------------------------------------------------------

  class CameraParameters {
    var mMap: seq<Entry>

    ghost predicate Valid() reads this { KeysAscend(mMap) && Clean(mMap) }

    constructor ()
      ensures Valid() && mMap == []
    {
      mMap := [];
    }

    method SetValue(key: string, value: string)
      requires Valid()
      modifies this
      ensures Valid() && mMap == Apply(old(mMap), OpSet(key, value))
      ensures Plain(key) && Plain(value) ==> Maps(mMap, key, value)
    {
      ApplyKeeps(mMap, OpSet(key, value));
      if '=' in key || ';' in key { return; }
      if '=' in value || ';' in value { return; }
      PutCorrect(mMap, Entry(key, value));
      mMap := Put(mMap, Entry(key, value));
    }

    method RemoveKey(key: string)
      requires Valid()
      modifies this
      ensures Valid() && mMap == Apply(old(mMap), OpRemove(key))
      ensures forall v :: !Maps(mMap, key, v)
    {
      ApplyKeeps(mMap, OpRemove(key));
      RemoveCorrect(mMap, key);
      mMap := RemoveItem(mMap, key);
    }

    /** An empty value reads like a missing one: the default of the vector is an empty string. */
    method GetValue(key: string) returns (value: Option<string>)
      requires Valid()
      ensures forall v :: value == Some(v) <==> v != "" && Maps(mMap, key, v)
    {
      OrdersAreStrict();
      value := None;
      for i := 0 to |mMap|
        invariant forall j :: 0 <= j < i ==> mMap[j].key != key
      {
        if mMap[i].key == key {
          assert forall v :: Maps(mMap, key, v) <==> v == mMap[i].value;
          return if mMap[i].value == "" then None else Some(mMap[i].value);
        }
      }
    }

    method SetPreviewSize(width: int, height: int)
      requires Valid() && SizeText.IsInt(width) && SizeText.IsInt(height)
      modifies this
      ensures Valid()
      ensures mMap == Apply(old(mMap), OpSet(KEY_PREVIEW_SIZE, SizeText.PrintPair(SizeText.Size(width, height), 'x')))
    {
      hide SizeText.PrintPair;
      var str := SizeText.SprintPair(SizeText.Size(width, height), 'x');
      SetValue(KEY_PREVIEW_SIZE, str);
    }

    method GetPreviewSize() returns (size: SizeText.Size)
      requires Valid()
      ensures forall v :: v != "" && Maps(mMap, KEY_PREVIEW_SIZE, v) ==> size == SizeText.Read(v, 'x')
      ensures (forall v :: Maps(mMap, KEY_PREVIEW_SIZE, v) ==> v == "") ==> size == SizeText.Size(-1, -1)
    {
      hide SizeText.Read;
      size := SizeText.Size(-1, -1);
      var p := GetValue(KEY_PREVIEW_SIZE);
      if p.Some? {
        size := SizeText.ReadPair(p.value, 'x');
      }
    }

    method FlattenAll() returns (flattened: string)
      requires Valid()
      ensures Unflattened(flattened) == mMap
    {
      flattened := Flatten(mMap);
      VectorRoundTripIff(mMap);
    }

    method Unflatten(params: string)
      modifies this
      ensures Valid() && mMap == Unflattened(params)
      ensures forall k, v :: Maps(mMap, k, v) <==> LastValue(Parse(params), k) == Some(v)
    {
      mMap := [];
      var a := Some(0);
      ghost var all := Parse(params);
      ghost var done: seq<Entry> := [];
      assert params[0..] == params;
      while a.Some?
        invariant a.Some? ==> a.value <= |params|
        invariant all == done + (if a.Some? then Parse(params[a.value..]) else []) && mMap == PutAll(done)
        decreases if a.Some? then |params| + 1 - a.value else 0
      {
        a, done := AddNext(params, a.value, all, done);
      }
      assert done == all;
      ParseClean(params);
      PutAllClean(all);
      PutAllKeepsLast(all);
    }

    /** The body of the loop of unflatten. */
    method AddNext(params: string, a: nat, ghost all: seq<Entry>, ghost done: seq<Entry>)
      returns (next: Option<nat>, ghost more: seq<Entry>)
      requires a <= |params| && all == done + Parse(params[a..]) && mMap == PutAll(done)
      modifies this
      ensures next.Some? ==> a < next.value <= |params|
      ensures all == more + (if next.Some? then Parse(params[next.value..]) else []) && mMap == PutAll(more)
    {
      var pair;
      pair, next := NextPair(params, a);
      ParseOn(all, done, params[a..], pair, if next.Some? then Some(params[next.value..]) else None);
      more := done;
      if pair.Some? {
        mMap := Put(mMap, pair.value);
        more := done + [pair.value];
        assert more[..|done|] == done;
      }
    }
  }
}
