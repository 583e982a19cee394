/** camera/CameraParameters2.cpp and the OrderedKeyedVector of include/camera/CameraParameters2.h: a
    list of entries in the order they were set. Adding an entry never replaces one, so unflatten can
    make a list with repeated keys. */
module OrderedParameters {
  import opened Wrappers
  import opened ParameterText
  import SizeText

  // ---- The ordered vector ----------------------------------------------------------------------

  ghost predicate FirstWith(list: seq<Entry>, key: string, i: nat) {
    i < |list| && list[i].key == key && forall j: nat :: j < i ==> list[j].key != key
  }

  lemma {:induction false} HasFirstWith(list: seq<Entry>, key: string, i: nat)
    requires i < |list| && list[i].key == key
    ensures exists k :: FirstWith(list, key, k)
  {
    if j: nat :| j < i && list[j].key == key {
      HasFirstWith(list, key, j);
    } else {
      assert FirstWith(list, key, i);
    }
  }

  /** indexOfKey: the first entry with the key. */
  ghost function KeyIndex(list: seq<Entry>, key: string): (r: Option<nat>)
    ensures r.Some? ==> FirstWith(list, key, r.value)
    ensures r == None ==> forall j: nat :: j < |list| ==> list[j].key != key
  {
    if j: nat :| j < |list| && list[j].key == key then
      HasFirstWith(list, key, j);
      var i :| FirstWith(list, key, i);
      Some(i)
    else None
  }

  /** removeItem: a missing key becomes an index that removeAt refuses. */
  ghost function RemoveItem(list: seq<Entry>, key: string): seq<Entry> {
    match KeyIndex(list, key)
    case None => list
    case Some(i) => list[..i] + list[i + 1..]
  }

  /** set, which ignores text that flatten could not print. */
  ghost function Set(list: seq<Entry>, key: string, value: string): seq<Entry> {
    if Plain(key) && Plain(value) then RemoveItem(list, key) + [Entry(key, value)] else list
  }

  ghost function Get(list: seq<Entry>, key: string): Option<string> {
    match KeyIndex(list, key)
    case None => None
    case Some(i) => Some(list[i].value)
  }

  ghost predicate Distinct(list: seq<Entry>) {
    forall i, j :: 0 <= i < j < |list| ==> list[i].key != list[j].key
  }

  function Occurrences(list: seq<Entry>, key: string): nat {
    if list == [] then 0 else (if list[0].key == key then 1 else 0) + Occurrences(list[1..], key)
  }

  lemma KeyIndexIs(list: seq<Entry>, key: string, i: nat)
    requires FirstWith(list, key, i)
    ensures KeyIndex(list, key) == Some(i)
  {
  }

  lemma {:induction false} OccurrencesConcat(a: seq<Entry>, b: seq<Entry>, key: string)
    ensures Occurrences(a + b, key) == Occurrences(a, key) + Occurrences(b, key)
  {
    if a == [] {
      assert a + b == b;
    } else {
      assert (a + b)[1..] == a[1..] + b;
      OccurrencesConcat(a[1..], b, key);
    }
  }

  lemma {:induction false} OccursIff(list: seq<Entry>, key: string)
    ensures Occurrences(list, key) == 0 <==> KeyIndex(list, key) == None
  {
    if list != [] { OccursIff(list[1..], key); }
  }

  lemma RemoveOccurrences(list: seq<Entry>, key: string)
    ensures Occurrences(RemoveItem(list, key), key) ==
            if Occurrences(list, key) == 0 then 0 else Occurrences(list, key) - 1
  {
    OccursIff(list, key);
    match KeyIndex(list, key)
    case None =>
    case Some(i) =>
      OccurrencesConcat(list[..i], list[i..], key);
      assert list == list[..i] + list[i..] && list[i..][1..] == list[i + 1..];
      OccurrencesConcat(list[..i], list[i + 1..], key);
  }

  // ---- Repeated keys ---------------------------------------------------------------------------

  /** After a key is removed it is gone exactly if it was there at most once. */
  lemma RemoveIsCompleteIff(list: seq<Entry>, key: string)
    ensures Get(RemoveItem(list, key), key) == None <==> Occurrences(list, key) <= 1
  {
    RemoveOccurrences(list, key);
    OccursIff(RemoveItem(list, key), key);
  }

  /** The entry that an accepted set adds is the one that get and compareSetOrder find exactly if the
      key was there at most once. */
  lemma SetIsFoundIff(list: seq<Entry>, key: string, value: string)
    requires Plain(key) && Plain(value)
    ensures KeyIndex(Set(list, key, value), key) == Some(|Set(list, key, value)| - 1) <==> Occurrences(list, key) <= 1
    ensures Occurrences(list, key) <= 1 ==> Get(Set(list, key, value), key) == Some(value)
  {
    RemoveOccurrences(list, key);
    hide RemoveItem, Occurrences;
    var left := RemoveItem(list, key);
    var all := left + [Entry(key, value)];
    OccursIff(left, key);
    match KeyIndex(left, key)
    case None =>
      assert forall j: nat :: j < |left| ==> all[j] in left;
      KeyIndexIs(all, key, |left|);
    case Some(i) =>
      KeyIndexIs(all, key, i);
  }

  lemma ReadRepeatedKey()
    ensures Parse("a=1;a=2") == [Entry("a", "1"), Entry("a", "2")]
  {
    var list := [Entry("a", "1"), Entry("a", "2")];
    assert Print(list) == "a=1;a=2" by { assert list[1..] == [Entry("a", "2")]; }
    ParsePrint(list);
  }

  /** After reading such a text and setting b, setting the repeated key a has no visible effect, and a
      counts as set before b. */
  lemma RepeatedKeyHidesSet(b: seq<Entry>)
    requires b == [Entry("a", "1"), Entry("a", "2"), Entry("b", "0")]
    ensures var list := Set(b, "a", "3");
            Get(list, "a") == Some("2") && KeyIndex(list, "a") == Some(0) && KeyIndex(list, "b") == Some(1)
  {
    KeyIndexIs(b, "a", 0);
    var c := Set(b, "a", "3");
    assert c == [Entry("a", "2"), Entry("b", "0"), Entry("a", "3")];
    KeyIndexIs(c, "a", 0);
    KeyIndexIs(c, "b", 1);
  }

  // ---- Histories -------------------------------------------------------------------------------

  datatype Op = OpSet(key: string, value: string) | OpRemove(key: string) | OpUnflatten(text: string)

  ghost function Apply(list: seq<Entry>, op: Op): seq<Entry> {
    match op
    case OpSet(key, value) => Set(list, key, value)
    case OpRemove(key) => RemoveItem(list, key)
    case OpUnflatten(text) => Parse(text)
  }

  ghost function Run(start: seq<Entry>, ops: seq<Op>): seq<Entry> {
    if ops == [] then start else Apply(Run(start, ops[..|ops| - 1]), ops[|ops| - 1])
  }

  lemma CleanStep(list: seq<Entry>, op: Op)
    requires Clean(list)
    ensures Clean(Apply(list, op))
  {
    match op
    case OpSet(key, value) => assert Clean(RemoveItem(list, key));
    case OpRemove(key) => assert Clean(RemoveItem(list, key));
    case OpUnflatten(text) => ParseClean(text);
  }

  lemma {:induction false} CleanOverRuns(start: seq<Entry>, ops: seq<Op>)
    requires Clean(start)
    ensures Clean(Run(start, ops))
  {
    if ops != [] {
      CleanOverRuns(start, ops[..|ops| - 1]);
      CleanStep(Run(start, ops[..|ops| - 1]), ops[|ops| - 1]);
    }
  }

  /** Whatever was done, an unflatten of the flattened text gives the same list back: the same values
      in the same order. */
  lemma EveryRunRoundTrips(ops: seq<Op>)
    ensures Parse(Print(Run([], ops))) == Run([], ops)
  {
    CleanOverRuns([], ops);
    RoundTripIff(Run([], ops));
  }

  /** When a key present after the operations was set last: its place in the starting list, or after
      all of those the number of the operation. */
  ghost function Stamp(start: seq<Entry>, ops: seq<Op>, key: string): (t: Option<nat>)
    ensures t.Some? ==> t.value < |start| + |ops|
  {
    if ops == [] then KeyIndex(start, key)
    else
      match ops[|ops| - 1]
      case OpSet(k, v) =>
        if k == key && Plain(k) && Plain(v) then Some(|start| + |ops| - 1) else Stamp(start, ops[..|ops| - 1], key)
      case OpRemove(k) => if k == key then None else Stamp(start, ops[..|ops| - 1], key)
      case OpUnflatten(_) => None
  }

  /** The value given by that set. */
  function Stamped(start: seq<Entry>, ops: seq<Op>, t: nat): string
    requires t < |start| + |ops| && (t >= |start| ==> ops[t - |start|].OpSet?)
  {
    if t < |start| then start[t].value else ops[t - |start|].value
  }

  ghost predicate Ordered(list: seq<Entry>, start: seq<Entry>, ops: seq<Op>) {
    && (forall k :: KeyIndex(list, k) == None <==> Stamp(start, ops, k) == None)
    && (forall j, k :: KeyIndex(list, j).Some? && KeyIndex(list, k).Some? ==>
          (KeyIndex(list, j).value < KeyIndex(list, k).value <==>
            Stamp(start, ops, j).value < Stamp(start, ops, k).value))
  }

  lemma TakeOut(list: seq<Entry>, i: nat, other: string)
    requires Distinct(list) && i < |list|
    ensures Distinct(list[..i] + list[i + 1..])
    ensures KeyIndex(list[..i] + list[i + 1..], other) ==
            match KeyIndex(list, other)
            case None => None
            case Some(m) => if m == i then None else Some(if m < i then m else m - 1)
  {
    var left := list[..i] + list[i + 1..];
    assert forall n :: 0 <= n < |left| ==> left[n] == list[if n < i then n else n + 1];
    var m := KeyIndex(list, other);
    if m.Some? && m.value != i {
      KeyIndexIs(left, other, if m.value < i then m.value else m.value - 1);
    }
  }

  /** Taking an entry out moves the ones after it forward. */
  lemma RemoveMoves(list: seq<Entry>, key: string, other: string)
    requires Distinct(list)
    ensures Distinct(RemoveItem(list, key))
    ensures KeyIndex(RemoveItem(list, key), other) ==
            if other == key then None
            else if KeyIndex(list, key).Some? && KeyIndex(list, other).Some?
              && KeyIndex(list, key).value < KeyIndex(list, other).value
            then Some(KeyIndex(list, other).value - 1)
            else KeyIndex(list, other)
  {
    var i := KeyIndex(list, key);
    if i.Some? { TakeOut(list, i.value, other); }
  }

  lemma AddLast(list: seq<Entry>, e: Entry, other: string)
    requires Distinct(list) && KeyIndex(list, e.key) == None
    ensures Distinct(list + [e])
    ensures KeyIndex(list + [e], other) == if other == e.key then Some(|list|) else KeyIndex(list, other)
  {
    var all := list + [e];
    assert forall n :: 0 <= n < |list| ==> all[n] == list[n] && list[n] in list;
    match KeyIndex(list, other)
    case None =>
      if other == e.key { KeyIndexIs(all, other, |list|); }
    case Some(m) =>
      KeyIndexIs(all, other, m);
  }

  ghost predicate WithoutUnflatten(ops: seq<Op>) { forall op :: op in ops ==> !op.OpUnflatten? }

  lemma OrderedRemove(list: seq<Entry>, start: seq<Entry>, ops: seq<Op>, key: string)
    requires Distinct(list) && Ordered(list, start, ops)
    ensures Distinct(RemoveItem(list, key)) && KeyIndex(RemoveItem(list, key), key) == None
    ensures Ordered(RemoveItem(list, key), start, ops + [OpRemove(key)])
  {
    assert (ops + [OpRemove(key)])[..|ops|] == ops;
    forall k ensures KeyIndex(RemoveItem(list, key), k) ==
                     if k == key then None
                     else if KeyIndex(list, key).Some? && KeyIndex(list, k).Some?
                       && KeyIndex(list, key).value < KeyIndex(list, k).value
                     then Some(KeyIndex(list, k).value - 1) else KeyIndex(list, k)
    {
      RemoveMoves(list, key, k);
    }
    RemoveMoves(list, key, key);
  }

  /** A set is a removal followed by an addition at the end. */
  lemma OrderedAdd(list: seq<Entry>, start: seq<Entry>, ops: seq<Op>, e: Entry)
    requires Distinct(list) && KeyIndex(list, e.key) == None && Plain(e.key) && Plain(e.value)
    requires Ordered(list, start, ops + [OpRemove(e.key)])
    ensures Distinct(list + [e]) && Ordered(list + [e], start, ops + [OpSet(e.key, e.value)])
  {
    var removed, all := ops + [OpRemove(e.key)], ops + [OpSet(e.key, e.value)];
    assert removed[..|ops|] == ops == all[..|ops|];
    AddLast(list, e, e.key);
    forall k ensures KeyIndex(list + [e], k) == if k == e.key then Some(|list|) else KeyIndex(list, k) {
      AddLast(list, e, k);
    }
    forall k | k != e.key
      ensures Stamp(start, all, k) == Stamp(start, removed, k) && Stamp(start, ops, k) == Stamp(start, all, k)
    {
    }
  }

  lemma OrderedStep(list: seq<Entry>, start: seq<Entry>, ops: seq<Op>, op: Op)
    requires Distinct(list) && Ordered(list, start, ops) && !op.OpUnflatten?
    ensures Distinct(Apply(list, op)) && Ordered(Apply(list, op), start, ops + [op])
  {
    if op.OpRemove? {
      OrderedRemove(list, start, ops, op.key);
    } else if Plain(op.key) && Plain(op.value) {
      OrderedRemove(list, start, ops, op.key);
      OrderedAdd(RemoveItem(list, op.key), start, ops, Entry(op.key, op.value));
    } else {
      assert (ops + [op])[..|ops|] == ops;
    }
  }

  /** Two keys compare by the time of their last accepted set, for every history of set and remove
      from a list without repeated keys. */
  lemma {:induction false} OrderIsTimeOfLastSet(start: seq<Entry>, ops: seq<Op>)
    requires Distinct(start) && WithoutUnflatten(ops)
    ensures Distinct(Run(start, ops)) && Ordered(Run(start, ops), start, ops)
  {
    if ops != [] {
      var before, op := ops[..|ops| - 1], ops[|ops| - 1];
      assert ops == before + [op];
      OrderIsTimeOfLastSet(start, before);
      OrderedStep(Run(start, before), start, before, op);
    }
  }

  /** From a list with a repeated key the same does not hold: removing that key leaves it present. */
  lemma RepeatedKeyBreaksOrder(start: seq<Entry>, i: nat, j: nat)
    requires i < j < |start| && start[i].key == start[j].key
    ensures var ops := [OpRemove(start[i].key)];
            !Ordered(Run(start, ops), start, ops)
  {
    var key := start[i].key;
    var ops := [OpRemove(key)];
    assert ops[..0] == [];
    RepeatedOccurs(start, i, j);
    RemoveIsCompleteIff(start, key);
    assert Run(start, ops) == RemoveItem(start, key);
  }

  lemma RepeatedOccurs(list: seq<Entry>, i: nat, j: nat)
    requires i < j < |list| && list[i].key == list[j].key
    ensures Occurrences(list, list[i].key) >= 2
  {
    var key, a, b := list[i].key, list[..i + 1], list[i + 1..];
    assert list == a + b;
    OccurrencesConcat(a, b, key);
    OccursAt(a, key, i);
    OccursAt(b, key, j - i - 1);
  }

  lemma OccursAt(list: seq<Entry>, key: string, i: nat)
    requires i < |list| && list[i].key == key
    ensures Occurrences(list, key) >= 1
  {
    OccursIff(list, key);
  }

  lemma RemoveGet(list: seq<Entry>, key: string, other: string)
    requires Distinct(list)
    ensures Distinct(RemoveItem(list, key)) && KeyIndex(RemoveItem(list, key), key) == None
    ensures Get(RemoveItem(list, key), other) == if other == key then None else Get(list, other)
  {
    hide KeyIndex;
    RemoveMoves(list, key, key);
    var i := KeyIndex(list, key);
    if i.Some? { TakeOut(list, i.value, other); }
  }

  lemma AddGet(list: seq<Entry>, e: Entry, other: string)
    requires Distinct(list) && KeyIndex(list, e.key) == None
    ensures Get(list + [e], other) == if other == e.key then Some(e.value) else Get(list, other)
  {
    AddLast(list, e, other);
  }

  lemma GetStep(list: seq<Entry>, op: Op, key: string)
    requires Distinct(list) && !op.OpUnflatten?
    ensures Get(Apply(list, op), key) ==
            if op.OpRemove? && op.key == key then None
            else if op.OpSet? && op.key == key && Plain(op.key) && Plain(op.value) then Some(op.value)
            else Get(list, key)
  {
    RemoveGet(list, op.key, key);
    if op.OpSet? && Plain(op.key) && Plain(op.value) {
      AddGet(RemoveItem(list, op.key), Entry(op.key, op.value), key);
    }
  }

  /** And the value found is the one given by that set. */
  lemma {:induction false} ValueIsOfLastSet(start: seq<Entry>, ops: seq<Op>, key: string)
    requires Distinct(start) && WithoutUnflatten(ops)
    ensures match Stamp(start, ops, key)
            case None => Get(Run(start, ops), key) == None
            case Some(t) =>
              (t >= |start| ==> ops[t - |start|].OpSet?) && Get(Run(start, ops), key) == Some(Stamped(start, ops, t))
  {
    hide Set, RemoveItem, KeyIndex;
    if ops != [] {
      var before, op := ops[..|ops| - 1], ops[|ops| - 1];
      ValueIsOfLastSet(start, before, key);
      OrderIsTimeOfLastSet(start, before);
      GetStep(Run(start, before), op, key);
    }
  }

  // ---- Sizes -----------------------------------------------------------------------------------

  const KEY_PREVIEW_SIZE := "preview-size"

  /** What a getter of a pair returns. */
  ghost function GetPair(list: seq<Entry>, key: string, delim: char): SizeText.Size {
    match Get(list, key)
    case None => SizeText.Size(-1, -1)
    case Some(p) => SizeText.Read(p, delim)
  }

  /** A missing key and a text without the delimiter where it is expected read as -1 twice. */
  lemma NoPairIsMinusOne(list: seq<Entry>, key: string, delim: char)
    requires forall i: nat :: FirstWith(list, key, i) ==> SizeText.Pair(list[i].value, 0, delim) == None
    ensures GetPair(list, key, delim) == SizeText.Size(-1, -1)
  {
  }

  /** A pair that was set is read back, unless the key was repeated before. */
  lemma PairSetIsRead(list: seq<Entry>, key: string, size: SizeText.Size, delim: char)
    requires Plain(key) && Occurrences(list, key) <= 1 && (delim == 'x' || delim == ',')
    requires SizeText.IsInt(size.width) && SizeText.IsInt(size.height)
    ensures GetPair(Set(list, key, SizeText.PrintPair(size, delim)), key, delim) == size
  {
    hide Set, Get, SizeText.Read, SizeText.PrintPair, KeyIndex;
    var text := SizeText.PrintPair(size, delim);
    SizeText.ReadPrinted(size, delim);
    assert Plain(text);
    SetIsFoundIff(list, key, text);
  }

  // ---- The class -------------------------------------------------------------------------------

  datatype Status = Ok | BadValue | NameNotFound

  class CameraParameters2 {
    var mMap: seq<Entry>

    constructor ()
      ensures mMap == []
    {
      mMap := [];
    }

    method IndexOfKey(key: string) returns (index: Option<nat>)
      ensures index == KeyIndex(mMap, key)
    {
      var i := 0;
      while i < |mMap|
        invariant 0 <= i <= |mMap|
        invariant forall j :: 0 <= j < i ==> mMap[j].key != key
      {
        if mMap[i].key == key {
          KeyIndexIs(mMap, key, i);
          return Some(i);
        }
        i := i + 1;
      }
      return None;
    }

    method RemoveKey(key: string)
      modifies this
      ensures mMap == RemoveItem(old(mMap), key)
    {
      var index := IndexOfKey(key);
      if index.Some? {
        mMap := mMap[..index.value] + mMap[index.value + 1..];
      }
    }

    method SetValue(key: string, value: string)
      modifies this
      ensures mMap == Set(old(mMap), key, value)
    {
      if '=' in key || ';' in key { return; }
      if '=' in value || ';' in value { return; }
      RemoveKey(key);
      mMap := mMap + [Entry(key, value)];
    }

    method GetValue(key: string) returns (value: Option<string>)
      ensures value == Get(mMap, key)
    {
      var index := IndexOfKey(key);
      value := if index == None then None else Some(mMap[index.value].value);
    }

    method FlattenAll() returns (flattened: string)
      ensures flattened == Print(mMap)
      ensures Clean(mMap) ==> Parse(flattened) == mMap
    {
      flattened := Flatten(mMap);
      RoundTripIff(mMap);
    }

    /** The body of the loop of unflatten. */
    method AddNext(params: string, a: nat, ghost all: seq<Entry>) returns (next: Option<nat>)
      requires a <= |params| && all == mMap + Parse(params[a..])
      modifies this
      ensures next.Some? ==> a < next.value <= |params|
      ensures all == mMap + (if next.Some? then Parse(params[next.value..]) else [])
    {
      var pair;
      pair, next := NextPair(params, a);
      ParseOn(all, mMap, params[a..], pair, if next.Some? then Some(params[next.value..]) else None);
      if pair.Some? {
        mMap := mMap + [pair.value];
      }
    }

    method Unflatten(params: string)
      modifies this
      ensures mMap == Parse(params) && Clean(mMap)
    {
      hide Parse;
      mMap := [];
      ParseClean(params);
      var a := Some(0);
      assert params[0..] == params;
      ghost var all := Parse(params);
      while a.Some?
        invariant a.Some? ==> a.value <= |params|
        invariant all == mMap + (if a.Some? then Parse(params[a.value..]) else [])
        decreases if a.Some? then |params| + 1 - a.value else 0
      {
        a := AddNext(params, a.value, all);
      }
    }

    method SetPreviewSize(width: int, height: int)
      requires SizeText.IsInt(width) && SizeText.IsInt(height)
      modifies this
      ensures mMap == Set(old(mMap), KEY_PREVIEW_SIZE, SizeText.PrintPair(SizeText.Size(width, height), 'x'))
      ensures Occurrences(old(mMap), KEY_PREVIEW_SIZE) <= 1 ==>
                GetPair(mMap, KEY_PREVIEW_SIZE, 'x') == SizeText.Size(width, height)
    {
      hide SizeText.PrintPair, Set, GetPair;
      var str := SizeText.SprintPair(SizeText.Size(width, height), 'x');
      if Occurrences(mMap, KEY_PREVIEW_SIZE) <= 1 {
        PairSetIsRead(mMap, KEY_PREVIEW_SIZE, SizeText.Size(width, height), 'x');
      }
      SetValue(KEY_PREVIEW_SIZE, str);
    }

    method GetPreviewSize() returns (size: SizeText.Size)
      ensures size == GetPair(mMap, KEY_PREVIEW_SIZE, 'x')
      ensures (forall e :: e in mMap ==> e.key != KEY_PREVIEW_SIZE) ==> size == SizeText.Size(-1, -1)
    {
      hide SizeText.Read;
      size := SizeText.Size(-1, -1);
      var p := GetValue(KEY_PREVIEW_SIZE);
      if p.Some? {
        size := SizeText.ReadPair(p.value, 'x');
      }
    }

    /** compareSetOrder, with None for null pointers. */
    method CompareSetOrder(key1: Option<string>, key2: Option<string>, hasOrder: bool)
      returns (status: Status, order: int)
      ensures status == BadValue <==> key1 == None || key2 == None || !hasOrder
      ensures status == NameNotFound <==>
              key1.Some? && key2.Some? && hasOrder && (Get(mMap, key1.value) == None || Get(mMap, key2.value) == None)
      ensures status == Ok ==>
                && -1 <= order <= 1
                && (order < 0 <==> KeyIndex(mMap, key1.value).value < KeyIndex(mMap, key2.value).value)
                && (order == 0 <==> key1 == key2)
    {
      order := 0;
      if key1 == None || key2 == None || !hasOrder { return BadValue, order; }
      var index1 := IndexOfKey(key1.value);
      var index2 := IndexOfKey(key2.value);
      if index1 == None || index2 == None { return NameNotFound, order; }
      order := if index1.value == index2.value then 0 else if index1.value < index2.value then -1 else 1;
      status := Ok;
    }
  }
}
