/** camera/CameraMetadata.cpp: a growing container over the bounded entry store of the metadata
    library, which is taken as given: entries in order, a limit on their number and on the room
    their data takes. */
module MetadataStore {
  import opened Arithmetic
  import opened Wrappers

  /** Data with the room the library reserves for it (calculate_camera_metadata_entry_data_size). */
  datatype Value = Value(bytes: seq<bv8>, room: nat)

  datatype Entry = Entry(tag: nat, value: Value)

  datatype Store = Store(entries: seq<Entry>, entryCapacity: nat, dataCapacity: nat)

  datatype Status = Ok | InvalidOperation | BadValue | LibraryError

  // ---- The library -----------------------------------------------------------------------------

  function Room(entries: seq<Entry>): nat {
    if entries == [] then 0 else Room(entries[..|entries| - 1]) + entries[|entries| - 1].value.room
  }

  /** find_camera_metadata_entry: the first entry with the tag, or the number of entries. */
  function Find(entries: seq<Entry>, tag: nat): (k: nat)
    ensures k <= |entries|
    ensures k < |entries| ==> entries[k].tag == tag
    ensures forall j :: 0 <= j < k ==> entries[j].tag != tag
  {
    if entries == [] then 0
    else
      var k := Find(entries[..|entries| - 1], tag);
      if k < |entries| - 1 || entries[|entries| - 1].tag == tag then k else |entries|
  }

  function Add(s: Store, e: Entry): (Store, Status) {
    if |s.entries| == s.entryCapacity || Room(s.entries) + e.value.room > s.dataCapacity then (s, LibraryError)
    else (s.(entries := s.entries + [e]), Ok)
  }

  function UpdateAt(s: Store, k: nat, v: Value): (Store, Status)
    requires k < |s.entries|
  {
    var old_ := s.entries[k].value.room;
    if v.room != old_ && s.dataCapacity < Room(s.entries) + v.room - old_ then (s, LibraryError)
    else (s.(entries := s.entries[k := s.entries[k].(value := v)]), Ok)
  }

  function Deleted(entries: seq<Entry>, k: nat): (r: seq<Entry>)
    requires k < |entries|
    ensures |r| == |entries| - 1
    ensures forall i :: 0 <= i < |r| ==> r[i] == entries[if i < k then i else i + 1]
  {
    entries[..k] + entries[k + 1..]
  }

  function DeleteAt(s: Store, k: nat): Store
    requires k < |s.entries|
  {
    s.(entries := Deleted(s.entries, k))
  }

  function AppendTo(s: Store, more: seq<Entry>): (Store, Status) {
    if |s.entries| + |more| > s.entryCapacity || Room(s.entries) + Room(more) > s.dataCapacity then (s, LibraryError)
    else (s.(entries := s.entries + more), Ok)
  }

  ghost predicate Fits(s: Store) {
    |s.entries| <= s.entryCapacity && Room(s.entries) <= s.dataCapacity
  }

  lemma {:induction false} RoomConcat(a: seq<Entry>, b: seq<Entry>)
    ensures Room(a + b) == Room(a) + Room(b)
    decreases |b|
  {
    if b == [] {
      assert a + b == a;
    } else {
      RoomConcat(a, b[..|b| - 1]);
      assert (a + b)[..|a + b| - 1] == a + b[..|b| - 1];
    }
  }

  lemma RoomAt(entries: seq<Entry>, k: nat)
    requires k < |entries|
    ensures Room(entries) == Room(entries[..k]) + entries[k].value.room + Room(entries[k + 1..])
  {
    hide *;
    var before, e, after := entries[..k], [entries[k]], entries[k + 1..];
    RoomOfOne(entries[k]);
    RoomConcat(e, after);
    RoomConcat(before, e + after);
    assert entries == before + (e + after);
  }

  lemma RoomOfOne(e: Entry)
    ensures Room([e]) == e.value.room
  {
    assert [e][..0] == [];
  }

  // ---- The container ---------------------------------------------------------------------------

  function Grown(count: nat, extra: nat, capacity: nat): nat {
    if count + extra > capacity then (count + extra) * 2 else capacity
  }

  /** resizeIfNeeded, when allocation succeeds. */
  function Resize(buffer: Option<Store>, extraEntries: nat, extraData: nat): Store {
    match buffer
    case None => Store([], extraEntries * 2, extraData * 2)
    case Some(s) =>
      s.(entryCapacity := Grown(|s.entries|, extraEntries, s.entryCapacity),
         dataCapacity := Grown(Room(s.entries), extraData, s.dataCapacity))
  }

  /** updateImpl for a known tag. */
  function UpdateImpl(buffer: Option<Store>, tag: nat, v: Value): (Store, Status) {
    var s := Resize(buffer, 1, v.room);
    var k := Find(s.entries, tag);
    if k < |s.entries| then UpdateAt(s, k, v) else Add(s, Entry(tag, v))
  }

  function Erase(buffer: Option<Store>, tag: nat): (Option<Store>, Status) {
    match buffer
    case None => (None, LibraryError)      // the library refuses to search a NULL buffer
    case Some(s) =>
      var k := Find(s.entries, tag);
      if k == |s.entries| then (buffer, Ok) else (Some(DeleteAt(s, k)), Ok)
  }

  function Append(buffer: Option<Store>, other: Store): (Store, Status) {
    AppendTo(Resize(buffer, |other.entries|, Room(other.entries)), other.entries)
  }

  // ---- Runs ------------------------------------------------------------------------------------

  /** known is whether checkType accepts the tag with the type of the data. */
  datatype Op =
    | Update(tag: nat, value: Value, known: bool)
    | EraseTag(tag: nat)
    | AppendOther(other: Store)
    | Lock
    | Unlock(right: bool)      // whether the pointer given back is the right one

  datatype State = State(
    buffer: Option<Store>, locked: bool,
    entryGrowths: nat, dataGrowths: nat, reallocations: nat)

  const EMPTY := State(None, false, 0, 0, 0)

  /** Counts a change of buffer: a reallocation happens when there was a buffer and a capacity
      grew. */
  function Resized(s: State, after: Store): State {
    match s.buffer
    case None => s.(buffer := Some(after))
    case Some(b) =>
      var e, d := after.entryCapacity > b.entryCapacity, after.dataCapacity > b.dataCapacity;
      State(Some(after), s.locked, s.entryGrowths + (if e then 1 else 0), s.dataGrowths + (if d then 1 else 0),
            s.reallocations + (if e || d then 1 else 0))
  }

  function Apply(s: State, op: Op): (State, Status) {
    match op
    case Update(tag, value, known) =>
      if s.locked || !known then (s, InvalidOperation)
      else var (b, status) := UpdateImpl(s.buffer, tag, value); (Resized(s, b), status)
    case EraseTag(tag) =>
      if s.locked then (s, InvalidOperation)
      else var (b, status) := Erase(s.buffer, tag); (s.(buffer := b), status)
    case AppendOther(other) =>
      if s.locked then (s, InvalidOperation)
      else var (b, status) := Append(s.buffer, other); (Resized(s, b), status)
    case Lock => (s.(locked := true), Ok)
    case Unlock(right) =>
      if !s.locked then (s, InvalidOperation) else if !right then (s, BadValue) else (s.(locked := false), Ok)
  }

  function Run(s: State, ops: seq<Op>): State {
    if ops == [] then s else Apply(Run(s, ops[..|ops| - 1]), ops[|ops| - 1]).0
  }

  function Entries(s: State): seq<Entry> {
    if s.buffer.None? then [] else s.buffer.value.entries
  }

  // ---- Space -----------------------------------------------------------------------------------

  ghost predicate Roomy(s: State) {
    && (s.buffer.Some? ==> Fits(s.buffer.value))
    && s.reallocations <= s.entryGrowths + s.dataGrowths
    && (s.buffer.None? ==> s.entryGrowths == s.dataGrowths == 0)
    && (s.buffer.Some? ==> Pow2(s.entryGrowths) <= s.buffer.value.entryCapacity + 1)
    && (s.buffer.Some? ==> Pow2(s.dataGrowths) <= s.buffer.value.dataCapacity + 1)
  }

  /** Growing more than doubles a capacity, and nothing ever shrinks one. */
  lemma ResizeGrows(s: Store, extraEntries: nat, extraData: nat)
    ensures var t := Resize(Some(s), extraEntries, extraData);
            && t.entries == s.entries
            && (t.entryCapacity == s.entryCapacity || t.entryCapacity > 2 * s.entryCapacity)
            && (t.dataCapacity == s.dataCapacity || t.dataCapacity > 2 * s.dataCapacity)
            && |s.entries| + extraEntries <= t.entryCapacity
            && Room(s.entries) + extraData <= t.dataCapacity
            // A capacity that is too small becomes twice what is needed.
            && (|s.entries| + extraEntries > s.entryCapacity ==> t.entryCapacity == 2 * (|s.entries| + extraEntries))
            && (Room(s.entries) + extraData > s.dataCapacity ==> t.dataCapacity == 2 * (Room(s.entries) + extraData))
            && (|s.entries| + extraEntries <= s.entryCapacity ==> t.entryCapacity == s.entryCapacity)
            && (Room(s.entries) + extraData <= s.dataCapacity ==> t.dataCapacity == s.dataCapacity)
    ensures Resize(None, extraEntries, extraData) == Store([], 2 * extraEntries, 2 * extraData)
  {
  }

  lemma ReplaceRoom(entries: seq<Entry>, k: nat, e: Entry)
    requires k < |entries|
    ensures Room(entries[k := e]) == Room(entries) - entries[k].value.room + e.value.room
    ensures entries[k].value.room <= Room(entries)
  {
    RoomAt(entries, k);
    var after := entries[k := e];
    RoomAt(after, k);
    assert after[..k] == entries[..k] && after[k + 1..] == entries[k + 1..];
  }

  lemma AddRoom(entries: seq<Entry>, e: Entry)
    ensures Room(entries + [e]) == Room(entries) + e.value.room
  {
    assert (entries + [e])[..|entries|] == entries;
  }

  /** With room for one more entry, the library's update and add succeed. */
  lemma StoreStep(s: Store, tag: nat, v: Value)
    requires Fits(s) && |s.entries| + 1 <= s.entryCapacity && Room(s.entries) + v.room <= s.dataCapacity
    ensures var k := Find(s.entries, tag);
            && (k < |s.entries| ==>
                  UpdateAt(s, k, v) == (s.(entries := s.entries[k := Entry(tag, v)]), Ok) && Fits(UpdateAt(s, k, v).0))
            && (k == |s.entries| ==>
                  Add(s, Entry(tag, v)) == (s.(entries := s.entries + [Entry(tag, v)]), Ok)
                    && Fits(Add(s, Entry(tag, v)).0))
  {
    var k := Find(s.entries, tag);
    if k < |s.entries| {
      ReplaceRoom(s.entries, k, Entry(tag, v));
    } else {
      AddRoom(s.entries, Entry(tag, v));
    }
  }

  function Before(buffer: Option<Store>): seq<Entry> {
    if buffer.None? then [] else buffer.value.entries
  }

  function Updated(entries: seq<Entry>, tag: nat, v: Value): seq<Entry> {
    var k := Find(entries, tag);
    if k < |entries| then entries[k := Entry(tag, v)] else entries + [Entry(tag, v)]
  }

  /** updateImpl always succeeds: it replaces the first entry with the tag or adds one. */
  lemma UpdateStep(buffer: Option<Store>, tag: nat, v: Value)
    requires buffer.Some? ==> Fits(buffer.value)
    ensures var (t, status) := UpdateImpl(buffer, tag, v);
            && status == Ok && Fits(t)
            && t == Resize(buffer, 1, v.room).(entries := Updated(Before(buffer), tag, v))
  {
    if buffer.Some? { ResizeGrows(buffer.value, 1, v.room); }
    var s := Resize(buffer, 1, v.room);
    assert s.entries == Before(buffer);
    StoreStep(s, tag, v);
  }

  lemma EmptyRoom()
    ensures Room([]) == 0
  {
  }

  lemma AppendStep(buffer: Option<Store>, other: Store)
    ensures var (t, status) := Append(buffer, other);
            && status == Ok && Fits(t)
            && t.entries == (if buffer.None? then other.entries else buffer.value.entries + other.entries)
            && t.entryCapacity == Resize(buffer, |other.entries|, Room(other.entries)).entryCapacity
            && t.dataCapacity == Resize(buffer, |other.entries|, Room(other.entries)).dataCapacity
  {
    hide Resize, Room;
    var s := Resize(buffer, |other.entries|, Room(other.entries));
    ResizeGrows(if buffer.Some? then buffer.value else other, |other.entries|, Room(other.entries));
    RoomConcat(s.entries, other.entries);
    if buffer == None { EmptyRoom(); }
    assert [] + other.entries == other.entries;
  }

  /** erase takes the first entry with the tag out and changes nothing else, neither capacity nor the other
      entries; a missing tag is no error. */
  lemma EraseStep(s: Store, tag: nat, k: nat)
    requires k <= |s.entries| && (k < |s.entries| ==> s.entries[k].tag == tag)
    requires forall j :: 0 <= j < k ==> s.entries[j].tag != tag
    ensures Erase(Some(s), tag) ==
            (Some(if k == |s.entries| then s
                  else Store(s.entries[..k] + s.entries[k + 1..], s.entryCapacity, s.dataCapacity)), Ok)
  {
    FindFirst(s.entries, tag, k);
  }

  lemma DeleteStep(s: Store, k: nat)
    requires k < |s.entries| && Fits(s)
    ensures Fits(DeleteAt(s, k))
  {
    RoomAt(s.entries, k);
    RoomConcat(s.entries[..k], s.entries[k + 1..]);
  }

  lemma ResizedKeeps(s: State, after: Store)
    requires Roomy(s) && Fits(after)
    requires s.buffer.Some? ==>
               && (after.entryCapacity == s.buffer.value.entryCapacity
                   || after.entryCapacity > 2 * s.buffer.value.entryCapacity)
               && (after.dataCapacity == s.buffer.value.dataCapacity
                   || after.dataCapacity > 2 * s.buffer.value.dataCapacity)
    ensures Roomy(Resized(s, after))
  {
  }

  /** No operation ever fails for lack of space: with an unlocked container, updates of known tags
      and appends always succeed. The number of reallocations is logarithmic in the capacities
      reached: 2 to the number of times a capacity grew is at most one more than that capacity. */
  lemma {:induction false} SpaceOverRuns(ops: seq<Op>, op: Op)
    ensures var s := Run(EMPTY, ops);
            && Roomy(s)
            && (!s.locked && ((op.Update? && op.known) || op.AppendOther?) ==> Apply(s, op).1 == Ok)
  {
    if ops != [] {
      SpaceOverRuns(ops[..|ops| - 1], ops[|ops| - 1]);
      RoomyStep(Run(EMPTY, ops[..|ops| - 1]), ops[|ops| - 1]);
    }
    var s := Run(EMPTY, ops);
    match op {
      case Update(tag, v, _) => UpdateStep(s.buffer, tag, v);
      case AppendOther(other) => AppendStep(s.buffer, other);
      case _ =>
    }
  }

  /** The status of every operation in every run. */
  lemma StatusIs(ops: seq<Op>, op: Op)
    ensures var s := Run(EMPTY, ops); var status := Apply(s, op).1;
            && (status == InvalidOperation <==>
                  || (s.locked && (op.Update? || op.EraseTag? || op.AppendOther?))
                  || (op.Update? && !op.known) || (op.Unlock? && !s.locked))
            && (status == BadValue <==> op == Unlock(false) && s.locked)
            && (status == LibraryError <==> op.EraseTag? && !s.locked && s.buffer == None)
  {
    SpaceOverRuns(ops, op);
  }

  lemma RoomyStep(s: State, op: Op)
    requires Roomy(s)
    ensures Roomy(Apply(s, op).0)
  {
    match op {
      case Update(tag, v, known) =>
        UpdateStep(s.buffer, tag, v);
        if s.buffer.Some? { ResizeGrows(s.buffer.value, 1, v.room); }
        if !s.locked && known { ResizedKeeps(s, UpdateImpl(s.buffer, tag, v).0); }
      case EraseTag(tag) =>
        if s.buffer.Some? && Find(s.buffer.value.entries, tag) < |s.buffer.value.entries| {
          DeleteStep(s.buffer.value, Find(s.buffer.value.entries, tag));
        }
      case AppendOther(other) =>
        AppendStep(s.buffer, other);
        if s.buffer.Some? { ResizeGrows(s.buffer.value, |other.entries|, Room(other.entries)); }
        if !s.locked { ResizedKeeps(s, Append(s.buffer, other).0); }
      case _ =>
    }
  }

  // ---- Refining a map --------------------------------------------------------------------------

  /** What find returns: the value of the first entry with the tag. */
  function Lookup(entries: seq<Entry>, tag: nat): Option<Value> {
    var k := Find(entries, tag);
    if k < |entries| then Some(entries[k].value) else None
  }

  function Get(m: map<nat, Value>, tag: nat): Option<Value> {
    if tag in m then Some(m[tag]) else None
  }

  ghost predicate AtMostOnce(entries: seq<Entry>, tag: nat) {
    forall j, k :: 0 <= j < k < |entries| ==> entries[j].tag != tag || entries[k].tag != tag
  }

  ghost predicate Distinct(entries: seq<Entry>) {
    forall j, k :: 0 <= j < k < |entries| ==> entries[j].tag != entries[k].tag
  }

  lemma FindFirst(entries: seq<Entry>, tag: nat, k: nat)
    requires k <= |entries| && (k < |entries| ==> entries[k].tag == tag)
    requires forall j :: 0 <= j < k ==> entries[j].tag != tag
    ensures Find(entries, tag) == k
  {
  }

  lemma LookupUpdated(entries: seq<Entry>, tag: nat, v: Value, other: nat)
    ensures Lookup(Updated(entries, tag, v), other) == if other == tag then Some(v) else Lookup(entries, other)
    ensures Distinct(entries) ==> Distinct(Updated(entries, tag, v))
  {
    var k, j := Find(entries, tag), Find(entries, other);
    var after := Updated(entries, tag, v);
    FindFirst(after, other, if other == tag then k else if j == |entries| then |after| else j);
  }

  lemma LookupAppended(a: seq<Entry>, b: seq<Entry>, tag: nat)
    ensures Lookup(a + b, tag) == if Lookup(a, tag).Some? then Lookup(a, tag) else Lookup(b, tag)
  {
    var i, j := Find(a, tag), Find(b, tag);
    FindFirst(a + b, tag, if i < |a| then i else |a| + j);
  }

  lemma LookupDeletedOther(entries: seq<Entry>, k: nat, other: nat)
    requires k < |entries| && entries[k].tag != other
    ensures Lookup(Deleted(entries, k), other) == Lookup(entries, other)
  {
    var j := Find(entries, other);
    var i := if j < k then j else j - 1;
    forall l | 0 <= l < i ensures Deleted(entries, k)[l].tag != other {
      assert Deleted(entries, k)[l] == entries[if l < k then l else l + 1];
    }
    FindFirst(Deleted(entries, k), other, i);
  }

  /** Deleting the first entry with a tag removes the tag exactly when there was no second one. */
  lemma LookupDeletedTag(entries: seq<Entry>, tag: nat)
    requires Find(entries, tag) < |entries|
    ensures Lookup(Deleted(entries, Find(entries, tag)), tag) == None <==> AtMostOnce(entries, tag)
  {
    var k := Find(entries, tag);
    var after := Deleted(entries, k);
    var again := Find(after, tag);
    if again < |after| {
      assert after[again] == entries[if again < k then again else again + 1];
      assert k <= again;
      assert entries[k].tag == tag && entries[again + 1].tag == tag;
    } else {
      forall i, l | 0 <= i < l < |entries| ensures entries[i].tag != tag || entries[l].tag != tag {
        if l > k { assert after[l - 1] == entries[l]; }
      }
    }
  }

  /** The map the container stands for, and its lock. */
  datatype Plain = Plain(m: map<nat, Value>, locked: bool)

  function Additions(entries: seq<Entry>): map<nat, Value> {
    map e | e in entries :: e.tag := entries[Find(entries, e.tag)].value
  }

  lemma AdditionsAre(entries: seq<Entry>, tag: nat)
    ensures Get(Additions(entries), tag) == Lookup(entries, tag)
  {
    var k := Find(entries, tag);
    if k < |entries| { assert entries[k] in entries; }
  }

  function PlainApply(p: Plain, op: Op): Plain {
    match op
    case Update(tag, value, known) => if p.locked || !known then p else p.(m := p.m[tag := value])
    case EraseTag(tag) => if p.locked then p else p.(m := p.m - {tag})
    case AppendOther(other) => if p.locked then p else p.(m := Additions(other.entries) + p.m)
    case Lock => p.(locked := true)
    case Unlock(right) => if right then p.(locked := false) else p
  }

  function PlainRun(p: Plain, ops: seq<Op>): Plain {
    if ops == [] then p else PlainApply(PlainRun(p, ops[..|ops| - 1]), ops[|ops| - 1])
  }

  ghost predicate Refines(s: State, p: Plain) {
    s.locked == p.locked && forall tag :: Lookup(Entries(s), tag) == Get(p.m, tag)
  }

  /** One operation of the container is one operation of the map, except for erasing a tag that is
      stored more than once: there, it is exactly the map operation that fails. */
  lemma RefinementStep(s: State, p: Plain, op: Op)
    requires Refines(s, p) && Roomy(s)
    ensures Refines(Apply(s, op).0, PlainApply(p, op)) <==>
            (op.EraseTag? && !s.locked ==> AtMostOnce(Entries(s), op.tag))
  {
    hide Roomy, Resize, Additions;
    var t := Apply(s, op).0;
    match op {
      case Update(tag, v, known) =>
        RoomyFits(s);
        UpdateStep(s.buffer, tag, v);
        if !s.locked && known {
          forall other ensures Lookup(Entries(t), other) == Get(p.m[tag := v], other) {
            LookupUpdated(Entries(s), tag, v, other);
          }
        }
      case EraseTag(tag) =>
        if !s.locked {
          EraseRefines(s, p, tag);
        }
      case AppendOther(other) =>
        AppendStep(s.buffer, other);
        if !s.locked {
          assert Entries(t) == Entries(s) + other.entries;
          forall tag ensures Lookup(Entries(t), tag) == Get(Additions(other.entries) + p.m, tag) {
            LookupAppended(Entries(s), other.entries, tag);
            AdditionsAre(other.entries, tag);
          }
        }
      case _ =>
    }
  }

  lemma RoomyFits(s: State)
    requires Roomy(s)
    ensures s.buffer.Some? ==> Fits(s.buffer.value)
  {
  }

  lemma EraseRefines(s: State, p: Plain, tag: nat)
    requires Refines(s, p) && !s.locked
    ensures Refines(Apply(s, EraseTag(tag)).0, PlainApply(p, EraseTag(tag))) <==> AtMostOnce(Entries(s), tag)
  {
    var t, q := Apply(s, EraseTag(tag)).0, PlainApply(p, EraseTag(tag));
    var k := Find(Entries(s), tag);
    assert Get(q.m, tag) == None;
    assert Lookup(Entries(s), tag).Some? <==> k < |Entries(s)|;
    if k < |Entries(s)| {
      assert Entries(t) == Deleted(Entries(s), k);
      forall other | other != tag ensures Lookup(Entries(t), other) == Get(q.m, other) {
        LookupDeletedOther(Entries(s), k, other);
        assert Lookup(Entries(s), other) == Get(p.m, other);
      }
      LookupDeletedTag(Entries(s), tag);
      assert Refines(t, q) <==> Lookup(Entries(t), tag) == None;
    } else {
      assert t == s;
      forall other ensures Lookup(Entries(t), other) == Get(q.m, other) {
        assert Lookup(Entries(s), other) == Get(p.m, other);
      }
    }
  }

  /** Appends bring only tags that are neither repeated nor present: what a caller can see from the
      plain map alone. */
  ghost predicate DisjointAppends(ops: seq<Op>) {
    ops == [] ||
    (var before := ops[..|ops| - 1];
     DisjointAppends(before)
     && var op := ops[|ops| - 1];
        op.AppendOther? && !PlainRun(Plain(map[], false), before).locked ==>
          Distinct(op.other.entries)
          && forall e :: e in op.other.entries ==> e.tag !in PlainRun(Plain(map[], false), before).m)
  }

  /** Through every sequence of updates, erasures, appends and locks, the container is the plain
      map, and no tag is stored twice. */
  lemma {:induction false} RefinementOverRuns(ops: seq<Op>)
    requires DisjointAppends(ops)
    ensures Refines(Run(EMPTY, ops), PlainRun(Plain(map[], false), ops))
    ensures Distinct(Entries(Run(EMPTY, ops)))
  {
    if ops != [] {
      var before, op := ops[..|ops| - 1], ops[|ops| - 1];
      RefinementOverRuns(before);
      SpaceOverRuns(before, Lock);
      RefinementStep(Run(EMPTY, before), PlainRun(Plain(map[], false), before), op);
      DistinctStep(Run(EMPTY, before), PlainRun(Plain(map[], false), before), op);
    }
  }

  lemma DistinctStep(s: State, p: Plain, op: Op)
    requires Refines(s, p) && Roomy(s) && Distinct(Entries(s))
    requires op.AppendOther? && !p.locked ==>
             Distinct(op.other.entries) && forall e :: e in op.other.entries ==> e.tag !in p.m
    ensures Distinct(Entries(Apply(s, op).0))
  {
    match op {
      case Update(tag, v, _) =>
        UpdateStep(s.buffer, tag, v);
        LookupUpdated(Entries(s), tag, v, tag);
      case AppendOther(other) =>
        AppendStep(s.buffer, other);
        hide Roomy, Resize, Room;
        if !s.locked {
          assert Entries(Apply(s, op).0) == Entries(s) + other.entries;
          forall j, k | 0 <= j < |Entries(s)| && 0 <= k < |other.entries|
            ensures Entries(s)[j].tag != other.entries[k].tag
          {
            assert Lookup(Entries(s), Entries(s)[j].tag) == Get(p.m, Entries(s)[j].tag);
            assert other.entries[k] in other.entries;
          }
        }
      case _ =>
    }
  }

  /** Appending metadata that shares a tag, then erasing the tag, uncovers the other value. */
  lemma SharedTagResurfaces(tag: nat, v: Value, w: Value)
    ensures var updated := Apply(EMPTY, Update(tag, v, true)).0;
            var appended := Apply(updated, AppendOther(Store([Entry(tag, w)], 1, w.room))).0;
            Lookup(Entries(Apply(appended, EraseTag(tag)).0), tag) == Some(w)
  {
    var updated := Apply(EMPTY, Update(tag, v, true)).0;
    var appended := Apply(updated, AppendOther(Store([Entry(tag, w)], 1, w.room))).0;
    UpdateStep(None, tag, v);
    AppendStep(updated.buffer, Store([Entry(tag, w)], 1, w.room));
    assert Entries(appended) == [Entry(tag, v), Entry(tag, w)];
    FindFirst(Entries(appended), tag, 0);
    assert Deleted(Entries(appended), 0) == [Entry(tag, w)];
    FindFirst([Entry(tag, w)], tag, 0);
  }

  /** While the container is locked nothing changes, whatever is called, until the right pointer is
      handed back. */
  lemma {:induction false} LockedIsFrozen(s: State, ops: seq<Op>)
    requires s.locked && forall k :: 0 <= k < |ops| ==> ops[k] != Unlock(true)
    ensures Run(s, ops) == s
  {
    if ops != [] { LockedIsFrozen(s, ops[..|ops| - 1]); }
  }
}
