/** The CameraMetadata object (camera/CameraMetadata.cpp, include/camera/CameraMetadata.h): a
    pointer to a metadata buffer and a lock that guards the pointer handed out. */
module MetadataObject {
  import opened Wrappers
  import opened MetadataStore

  /** camera_metadata_t. */
  class Buffer {
    var store: Store

    constructor (entryCapacity: nat, dataCapacity: nat)
      ensures store == Store([], entryCapacity, dataCapacity)
    {
      store := Store([], entryCapacity, dataCapacity);
    }
  }

  class CameraMetadata {
    var buffer: Buffer?
    var locked: bool
    ghost var state: State

    function View(): Option<Store>
      reads this, buffer
    {
      if buffer == null then None else Some(buffer.store)
    }

    ghost predicate Valid()
      reads this, buffer
    {
      Roomy(state) && state.buffer == View() && state.locked == locked
    }

    constructor ()
      ensures Valid() && state == EMPTY && buffer == null
    {
      buffer, locked, state := null, false, EMPTY;
    }

    /** resizeIfNeeded: a larger buffer, holding the same entries, replaces the present one. */
    method ResizeIfNeeded(extraEntries: nat, extraData: nat)
      requires View().Some? ==> Fits(View().value)
      modifies this`buffer
      ensures View() == Some(Resize(old(View()), extraEntries, extraData))
      ensures buffer == old(buffer) || fresh(buffer)
    {
      if buffer == null {
        buffer := new Buffer(extraEntries * 2, extraData * 2);
      } else {
        var s := buffer.store;
        var newEntryCount := |s.entries| + extraEntries;
        newEntryCount := if newEntryCount > s.entryCapacity then newEntryCount * 2 else s.entryCapacity;
        var newDataCount := Room(s.entries) + extraData;
        newDataCount := if newDataCount > s.dataCapacity then newDataCount * 2 else s.dataCapacity;
        if newEntryCount > s.entryCapacity || newDataCount > s.dataCapacity {
          var oldBuffer := buffer;
          buffer := new Buffer(newEntryCount, newDataCount);
          var r := AppendTo(buffer.store, oldBuffer.store.entries);
          assert [] + oldBuffer.store.entries == oldBuffer.store.entries;
          buffer.store := r.0;
        }
      }
    }

    /** update, for all types of data; known is the outcome of checkType. */
    method Update(tag: nat, v: Value, known: bool) returns (status: Status)
      requires Valid()
      modifies this, buffer
      ensures Valid() && (state, status) == Apply(old(state), Op.Update(tag, v, known))
      ensures buffer == old(buffer) || fresh(buffer)
    {
      RoomyStep(state, Op.Update(tag, v, known));
      if locked || !known { return InvalidOperation; }
      ghost var before := state;
      UpdateStep(View(), tag, v);
      ResizeIfNeeded(1, v.room);
      var k := Find(buffer.store.entries, tag);
      var r := if k == |buffer.store.entries| then Add(buffer.store, Entry(tag, v)) else UpdateAt(buffer.store, k, v);
      buffer.store := r.0;
      status := r.1;
      state := Apply(before, Op.Update(tag, v, known)).0;
    }

    method EraseTag(tag: nat) returns (status: Status)
      requires Valid()
      modifies this`state, buffer
      ensures Valid() && (state, status) == Apply(old(state), Op.EraseTag(tag))
    {
      RoomyStep(state, Op.EraseTag(tag));
      if locked { return InvalidOperation; }
      state := Apply(state, Op.EraseTag(tag)).0;
      if buffer == null { return LibraryError; }
      var k := Find(buffer.store.entries, tag);
      if k < |buffer.store.entries| {
        buffer.store := DeleteAt(buffer.store, k);
      }
      status := Ok;
    }

    /** append. A buffer can be appended to itself as long as no larger one has to replace it: the
        source would read the buffer it has just freed. */
    method Append(other: Buffer) returns (status: Status)
      requires Valid()
      requires other == buffer && !locked ==>
                 Resize(View(), |other.store.entries|, Room(other.store.entries)) == other.store
      modifies this, buffer
      ensures Valid() && (state, status) == Apply(old(state), AppendOther(old(other.store)))
      ensures buffer == old(buffer) || fresh(buffer)
    {
      ghost var appended := other.store;
      RoomyStep(state, AppendOther(appended));
      if locked { return InvalidOperation; }
      ghost var before := state;
      ResizeIfNeeded(|other.store.entries|, Room(other.store.entries));
      var r := AppendTo(buffer.store, other.store.entries);
      buffer.store := r.0;
      status := r.1;
      state := Apply(before, AppendOther(appended)).0;
    }

    method GetAndLock() returns (b: Buffer?)
      requires Valid()
      modifies this`locked, this`state
      ensures Valid() && b == buffer && state == Apply(old(state), Lock).0
    {
      locked, state := true, Apply(state, Lock).0;
      b := buffer;
    }

    method Unlock(b: Buffer?) returns (status: Status)
      requires Valid()
      modifies this`locked, this`state
      ensures Valid() && (state, status) == Apply(old(state), Op.Unlock(b == buffer))
    {
      if !locked { return InvalidOperation; }
      if b != buffer { return BadValue; }
      locked, state := false, Apply(state, Op.Unlock(true)).0;
      status := Ok;
    }

    /** Hands the buffer to the caller, unless locked. */
    method Release() returns (b: Buffer?)
      requires Valid()
      modifies this`buffer, this`state
      ensures Valid() && locked == old(locked)
      ensures if locked then b == null && buffer == old(buffer) && state == old(state)
              else b == old(buffer) && buffer == null
    {
      if locked { return null; }
      b := buffer;
      buffer := null;
      state := EMPTY;
    }

    /** Takes over a buffer, giving up its own, unless locked. */
    method Acquire(b: Buffer?)
      requires Valid() && (b != null ==> Fits(b.store))
      modifies this`buffer, this`state
      ensures Valid() && locked == old(locked)
      ensures buffer == if locked then old(buffer) else b
    {
      if locked { return; }
      buffer := b;
      state := State(View(), false, 0, 0, 0);
    }

    /** acquire(CameraMetadata&). The buffer moves over exactly when neither object is locked. A
        locked source keeps its buffer, but the target still gives its own up. */
    method AcquireFrom(other: CameraMetadata)
      requires Valid() && other.Valid() && (other != this && buffer != null ==> buffer != other.buffer)
      modifies this`buffer, this`state, other`buffer, other`state
      ensures Valid() && other.Valid() && locked == old(locked) && other.locked == old(other.locked)
      ensures buffer == if locked then old(buffer) else if other.locked then null else old(other.buffer)
      ensures other != this ==> other.buffer == if locked || other.locked then old(other.buffer) else null
    {
      if locked { return; }
      var b := other.Release();
      Acquire(b);
    }

    /** swap: both buffers change places, or nothing happens if either object is locked. */
    method Swap(other: CameraMetadata)
      requires Valid() && other.Valid()
      modifies this`buffer, this`state, other`buffer, other`state
      ensures Valid() && other.Valid()
      ensures if locked || other.locked
              then buffer == old(buffer) && other.buffer == old(other.buffer)
              else
                && buffer == old(other.buffer) && other.buffer == old(buffer)
                && state == old(other.state) && other.state == old(state)
    {
      if locked || other.locked { return; }
      buffer, other.buffer := other.buffer, buffer;
      state, other.state := other.state, state;
    }
  }
}
