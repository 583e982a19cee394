/** camera/VendorTagDescriptor.cpp: four maps over vendor tags, a sorted table of section names and
    a reverse index, built either from the camera module's operations or from a parcel. */
module VendorTags {
  import opened Wrappers
  import opened Sequences
  import opened SortedVectors

  datatype Status = BadValue | NotEnoughData | CapacityNotPositive | SectionOutOfRange

  datatype Result<+T> = Success(value: T) | Failure(error: Status)

  // From the system headers: CAMERA_METADATA_VENDOR_TAG_BOUNDARY and NUM_TYPES.
  const VENDOR_TAG_BOUNDARY := 0x8000_0000
  const NUM_TYPES := 6

  /** What vendor_tag_ops_t reports. A tag without an entry has a NULL name or section, or the
      invalid type -1. */
  datatype Ops = Ops(count: int, tags: seq<nat>, names: map<nat, string>, sections: map<nat, string>,
                     types: map<nat, int>)

  datatype Descriptor = Descriptor(
    tagCount: nat,                        // mTagCount
    tags: seq<nat>,                       // the keys of the three maps, ascending
    names: map<nat, string>,              // mTagToNameMap
    types: map<nat, nat>,                 // mTagToTypeMap
    sectionOf: map<nat, nat>,             // mTagToSectionMap, indices into sections
    sections: seq<string>,                // mSections
    reverse: map<string, map<string, nat>>)   // mReverseMapping

  // ---- The reverse index ---------------------------------------------------------------------

  function Put(reverse: map<string, map<string, nat>>, section: string, name: string,
               tag: nat): map<string, map<string, nat>> {
    reverse[section := (if section in reverse then reverse[section] else map[])[name := tag]]
  }

  function Lookup(reverse: map<string, map<string, nat>>, name: string, section: string): Option<nat> {
    if section in reverse && name in reverse[section] then Some(reverse[section][name]) else None
  }

  ghost predicate Covers(names: map<nat, string>, sections: map<nat, string>, tags: seq<nat>) {
    forall t: nat :: t in tags ==> t in names && t in sections
  }

  /** The index built by going through the tags in the given order. */
  function BuildReverse(tags: seq<nat>, names: map<nat, string>,
                        sections: map<nat, string>): map<string, map<string, nat>>
    requires Covers(names, sections, tags)
  {
    if tags == [] then map[]
    else
      var t := tags[|tags| - 1];
      Put(BuildReverse(tags[..|tags| - 1], names, sections), sections[t], names[t], t)
  }

  /** The last tag in the given order that has this name and section. */
  function LastWith(tags: seq<nat>, names: map<nat, string>, sections: map<nat, string>, name: string,
                    section: string): Option<nat>
    requires Covers(names, sections, tags)
  {
    if tags == [] then None
    else
      var t := tags[|tags| - 1];
      if names[t] == name && sections[t] == section then Some(t)
      else LastWith(tags[..|tags| - 1], names, sections, name, section)
  }

  ghost predicate NoEmptyRows(reverse: map<string, map<string, nat>>) {
    forall s :: s in reverse ==> exists n :: n in reverse[s]
  }

  lemma {:induction false} ReverseFindsLast(tags: seq<nat>, names: map<nat, string>, sections: map<nat, string>)
    requires Covers(names, sections, tags)
    ensures forall n, s :: Lookup(BuildReverse(tags, names, sections), n, s) == LastWith(tags, names, sections, n, s)
    ensures NoEmptyRows(BuildReverse(tags, names, sections))
  {
    if tags != [] {
      ReverseFindsLast(tags[..|tags| - 1], names, sections);
      var t := tags[|tags| - 1];
      var before := BuildReverse(tags[..|tags| - 1], names, sections);
      var after := Put(before, sections[t], names[t], t);
      assert names[t] in after[sections[t]];
      forall n, s
        ensures Lookup(after, n, s) == (if names[t] == n && sections[t] == s then Some(t) else Lookup(before, n, s))
      {
      }
    }
  }

  lemma {:induction false} LastWithCorrect(tags: seq<nat>, names: map<nat, string>, sections: map<nat, string>,
                                           name: string, section: string)
    requires Covers(names, sections, tags)
    ensures var r := LastWith(tags, names, sections, name, section);
            && (r.Some? ==> r.value in tags && names[r.value] == name && sections[r.value] == section)
            && (r.None? ==> forall t: nat :: t in tags ==> names[t] != name || sections[t] != section)
  {
    if tags != [] {
      var before := tags[..|tags| - 1];
      LastWithCorrect(before, names, sections, name, section);
      assert forall t: nat :: t in tags <==> t in before || t == tags[|tags| - 1];
    }
  }

  /** Among ascending tags the last one is the largest. */
  lemma {:induction false} LastIsLargest(tags: seq<nat>, names: map<nat, string>, sections: map<nat, string>, t: nat)
    requires Covers(names, sections, tags) && Sorted(TagLess, tags) && t in tags
    ensures var r := LastWith(tags, names, sections, names[t], sections[t]); r.Some? && t <= r.value
  {
    var n := |tags|;
    LastWithCorrect(tags, names, sections, names[t], sections[t]);
    assert forall u :: u in tags ==> u == tags[n - 1] || TagLess(u, tags[n - 1]);
    if t != tags[n - 1] {
      assert tags == tags[..n - 1] + [tags[n - 1]];
      LastIsLargest(tags[..n - 1], names, sections, t);
    }
  }

  lemma LookupDetermines(a: map<string, map<string, nat>>, b: map<string, map<string, nat>>)
    requires NoEmptyRows(a) && NoEmptyRows(b)
    requires forall n, s :: Lookup(a, n, s) == Lookup(b, n, s)
    ensures a == b
  {
    RowsIncluded(a, b);
    RowsIncluded(b, a);
    forall s | s in a ensures a[s] == b[s] {
      assert forall n :: n in a[s] <==> Lookup(a, n, s).Some?;
      assert forall n :: n in b[s] <==> Lookup(b, n, s).Some?;
      assert forall n :: n in a[s] ==> Lookup(a, n, s) == Some(a[s][n]);
      assert forall n :: n in b[s] ==> Lookup(b, n, s) == Some(b[s][n]);
      assert a[s].Keys == b[s].Keys;
    }
  }

  lemma RowsIncluded(a: map<string, map<string, nat>>, b: map<string, map<string, nat>>)
    requires NoEmptyRows(a)
    requires forall n, s :: Lookup(a, n, s) == Lookup(b, n, s)
    ensures forall s :: s in a ==> s in b
  {
    forall s | s in a ensures s in b {
      var n :| n in a[s];
      assert Lookup(a, n, s).Some?;
    }
  }

  // ---- From the module's operations ------------------------------------------------------------

  predicate ValidTag(ops: Ops, t: nat) {
    && VENDOR_TAG_BOUNDARY <= t
    && t in ops.names && t in ops.sections
    && t in ops.types && 0 <= ops.types[t] < NUM_TYPES
  }

  /** get_all_tags fills an array of get_tag_count elements of type uint32_t. */
  ghost predicate WellFormed(ops: Ops) {
    && ops.count < 0x8000_0000
    && |ops.tags| == (if 0 <= ops.count then ops.count else 0)
    && (forall i :: 0 <= i < |ops.tags| ==> ops.tags[i] < 0x1_0000_0000)
  }

  /** The section name a descriptor reports for a tag. */
  function SectionName(d: Descriptor, t: nat): Option<string> {
    if t in d.sectionOf && d.sectionOf[t] < |d.sections| then Some(d.sections[d.sectionOf[t]]) else None
  }

  ghost predicate UsedSection(ops: Ops, tags: seq<nat>, section: string) {
    exists t: nat :: t in tags && t in ops.sections && ops.sections[t] == section
  }

  /** The part of a descriptor that the first loop fills. */
  datatype Tables = Tables(tags: seq<nat>, names: map<nat, string>, types: map<nat, nat>, sections: seq<string>)

  ghost predicate TabulatesMaps(tables: Tables, ops: Ops, tags: seq<nat>) {
    && (forall t: nat :: t in tags ==> ValidTag(ops, t))
    && (forall t: nat :: t in tables.names <==> t in tags)
    && (forall t: nat :: t in tables.types <==> t in tags)
    && (forall t: nat :: t in tags ==> tables.names[t] == ops.names[t] && tables.types[t] == ops.types[t])
    && Sorted(TagLess, tables.tags) && (forall t: nat :: t in tables.tags <==> t in tags)
  }

  ghost predicate TabulatesSections(tables: Tables, ops: Ops, tags: seq<nat>) {
    Sorted(StringLess, tables.sections) && (forall s :: s in tables.sections <==> UsedSection(ops, tags, s))
  }

  /** The tables for these tags. */
  ghost predicate Tabulates(tables: Tables, ops: Ops, tags: seq<nat>) {
    TabulatesMaps(tables, ops, tags) && TabulatesSections(tables, ops, tags)
  }

  /** What a descriptor built from operations holds. */
  ghost predicate Describes(d: Descriptor, ops: Ops) {
    && d.tagCount == |ops.tags|
    && Tabulates(Tables(d.tags, d.names, d.types, d.sections), ops, ops.tags)
    && Covers(ops.names, ops.sections, ops.tags)
    && (forall t: nat :: t in d.sectionOf <==> t in ops.tags)
    && (forall t: nat :: t in ops.tags ==> SectionName(d, t) == Some(ops.sections[t]))
    && d.reverse == BuildReverse(ops.tags, ops.names, ops.sections)
  }

  method IndexOf(sections: seq<string>, s: string) returns (index: int)
    ensures s in sections ==> 0 <= index < |sections| && sections[index] == s
    ensures s !in sections ==> index == -1
  {
    for i := 0 to |sections|
      invariant s !in sections[..i]
    {
      if sections[i] == s { return i; }
    }
    index := -1;
  }

  /** One pass through the first loop, for a valid tag. */
  function AddTag(tables: Tables, ops: Ops, tag: nat): Tables
    requires ValidTag(ops, tag)
  {
    Tables(Insert(TagLess, tables.tags, tag), tables.names[tag := ops.names[tag]], tables.types[tag := ops.types[tag]],
           Insert(StringLess, tables.sections, ops.sections[tag]))
  }

  lemma AddTagMaps(tables: Tables, ops: Ops, tags: seq<nat>, tag: nat)
    requires TabulatesMaps(tables, ops, tags) && ValidTag(ops, tag)
    ensures TabulatesMaps(AddTag(tables, ops, tag), ops, tags + [tag])
  {
    OrdersAreStrict();
    InsertSorted(TagLess, tables.tags, tag);
    InsertElements(TagLess, tables.tags, tag);
    assert forall t: nat :: t in tags + [tag] <==> t in tags || t == tag;
  }

  lemma AddTagSections(tables: Tables, ops: Ops, tags: seq<nat>, tag: nat)
    requires TabulatesSections(tables, ops, tags) && ValidTag(ops, tag)
    ensures TabulatesSections(AddTag(tables, ops, tag), ops, tags + [tag])
  {
    OrdersAreStrict();
    InsertSorted(StringLess, tables.sections, ops.sections[tag]);
    InsertElements(StringLess, tables.sections, ops.sections[tag]);
    forall s ensures UsedSection(ops, tags + [tag], s) <==> UsedSection(ops, tags, s) || s == ops.sections[tag] {
      if UsedSection(ops, tags, s) {
        var t: nat :| t in tags && t in ops.sections && ops.sections[t] == s;
        assert t in tags + [tag];
      }
      if s == ops.sections[tag] { assert tag in tags + [tag]; }
    }
  }

  lemma AddTagTabulates(tables: Tables, ops: Ops, tags: seq<nat>, tag: nat)
    requires Tabulates(tables, ops, tags) && ValidTag(ops, tag)
    ensures Tabulates(AddTag(tables, ops, tag), ops, tags + [tag])
  {
    hide TabulatesMaps, TabulatesSections;
    AddTagMaps(tables, ops, tags, tag);
    AddTagSections(tables, ops, tags, tag);
  }

  lemma TabulatesNothing(ops: Ops)
    ensures Tabulates(Tables([], map[], map[], []), ops, ops.tags[..0])
  {
  }

  lemma TabulatesValid(tables: Tables, ops: Ops, tags: seq<nat>)
    requires Tabulates(tables, ops, tags)
    ensures forall t: nat :: t in tags ==> ValidTag(ops, t)
  {
  }

  /** The first loop of createDescriptorFromOps. */
  method Tabulate(ops: Ops) returns (r: Result<Tables>)
    ensures r == Failure(BadValue) || r.Success?
    ensures r.Success? <==> forall t: nat :: t in ops.tags ==> ValidTag(ops, t)
    ensures r.Success? ==> Tabulates(r.value, ops, ops.tags)
  {
    hide Tabulates, AddTag;
    var tables := Tables([], map[], map[], []);
    TabulatesNothing(ops);
    var i := 0;
    while i < |ops.tags|
      invariant i <= |ops.tags| && Tabulates(tables, ops, ops.tags[..i])
    {
      var tag := ops.tags[i];
      if tag < VENDOR_TAG_BOUNDARY || tag !in ops.names || tag !in ops.sections
         || tag !in ops.types || ops.types[tag] < 0 || ops.types[tag] >= NUM_TYPES {
        assert tag in ops.tags && !ValidTag(ops, tag);
        return Failure(BadValue);
      }
      AddTagTabulates(tables, ops, ops.tags[..i], tag);
      assert ops.tags[..i + 1] == ops.tags[..i] + [tag];
      tables := AddTag(tables, ops, tag);
      i := i + 1;
    }
    assert ops.tags[..i] == ops.tags;
    TabulatesValid(tables, ops, ops.tags);
    r := Success(tables);
  }

  lemma TabulatesCovers(tables: Tables, ops: Ops)
    requires Tabulates(tables, ops, ops.tags)
    ensures Covers(ops.names, ops.sections, ops.tags)
    ensures forall t: nat :: t in ops.tags ==> ops.sections[t] in tables.sections
  {
    forall t: nat | t in ops.tags ensures t in ops.names && t in ops.sections && ops.sections[t] in tables.sections {
      assert ValidTag(ops, t);
      assert UsedSection(ops, ops.tags, ops.sections[t]);
    }
  }

  function Assemble(tables: Tables, count: nat, sectionOf: map<nat, nat>,
                    reverse: map<string, map<string, nat>>): Descriptor {
    Descriptor(count, tables.tags, tables.names, tables.types, sectionOf, tables.sections, reverse)
  }

  lemma Assembled(tables: Tables, ops: Ops, sectionOf: map<nat, nat>, reverse: map<string, map<string, nat>>)
    requires Tabulates(tables, ops, ops.tags) && Covers(ops.names, ops.sections, ops.tags)
    requires forall t: nat :: t in sectionOf <==> t in ops.tags
    requires forall t: nat :: t in ops.tags ==>
             sectionOf[t] < |tables.sections| && tables.sections[sectionOf[t]] == ops.sections[t]
    requires reverse == BuildReverse(ops.tags, ops.names, ops.sections)
    ensures Describes(Assemble(tables, |ops.tags|, sectionOf, reverse), ops)
  {
  }

  /** createDescriptorFromOps. It fails exactly when there are no operations, the count is
      negative, or some tag is invalid. */
  method CreateFromOps(vendorOps: Option<Ops>) returns (r: Result<Descriptor>)
    requires vendorOps.Some? ==> WellFormed(vendorOps.value)
    ensures r == Failure(BadValue) || r.Success?
    ensures r.Success? <==>
            && vendorOps.Some? && 0 <= vendorOps.value.count
            && forall t: nat :: t in vendorOps.value.tags ==> ValidTag(vendorOps.value, t)
    ensures r.Success? ==> Describes(r.value, vendorOps.value)
  {
    if vendorOps.None? { return Failure(BadValue); }
    var ops := vendorOps.value;
    if ops.count < 0 { return Failure(BadValue); }
    var tabulated := Tabulate(ops);
    if tabulated.Failure? { return Failure(BadValue); }
    var t := tabulated.value;
    TabulatesCovers(t, ops);
    var sectionOf, reverse := BuildIndices(ops, t.sections);
    Assembled(t, ops, sectionOf, reverse);
    r := Success(Assemble(t, ops.count, sectionOf, reverse));
  }

  /** The second loop: section indices, taken from the finished table, and the reverse index. */
  method BuildIndices(ops: Ops, sections: seq<string>)
    returns (sectionOf: map<nat, nat>, reverse: map<string, map<string, nat>>)
    requires Covers(ops.names, ops.sections, ops.tags)
    requires forall t: nat :: t in ops.tags ==> ops.sections[t] in sections
    ensures forall t: nat :: t in sectionOf <==> t in ops.tags
    ensures forall t: nat :: t in ops.tags ==> sectionOf[t] < |sections| && sections[sectionOf[t]] == ops.sections[t]
    ensures reverse == BuildReverse(ops.tags, ops.names, ops.sections)
  {
    sectionOf, reverse := map[], map[];
    var i := 0;
    while i < |ops.tags|
      invariant i <= |ops.tags|
      invariant forall t: nat :: t in sectionOf <==> t in ops.tags[..i]
      invariant forall t: nat :: t in sectionOf ==>
                sectionOf[t] < |sections| && sections[sectionOf[t]] == ops.sections[t]
      invariant reverse == BuildReverse(ops.tags[..i], ops.names, ops.sections)
    {
      var tag := ops.tags[i];
      assert tag in ops.tags;
      assert ops.tags[..i + 1] == ops.tags[..i] + [tag];
      assert ops.tags[..i + 1][..i] == ops.tags[..i];
      var index := IndexOf(sections, ops.sections[tag]);
      sectionOf := sectionOf[tag := index];
      reverse := Put(reverse, ops.sections[tag], ops.names[tag], tag);
      i := i + 1;
    }
    assert ops.tags[..i] == ops.tags;
  }

  // ---- The getters -----------------------------------------------------------------------------

  // From the system headers: VENDOR_TAG_COUNT_ERR and VENDOR_TAG_TYPE_ERR.
  const TAG_COUNT_ERR := -1
  const TAG_TYPE_ERR := -1

  function GetTagCount(d: Descriptor): int { if |d.tags| == 0 then TAG_COUNT_ERR else |d.tags| }

  function GetTagName(d: Descriptor, t: nat): Option<string> { if t in d.names then Some(d.names[t]) else None }

  function GetTagType(d: Descriptor, t: nat): int { if t in d.names && t in d.types then d.types[t] else TAG_TYPE_ERR }

  method GetTagArray(d: Descriptor, tagArray: array<nat>)
    requires |d.tags| <= tagArray.Length
    modifies tagArray
    ensures tagArray[..] == d.tags + old(tagArray[|d.tags|..])
  {
    for i := 0 to |d.tags|
      invariant tagArray[..i] == d.tags[..i] && tagArray[i..] == old(tagArray[i..])
    {
      tagArray[i] := d.tags[i];
    }
    assert tagArray[..] == tagArray[..|d.tags|] + tagArray[|d.tags|..];
  }

  /** The getters report what the operations reported for exactly the tags they listed, and the array
      holds each of those tags once, in ascending order. A tag listed twice counts once here. */
  lemma GettersAgree(d: Descriptor, ops: Ops, t: nat)
    requires Describes(d, ops)
    ensures t in ops.tags ==> GetTagName(d, t) == Some(ops.names[t]) && GetTagType(d, t) == ops.types[t]
                              && SectionName(d, t) == Some(ops.sections[t])
    ensures t !in ops.tags ==> GetTagName(d, t) == None && GetTagType(d, t) == TAG_TYPE_ERR && SectionName(d, t) == None
    ensures GetTagCount(d) == if ops.tags == [] then TAG_COUNT_ERR else |Elements(ops.tags)|
    ensures Sorted(TagLess, d.tags) && forall u: nat :: u in d.tags <==> u in ops.tags
  {
    if t in ops.tags { assert ValidTag(ops, t); }
    OrdersAreStrict();
    SortedSize(TagLess, d.tags);
    assert Elements(ops.tags) == Elements(d.tags);
    if ops.tags != [] { assert ops.tags[0] in d.tags; }
    if d.tags != [] { assert d.tags[0] in ops.tags; }
  }

  /** lookupTag. */
  function LookupTag(d: Descriptor, name: string, section: string): Result<nat> {
    match Lookup(d.reverse, name, section)
    case None => Failure(BadValue)
    case Some(t) => Success(t)
  }

  /** The reverse index agrees with the forward maps: what it finds has that name and section,
      every tag's name and section are found, and the tag found is the one listed last with them,
      so a tag whose name and section are its own is found itself. */
  lemma LookupAgrees(d: Descriptor, ops: Ops, name: string, section: string)
    requires Describes(d, ops)
    ensures var r := LookupTag(d, name, section);
            && (r.Success? ==>
                  && r.value in d.names && d.names[r.value] == name && SectionName(d, r.value) == Some(section)
                  && Some(r.value) == LastWith(ops.tags, ops.names, ops.sections, name, section))
            && (r.Failure? ==> forall t: nat :: t in d.names && d.names[t] == name ==>
               SectionName(d, t) != Some(section))
  {
    ReverseFindsLast(ops.tags, ops.names, ops.sections);
    LastWithCorrect(ops.tags, ops.names, ops.sections, name, section);
  }

  lemma LookupOwnName(d: Descriptor, ops: Ops, t: nat)
    requires Describes(d, ops) && t in ops.tags
    requires forall u :: u in ops.tags && u != t ==> ops.names[u] != ops.names[t] || ops.sections[u] != ops.sections[t]
    ensures LookupTag(d, ops.names[t], ops.sections[t]) == Success(t)
  {
    LookupAgrees(d, ops, ops.names[t], ops.sections[t]);
  }
}
