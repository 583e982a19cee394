/** The parcel form of a vendor tag descriptor (camera/VendorTagDescriptor.cpp): what writing one
    and reading it back preserves. */
module VendorTagParcel {
  import opened Wrappers
  import opened Sequences
  import opened SortedVectors
  import opened VendorTags

  /** A parcel is read item by item; reading an item of the other kind fails. Integers are the 32
      bits written, read back as signed or unsigned. */
  datatype Item = Int32(bits: nat) | Text(s: string)

  const UINT32_RANGE := 0x1_0000_0000

  // ---- Writing ---------------------------------------------------------------------------------

  ghost predicate Complete(d: Descriptor, tags: seq<nat>) {
    forall t: nat :: t in tags ==> t in d.names && t in d.types && t in d.sectionOf
  }

  function Entry(d: Descriptor, t: nat): seq<Item>
    requires t in d.names && t in d.types && t in d.sectionOf
  {
    [Int32(t), Int32(d.types[t]), Text(d.names[t]), Int32(d.sectionOf[t])]
  }

  function Entries(d: Descriptor, tags: seq<nat>): seq<Item>
    requires Complete(d, tags)
  {
    if tags == [] then [] else Entries(d, tags[..|tags| - 1]) + Entry(d, tags[|tags| - 1])
  }

  function Texts(names: seq<string>): seq<Item> {
    seq(|names|, i requires 0 <= i < |names| => Text(names[i]))
  }

  function SectionItems(d: Descriptor): seq<Item> {
    if d.sections == [] then [] else [Int32(|d.sections|)] + Texts(d.sections)
  }

  function Parcel(d: Descriptor): seq<Item>
    requires Complete(d, d.tags)
  {
    [Int32(d.tagCount)] + Entries(d, d.tags) + SectionItems(d)
  }

  /** writeToParcel. */
  method WriteToParcel(d: Descriptor) returns (parcel: seq<Item>)
    requires Complete(d, d.tags)
    ensures parcel == Parcel(d)
  {
    parcel := [Int32(d.tagCount)];
    for i := 0 to |d.tags|
      invariant parcel == [Int32(d.tagCount)] + Entries(d, d.tags[..i])
    {
      assert d.tags[..i + 1][..i] == d.tags[..i];
      assert d.tags[i] in d.tags;
      parcel := parcel + Entry(d, d.tags[i]);
    }
    assert d.tags[..|d.tags|] == d.tags;
    var table := WriteSections(d.sections);
    parcel := parcel + table;
  }

  /** The section table, left out when it is empty. */
  method WriteSections(sections: seq<string>) returns (items: seq<Item>)
    ensures items == if sections == [] then [] else [Int32(|sections|)] + Texts(sections)
  {
    items := [];
    if |sections| > 0 {
      items := [Int32(|sections|)];
      for i := 0 to |sections|
        invariant items == [Int32(|sections|)] + Texts(sections[..i])
      {
        assert Texts(sections[..i + 1]) == Texts(sections[..i]) + [Text(sections[i])];
        items := items + [Text(sections[i])];
      }
      assert sections[..|sections|] == sections;
    }
  }

  // ---- Reading ---------------------------------------------------------------------------------

  /** What the first loop of the reader has collected. */
  datatype Collected = Collected(
    order: seq<nat>, tags: seq<nat>, names: map<nat, string>, types: map<nat, nat>, sectionOf: map<nat, nat>,
    maxSection: nat)

  const NOTHING := Collected([], [], map[], map[], map[], 0)

  function Collect(c: Collected, tag: nat, tagType: nat, name: string, section: nat): Collected {
    Collected(c.order + [tag], Insert(TagLess, c.tags, tag), c.names[tag := name], c.types[tag := tagType],
              c.sectionOf[tag := section], if c.maxSection >= section then c.maxSection else section)
  }

  predicate HasInt32(items: seq<Item>, k: nat) { k < |items| && items[k].Int32? }

  /** One pass of the first loop, which consumes four items. */
  function ReadTag(items: seq<Item>, c: Collected): (r: Result<Collected>)
    ensures r.Success? ==> |items| >= 4
  {
    if !HasInt32(items, 0) then Failure(NotEnoughData)
    else if items[0].bits < VENDOR_TAG_BOUNDARY then Failure(BadValue)
    else if !HasInt32(items, 1) then Failure(NotEnoughData)
    else if items[1].bits >= NUM_TYPES then Failure(BadValue)
    else if |items| < 3 || !items[2].Text? || items[2].s == "" then Failure(NotEnoughData)
    else if !HasInt32(items, 3) then Failure(NotEnoughData)
    else Success(Collect(c, items[0].bits, items[1].bits, items[2].s, items[3].bits))
  }

  /** n passes; the second component is what is left of the parcel. */
  function ReadTags(items: seq<Item>, n: nat, c: Collected): Result<(Collected, seq<Item>)> {
    if n == 0 then Success((c, items))
    else
      match ReadTag(items, c)
      case Failure(e) => Failure(e)
      case Success(next) => ReadTags(items[4..], n - 1, next)
  }

  function ReadSections(items: seq<Item>, n: nat, sections: seq<string>): Result<seq<string>> {
    if n == 0 then Success(sections)
    else if items == [] || !items[0].Text? || items[0].s == "" then Failure(NotEnoughData)
    else ReadSections(items[1..], n - 1, Insert(StringLess, sections, items[0].s))
  }

  function ReadSectionTable(items: seq<Item>, c: Collected): Result<seq<string>> {
    if !HasInt32(items, 0) then Failure(NotEnoughData)
    else if items[0].bits < (c.maxSection + 1) % UINT32_RANGE then Failure(BadValue)
    else if items[0].bits == 0 then Failure(CapacityNotPositive)     // the check on setCapacity ends the process
    else ReadSections(items[1..], items[0].bits, [])
  }

  /** Whether every tag's index is inside the table; where it is not, the original reads outside
      it, which is modelled as a failure. */
  predicate IndicesInside(c: Collected, sections: seq<string>) {
    forall k :: 0 <= k < |c.order| ==>
      c.order[k] in c.names && c.order[k] in c.sectionOf && c.sectionOf[c.order[k]] < |sections|
  }

  function SectionNames(sectionOf: map<nat, nat>, sections: seq<string>): map<nat, string> {
    map t: nat | t in sectionOf && sectionOf[t] < |sections| :: sections[sectionOf[t]]
  }

  function Finish(count: nat, c: Collected, sections: seq<string>): Result<Descriptor> {
    if IndicesInside(c, sections) then
      Success(Descriptor(count, c.tags, c.names, c.types, c.sectionOf, sections,
                         BuildReverse(c.order, c.names, SectionNames(c.sectionOf, sections))))
    else Failure(SectionOutOfRange)
  }

  function Read(parcel: seq<Item>): Result<Descriptor> {
    if !HasInt32(parcel, 0) then Failure(NotEnoughData)
    else if parcel[0].bits >= 0x8000_0000 then Failure(BadValue)     // a negative count
    else
      var count := parcel[0].bits;
      match ReadTags(parcel[1..], count, NOTHING)
      case Failure(e) => Failure(e)
      case Success((c, rest)) =>
        if count == 0 then Finish(0, c, [])
        else
          match ReadSectionTable(rest, c)
          case Failure(e) => Failure(e)
          case Success(sections) => Finish(count, c, sections)
  }

  /** createFromParcel. */
  method CreateFromParcel(parcel: Option<seq<Item>>) returns (r: Result<Descriptor>)
    ensures r == if parcel.None? then Failure(BadValue) else Read(parcel.value)
  {
    hide ReadTags, ReadSectionTable, ReadSections, Finish;
    if parcel.None? { return Failure(BadValue); }
    var items := parcel.value;
    if !HasInt32(items, 0) { return Failure(NotEnoughData); }
    var tagCount := items[0].bits;
    if tagCount >= 0x8000_0000 { return Failure(BadValue); }
    var tags, pos := ReadAllTags(items, tagCount);
    if tags.Failure? { return Failure(tags.error); }
    if tagCount == 0 { return Finish(0, tags.value, []); }
    var sections := ReadAllSections(items, pos, tags.value);
    if sections.Failure? { return Failure(sections.error); }
    r := Finish(tagCount, tags.value, sections.value);
  }

  /** The first loop of createFromParcel, and the position after it. */
  method ReadAllTags(items: seq<Item>, tagCount: nat) returns (r: Result<Collected>, pos: nat)
    requires |items| > 0
    ensures pos <= |items|
    ensures ReadTags(items[1..], tagCount, NOTHING) ==
            match r case Success(c) => Success((c, items[pos..])) case Failure(e) => Failure(e)
  {
    hide ReadTag;
    var c, i := NOTHING, 0;
    pos := 1;
    while i < tagCount
      invariant i <= tagCount && pos <= |items|
      invariant ReadTags(items[1..], tagCount, NOTHING) == ReadTags(items[pos..], tagCount - i, c)
    {
      var one := ReadTag(items[pos..], c);
      if one.Failure? { return Failure(one.error), pos; }
      assert items[pos..][4..] == items[pos + 4..];
      c, pos, i := one.value, pos + 4, i + 1;
    }
    r := Success(c);
  }

  /** The section table. */
  method ReadAllSections(items: seq<Item>, start: nat, c: Collected) returns (r: Result<seq<string>>)
    requires start <= |items|
    ensures r == ReadSectionTable(items[start..], c)
  {
    hide Insert;
    ghost var rest := items[start..];
    if start == |items| || !items[start].Int32? { return Failure(NotEnoughData); }
    var sectionCount := items[start].bits;
    if sectionCount < (c.maxSection + 1) % UINT32_RANGE { return Failure(BadValue); }
    if sectionCount == 0 { return Failure(CapacityNotPositive); }
    var sections: seq<string> := [];
    var pos, j := start + 1, 0;
    assert rest[1..] == items[pos..];
    while j < sectionCount
      invariant j <= sectionCount && pos <= |items|
      invariant ReadSections(rest[1..], sectionCount, []) == ReadSections(items[pos..], sectionCount - j, sections)
    {
      if pos >= |items| || !items[pos].Text? || items[pos].s == "" { return Failure(NotEnoughData); }
      assert items[pos..][1..] == items[pos + 1..];
      sections := Insert(StringLess, sections, items[pos].s);
      pos, j := pos + 1, j + 1;
    }
    r := Success(sections);
  }

  // ---- What reading means ------------------------------------------------------------------------

  /** The four items of tag i are there, of the right kinds and with valid values. */
  predicate TagAt(items: seq<Item>, i: nat) {
    && 4 * i + 4 <= |items|
    && items[4 * i].Int32? && items[4 * i].bits >= 0x8000_0000
    && items[4 * i + 1].Int32? && items[4 * i + 1].bits < NUM_TYPES
    && items[4 * i + 2].Text? && items[4 * i + 2].s != ""
    && items[4 * i + 3].Int32?
  }

  /** The items of tag i hold a number that is no vendor tag, or behind one that is, a number that is no type. */
  predicate BadTagAt(items: seq<Item>, i: nat) {
    && HasInt32(items, 4 * i)
    && (items[4 * i].bits < 0x8000_0000 || (HasInt32(items, 4 * i + 1) && items[4 * i + 1].bits >= NUM_TYPES))
  }

  /** What those items say. */
  datatype Fields = Fields(tag: nat, tagType: nat, name: string, section: nat)

  function FieldsAt(items: seq<Item>, i: nat): Fields
    requires TagAt(items, i)
  {
    Fields(items[4 * i].bits, items[4 * i + 1].bits, items[4 * i + 2].s, items[4 * i + 3].bits)
  }

  /** The tags are those of the first n groups of four items. */
  ghost predicate OrderTold(order: seq<nat>, items: seq<Item>, n: nat) {
    |order| == n && forall i: nat :: i < n ==> TagAt(items, i) && order[i] == FieldsAt(items, i).tag
  }

  predicate LastOfItsTag(order: seq<nat>, i: nat)
    requires i < |order|
  {
    forall j: nat :: i < j < |order| ==> order[j] != order[i]
  }

  ghost predicate EntryIs(c: Collected, f: Fields) {
    && f.tag in c.types && c.types[f.tag] == f.tagType
    && f.tag in c.names && c.names[f.tag] == f.name
    && f.tag in c.sectionOf && c.sectionOf[f.tag] == f.section
  }

  /** For each tag the maps hold what its last four items say, and nothing else. */
  ghost predicate EntriesTold(c: Collected, items: seq<Item>, n: nat)
    requires OrderTold(c.order, items, n)
  {
    && (forall t: nat :: t in c.names || t in c.types || t in c.sectionOf ==> t in c.order)
    && (forall i: nat :: i < n && LastOfItsTag(c.order, i) ==> EntryIs(c, FieldsAt(items, i)))
    && (forall i: nat :: i < n ==> FieldsAt(items, i).section <= c.maxSection)
  }

  /** c holds the first n tags. */
  ghost predicate Tabled(c: Collected, items: seq<Item>, n: nat) {
    OrderTold(c.order, items, n) && c.tags == InsertAll(TagLess, c.order) && EntriesTold(c, items, n)
  }

  function CollectFields(c: Collected, f: Fields): Collected { Collect(c, f.tag, f.tagType, f.name, f.section) }

  lemma ReadTagAt(items: seq<Item>, i: nat, c: Collected)
    requires 4 * i <= |items|
    ensures var r := ReadTag(items[4 * i..], c);
            && (r.Success? <==> TagAt(items, i)) && (r == Failure(BadValue) <==> BadTagAt(items, i))
            && (r.Success? ==>
                  r.value == CollectFields(c, FieldsAt(items, i)) && items[4 * i..][4..] == items[4 * (i + 1)..])
  {
  }

  lemma TabledStep(items: seq<Item>, n: nat, c: Collected)
    requires Tabled(c, items, n) && TagAt(items, n)
    ensures Tabled(CollectFields(c, FieldsAt(items, n)), items, n + 1)
  {
    hide InsertAll, Insert, TagAt, FieldsAt;
    var f := FieldsAt(items, n);
    InsertAllSnoc(c.order, f.tag);
    EntriesStep(items, n, c, f);
  }

  lemma EntriesStep(items: seq<Item>, n: nat, c: Collected, f: Fields)
    requires OrderTold(c.order, items, n) && EntriesTold(c, items, n) && TagAt(items, n) && f == FieldsAt(items, n)
    ensures OrderTold(CollectFields(c, f).order, items, n + 1) && EntriesTold(CollectFields(c, f), items, n + 1)
  {
    hide InsertAll, Insert, TagAt, FieldsAt, EntryIs, LastOfItsTag;
    var next := CollectFields(c, f);
    EntryMade(c, f);
    forall i: nat | i < n + 1 && LastOfItsTag(next.order, i) ensures EntryIs(next, FieldsAt(items, i)) {
      if i < n {
        LastBefore(c.order, f.tag, i);
        EntryStays(c, f, FieldsAt(items, i));
      }
    }
  }

  lemma LastBefore(order: seq<nat>, t: nat, i: nat)
    requires i < |order| && LastOfItsTag(order + [t], i)
    ensures LastOfItsTag(order, i) && order[i] != t
  {
    var more := order + [t];
    assert more[|order|] == t;
    forall j: nat | i < j < |order| ensures order[j] != order[i] { assert more[j] != more[i]; }
  }

  lemma EntryMade(c: Collected, f: Fields)
    ensures EntryIs(CollectFields(c, f), f)
  {
  }

  lemma EntryStays(c: Collected, f: Fields, g: Fields)
    requires EntryIs(c, g) && f.tag != g.tag
    ensures EntryIs(CollectFields(c, f), g)
  {
  }

  lemma InsertAllSnoc(order: seq<nat>, t: nat)
    ensures InsertAll(TagLess, order + [t]) == Insert(TagLess, InsertAll(TagLess, order), t)
  {
    assert (order + [t])[..|order|] == order;
  }

  /** Reading goes on from a state that holds the first k tags: it succeeds exactly when the rest of the n
      tags are there and valid, and the first bad one decides which error there is. */
  lemma {:induction false} ReadTagsFrom(items: seq<Item>, k: nat, n: nat, c: Collected)
    requires k <= n && 4 * k <= |items| && Tabled(c, items, k)
    ensures var r := ReadTags(items[4 * k..], n - k, c);
            && (r.Success? <==> forall i: nat :: k <= i < n ==> TagAt(items, i))
            && (r.Success? ==> Tabled(r.value.0, items, n) && 4 * n <= |items| && r.value.1 == items[4 * n..])
            && (r == Failure(BadValue) <==> FirstIsBad(items, k, n))
    decreases n - k
  {
    hide Tabled, ReadTag, TagAt, BadTagAt, CollectFields, FieldsAt;
    if k < n {
      ReadTagAt(items, k, c);
      if TagAt(items, k) {
        TabledStep(items, k, c);
        assert 4 * (k + 1) <= |items| by { TagEnds(items, k); }
        ReadTagsFrom(items, k + 1, n, ReadTag(items[4 * k..], c).value);
        BadLater(items, k, n);
      } else {
        BadHere(items, k, n);
      }
    }
  }

  lemma TagEnds(items: seq<Item>, i: nat)
    ensures TagAt(items, i) ==> 4 * (i + 1) <= |items| && !BadTagAt(items, i)
  {
  }

  /** The first of the tags that is not valid has a bad value. */
  ghost predicate FirstIsBad(items: seq<Item>, k: nat, n: nat) {
    exists i: nat :: k <= i < n && BadTagAt(items, i) && forall j: nat :: k <= j < i ==> TagAt(items, j)
  }

  lemma BadLater(items: seq<Item>, k: nat, n: nat)
    requires k < n && TagAt(items, k)
    ensures FirstIsBad(items, k, n) <==> FirstIsBad(items, k + 1, n)
  {
    hide TagAt, BadTagAt;
    TagEnds(items, k);
  }

  lemma BadHere(items: seq<Item>, k: nat, n: nat)
    requires k < n && !TagAt(items, k)
    ensures FirstIsBad(items, k, n) <==> BadTagAt(items, k)
  {
    hide TagAt, BadTagAt;
  }

  /** What a parcel has to hold, item by item, to be read up to its section table, and what is then known of
      its tags. */
  lemma ReadTagsMeans(items: seq<Item>, n: nat)
    ensures var r := ReadTags(items, n, NOTHING);
            && (r.Success? <==> forall i: nat :: i < n ==> TagAt(items, i))
            && (r.Success? ==> Tabled(r.value.0, items, n) && 4 * n <= |items| && r.value.1 == items[4 * n..])
            && (r == Failure(BadValue) <==> FirstIsBad(items, 0, n))
  {
    assert items[4 * 0..] == items;
    ReadTagsFrom(items, 0, n, NOTHING);
  }

  /** A descriptor that was read, for every parcel: its tags, names, types and indices are those of the items,
      and its sections are the names behind them, sorted. */
  lemma ReadMeans(parcel: seq<Item>, d: Descriptor) returns (c: Collected, names: seq<string>)
    requires Read(parcel) == Success(d)
    ensures HasInt32(parcel, 0) && d.tagCount == parcel[0].bits && Tabled(c, parcel[1..], d.tagCount)
    ensures Sorted(TagLess, d.tags) && forall t: nat :: t in d.tags <==> t in c.order
    ensures d.names == c.names && d.types == c.types && d.sectionOf == c.sectionOf
    ensures d.tagCount == 0 ==> names == []
    ensures d.tagCount > 0 ==> NamesRead(parcel[1..][4 * d.tagCount..], c, names)
    ensures Sorted(StringLess, d.sections) && forall s :: s in d.sections <==> s in names
    // The reverse index has the tag that comes last in the parcel with a name and section.
    ensures var sections := SectionNames(d.sectionOf, d.sections);
            && Covers(d.names, sections, c.order)
            && forall n, s :: Lookup(d.reverse, n, s) == LastWith(c.order, d.names, sections, n, s)
  {
    hide Tabled, TagAt, FirstIsBad, NamesRead, Insert, InsertAll, BuildReverse, IndicesInside;
    var items, n := parcel[1..], parcel[0].bits;
    ReadTagsMeans(items, n);
    c := ReadTags(items, n, NOTHING).value.0;
    TabledTags(c, items, n);
    OrdersAreStrict();
    InsertAllCorrect(TagLess, c.order);
    if n == 0 {
      names := [];
    } else {
      names := TableMeans(items[4 * n..], c);
      InsertAllCorrect(StringLess, names);
    }
    FinishMeans(parcel[0].bits, c, d.sections);
    ReverseFindsLast(c.order, d.names, SectionNames(d.sectionOf, d.sections));
  }

  lemma FinishMeans(count: nat, c: Collected, sections: seq<string>)
    requires Finish(count, c, sections).Success?
    ensures var d, names := Finish(count, c, sections).value, SectionNames(c.sectionOf, sections);
            Covers(c.names, names, c.order) && d.reverse == BuildReverse(c.order, c.names, names)
  {
    forall t: nat | t in c.order ensures t in c.names && t in SectionNames(c.sectionOf, sections) {
      var k :| 0 <= k < |c.order| && c.order[k] == t;
    }
  }

  lemma TabledTags(c: Collected, items: seq<Item>, n: nat)
    requires Tabled(c, items, n)
    ensures c.tags == InsertAll(TagLess, c.order)
  {
  }

  /** Which error a section table gives: a bad value exactly when its number of names is too small. */
  lemma TableErrors(rest: seq<Item>, c: Collected)
    ensures ReadSectionTable(rest, c) == Failure(BadValue) <==>
            HasInt32(rest, 0) && rest[0].bits < (c.maxSection + 1) % 0x1_0000_0000
  {
    if HasInt32(rest, 0) { NamesErrors(rest[1..], rest[0].bits, []); }
  }

  lemma {:induction false} NamesErrors(items: seq<Item>, n: nat, sections: seq<string>)
    ensures var r := ReadSections(items, n, sections); r.Success? || r == Failure(NotEnoughData)
    decreases n
  {
    if n > 0 && items != [] && items[0].Text? && items[0].s != "" {
      NamesErrors(items[1..], n - 1, Insert(StringLess, sections, items[0].s));
    }
  }

  lemma TableMeans(rest: seq<Item>, c: Collected) returns (names: seq<string>)
    requires ReadSectionTable(rest, c).Success?
    ensures NamesRead(rest, c, names) && ReadSectionTable(rest, c) == Success(InsertAll(StringLess, names))
  {
    names := NamesOf(rest[1..], rest[0].bits, []);
    var items := rest[1..];
    assert items[..|names|] == Texts(names) && items[0..] == items && names[..0] == [];
    ReadTexts(names, 0, items);
  }

  // ---- Reading outside the table -----------------------------------------------------------------

  /** The tag has been read, and its largest index is known. */
  ghost predicate Known(c: Collected, t: nat) {
    t in c.names && t in c.sectionOf && c.sectionOf[t] <= c.maxSection
  }

  lemma {:induction false} ReadTagsKnown(items: seq<Item>, n: nat, c: Collected)
    requires forall t: nat :: t in c.order ==> Known(c, t)
    ensures var r := ReadTags(items, n, c);
            r.Success? ==> forall t: nat :: t in r.value.0.order ==> Known(r.value.0, t)
    ensures var r := ReadTags(items, n, c);
            r.Failure? ==> r.error != SectionOutOfRange
    decreases n
  {
    if n > 0 {
      var one := ReadTag(items, c);
      if one.Success? {
        KnownStep(items, c);
        ReadTagsKnown(items[4..], n - 1, one.value);
      }
    }
  }

  lemma KnownStep(items: seq<Item>, c: Collected)
    requires ReadTag(items, c).Success? && forall t: nat :: t in c.order ==> Known(c, t)
    ensures var next := ReadTag(items, c).value;
            forall t: nat :: t in next.order ==> Known(next, t)
  {
    var next := ReadTag(items, c).value;
    forall t: nat | t in next.order ensures Known(next, t) {
      assert t in c.order || t == items[0].bits;
    }
  }

  /** The parcel is read up to its section table: c is what its tags give, and rest what follows. */
  ghost predicate TagsRead(parcel: seq<Item>, c: Collected, rest: seq<Item>) {
    HasInt32(parcel, 0) && 0 < parcel[0].bits < 0x8000_0000
      && ReadTags(parcel[1..], parcel[0].bits, NOTHING) == Success((c, rest))
  }

  /** rest is a section table with these names, and passes the test on their number. */
  ghost predicate NamesRead(rest: seq<Item>, c: Collected, names: seq<string>) {
    && 0 < |names| < |rest| && (c.maxSection + 1) % UINT32_RANGE <= |names|
    && rest[0] == Int32(|names|) && rest[1..|names| + 1] == Texts(names) && TextsGiven(names, 0)
  }

  /** A tag whose index lies outside a table of as many entries as there are distinct names. */
  ghost predicate SomeIndexOutside(c: Collected, names: seq<string>) {
    exists t: nat :: t in c.order && t in c.sectionOf && c.sectionOf[t] >= |Elements(names)|
  }

  /** For every parcel whose tags and section names are read: the reader looks outside its table exactly
      when some tag's index is not below the number of distinct names. */
  lemma ReadsOutsideIff(parcel: seq<Item>, c: Collected, rest: seq<Item>, names: seq<string>)
    requires TagsRead(parcel, c, rest) && NamesRead(rest, c, names)
    ensures Read(parcel) == Failure(SectionOutOfRange) <==> SomeIndexOutside(c, names)
    ensures Read(parcel).Success? <==> !SomeIndexOutside(c, names)
  {
    var sections := InsertAll(StringLess, names);
    ReadTagsKnown(parcel[1..], parcel[0].bits, NOTHING);
    var items := rest[1..];
    assert items[..|names|] == Texts(names) && items[0..] == items && names[..0] == [];
    ReadTexts(names, 0, items);
    OrdersAreStrict();
    InsertAllCorrect(StringLess, names);
    SortedSize(StringLess, sections);
    assert Elements(sections) == Elements(names);
    assert ReadSectionTable(rest, c) == Success(sections);
    if !IndicesInside(c, sections) {
      var k :| 0 <= k < |c.order|
        && !(c.order[k] in c.names && c.order[k] in c.sectionOf && c.sectionOf[c.order[k]] < |sections|);
      assert c.order[k] in c.order && Known(c, c.order[k]);
    }
  }

  /** And only such parcels make it look there. */
  lemma ReadsOutsideOnlyThen(parcel: seq<Item>) returns (c: Collected, rest: seq<Item>, names: seq<string>)
    requires Read(parcel) == Failure(SectionOutOfRange)
    ensures TagsRead(parcel, c, rest) && NamesRead(rest, c, names) && SomeIndexOutside(c, names)
  {
    ReadTagsKnown(parcel[1..], parcel[0].bits, NOTHING);
    var r := ReadTags(parcel[1..], parcel[0].bits, NOTHING);
    c, rest := r.value.0, r.value.1;
    var n := rest[0].bits;
    names := NamesOf(rest[1..], n, []);
    ReadsOutsideIff(parcel, c, rest, names);
  }

  /** The names that n passes of the second loop have read. */
  lemma {:induction false} NamesOf(items: seq<Item>, n: nat, sections: seq<string>) returns (names: seq<string>)
    requires var r := ReadSections(items, n, sections); r.Success? || r.error == SectionOutOfRange
    ensures |names| == n <= |items| && items[..n] == Texts(names) && TextsGiven(names, 0)
    decreases n
  {
    if n == 0 {
      names := [];
    } else {
      var more := NamesOf(items[1..], n - 1, Insert(StringLess, sections, items[0].s));
      names := [items[0].s] + more;
      assert items[..n] == [items[0]] + items[1..][..n - 1];
      assert Texts(names) == [Text(items[0].s)] + Texts(more);
    }
  }

  /** So with distinct names and indices below the largest 32-bit number the reader stays inside. */
  lemma DistinctNamesStayInside(parcel: seq<Item>, c: Collected, rest: seq<Item>, names: seq<string>)
    requires TagsRead(parcel, c, rest) && NamesRead(rest, c, names)
    requires NoRepeats(names) && c.maxSection < UINT32_RANGE - 1
    ensures Read(parcel).Success?
  {
    ReadsOutsideIff(parcel, c, rest, names);
    ReadTagsKnown(parcel[1..], parcel[0].bits, NOTHING);
    hide Read, ReadTags, Texts, Elements;
    DistinctCount(names);
    assert c.maxSection + 1 <= |names|;
    forall t: nat | t in c.order ensures t in c.sectionOf && c.sectionOf[t] < |Elements(names)| {
      assert Known(c, t);
    }
  }

  lemma {:induction false} DistinctCount(names: seq<string>)
    requires NoRepeats(names)
    ensures |Elements(names)| == |names|
  {
    if names == [] {
      assert Elements(names) == {};
    } else {
      var init, last := names[..|names| - 1], names[|names| - 1];
      DistinctCount(init);
      assert last !in Elements(init);
      assert names == init + [last];
      assert Elements(names) == Elements(init) + {last};
    }
  }

  /** A parcel with one tag. */
  lemma OneTagRead(t: nat, index: nat, names: seq<string>) returns (c: Collected, rest: seq<Item>)
    requires VENDOR_TAG_BOUNDARY <= t < UINT32_RANGE && names != [] && (index + 1) % UINT32_RANGE <= |names|
    requires TextsGiven(names, 0)
    ensures var parcel := [Int32(1), Int32(t), Int32(0), Text("n"), Int32(index), Int32(|names|)] + Texts(names);
            TagsRead(parcel, c, rest) && NamesRead(rest, c, names) && c == Collect(NOTHING, t, 0, "n", index)
  {
    c, rest := Collect(NOTHING, t, 0, "n", index), [Int32(|names|)] + Texts(names);
    var parcel := [Int32(1), Int32(t), Int32(0), Text("n"), Int32(index), Int32(|names|)] + Texts(names);
    assert ReadTag(parcel[1..], NOTHING) == Success(c);
    assert parcel[1..][4..] == rest;
    assert ReadTags(rest, 0, c) == Success((c, rest));
    assert rest[1..|names| + 1] == Texts(names);
  }

  /** A section name that is given twice is stored once, so the index of the second is outside. */
  lemma RepeatedSectionName(t: nat)
    requires VENDOR_TAG_BOUNDARY <= t < UINT32_RANGE
    ensures Read([Int32(1), Int32(t), Int32(0), Text("n"), Int32(1), Int32(2), Text("s"), Text("s")])
            == Failure(SectionOutOfRange)
  {
    hide Read, TagsRead, NamesRead, Insert, InsertAll;
    var names := ["s", "s"];
    var c, rest := OneTagRead(t, 1, names);
    assert Texts(names) == [Text("s"), Text("s")];
    var parcel := [Int32(1), Int32(t), Int32(0), Text("n"), Int32(1), Int32(2)] + Texts(names);
    assert Elements(names) == {"s"};
    assert c.order[0] == t && c.sectionOf[t] == 1;
    ReadsOutsideIff(parcel, c, rest, names);
    assert parcel == [Int32(1), Int32(t), Int32(0), Text("n"), Int32(1), Int32(2), Text("s"), Text("s")];
  }

  /** The largest index: adding one to it gives 0, which no number of sections is less than. */
  lemma LargestIndexWraps(t: nat)
    requires VENDOR_TAG_BOUNDARY <= t < UINT32_RANGE
    ensures Read([Int32(1), Int32(t), Int32(0), Text("n"), Int32(0xFFFF_FFFF), Int32(1), Text("s")])
            == Failure(SectionOutOfRange)
  {
    hide Read, TagsRead, NamesRead, Insert, InsertAll;
    var names := ["s"];
    var c, rest := OneTagRead(t, 0xFFFF_FFFF, names);
    assert Texts(names) == [Text("s")];
    var parcel := [Int32(1), Int32(t), Int32(0), Text("n"), Int32(0xFFFF_FFFF), Int32(1)] + Texts(names);
    assert Elements(names) == {"s"};
    assert c.order[0] == t && c.sectionOf[t] == 0xFFFF_FFFF;
    ReadsOutsideIff(parcel, c, rest, names);
    assert parcel == [Int32(1), Int32(t), Int32(0), Text("n"), Int32(0xFFFF_FFFF), Int32(1), Text("s")];
  }

  // ---- Reading back what was written ---------------------------------------------------------

  function CollectAll(d: Descriptor, tags: seq<nat>): Collected
    requires Complete(d, tags)
  {
    if tags == [] then NOTHING
    else
      var t := tags[|tags| - 1];
      Collect(CollectAll(d, tags[..|tags| - 1]), t, d.types[t], d.names[t], d.sectionOf[t])
  }

  ghost predicate NamesGiven(d: Descriptor, tags: seq<nat>)
    requires Complete(d, tags)
  {
    forall t: nat :: t in tags ==> d.names[t] != ""
  }

  ghost predicate Writable(d: Descriptor, tags: seq<nat>) {
    && Complete(d, tags)
    && forall t: nat :: t in tags ==> VENDOR_TAG_BOUNDARY <= t && d.types[t] < NUM_TYPES
  }

  lemma ReadEntry(d: Descriptor, t: nat, rest: seq<Item>, c: Collected)
    requires Writable(d, [t])
    ensures ReadTag(Entry(d, t) + rest, c) ==
            if d.names[t] == "" then Failure(NotEnoughData)
            else Success(Collect(c, t, d.types[t], d.names[t], d.sectionOf[t]))
    ensures (Entry(d, t) + rest)[4..] == rest
  {
    assert t in [t];
  }

  /** Reading n tags from written entries goes on with what follows them, or fails at the first
      tag without a name. */
  lemma {:induction false} ReadEntries(d: Descriptor, tags: seq<nat>, rest: seq<Item>, n: nat)
    requires Writable(d, tags) && |tags| <= n
    ensures if NamesGiven(d, tags)
            then ReadTags(Entries(d, tags) + rest, n, NOTHING) == ReadTags(rest, n - |tags|, CollectAll(d, tags))
            else ReadTags(Entries(d, tags) + rest, n, NOTHING).Failure?
  {
    if tags == [] {
      assert Entries(d, tags) + rest == rest;
    } else {
      var before, t := tags[..|tags| - 1], tags[|tags| - 1];
      hide ReadTag, Collect;
      var e := Entry(d, t);
      assert t in tags;
      assert tags == before + [t];
      assert NamesGiven(d, tags) <==> NamesGiven(d, before) && d.names[t] != "";
      assert Entries(d, tags) + rest == Entries(d, before) + (e + rest);
      ReadEntries(d, before, e + rest, n);
      ReadEntry(d, t, rest, CollectAll(d, before));
    }
  }

  ghost predicate TextsGiven(names: seq<string>, k: nat) {
    forall i :: k <= i < |names| ==> names[i] != ""
  }

  lemma {:induction false} ReadTexts(names: seq<string>, k: nat, items: seq<Item>)
    requires k <= |names| <= |items| && items[..|names|] == Texts(names)
    ensures ReadSections(items[k..], |names| - k, InsertAll(StringLess, names[..k]))
            == if TextsGiven(names, k) then Success(InsertAll(StringLess, names)) else Failure(NotEnoughData)
    decreases |names| - k
  {
    if k == |names| {
      assert names[..k] == names;
    } else {
      assert TextsGiven(names, k) <==> names[k] != "" && TextsGiven(names, k + 1);
      assert names[..k + 1][..k] == names[..k] && names[..k + 1][k] == names[k];
      assert items[k..][0] == items[..|names|][k] == Text(names[k]) && items[k..][1..] == items[k + 1..];
      ReadTexts(names, k + 1, items);
    }
  }

  /** The maps collected from these tags are those of the descriptor. */
  ghost predicate SameMap<V>(m: map<nat, V>, of: map<nat, V>, tags: seq<nat>) {
    && (forall t: nat :: t in m <==> t in tags)
    && (forall t: nat :: t in tags ==> t in of && m[t] == of[t])
  }

  lemma SameMapSnoc<V>(m: map<nat, V>, of: map<nat, V>, tags: seq<nat>, t: nat)
    requires SameMap(m, of, tags) && t in of
    ensures SameMap(m[t := of[t]], of, tags + [t])
  {
  }

  lemma SameMapEqual<V>(m: map<nat, V>, of: map<nat, V>, tags: seq<nat>)
    requires SameMap(m, of, tags) && forall t: nat :: t in of <==> t in tags
    ensures m == of
  {
  }

  lemma {:induction false} CollectedMaps(d: Descriptor, tags: seq<nat>)
    requires Complete(d, tags)
    ensures var c := CollectAll(d, tags);
            SameMap(c.names, d.names, tags) && SameMap(c.types, d.types, tags)
              && SameMap(c.sectionOf, d.sectionOf, tags)
  {
    if tags != [] {
      var before, t := tags[..|tags| - 1], tags[|tags| - 1];
      assert tags == before + [t] && t in tags;
      CollectedMaps(d, before);
      var c := CollectAll(d, before);
      SameMapSnoc(c.names, d.names, before, t);
      SameMapSnoc(c.types, d.types, before, t);
      SameMapSnoc(c.sectionOf, d.sectionOf, before, t);
    }
  }

  lemma {:induction false} CollectedTags(d: Descriptor, tags: seq<nat>)
    requires Complete(d, tags)
    requires forall t: nat :: t in tags ==> d.sectionOf[t] < |d.sections|
    ensures var c := CollectAll(d, tags);
            && c.order == tags && c.tags == InsertAll(TagLess, tags)
            && (if tags == [] then c.maxSection == 0 else c.maxSection < |d.sections|)
  {
    if tags != [] {
      var before, t := tags[..|tags| - 1], tags[|tags| - 1];
      assert tags == before + [t] && t in tags;
      assert forall u: nat :: u in before ==> u in tags;
      CollectedTags(d, before);
      assert CollectAll(d, tags) == Collect(CollectAll(d, before), t, d.types[t], d.names[t], d.sectionOf[t]);
    }
  }

  /** The conditions under which a descriptor survives the trip: no tag is listed twice, and no
      name or section name is empty. */
  ghost predicate Portable(ops: Ops)
    requires forall t: nat :: t in ops.tags ==> t in ops.names && t in ops.sections
  {
    NoRepeats(ops.tags) && forall t: nat :: t in ops.tags ==> ops.names[t] != "" && ops.sections[t] != ""
  }

  /** No tag is followed, among those with the same name and section, by a smaller last one. */
  ghost predicate LargestListedLast(ops: Ops)
    requires Covers(ops.names, ops.sections, ops.tags)
  {
    forall t: nat :: t in ops.tags ==>
      var last := LastWith(ops.tags, ops.names, ops.sections, ops.names[t], ops.sections[t]);
      last.Some? && t <= last.value
  }

  lemma TagFacts(d: Descriptor, ops: Ops, t: nat)
    requires Describes(d, ops) && t in ops.tags
    ensures t in d.tags && VENDOR_TAG_BOUNDARY <= t
    ensures t in d.names && d.names[t] == ops.names[t]
    ensures t in d.types && d.types[t] < NUM_TYPES
    ensures t in d.sectionOf && d.sectionOf[t] < |d.sections| && d.sections[d.sectionOf[t]] == ops.sections[t]
  {
    assert ValidTag(ops, t);
    assert SectionName(d, t) == Some(ops.sections[t]);
  }

  lemma DescribesWritable(d: Descriptor, ops: Ops)
    requires Describes(d, ops)
    ensures Writable(d, d.tags) && (forall t: nat :: t in d.tags ==> d.sectionOf[t] < |d.sections|)
    ensures NamesGiven(d, d.tags) <==> forall t: nat :: t in ops.tags ==> ops.names[t] != ""
  {
    forall t: nat | t in d.tags
      ensures t in ops.tags && VENDOR_TAG_BOUNDARY <= t && t in d.names && t in d.types && t in d.sectionOf
      ensures d.types[t] < NUM_TYPES && d.sectionOf[t] < |d.sections| && d.names[t] == ops.names[t]
    {
      TagFacts(d, ops, t);
    }
  }

  lemma SectionsGivenIff(d: Descriptor, ops: Ops)
    requires Describes(d, ops)
    ensures TextsGiven(d.sections, 0) <==> forall t: nat :: t in ops.tags ==> ops.sections[t] != ""
  {
    if TextsGiven(d.sections, 0) {
      forall t: nat | t in ops.tags ensures ops.sections[t] != "" {
        TagFacts(d, ops, t);
      }
    } else {
      var i :| 0 <= i < |d.sections| && d.sections[i] == "";
      assert UsedSection(ops, ops.tags, d.sections[i]);
    }
  }

  lemma SectionsEmptyIff(d: Descriptor, ops: Ops)
    requires Describes(d, ops)
    ensures d.sections == [] <==> ops.tags == []
  {
    if d.sections != [] { assert UsedSection(ops, ops.tags, d.sections[0]); }
    if ops.tags != [] { TagFacts(d, ops, ops.tags[0]); }
  }

  lemma SectionCount(d: Descriptor, ops: Ops)
    requires Describes(d, ops)
    ensures |d.sections| <= |ops.tags|
  {
    hide SectionName, TabulatesMaps, BuildReverse, InsertAll;
    var listed := seq(|ops.tags|, i requires 0 <= i < |ops.tags| => ops.sections[ops.tags[i]]);
    OrdersAreStrict();
    InsertAllCorrect(StringLess, listed);
    forall s ensures s in d.sections <==> s in listed {
      if s in d.sections {
        assert UsedSection(ops, ops.tags, s);
        var t: nat :| t in ops.tags && t in ops.sections && ops.sections[t] == s;
        var i :| 0 <= i < |ops.tags| && ops.tags[i] == t;
        assert listed[i] == s;
      }
      if s in listed {
        var i :| 0 <= i < |listed| && listed[i] == s;
        assert ops.tags[i] in ops.tags;
        assert UsedSection(ops, ops.tags, s);
      }
    }
    SortedUnique(StringLess, d.sections, InsertAll(StringLess, listed));
  }

  lemma TagCount(d: Descriptor, ops: Ops)
    requires Describes(d, ops)
    ensures |d.tags| <= d.tagCount
    ensures |d.tags| == d.tagCount <==> NoRepeats(ops.tags)
  {
    OrdersAreStrict();
    InsertAllCorrect(TagLess, ops.tags);
    SortedUnique(TagLess, d.tags, InsertAll(TagLess, ops.tags));
  }

  /** A tag listed twice is stored once but counted twice, so the reader takes the section count
      for another tag and refuses it. */
  lemma RepeatedTagFails(d: Descriptor)
    requires Writable(d, d.tags) && |d.tags| < d.tagCount < 0x8000_0000 && 0 < |d.sections| < 0x8000_0000
    ensures Read(Parcel(d)).Failure?
  {
    ReadEntries(d, d.tags, SectionItems(d), d.tagCount);
    assert Parcel(d)[1..] == Entries(d, d.tags) + SectionItems(d);
    assert SectionItems(d)[0] == Int32(|d.sections|);
    assert ReadTag(SectionItems(d), CollectAll(d, d.tags)) == Failure(BadValue);
  }

  /** When every tag is stored and named, reading goes on with the section table. */
  lemma ReadParcel(d: Descriptor)
    requires Writable(d, d.tags) && |d.tags| == d.tagCount < 0x8000_0000
    ensures NamesGiven(d, d.tags) ==>
              Read(Parcel(d)) ==
              if d.tagCount == 0 then Finish(0, NOTHING, [])
              else
                match ReadSectionTable(SectionItems(d), CollectAll(d, d.tags))
                case Failure(e) => Failure(e)
                case Success(sections) => Finish(d.tagCount, CollectAll(d, d.tags), sections)
    ensures !NamesGiven(d, d.tags) ==> Read(Parcel(d)).Failure?
  {
    ReadEntries(d, d.tags, SectionItems(d), d.tagCount);
    assert Parcel(d)[1..] == Entries(d, d.tags) + SectionItems(d);
    assert Parcel(d)[0] == Int32(d.tagCount);
  }

  lemma ReadTable(d: Descriptor, c: Collected)
    requires 0 < |d.sections| < 0x8000_0000 && c.maxSection < |d.sections| && Sorted(StringLess, d.sections)
    ensures ReadSectionTable(SectionItems(d), c) ==
            if TextsGiven(d.sections, 0) then Success(d.sections) else Failure(NotEnoughData)
  {
    var items := SectionItems(d)[1..];
    assert items[..|d.sections|] == Texts(d.sections) && items[0..] == items;
    ReadTexts(d.sections, 0, items);
    assert d.sections[..0] == [];
    OrdersAreStrict();
    InsertAllIdentity(StringLess, d.sections);
    assert SectionItems(d)[0] == Int32(|d.sections|);
  }

  lemma MissingNameFails(d: Descriptor, ops: Ops)
    requires WellFormed(ops) && Describes(d, ops) && NoRepeats(ops.tags) && !Portable(ops)
    ensures Complete(d, d.tags) && Read(Parcel(d)).Failure?
  {
    DescribesWritable(d, ops);
    TagCount(d, ops);
    ReadParcel(d);
    SectionsGivenIff(d, ops);
    SectionsEmptyIff(d, ops);
    SectionCount(d, ops);
    if NamesGiven(d, d.tags) {
      CollectedTags(d, d.tags);
      ReadTable(d, CollectAll(d, d.tags));
    }
  }

  lemma CollectedAll(d: Descriptor, ops: Ops)
    requires Describes(d, ops) && Complete(d, d.tags)
    ensures var c := CollectAll(d, d.tags);
            c == Collected(d.tags, d.tags, d.names, d.types, d.sectionOf, c.maxSection)
  {
    DescribesWritable(d, ops);
    CollectedMaps(d, d.tags);
    CollectedTags(d, d.tags);
    var c := CollectAll(d, d.tags);
    OrdersAreStrict();
    InsertAllIdentity(TagLess, d.tags);
    SameMapEqual(c.names, d.names, d.tags);
    SameMapEqual(c.types, d.types, d.tags);
    SameMapEqual(c.sectionOf, d.sectionOf, d.tags);
  }

  /** What the reader makes of everything collected. */
  lemma FinishIs(d: Descriptor, ops: Ops, c: Collected)
    requires Describes(d, ops)
    requires c == Collected(d.tags, d.tags, d.names, d.types, d.sectionOf, c.maxSection)
    ensures Covers(ops.names, ops.sections, d.tags)
    ensures Finish(d.tagCount, c, d.sections) == Success(d.(reverse := BuildReverse(d.tags, ops.names, ops.sections)))
  {
    SectionNamesAgree(d, ops);
    forall k | 0 <= k < |d.tags|
      ensures d.tags[k] in d.names && d.tags[k] in d.sectionOf && d.sectionOf[d.tags[k]] < |d.sections|
    {
      TagFacts(d, ops, d.tags[k]);
    }
    SameReverse(d.tags, d.names, SectionNames(d.sectionOf, d.sections), ops.names, ops.sections);
  }

  lemma SectionNamesAgree(d: Descriptor, ops: Ops)
    requires Describes(d, ops)
    ensures var names := SectionNames(d.sectionOf, d.sections);
            && Covers(ops.names, ops.sections, d.tags) && Covers(d.names, names, d.tags)
            && forall t: nat :: t in d.tags ==> d.names[t] == ops.names[t] && names[t] == ops.sections[t]
  {
    forall t: nat | t in d.tags
      ensures t in d.names && t in ops.names && t in ops.sections && d.names[t] == ops.names[t]
      ensures t in SectionNames(d.sectionOf, d.sections) && SectionNames(d.sectionOf, d.sections)[t] == ops.sections[t]
    {
      TagFacts(d, ops, t);
    }
  }

  /** Reading back a portable descriptor gives all of it, with the reverse index rebuilt in
      ascending order of the tags. */
  lemma ReadBack(d: Descriptor, ops: Ops)
    requires WellFormed(ops) && Describes(d, ops) && Portable(ops)
    ensures Complete(d, d.tags) && Covers(ops.names, ops.sections, d.tags)
    ensures Read(Parcel(d)) == Success(d.(reverse := BuildReverse(d.tags, ops.names, ops.sections)))
  {
    DescribesWritable(d, ops);
    TagCount(d, ops);
    ReadParcel(d);
    CollectedAll(d, ops);
    FinishIs(d, ops, CollectAll(d, d.tags));
    SectionsGivenIff(d, ops);
    SectionsEmptyIff(d, ops);
    SectionCount(d, ops);
    if d.tagCount > 0 {
      CollectedTags(d, d.tags);
      ReadTable(d, CollectAll(d, d.tags));
    }
  }

  lemma {:induction false} SameReverse(tags: seq<nat>, names: map<nat, string>, sections: map<nat, string>,
                                       names': map<nat, string>, sections': map<nat, string>)
    requires Covers(names, sections, tags) && Covers(names', sections', tags)
    requires forall t: nat :: t in tags ==> names[t] == names'[t] && sections[t] == sections'[t]
    ensures BuildReverse(tags, names, sections) == BuildReverse(tags, names', sections')
  {
    if tags != [] {
      assert tags[|tags| - 1] in tags;
      SameReverse(tags[..|tags| - 1], names, sections, names', sections');
    }
  }

  /** When reading back succeeds at all, for every descriptor built from operations. */
  lemma RoundTripSucceedsIff(d: Descriptor, ops: Ops)
    requires WellFormed(ops) && Describes(d, ops)
    ensures Complete(d, d.tags)
    ensures Read(Parcel(d)).Success? <==> Portable(ops)
  {
    DescribesWritable(d, ops);
    if Portable(ops) {
      ReadBack(d, ops);
    } else if NoRepeats(ops.tags) {
      MissingNameFails(d, ops);
    } else {
      TagCount(d, ops);
      SectionsGivenIff(d, ops);
      SectionsEmptyIff(d, ops);
      SectionCount(d, ops);
      RepeatedTagFails(d);
    }
  }

  /** When the very same descriptor comes back: the reverse index keeps the tag listed last for a
      name and section, while the parcel is in ascending order, so both must agree. */
  lemma RoundTripIdentityIff(d: Descriptor, ops: Ops)
    requires WellFormed(ops) && Describes(d, ops)
    ensures Complete(d, d.tags)
    ensures Read(Parcel(d)) == Success(d) <==> Portable(ops) && LargestListedLast(ops)
  {
    RoundTripSucceedsIff(d, ops);
    if Portable(ops) {
      ReadBack(d, ops);
      ReverseAgreesIff(d.tags, ops);
    }
  }

  lemma ReverseAgreesIff(sorted: seq<nat>, ops: Ops)
    requires Covers(ops.names, ops.sections, ops.tags) && Covers(ops.names, ops.sections, sorted)
    requires Sorted(TagLess, sorted) && forall t: nat :: t in sorted <==> t in ops.tags
    ensures BuildReverse(sorted, ops.names, ops.sections) == BuildReverse(ops.tags, ops.names, ops.sections) <==>
            LargestListedLast(ops)
  {
    ReverseFindsLast(sorted, ops.names, ops.sections);
    ReverseFindsLast(ops.tags, ops.names, ops.sections);
    var a, b := BuildReverse(sorted, ops.names, ops.sections), BuildReverse(ops.tags, ops.names, ops.sections);
    if a == b {
      forall t: nat | t in ops.tags
        ensures var last := LastWith(ops.tags, ops.names, ops.sections, ops.names[t], ops.sections[t]);
                last.Some? && t <= last.value
      {
        LastIsLargest(sorted, ops.names, ops.sections, t);
        assert Lookup(a, ops.names[t], ops.sections[t]) == Lookup(b, ops.names[t], ops.sections[t]);
      }
    }
    if LargestListedLast(ops) {
      forall n, s ensures Lookup(a, n, s) == Lookup(b, n, s) {
        SameLast(sorted, ops, n, s);
      }
      LookupDetermines(a, b);
    }
  }

  lemma SameLast(sorted: seq<nat>, ops: Ops, n: string, s: string)
    requires Covers(ops.names, ops.sections, ops.tags) && Covers(ops.names, ops.sections, sorted)
    requires Sorted(TagLess, sorted) && forall t: nat :: t in sorted <==> t in ops.tags
    requires LargestListedLast(ops)
    ensures LastWith(sorted, ops.names, ops.sections, n, s) == LastWith(ops.tags, ops.names, ops.sections, n, s)
  {
    var x, y := LastWith(sorted, ops.names, ops.sections, n, s), LastWith(ops.tags, ops.names, ops.sections, n, s);
    LastWithCorrect(sorted, ops.names, ops.sections, n, s);
    LastWithCorrect(ops.tags, ops.names, ops.sections, n, s);
    if y.Some? { LastIsLargest(sorted, ops.names, ops.sections, y.value); }
  }

  /** After the trip, looking up a name and section gives the largest tag that has them. */
  lemma LookupAfterTrip(d: Descriptor, ops: Ops, t: nat)
    requires WellFormed(ops) && Describes(d, ops) && Portable(ops) && t in ops.tags
    ensures Complete(d, d.tags) && Read(Parcel(d)).Success?
    ensures var r := LookupTag(Read(Parcel(d)).value, ops.names[t], ops.sections[t]);
            r.Success? && r.value in ops.tags && t <= r.value
            && ops.names[r.value] == ops.names[t] && ops.sections[r.value] == ops.sections[t]
  {
    ReadBack(d, ops);
    ReverseFindsLast(d.tags, ops.names, ops.sections);
    LastWithCorrect(d.tags, ops.names, ops.sections, ops.names[t], ops.sections[t]);
    TagFacts(d, ops, t);
    LastIsLargest(d.tags, ops.names, ops.sections, t);
  }

  const COLLIDING_OPS := Ops(2, [VENDOR_TAG_BOUNDARY + 1, VENDOR_TAG_BOUNDARY],
                            map[VENDOR_TAG_BOUNDARY := "n", VENDOR_TAG_BOUNDARY + 1 := "n"],
                            map[VENDOR_TAG_BOUNDARY := "s", VENDOR_TAG_BOUNDARY + 1 := "s"],
                            map[VENDOR_TAG_BOUNDARY := 0, VENDOR_TAG_BOUNDARY + 1 := 0])

  /** Two tags with one name and section, the larger listed first: looking the name up gives the
      smaller one before the trip and the larger one after it. */
  lemma ReverseIndexMayChange(d: Descriptor)
    requires Describes(d, COLLIDING_OPS)
    ensures Complete(d, d.tags) && Read(Parcel(d)).Success?
    ensures LookupTag(d, "n", "s") == Success(VENDOR_TAG_BOUNDARY)
    ensures LookupTag(Read(Parcel(d)).value, "n", "s") == Success(VENDOR_TAG_BOUNDARY + 1)
  {
    LookupAgrees(d, COLLIDING_OPS, "n", "s");
    assert COLLIDING_OPS.tags[0] in COLLIDING_OPS.tags;
    LookupAfterTrip(d, COLLIDING_OPS, VENDOR_TAG_BOUNDARY + 1);
  }
}
