/** The text form shared by camera/CameraParameters.cpp and camera/CameraParameters2.cpp: flatten
    prints key=value pairs separated by semicolons, unflatten parses them. Strings are the characters
    before the terminating NUL. */
module ParameterText {
  import opened Wrappers

  datatype Entry = Entry(key: string, value: string)

  /** What set, remove and unflatten keep true of every entry. Keys read by unflatten may hold
      semicolons and values may hold equal signs. */
  predicate Clean(list: seq<Entry>) {
    forall e :: e in list ==> '=' !in e.key && ';' !in e.value
  }

  /** Neither separator occurs, which is what set checks. */
  predicate Plain(s: string) { '=' !in s && ';' !in s }

  function Print(list: seq<Entry>): string {
    if list == [] then []
    else if |list| == 1 then list[0].key + "=" + list[0].value
    else list[0].key + "=" + list[0].value + ";" + Print(list[1..])
  }

  lemma {:induction false} HasFirst(s: string, c: char)
    requires c in s
    ensures exists i :: 0 <= i < |s| && s[i] == c && c !in s[..i]
  {
    var init := s[..|s| - 1];
    assert s == init + [s[|s| - 1]];
    if c in init {
      HasFirst(init, c);
      var i :| 0 <= i < |init| && init[i] == c && c !in init[..i];
      assert s[..i] == init[..i] && s[i] == c;
    } else {
      assert s[|s| - 1] == c;
    }
  }

  /** strchr, as a position. */
  ghost function IndexOf(s: string, c: char): (r: Option<nat>)
    ensures r == None <==> c !in s
    ensures r.Some? ==> r.value < |s| && s[r.value] == c && c !in s[..r.value]
  {
    if c in s then
      HasFirst(s, c);
      var i :| 0 <= i < |s| && s[i] == c && c !in s[..i];
      Some(i)
    else None
  }

  /** The first pair of a text, and what follows its semicolon. */
  ghost function Split(s: string): (r: (Option<Entry>, Option<string>))
    ensures r.1.Some? ==> r.0.Some? && |r.1.value| < |s|
  {
    match IndexOf(s, '=')
    case None => (None, None)
    case Some(b) =>
      var rest := s[b + 1..];
      match IndexOf(rest, ';')
      case None => (Some(Entry(s[..b], rest)), None)
      case Some(e) => (Some(Entry(s[..b], rest[..e])), Some(rest[e + 1..]))
  }

  ghost function Parse(s: string): seq<Entry>
    decreases |s|
  {
    var (pair, rest) := Split(s);
    (if pair.Some? then [pair.value] else []) + (if rest.Some? then Parse(rest.value) else [])
  }

  lemma FirstUnique(s: string, c: char, i: nat, j: nat)
    requires i < |s| && s[i] == c && c !in s[..i]
    requires j < |s| && s[j] == c && c !in s[..j]
    ensures i == j
  {
    assert forall k :: 0 <= k < i ==> s[..i][k] == s[k];
    assert forall k :: 0 <= k < j ==> s[..j][k] == s[k];
  }

  lemma FirstAt(before: string, c: char, after: string)
    requires c !in before
    ensures IndexOf(before + [c] + after, c) == Some(|before|)
  {
    var s := before + [c] + after;
    assert s[|before|] == c && s[..|before|] == before;
    FirstUnique(s, c, |before|, IndexOf(s, c).value);
  }

  lemma SplitEntry(e: Entry, more: string)
    requires '=' !in e.key && ';' !in e.value
    ensures Split(e.key + "=" + e.value) == (Some(e), None)
    ensures Split(e.key + "=" + e.value + ";" + more) == (Some(e), Some(more))
  {
    FirstAt(e.key, '=', e.value);
    var one := e.key + ['='] + e.value;
    assert one == e.key + "=" + e.value && one[..|e.key|] == e.key && one[|e.key| + 1..] == e.value;

    var tail := e.value + [';'] + more;
    FirstAt(e.key, '=', tail);
    FirstAt(e.value, ';', more);
    var all := e.key + ['='] + tail;
    assert all == e.key + "=" + e.value + ";" + more;
    assert all[..|e.key|] == e.key && all[|e.key| + 1..] == tail;
    assert tail[..|e.value|] == e.value && tail[|e.value| + 1..] == more;
  }

  /** unflatten never yields an entry that flatten could not print back. */
  lemma {:induction false} ParseClean(s: string)
    ensures Clean(Parse(s))
  {
    var rest := Split(s).1;
    if rest.Some? { ParseClean(rest.value); }
  }

  lemma {:induction false} ParsePrint(list: seq<Entry>)
    requires Clean(list)
    ensures Parse(Print(list)) == list
  {
    if list != [] {
      assert list[0] in list;
      if |list| == 1 {
        SplitEntry(list[0], []);
      } else {
        ParsePrint(list[1..]);
        SplitEntry(list[0], Print(list[1..]));
        assert list == [list[0]] + list[1..];
      }
    }
  }

  /** unflatten undoes flatten exactly on the lists without an equal sign in a key or a semicolon in
      a value. */
  lemma RoundTripIff(list: seq<Entry>)
    ensures Parse(Print(list)) == list <==> Clean(list)
  {
    if Clean(list) { ParsePrint(list); }
    ParseClean(Print(list));
  }

  /** Printing what was parsed loses nothing that parsing sees, and changes nothing the second time. */
  lemma FlattenAfterUnflattenIsStable(s: string)
    ensures Parse(Print(Parse(s))) == Parse(s)
    ensures Print(Parse(Print(Parse(s)))) == Print(Parse(s))
  {
    ParseClean(s);
    ParsePrint(Parse(s));
  }

  lemma {:induction false} PrintSnoc(list: seq<Entry>, e: Entry)
    ensures Print(list + [e]) == (if list == [] then "" else Print(list) + ";") + (e.key + "=" + e.value)
  {
    if list == [] {
      assert list + [e] == [e];
    } else {
      assert (list + [e])[1..] == list[1..] + [e];
      PrintSnoc(list[1..], e);
      if |list| == 1 {
        assert list[1..] == [];
      } else {
        assert (list + [e])[0] == list[0];
      }
    }
  }

  /** flatten. */
  method Flatten(list: seq<Entry>) returns (flattened: string)
    ensures flattened == Print(list)
  {
    flattened := "";
    var size := |list|;
    for i := 0 to size
      invariant flattened == Print(list[..i]) + (if 0 < i < size then ";" else "")
    {
      var k, v := list[i].key, list[i].value;
      PrintSnoc(list[..i], list[i]);
      assert list[..i + 1] == list[..i] + [list[i]];
      ghost var before := flattened;
      flattened := flattened + k;
      flattened := flattened + "=";
      flattened := flattened + v;
      assert flattened == before + (k + "=" + v);
      if i != size - 1 {
        flattened := flattened + ";";
      }
    }
    assert list[..size] == list;
  }

  /** strchr from a position of a string. */
  method Strchr(s: string, start: nat, c: char) returns (pos: Option<nat>)
    requires start <= |s|
    ensures pos == match IndexOf(s[start..], c) case None => None case Some(i) => Some(start + i)
  {
    var i := start;
    while i < |s|
      invariant start <= i <= |s|
      invariant c !in s[start..i]
    {
      if s[i] == c {
        FirstAt(s[start..i], c, s[i + 1..]);
        assert s[start..] == s[start..i] + [c] + s[i + 1..];
        return Some(i);
      }
      assert s[start..i + 1] == s[start..i] + [s[i]];
      i := i + 1;
    }
    assert s[start..i] == s[start..];
    return None;
  }

  /** One turn of the loop in terms of what is parsed in the end. */
  lemma ParseOn(all: seq<Entry>, done: seq<Entry>, s: string, pair: Option<Entry>, rest: Option<string>)
    requires all == done + Parse(s) && Split(s) == (pair, rest)
    ensures all == (if pair.Some? then done + [pair.value] else done) + (if rest.Some? then Parse(rest.value) else [])
  {
    Regroup(done, if pair.Some? then [pair.value] else [], if rest.Some? then Parse(rest.value) else []);
  }

  lemma Regroup(a: seq<Entry>, b: seq<Entry>, c: seq<Entry>)
    ensures a + (b + c) == (a + b) + c && a + [] == a
  {
  }

  lemma Slices(s: string, a: nat, b: nat)
    requires a <= b < |s|
    ensures s[a..][..b - a] == s[a..b] && s[a..][b - a + 1..] == s[b + 1..]
  {
  }

  /** One turn of the loop of unflatten, from position a: the pair found, and where to go on. Neither
      when there is no equal sign any more; no position when this was the last pair. */
  method NextPair(params: string, a: nat) returns (pair: Option<Entry>, next: Option<nat>)
    requires a <= |params|
    ensures next.Some? ==> pair.Some? && a < next.value <= |params|
    ensures Split(params[a..]) == (pair, if next.Some? then Some(params[next.value..]) else None)
  {
    var b := Strchr(params, a, '=');
    if b == None { return None, None; }
    var start := b.value + 1;
    Slices(params, a, b.value);
    var e := Strchr(params, start, ';');
    if e == None { return Some(Entry(params[a..b.value], params[start..])), None; }
    Slices(params, start, e.value);
    return Some(Entry(params[a..b.value], params[start..e.value])), Some(e.value + 1);
  }
}
