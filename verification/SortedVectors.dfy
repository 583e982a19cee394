/** SortedVector of the platform's utility library, as far as it is relied on here: elements are
    distinct and ascending, and adding one that is present changes nothing. */
module SortedVectors {
  import opened Sequences

  ghost predicate StrictOrder<T(!new)>(less: (T, T) -> bool) {
    && (forall x :: !less(x, x))
    && (forall x, y, z :: less(x, y) && less(y, z) ==> less(x, z))
    && (forall x, y :: x == y || less(x, y) || less(y, x))
  }

  predicate Sorted<T>(less: (T, T) -> bool, s: seq<T>) {
    forall i, j :: 0 <= i < j < |s| ==> less(s[i], s[j])
  }

  function Insert<T(==)>(less: (T, T) -> bool, s: seq<T>, x: T): seq<T> {
    if s == [] then [x]
    else if s[0] == x then s
    else if less(x, s[0]) then [x] + s
    else [s[0]] + Insert(less, s[1..], x)
  }

  function InsertAll<T(==)>(less: (T, T) -> bool, xs: seq<T>): seq<T> {
    if xs == [] then [] else Insert(less, InsertAll(less, xs[..|xs| - 1]), xs[|xs| - 1])
  }

  lemma {:induction false} InsertElements<T>(less: (T, T) -> bool, s: seq<T>, x: T)
    ensures forall y :: y in Insert(less, s, x) <==> y in s || y == x
  {
    if s != [] && s[0] != x && !less(x, s[0]) {
      InsertElements(less, s[1..], x);
      assert forall y :: y in s <==> y == s[0] || y in s[1..];
    }
  }

  lemma {:induction false} InsertSorted<T(!new)>(less: (T, T) -> bool, s: seq<T>, x: T)
    requires StrictOrder(less) && Sorted(less, s)
    ensures Sorted(less, Insert(less, s, x))
  {
    if s != [] && s[0] != x {
      if less(x, s[0]) {
        assert forall k :: 0 <= k < |s| ==> less(x, s[k]);
      } else {
        InsertSorted(less, s[1..], x);
        InsertElements(less, s[1..], x);
        assert forall y :: y in Insert(less, s[1..], x) ==> less(s[0], y);
      }
    }
  }

  lemma {:induction false} InsertAllCorrect<T(!new)>(less: (T, T) -> bool, xs: seq<T>)
    requires StrictOrder(less)
    ensures Sorted(less, InsertAll(less, xs))
    ensures forall y :: y in InsertAll(less, xs) <==> y in xs
    ensures |InsertAll(less, xs)| <= |xs|
    ensures |InsertAll(less, xs)| == |xs| <==> NoRepeats(xs)
  {
    if xs != [] {
      var before, x := xs[..|xs| - 1], xs[|xs| - 1];
      InsertAllCorrect(less, before);
      InsertSorted(less, InsertAll(less, before), x);
      InsertElements(less, InsertAll(less, before), x);
      InsertLength(less, InsertAll(less, before), x);
      assert forall y :: y in xs <==> y in before || y == x;
      if x in before {
        var i :| 0 <= i < |before| && before[i] == x;
        assert xs[i] == xs[|xs| - 1];
      } else if |InsertAll(less, before)| < |before| {
        var i, j :| 0 <= i < j < |before| && before[i] == before[j];
        assert xs[i] == xs[j];
      }
    }
  }

  lemma {:induction false} InsertLength<T(!new)>(less: (T, T) -> bool, s: seq<T>, x: T)
    requires StrictOrder(less) && Sorted(less, s)
    ensures |Insert(less, s, x)| == |s| + (if x in s then 0 else 1)
  {
    if s != [] && s[0] != x {
      if less(x, s[0]) {
        assert forall k :: 0 <= k < |s| ==> less(x, s[k]);
      } else {
        InsertLength(less, s[1..], x);
        assert x in s <==> x in s[1..];
      }
    }
  }

  lemma {:induction false} SortedSize<T(!new)>(less: (T, T) -> bool, s: seq<T>)
    requires StrictOrder(less) && Sorted(less, s)
    ensures |Elements(s)| == |s|
  {
    if s == [] {
      assert Elements(s) == {};
    } else {
      var init, last := s[..|s| - 1], s[|s| - 1];
      SortedSize(less, init);
      assert last !in Elements(init);
      assert s == init + [last];
      assert Elements(s) == Elements(init) + {last};
    }
  }

  /** A sorted vector is determined by its elements. */
  lemma {:induction false} SortedUnique<T(!new)>(less: (T, T) -> bool, s: seq<T>, t: seq<T>)
    requires StrictOrder(less) && Sorted(less, s) && Sorted(less, t)
    requires forall y :: y in s <==> y in t
    ensures s == t
  {
    if s == [] {
      assert forall k :: 0 <= k < |t| ==> t[k] in t;
    } else {
      assert s[0] in s && t != [];
      assert t[0] in t;
      assert forall y :: y in s ==> y == s[0] || less(s[0], y);
      assert forall y :: y in t ==> y == t[0] || less(t[0], y);
      forall y ensures y in s[1..] <==> y in t[1..] {
        assert y in s[1..] <==> y in s && y != s[0];
        assert y in t[1..] <==> y in t && y != t[0];
      }
      SortedUnique(less, s[1..], t[1..]);
    }
  }

  /** So adding the elements of a sorted vector one by one rebuilds it. */
  lemma InsertAllIdentity<T(!new)>(less: (T, T) -> bool, s: seq<T>)
    requires StrictOrder(less) && Sorted(less, s)
    ensures InsertAll(less, s) == s
  {
    InsertAllCorrect(less, s);
    SortedUnique(less, InsertAll(less, s), s);
  }

  // ---- The two orders used ---------------------------------------------------------------------

  predicate TagLess(a: nat, b: nat) { a < b }

  /** strcmp(a, b) < 0. */
  predicate StringLess(a: string, b: string) {
    b != [] && (a == [] || a[0] < b[0] || (a[0] == b[0] && StringLess(a[1..], b[1..])))
  }

  lemma {:induction false} StringLessTransitive(a: string, b: string, c: string)
    requires StringLess(a, b) && StringLess(b, c)
    ensures StringLess(a, c)
  {
    if a != [] && a[0] == b[0] == c[0] { StringLessTransitive(a[1..], b[1..], c[1..]); }
  }

  lemma {:induction false} StringLessIrreflexive(a: string)
    ensures !StringLess(a, a)
  {
    if a != [] { StringLessIrreflexive(a[1..]); }
  }

  lemma {:induction false} StringLessTotal(a: string, b: string)
    ensures a == b || StringLess(a, b) || StringLess(b, a)
  {
    if a != [] && b != [] && a[0] == b[0] {
      StringLessTotal(a[1..], b[1..]);
      assert a == [a[0]] + a[1..] && b == [b[0]] + b[1..];
    }
  }

  lemma OrdersAreStrict()
    ensures StrictOrder(TagLess) && StrictOrder(StringLess)
  {
    forall a, b, c | StringLess(a, b) && StringLess(b, c) ensures StringLess(a, c) { StringLessTransitive(a, b, c); }
    forall a ensures !StringLess(a, a) { StringLessIrreflexive(a); }
    forall a, b ensures a == b || StringLess(a, b) || StringLess(b, a) { StringLessTotal(a, b); }
  }
}
