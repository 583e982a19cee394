/** Pairs of numbers in text, as both camera parameter classes read and write them: "640x480",
    "10000,20000", and lists of sizes. An int has 32 bits, a long 64. */
module SizeText {
  import opened Wrappers

  const INT_MIN := -0x8000_0000
  const INT_MAX := 0x7FFF_FFFF
  const LONG_MIN := -0x8000_0000_0000_0000
  const LONG_MAX := 0x7FFF_FFFF_FFFF_FFFF

  predicate IsInt(n: int) { INT_MIN <= n <= INT_MAX }

  /** The cast of a long to int. */
  function ToInt(n: int): (r: int)
    ensures IsInt(r) && (n - r) % 0x1_0000_0000 == 0
    ensures IsInt(n) ==> r == n
  {
    var low := n % 0x1_0000_0000;
    if low > INT_MAX then low - 0x1_0000_0000 else low
  }

  // ---- Printing --------------------------------------------------------------------------------

  predicate IsDigit(c: char) { '0' <= c <= '9' }

  function Digit(d: nat): (c: char)
    requires d < 10
    ensures IsDigit(c)
  {
    '0' + d as char
  }

  function Digits(n: nat): (s: string)
    ensures s != [] && forall c :: c in s ==> IsDigit(c)
  {
    if n < 10 then [Digit(n)] else Digits(n / 10) + [Digit(n % 10)]
  }

  function Abs(n: int): nat { if n < 0 then -n else n }

  function Sign(n: int): string { if n < 0 then "-" else "" }

  /** %d. */
  function Decimal(n: int): string { Sign(n) + Digits(Abs(n)) }

  // ---- strtol, base 10 (section 7.20.1.4 of ISO/IEC 9899:1999) ------------------------------------

  predicate IsSpace(c: char) { c == ' ' || '\t' <= c <= '\r' }

  datatype Kind = Space | Numeral

  predicate Is(kind: Kind, c: char) {
    match kind case Space => IsSpace(c) case Numeral => IsDigit(c)
  }

  /** The characters of a kind that start at position i end at position j. */
  ghost predicate EndsAt(s: string, i: nat, kind: Kind, j: nat) {
    i <= j <= |s| && (forall k :: i <= k < j ==> Is(kind, s[k])) && (j == |s| || !Is(kind, s[j]))
  }

  lemma {:induction false} HasEnd(s: string, i: nat, kind: Kind, from: nat)
    requires i <= from <= |s| && forall k :: i <= k < from ==> Is(kind, s[k])
    ensures exists j :: EndsAt(s, i, kind, j)
    decreases |s| - from
  {
    if from < |s| && Is(kind, s[from]) {
      HasEnd(s, i, kind, from + 1);
    } else {
      assert EndsAt(s, i, kind, from);
    }
  }

  /** The end of the characters of a kind that start at a position. */
  ghost function EndOf(s: string, i: nat, kind: Kind): (j: nat)
    requires i <= |s|
    ensures EndsAt(s, i, kind, j)
  {
    HasEnd(s, i, kind, i);
    var j :| EndsAt(s, i, kind, j);
    j
  }

  lemma EndIs(s: string, i: nat, kind: Kind, j: nat)
    requires EndsAt(s, i, kind, j)
    ensures EndOf(s, i, kind) == j
  {
    var e := EndOf(s, i, kind);
    assert forall k :: i <= k < e ==> Is(kind, s[k]);
    assert forall k :: i <= k < j ==> Is(kind, s[k]);
  }

  function DigitValue(c: char): int { c as int - '0' as int }

  /** The number written by the digits from i to j. */
  function ValueOf(s: string, i: nat, j: nat): int
    requires i <= j <= |s|
  {
    if i == j then 0 else 10 * ValueOf(s, i, j - 1) + DigitValue(s[j - 1])
  }

  function Clamp(n: int): int { if n < LONG_MIN then LONG_MIN else if n > LONG_MAX then LONG_MAX else n }

  predicate SignAt(s: string, i: nat) { i < |s| && (s[i] == '-' || s[i] == '+') }

  ghost function DigitsStart(s: string, i: nat): (b: nat)
    requires i <= |s|
    ensures i <= b <= |s|
  {
    var a := EndOf(s, i, Space);
    if SignAt(s, a) then a + 1 else a
  }

  /** The number read from a position, and the position after it: the same position when there is no
      number. */
  ghost function Strtol(s: string, i: nat): (r: (int, nat))
    requires i <= |s|
    ensures i <= r.1 <= |s|
  {
    var b := DigitsStart(s, i);
    var e := EndOf(s, b, Numeral);
    var n := ValueOf(s, b, e);
    if e == b then (0, i) else (Clamp(if b > EndOf(s, i, Space) && s[b - 1] == '-' then -n else n), e)
  }

  /** The characters of a kind are skipped. */
  method Skip(str: string, start: nat, kind: Kind) returns (end: nat)
    requires start <= |str|
    ensures end == EndOf(str, start, kind)
  {
    end := start;
    while end < |str| && Is(kind, str[end])
      invariant start <= end <= |str|
      invariant forall k :: start <= k < end ==> Is(kind, str[k])
    {
      end := end + 1;
    }
    EndIs(str, start, kind, end);
  }

  method CallStrtol(str: string, start: nat) returns (value: int, end: nat)
    requires start <= |str|
    ensures Strtol(str, start) == (value, end) && start <= end <= |str|
  {
    var a := Skip(str, start, Space);
    var b := if SignAt(str, a) then a + 1 else a;
    var e := Skip(str, b, Numeral);
    if e == b { return 0, start; }
    var n := 0;
    for k := b to e
      invariant n == ValueOf(str, b, k)
    {
      n := 10 * n + DigitValue(str[k]);
    }
    value, end := Clamp(if b > a && str[a] == '-' then -n else n), e;
  }

  // ---- parse_pair and parseSizesList --------------------------------------------------------------

  datatype Size = Size(width: int, height: int)

  /** What parse_pair reads from a position, and the position after it. */
  ghost function Pair(s: string, i: nat, delim: char): (r: Option<(Size, nat)>)
    requires i <= |s|
    ensures r.Some? ==> i < r.value.1 <= |s|
  {
    var (w, end) := Strtol(s, i);
    if end == |s| || s[end] != delim then None
    else
      var (h, rest) := Strtol(s, end + 1);
      Some((Size(ToInt(w), ToInt(h)), rest))
  }

  /** The sizes up to the first entry that is not a size followed by a comma or the end. */
  ghost function Sizes(s: string, i: nat): seq<Size>
    requires i <= |s|
    decreases |s| - i
  {
    match Pair(s, i, 'x')
    case None => []
    case Some((size, end)) =>
      if end == |s| then [size]
      else if s[end] == ',' then [size] + Sizes(s, end + 1)
      else []
  }

  /** parse_pair; a failure leaves the numbers and the end pointer alone. */
  method ParsePair(str: string, start: nat, delim: char) returns (ok: bool, size: Size, endptr: nat)
    requires start <= |str|
    ensures start <= endptr <= |str|
    ensures Pair(str, start, delim) == if ok then Some((size, endptr)) else None
  {
    hide Strtol;
    var w, end := CallStrtol(str, start);
    if end == |str| || str[end] != delim {
      return false, Size(0, 0), start;
    }
    var h, rest := CallStrtol(str, end + 1);
    assert Pair(str, start, delim) == Some((Size(ToInt(w), ToInt(h)), rest));
    return true, Size(ToInt(w), ToInt(h)), rest;
  }

  lemma SizesIs(s: string, i: nat, pair: Option<(Size, nat)>)
    requires i <= |s| && Pair(s, i, 'x') == pair
    ensures Sizes(s, i) ==
            match pair
            case None => []
            case Some((size, end)) =>
              if end == |s| then [size] else if s[end] == ',' then [size] + Sizes(s, end + 1) else []
  {
    hide Pair;
  }

  lemma SizesOn(all: seq<Size>, done: seq<Size>, s: string, i: nat, pair: Option<(Size, nat)>)
    requires i <= |s| && Pair(s, i, 'x') == pair && all == done + Sizes(s, i)
    ensures match pair
            case None => all == done
            case Some((size, end)) =>
              if end == |s| then all == done + [size]
              else if s[end] == ',' then all == done + [size] + Sizes(s, end + 1) else all == done
  {
    hide Pair, Sizes;
    SizesIs(s, i, pair);
  }

  method ParseSizesList(sizesStr: Option<string>) returns (sizes: seq<Size>)
    ensures sizes == if sizesStr == None then [] else Sizes(sizesStr.value, 0)
  {
    hide Pair, Sizes;
    sizes := [];
    if sizesStr == None { return; }
    var str := sizesStr.value;
    var ptr := 0;
    ghost var all := Sizes(str, 0);
    while true
      invariant 0 <= ptr <= |str|
      invariant all == sizes + Sizes(str, ptr)
      decreases |str| - ptr
    {
      var ok, size, end := ParsePair(str, ptr, 'x');
      SizesOn(all, sizes, str, ptr, if ok then Some((size, end)) else None);
      if !ok || (end < |str| && str[end] != ',') {
        return;
      }
      sizes := sizes + [size];
      if end == |str| {
        return;
      }
      ptr := end + 1;
    }
  }

  // ---- Round trips -----------------------------------------------------------------------------

  /** The text t is at position i of s. */
  ghost predicate At(s: string, i: nat, t: string) {
    i + |t| <= |s| && forall k :: i <= k < i + |t| ==> s[k] == t[k - i]
  }

  lemma AtConcat(s: string, i: nat, t: string, u: string)
    ensures At(s, i, t + u) <==> At(s, i, t) && At(s, i + |t|, u)
  {
    if At(s, i, t) && At(s, i + |t|, u) {
      forall k | i <= k < i + |t + u| ensures s[k] == (t + u)[k - i] {}
    }
    if At(s, i, t + u) {
      forall k | i <= k < i + |t| ensures s[k] == t[k - i] { assert (t + u)[k - i] == t[k - i]; }
      forall k | i + |t| <= k < i + |t| + |u| ensures s[k] == u[k - i - |t|] {
        assert (t + u)[k - i] == u[k - i - |t|];
      }
    }
  }

  lemma {:induction false} ValueOfDigits(s: string, i: nat, n: nat)
    requires At(s, i, Digits(n))
    ensures ValueOf(s, i, i + |Digits(n)|) == n
  {
    if n < 10 {
      assert ValueOf(s, i, i) == 0;
    } else {
      AtConcat(s, i, Digits(n / 10), [Digit(n % 10)]);
      ValueOfDigits(s, i, n / 10);
    }
  }

  /** strtol skips white space, takes one sign and reads all digits; a value that does not fit a long becomes
      the nearest one that does. */
  lemma StrtolOfDigits(s: string, i: nat, spaces: string, sign: string, digits: string)
    requires sign == "" || sign == "-" || sign == "+"
    requires forall c :: c in spaces ==> c in " \t\n\U{0B}\U{0C}\r"
    requires digits != [] && forall c :: c in digits ==> IsDigit(c)
    requires At(s, i, spaces) && At(s, i + |spaces|, sign) && At(s, i + |spaces| + |sign|, digits)
    requires var e := i + |spaces| + |sign| + |digits|; e == |s| || !IsDigit(s[e])
    ensures var e := i + |spaces| + |sign| + |digits|;
            var n := ValueOf(s, i + |spaces| + |sign|, e);
            var value := if sign == "-" then -n else n;
            && Strtol(s, i).1 == e
            && (-0x8000_0000_0000_0000 <= value < 0x8000_0000_0000_0000 ==> Strtol(s, i).0 == value)
            && (value < -0x8000_0000_0000_0000 ==> Strtol(s, i).0 == -0x8000_0000_0000_0000)
            && (value >= 0x8000_0000_0000_0000 ==> Strtol(s, i).0 == 0x7FFF_FFFF_FFFF_FFFF)
  {
    var a := i + |spaces|;
    var b := a + |sign|;
    assert digits[0] in digits && s[b] == digits[0];
    forall k | i <= k < a ensures IsSpace(s[k]) { assert s[k] == spaces[k - i] && spaces[k - i] in spaces; }
    if sign != "" { assert s[a] == sign[0]; }
    EndIs(s, i, Space, a);
    assert DigitsStart(s, i) == b;
    forall k | b <= k < b + |digits| ensures IsDigit(s[k]) { assert s[k] == digits[k - b] && digits[k - b] in digits; }
    EndIs(s, b, Numeral, b + |digits|);
  }

  /** strtol reads back what %d printed, and stops after it. */
  lemma StrtolOfDecimal(s: string, i: nat, n: int, text: string)
    requires IsInt(n) && text == Decimal(n) && At(s, i, text)
    requires var e := i + |text|; e == |s| || !IsDigit(s[e])
    ensures Strtol(s, i) == (n, i + |text|)
  {
    var sign, digits := Sign(n), Digits(Abs(n));
    AtConcat(s, i, sign, digits);
    ValueOfDigits(s, i + |sign|, Abs(n));
    StrtolOfDigits(s, i, "", sign, digits);
  }

  function PrintPair(size: Size, delim: char): string {
    Decimal(size.width) + ([delim] + Decimal(size.height))
  }

  ghost predicate AreInts(sizes: seq<Size>) {
    forall s :: s in sizes ==> IsInt(s.width) && IsInt(s.height)
  }

  /** parse_pair reads back a printed pair, and stops after it. */
  lemma PairOfPrinted(s: string, i: nat, size: Size, delim: char)
    requires IsInt(size.width) && IsInt(size.height) && !IsDigit(delim) && At(s, i, PrintPair(size, delim))
    requires var e := i + |PrintPair(size, delim)|; e == |s| || !IsDigit(s[e])
    ensures Pair(s, i, delim) == Some((size, i + |PrintPair(size, delim)|))
  {
    PairOfTexts(s, i, size, delim, Decimal(size.width), Decimal(size.height));
  }

  lemma PairOfTexts(s: string, i: nat, size: Size, delim: char, w: string, h: string)
    requires IsInt(size.width) && IsInt(size.height) && !IsDigit(delim)
    requires w == Decimal(size.width) && h == Decimal(size.height) && At(s, i, w + ([delim] + h))
    requires var e := i + |w| + 1 + |h|; e == |s| || !IsDigit(s[e])
    ensures Pair(s, i, delim) == Some((size, i + |w| + 1 + |h|))
  {
    hide Strtol, Decimal;
    AtConcat(s, i, w, [delim] + h);
    AtConcat(s, i + |w|, [delim], h);
    StrtolOfDecimal(s, i, size.width, w);
    StrtolOfDecimal(s, i + |w| + 1, size.height, h);
    PairIs(s, i, delim, (size.width, i + |w|), (size.height, i + |w| + 1 + |h|));
  }

  lemma PairIs(s: string, i: nat, delim: char, width: (int, nat), height: (int, nat))
    requires i <= |s| && Strtol(s, i) == width && width.1 < |s| && s[width.1] == delim
    requires Strtol(s, width.1 + 1) == height
    ensures Pair(s, i, delim) == Some((Size(ToInt(width.0), ToInt(height.0)), height.1))
  {
  }

  /** The example of parse_pair's comment. */
  lemma ExamplePair()
    ensures Pair("640x480", 0, 'x') == Some((Size(640, 480), 7))
  {
    assert Digits(64) == "64" && Digits(48) == "48";
    assert Decimal(640) == "640" && Decimal(480) == "480";
    var size := Size(640, 480);
    assert PrintPair(size, 'x') == "640x480";
    PairOfPrinted("640x480", 0, size, 'x');
  }

  /** What the size getters return for a text: -1 twice when it is not a pair. */
  ghost function Read(p: string, delim: char): Size {
    match Pair(p, 0, delim)
    case None => Size(-1, -1)
    case Some((size, _)) => size
  }

  lemma ReadPrinted(size: Size, delim: char)
    requires IsInt(size.width) && IsInt(size.height) && !IsDigit(delim)
    ensures Read(PrintPair(size, delim), delim) == size && PrintPair(size, delim) != ""
    ensures forall c :: c in PrintPair(size, delim) ==> IsDigit(c) || c == '-' || c == delim
  {
    var text := PrintPair(size, delim);
    assert At(text, 0, text);
    PairOfPrinted(text, 0, size, delim);
    assert forall c :: c in Decimal(size.width) || c in Decimal(size.height) ==> IsDigit(c) || c == '-';
  }

  /** The getters. */
  method ReadPair(p: string, delim: char) returns (size: Size)
    ensures size == Read(p, delim)
  {
    var ok, pair, end := ParsePair(p, 0, delim);
    size := if ok then pair else Size(-1, -1);
  }

  /** sprintf with the format of the setters. */
  method SprintPair(size: Size, delim: char) returns (str: string)
    requires IsInt(size.width) && IsInt(size.height)
    ensures str == PrintPair(size, delim) && |str| < 32
  {
    PrintedPairFits(size, delim);
    str := PrintPair(size, delim);
  }

  function PrintSizes(sizes: seq<Size>): string {
    if sizes == [] then []
    else if |sizes| == 1 then PrintPair(sizes[0], 'x')
    else PrintPair(sizes[0], 'x') + ("," + PrintSizes(sizes[1..]))
  }

  lemma SizesOfFirst(s: string, i: nat, size: Size, text: string)
    requires IsInt(size.width) && IsInt(size.height) && text == PrintPair(size, 'x') && At(s, i, text)
    requires var e := i + |text|; e == |s| || s[e] == ','
    ensures var e := i + |text|;
            Sizes(s, i) == [size] + (if e == |s| then [] else Sizes(s, e + 1))
  {
    PairOfPrinted(s, i, size, 'x');
    SizesIs(s, i, Some((size, i + |text|)));
  }

  lemma AtList(s: string, i: nat, first: string, rest: string)
    requires At(s, i, first + ("," + rest))
    ensures At(s, i, first) && i + |first| < |s| && s[i + |first|] == ',' && At(s, i + |first| + 1, rest)
  {
    AtConcat(s, i, first, "," + rest);
    AtConcat(s, i + |first|, ",", rest);
  }

  /** A printed list is read back, and whatever follows it after a comma only adds to it: a bad entry
      ends the list and keeps the ones before it. */
  lemma {:induction false} SizesOfPrinted(s: string, i: nat, sizes: seq<Size>, text: string)
    requires AreInts(sizes) && sizes != [] && text == PrintSizes(sizes) && At(s, i, text)
    requires var e := i + |text|; e == |s| || s[e] == ','
    ensures var e := i + |text|;
            Sizes(s, i) == sizes + (if e == |s| then [] else Sizes(s, e + 1))
    decreases |sizes|, 1
  {
    hide Pair, Sizes, PrintPair;
    var first := PrintPair(sizes[0], 'x');
    Rejoin(sizes);
    if |sizes| == 1 {
      SizesOfFirst(s, i, sizes[0], first);
    } else {
      var rest := PrintSizes(sizes[1..]);
      SizesOfMore(s, i, sizes[0], sizes[1..], first, rest);
    }
  }

  lemma SizesOfMore(s: string, i: nat, size: Size, sizes: seq<Size>, first: string, rest: string)
    requires IsInt(size.width) && IsInt(size.height) && first == PrintPair(size, 'x')
    requires AreInts(sizes) && sizes != [] && rest == PrintSizes(sizes) && At(s, i, first + ("," + rest))
    requires var e := i + |first| + 1 + |rest|; e == |s| || s[e] == ','
    ensures var e := i + |first| + 1 + |rest|;
            Sizes(s, i) == ([size] + sizes) + (if e == |s| then [] else Sizes(s, e + 1))
    decreases |sizes| + 1, 0
  {
    hide Pair, Sizes, PrintPair, PrintSizes;
    AtList(s, i, first, rest);
    SizesOfFirst(s, i, size, first);
    SizesOfPrinted(s, i + |first| + 1, sizes, rest);
    var e := i + |first| + 1 + |rest|;
    Regroup([size], sizes, if e == |s| then [] else Sizes(s, e + 1));
  }

  lemma Regroup(a: seq<Size>, b: seq<Size>, c: seq<Size>)
    ensures a + (b + c) == (a + b) + c
  {
  }

  lemma Rejoin(sizes: seq<Size>)
    requires sizes != []
    ensures sizes == [sizes[0]] + sizes[1..]
  {
  }

  /** sprintf writes at most 23 characters and a NUL, so its buffer of 32 is large enough. */
  lemma PrintedPairFits(size: Size, delim: char)
    requires IsInt(size.width) && IsInt(size.height)
    ensures |PrintPair(size, delim)| <= 23
  {
    DigitCount(Abs(size.width), 10);
    DigitCount(Abs(size.height), 10);
  }

  function Power10(k: nat): nat { if k == 0 then 1 else 10 * Power10(k - 1) }

  lemma {:induction false} DigitCount(n: nat, k: nat)
    requires k >= 1 && n < Power10(k)
    ensures |Digits(n)| <= k
  {
    if n >= 10 { DigitCount(n / 10, k - 1); }
  }

  lemma NoNumberIsZero(s: string, i: nat)
    requires i <= |s| && (i == |s| || !(IsSpace(s[i]) || IsDigit(s[i]) || SignAt(s, i)))
    ensures Strtol(s, i) == (0, i)
  {
    EndIs(s, i, Space, i);
    EndIs(s, i, Numeral, i);
  }

  /** parse_pair accepts text without the numbers: a missing one reads as 0, so a delimiter alone is a pair
      of zeros. */
  lemma MissingNumbersAreZero(s: string, i: nat, delim: char)
    requires i < |s| && s[i] == delim && !IsSpace(delim) && !IsDigit(delim) && !SignAt(s, i)
    ensures var (h, end) := Strtol(s, i + 1);
            Pair(s, i, delim) == Some((Size(0, ToInt(h)), end))
    ensures i + 1 == |s| || !(IsSpace(s[i + 1]) || IsDigit(s[i + 1]) || SignAt(s, i + 1)) ==>
              Pair(s, i, delim) == Some((Size(0, 0), i + 1))
  {
    hide Strtol;
    NoNumberIsZero(s, i);
    if i + 1 == |s| || !(IsSpace(s[i + 1]) || IsDigit(s[i + 1]) || SignAt(s, i + 1)) {
      NoNumberIsZero(s, i + 1);
    }
  }
}
