/** Line breaking of cmds/screenrecord/TextRenderer.cpp, with real numbers for its floats. Strings
    are C strings: characters before a terminating NUL. */
module LineBreak {
  import opened Wrappers

  const NUL := '\0'

  /** kWhitespace. */
  predicate IsWhitespace(c: char) { c == ' ' || c == '\t' || c == '\n' || c == '\r' }

  /** strchr(kWhitespace, c) != NULL, which also holds of the terminator. */
  predicate StrchrFinds(c: char) { IsWhitespace(c) || c == NUL }

  // ---- Widths ----------------------------------------------------------------------------------

  const FIRST_GLYPH := 32
  const OUTLINE_WIDTH := 1

  /** Where the text goes: the position of the first line, the room to its right, and how far
      the following lines are indented. */
  datatype Layout = Layout(x: real, y: real, lineWidth: real, indent: real)

  const MAX_GLYPH_HEIGHT := 34
  const BORDER_WIDTH := 10.0
  const INDENT_MULT := 30.0

  datatype Screen = Screen(width: nat, height: nat)

  /** One drawn piece and the whitespace skipped after it. */
  datatype Piece = Piece(text: seq<char>, skipped: seq<char>, x: real, y: real)

  function Join(pieces: seq<Piece>): seq<char> {
    if pieces == [] then [] else Join(pieces[..|pieces| - 1]) + pieces[|pieces| - 1].text + pieces[|pieces| - 1].skipped
  }

  lemma JoinSnoc(pieces: seq<Piece>, p: Piece)
    ensures Join(pieces + [p]) == Join(pieces) + p.text + p.skipped
  {
    assert (pieces + [p])[..|pieces|] == pieces;
  }

  /** The top of the k-th line. */
  function LineTop(y: real, k: nat, height: real): real {
    if k == 0 then y else LineTop(y, k - 1, height) + height
  }

  lemma {:induction false} LineTopIs(y: real, k: nat, height: real)
    ensures LineTop(y, k, height) == y + k as real * height
  {
    if k > 0 { LineTopIs(y, k - 1, height); }
  }

  /** The C string that starts at a position, given where its terminator is. */
  method ReadCString(a: array<char>, start: nat, ghost end: nat) returns (text: seq<char>)
    requires start <= end < a.Length && a[end] == NUL && NUL !in a[start..end]
    ensures text == a[start..end]
  {
    text := [];
    var i := start;
    while a[i] != NUL
      invariant start <= i <= end && text == a[start..i]
      decreases end - i
    {
      text := text + [a[i]];
      i := i + 1;
      assert i - 1 < end ==> a[start..i] == text;
    }
  }

  /** strdup. */
  method StrDup(str: seq<char>) returns (copy: array<char>)
    ensures fresh(copy) && copy[..] == str + [NUL]
  {
    copy := new char[|str| + 1](i requires 0 <= i <= |str| => if i < |str| then str[i] else NUL);
  }

  /** The widths of the glyphs, in pixels of the bitmap, and the scale they are drawn at. */
  datatype Font = Font(glyphWidth: seq<nat>, scale: real) {
    /** There is a glyph for '?', and every glyph is wider than the pixels it shares. */
    ghost predicate Valid() {
      && '?' as int - FIRST_GLYPH < |glyphWidth| && scale > 0.0
      && forall i :: 0 <= i < |glyphWidth| ==> glyphWidth[i] > 1 + OUTLINE_WIDTH
    }

    function GlyphIndex(c: char): (i: nat)
      requires Valid()
      ensures i < |glyphWidth|
    {
      var chi := c as int - FIRST_GLYPH;
      if 0 <= chi < |glyphWidth| then chi else '?' as int - FIRST_GLYPH
    }

    /** How far a character moves the next one. */
    function Advance(c: char): (w: real)
      requires Valid()
      ensures w > 0.0
    {
      (glyphWidth[GlyphIndex(c)] - 1 - OUTLINE_WIDTH) as real * scale
    }

    function Width(text: seq<char>): (w: real)
      requires Valid()
      ensures w >= 0.0
    {
      if text == [] then 0.0 else Width(text[..|text| - 1]) + Advance(text[|text| - 1])
    }

    lemma {:induction false} WidthConcat(a: seq<char>, b: seq<char>)
      requires Valid()
      ensures Width(a + b) == Width(a) + Width(b)
      decreases |b|
    {
      if b == [] {
        assert a + b == a;
      } else {
        WidthConcat(a, b[..|b| - 1]);
        assert (a + b)[..|a + b| - 1] == a + b[..|b| - 1];
      }
    }

    /** Where each character puts the next one: by the width of its own glyph without the two shared pixels,
        and by that of the question mark, glyph 31, for a character that has no glyph. */
    lemma WidthOfNext(text: seq<char>, c: char)
      requires Valid()
      ensures Width([]) == 0.0
      ensures Width(text + [c]) ==
              if 32 <= c as int < 32 + |glyphWidth| then Width(text) + (glyphWidth[c as int - 32] - 2) as real * scale
              else Width(text) + (glyphWidth[31] - 2) as real * scale
    {
      assert (text + [c])[..|text|] == text;
    }

    lemma WidthGrows(text: seq<char>, i: nat, j: nat)
      requires Valid() && i < j <= |text|
      ensures Width(text[..i]) < Width(text[..j])
    {
      var more := text[i..j];
      assert text[..j] == text[..i] + more;
      WidthConcat(text[..i], more);
      assert Width(more) >= Advance(more[|more| - 1]);
    }

    /** computeScaledStringWidth. */
    method ComputeScaledStringWidth(str: seq<char>, len: nat) returns (width: real)
      requires Valid() && len <= |str|
      ensures width == Width(str[..len])
    {
      width := 0.0;
      for i := 0 to len
        invariant width == Width(str[..i])
      {
        assert str[..i + 1][..i] == str[..i];
        var chi := GlyphIndex(str[i]);
        width := width + (glyphWidth[chi] - 1 - OUTLINE_WIDTH) as real * scale;
      }
    }

    // ---- One break -----------------------------------------------------------------------------

    function CharAt(text: seq<char>, i: nat): char { if i < |text| then text[i] else NUL }

    /** The longest proper prefix that is narrower than the line, or one character if none is. */
    ghost predicate LongestPrefix(text: seq<char>, maxWidth: real, g: nat)
      requires Valid()
    {
      && 1 <= g && (g < |text| || g == 1 == |text|)
      && (g > 1 ==> Width(text[..g]) < maxWidth)
      && (g + 1 < |text| ==> Width(text[..g + 1]) >= maxWidth)
    }

    /** The last whitespace at or before position g, or g itself if there is none; the first character is
        not considered, the terminator is. */
    ghost predicate LastBreak(text: seq<char>, g: nat, brk: nat) {
      && 1 <= brk <= g
      && if StrchrFinds(CharAt(text, brk)) then forall i :: brk < i <= g ==> !StrchrFinds(CharAt(text, i))
         else brk == g && forall i :: 0 < i <= g ==> !StrchrFinds(CharAt(text, i))
    }

    /** breakString: NULL, or the position to break at. */
    method BreakString(text: seq<char>, maxWidth: real) returns (brk: Option<nat>, ghost g: nat)
      requires Valid()
      ensures brk == None <==> text == [] || Width(text) <= maxWidth
      ensures brk.Some? ==> LongestPrefix(text, maxWidth, g) && LastBreak(text, g, brk.value)
    {
      g := 0;
      var len := |text|;
      assert text[..len] == text;
      if len == 0 { return None, g; }
      var stringWidth := ComputeScaledStringWidth(text, len);
      if stringWidth <= maxWidth { return None, g; }
      var goodPos := 0;
      var i := 0;
      while i < len
        invariant i <= len && goodPos == (if i == 0 then 0 else i - 1)
        invariant i > 0 ==> Width(text[..goodPos]) < maxWidth
      {
        stringWidth := ComputeScaledStringWidth(text, i);
        if stringWidth < maxWidth {
          goodPos := i;
        } else {
          break;
        }
        i := i + 1;
      }
      assert goodPos + 1 < len ==> Width(text[..goodPos + 1]) >= maxWidth || i == 0;
      if goodPos == 0 {
        if i == 0 && len > 2 { WidthGrows(text, 0, 2); }
        if i == 1 && len > 2 { WidthGrows(text, 1, 2); }
        goodPos := 1;
      }
      g := goodPos;
      var back := goodPos;
      while back > 0
        invariant back <= g && goodPos == g
        invariant forall k :: back < k <= g ==> !StrchrFinds(CharAt(text, k))
      {
        if StrchrFinds(CharAt(text, back)) {
          goodPos := back;
          break;
        }
        back := back - 1;
      }
      return Some(goodPos), g;
    }

    // ---- Drawing with breaks -------------------------------------------------------------------

    /** The line widths available: the full one for the first line, the indented one for the rest. */
    function LineWidth(layout: Layout, k: nat): real
      requires Valid()
    {
      layout.lineWidth - (if k == 0 then 0.0 else layout.indent)
    }

    ghost predicate PieceFits(p: Piece, k: nat, layout: Layout)
      requires Valid()
    {
      Width(p.text) <= LineWidth(layout, k) || |p.text| <= 1
    }

    ghost predicate PiecePlaced(p: Piece, k: nat, layout: Layout, height: real) {
      p.x == layout.x + (if k == 0 then 0.0 else layout.indent) && p.y == LineTop(layout.y, k, height)
    }

    /** Each piece is on its own line, fits it, and skips at most one whitespace character. */
    ghost predicate Drawn(pieces: seq<Piece>, layout: Layout, height: real)
      requires Valid()
    {
      pieces == [] ||
      var k := |pieces| - 1;
      && PieceFits(pieces[k], k, layout) && PiecePlaced(pieces[k], k, layout, height)
      && |pieces[k].skipped| <= 1 && (forall c :: c in pieces[k].skipped ==> IsWhitespace(c))
      && Drawn(pieces[..k], layout, height)
    }

    /** The last character is wider than every line it can fall on. */
    predicate LastTooWide(str: seq<char>, layout: Layout)
      requires Valid()
    {
      && str != [] && Width(str) > layout.lineWidth
      && (|str| == 1 || Advance(str[|str| - 1]) > LineWidth(layout, 1))
    }

    lemma LastFits(str: seq<char>, start: nat)
      requires Valid() && start < |str|
      ensures Advance(str[|str| - 1]) <= Width(str[start..])
    {
      var rest := str[start..];
      assert rest[|rest| - 1] == str[|str| - 1];
    }

    /** A chosen break leaves a piece that fits or has one character, and is at the end of the text
        only when the text is one character. */
    lemma BreakFits(rest: seq<char>, maxWidth: real, g: nat, brk: nat)
      requires Valid() && rest != [] && LongestPrefix(rest, maxWidth, g) && LastBreak(rest, g, brk)
      ensures 1 <= brk <= |rest| && (brk == |rest| ==> |rest| == 1)
      ensures brk == 1 || Width(rest[..brk]) < maxWidth
      ensures |rest| == 1 ==> Width(rest) == Advance(rest[0])
    {
      if 1 < brk < g { WidthGrows(rest, brk, g); }
      if |rest| == 1 { assert rest[..0] == []; }
    }

    /** The text does not fit the width, and p is what is cut off it: p ends at the chosen break, and
        one whitespace character found there is skipped. */
    ghost predicate Cut(rest: seq<char>, p: Piece, width: real)
      requires Valid()
    {
      && rest != [] && Width(rest) > width
      && (exists g: nat :: LongestPrefix(rest, width, g) && LastBreak(rest, g, |p.text|))
      && p.text + p.skipped <= rest
      && p.skipped == (if |p.text| < |rest| && IsWhitespace(rest[|p.text|]) then [rest[|p.text|]] else [])
    }

    lemma CutFits(rest: seq<char>, p: Piece, width: real)
      requires Valid() && Cut(rest, p, width)
      ensures 1 <= |p.text| <= |rest| && (|p.text| == |rest| ==> |rest| == 1 && p.skipped == [])
      ensures Width(p.text) <= width || |p.text| == 1
      ensures |p.skipped| <= 1 && forall c :: c in p.skipped ==> IsWhitespace(c)
      ensures |p.text| + |p.skipped| == |rest| > 1 ==> IsWhitespace(rest[|rest| - 1])
      ensures |rest| == 1 ==> Width(rest) == Advance(rest[0])
    {
      var g: nat :| LongestPrefix(rest, width, g) && LastBreak(rest, g, |p.text|);
      BreakFits(rest, width, g, |p.text|);
      assert p.text == (p.text + p.skipped)[..|p.text|] == rest[..|p.text|];
    }

    lemma CutsRest(rest: seq<char>, p: Piece, width: real, g: nat)
      requires Valid() && rest != [] && Width(rest) > width
      requires LongestPrefix(rest, width, g) && LastBreak(rest, g, |p.text|)
      requires |p.text| <= |rest| && p.text == rest[..|p.text|]
      requires p.skipped == (if |p.text| < |rest| && IsWhitespace(rest[|p.text|]) then [rest[|p.text|]] else [])
      ensures Cut(rest, p, width)
    {
      assert p.text + p.skipped <= rest;
    }

    function Remaining(str: seq<char>, pieces: seq<Piece>): seq<char> {
      if |Join(pieces)| <= |str| then str[|Join(pieces)|..] else []
    }

    /** Each piece is cut off what the ones before it left, and is not all of it. */
    ghost predicate AllCut(str: seq<char>, pieces: seq<Piece>, layout: Layout)
      requires Valid()
    {
      pieces == [] ||
      var k := |pieces| - 1;
      && AllCut(str, pieces[..k], layout) && Cut(Remaining(str, pieces[..k]), pieces[k], LineWidth(layout, k))
      && |pieces[k].text| < |Remaining(str, pieces[..k])|
    }

    /** Ends the string at the break, draws from start, and puts the character back. */
    method CutOff(mangle: array<char>, ghost str: seq<char>, start: nat, at: nat) returns (text: seq<char>, ch: char)
      requires NUL !in str && mangle[..] == str + [NUL] && start <= at <= |str|
      modifies mangle
      ensures mangle[..] == old(mangle[..])
      ensures text == str[start..at] && ch == CharAt(str, at)
    {
      ch := mangle[at];
      mangle[at] := NUL;
      assert mangle[..at] == str[..at];
      text := ReadCString(mangle, start, at);
      mangle[at] := ch;
    }

    /** While the loop runs: what was drawn is the text before start. */
    ghost predicate Breaking(str: seq<char>, pieces: seq<Piece>, start: nat, layout: Layout, height: real)
      requires Valid()
    {
      && start <= |str| && Join(pieces) == str[..start]
      && Drawn(pieces, layout, height) && AllCut(str, pieces, layout)
      && (start == 0 <==> pieces == [])
      && (start > 0 ==> Width(str) > layout.lineWidth && |str| > 1)
      && (start > 0 ==> IsWhitespace(str[start - 1]) || (start < |str| && !IsWhitespace(str[start])))
    }

    /** The last piece is not empty. */
    predicate LastDrawn(pieces: seq<Piece>) { pieces != [] && pieces[|pieces| - 1].text != [] }

    /** After the loop: what was drawn is the whole text, and every piece but the last was cut off; the
        last one is empty only for an empty text or one that ends in whitespace. */
    ghost predicate Wrapped(str: seq<char>, pieces: seq<Piece>, layout: Layout, height: real)
      requires Valid()
    {
      && pieces != [] && Join(pieces) == str
      && Drawn(pieces, layout, height) && AllCut(str, pieces[..|pieces| - 1], layout)
      && (|pieces| == 1 <==> |str| <= 1 || Width(str) <= layout.lineWidth)
      && pieces[|pieces| - 1].skipped == []
      && (LastDrawn(pieces) || str == [] || (|str| > 1 && IsWhitespace(str[|str| - 1])))
    }

    lemma DrawnSnoc(pieces: seq<Piece>, p: Piece, layout: Layout, height: real)
      requires Valid() && Drawn(pieces, layout, height)
      requires PieceFits(p, |pieces|, layout) && PiecePlaced(p, |pieces|, layout, height)
      requires |p.skipped| <= 1 && forall c :: c in p.skipped ==> IsWhitespace(c)
      ensures Drawn(pieces + [p], layout, height)
    {
      assert (pieces + [p])[..|pieces|] == pieces;
    }

    lemma AllCutSnoc(str: seq<char>, pieces: seq<Piece>, p: Piece, rest: seq<char>, layout: Layout)
      requires Valid() && AllCut(str, pieces, layout)
      requires Remaining(str, pieces) == rest && Cut(rest, p, LineWidth(layout, |pieces|)) && |p.text| < |rest|
      ensures AllCut(str, pieces + [p], layout)
    {
      assert (pieces + [p])[..|pieces|] == pieces;
    }

    lemma WholeRest(str: seq<char>, pieces: seq<Piece>, start: nat, p: Piece, layout: Layout, height: real)
      requires Valid() && Breaking(str, pieces, start, layout, height)
      requires p.text == str[start..] && p.skipped == [] && PiecePlaced(p, |pieces|, layout, height)
      requires start == |str| || Width(p.text) <= LineWidth(layout, |pieces|)
      ensures Wrapped(str, pieces + [p], layout, height)
      ensures start < |str| ==> !LastTooWide(str, layout)
    {
      hide Drawn, AllCut, Width;
      DrawnSnoc(pieces, p, layout, height);
      JoinSnoc(pieces, p);
      assert str[..start] + p.text + p.skipped == str;
      assert (pieces + [p])[..|pieces|] == pieces;
      if start < |str| { LastFits(str, start); }
      if start == 0 { assert str[0..] == str; }
    }

    lemma WholeString(str: seq<char>, p: Piece, layout: Layout, height: real)
      requires Valid() && p == Piece(str, [], layout.x, layout.y) && Width(str) <= layout.lineWidth
      ensures Wrapped(str, [p], layout, height) && !LastTooWide(str, layout)
    {
      var nothing: seq<Piece> := [];
      assert Breaking(str, nothing, 0, layout, height);
      WholeRest(str, nothing, 0, p, layout, height);
      assert [p] == nothing + [p];
    }

    lemma TextGoesOn(str: seq<char>, pieces: seq<Piece>, start: nat, p: Piece)
      requires start <= |str| && Join(pieces) == str[..start] && p.text + p.skipped <= str[start..]
      ensures Join(pieces + [p]) == str[..start + |p.text| + |p.skipped|]
    {
      JoinSnoc(pieces, p);
      assert str[..start] + (p.text + p.skipped) == str[..start + |p.text| + |p.skipped|];
      assert str[..start] + (p.text + p.skipped) == str[..start] + p.text + p.skipped;
    }

    /** After a cut, either whitespace was skipped or the next character is none. */
    lemma SkipsSpace(str: seq<char>, start: nat, p: Piece, width: real)
      requires Valid() && start <= |str| && Cut(str[start..], p, width) && |p.text| < |str| - start
      ensures var at := start + |p.text| + |p.skipped|;
              0 < at <= |str| && (IsWhitespace(str[at - 1]) || (at < |str| && !IsWhitespace(str[at])))
    {
      hide LongestPrefix;
      assert str[start..][|p.text|] == str[start + |p.text|];
    }

    lemma CutGoesOn(str: seq<char>, pieces: seq<Piece>, start: nat, p: Piece, layout: Layout, height: real)
      requires Valid() && Breaking(str, pieces, start, layout, height)
      requires Cut(str[start..], p, LineWidth(layout, |pieces|)) && PiecePlaced(p, |pieces|, layout, height)
      requires |p.text| < |str| - start
      ensures Breaking(str, pieces + [p], start + |p.text| + |p.skipped|, layout, height)
    {
      var rest := str[start..];
      CutFits(rest, p, LineWidth(layout, |pieces|));
      hide Drawn, AllCut, Cut, Width;
      DrawnSnoc(pieces, p, layout, height);
      AllCutSnoc(str, pieces, p, rest, layout);
      TextGoesOn(str, pieces, start, p);
      SkipsSpace(str, start, p, LineWidth(layout, |pieces|));
      if start == 0 { assert rest == str; }
    }

    lemma CutPastEnd(str: seq<char>, pieces: seq<Piece>, start: nat, p: Piece, layout: Layout, height: real)
      requires Valid() && Breaking(str, pieces, start, layout, height)
      requires Cut(str[start..], p, LineWidth(layout, |pieces|)) && PiecePlaced(p, |pieces|, layout, height)
      requires |p.text| == |str| - start
      ensures Wrapped(str, pieces + [p], layout, height) && LastTooWide(str, layout)
      ensures LastDrawn(pieces + [p]) && CanRunPastEnd(str)
    {
      var rest := str[start..];
      CutFits(rest, p, LineWidth(layout, |pieces|));
      WholeCut(rest, p, LineWidth(layout, |pieces|));
      hide Drawn, AllCut, Cut, Width;
      assert (pieces + [p])[..|pieces|] == pieces;
      DrawnSnoc(pieces, p, layout, height);
      JoinSnoc(pieces, p);
      if start == 0 { assert rest == str; }
      assert str[..start] + p.text + p.skipped == str;
    }

    lemma WholeCut(rest: seq<char>, p: Piece, width: real)
      requires Valid() && Cut(rest, p, width) && |p.text| == |rest|
      ensures p.text == rest && p.skipped == [] && Width(rest) > width
    {
    }

    /** What one iteration draws from start, and where it leaves start. */
    ghost predicate Drew(str: seq<char>, start: nat, width: real, piece: Piece, next: Option<nat>)
      requires Valid() && start <= |str|
    {
      match next
      case None => piece.text == str[start..] && piece.skipped == [] && (start == |str| || Width(piece.text) <= width)
      case Some(at) =>
        && Cut(str[start..], piece, width) && 1 <= |piece.text| <= |str| - start
        && at == (if |piece.text| < |str| - start then start + |piece.text| + |piece.skipped| else |str| + 1)
    }

    /** A text whose last character cannot be skipped. */
    predicate NoTrailingSpace(str: seq<char>) { |str| <= 1 || !IsWhitespace(str[|str| - 1]) }

    /** A text of one character, or one that ends in no whitespace or in two whitespace characters. */
    predicate CanRunPastEnd(str: seq<char>) {
      |str| == 1 || (|str| > 1 && (!IsWhitespace(str[|str| - 1]) || IsWhitespace(str[|str| - 2])))
    }

    /** Where the loop is: start is NULL after the last piece, and past the terminator when the last
        character was wider than its line. */
    ghost predicate Progress(str: seq<char>, pieces: seq<Piece>, start: Option<nat>, layout: Layout, height: real)
      requires Valid()
    {
      match start
      case None => Wrapped(str, pieces, layout, height)
                   && (LastDrawn(pieces) ==> !LastTooWide(str, layout))
      case Some(at) =>
        if at <= |str| then Breaking(str, pieces, at, layout, height)
        else
          && Wrapped(str, pieces, layout, height) && LastTooWide(str, layout) && LastDrawn(pieces)
          && CanRunPastEnd(str)
    }

    lemma ProgressStep(str: seq<char>, pieces: seq<Piece>, start: nat, p: Piece, next: Option<nat>, layout: Layout,
                       height: real)
      requires Valid() && start <= |str| && Progress(str, pieces, Some(start), layout, height)
      requires Drew(str, start, LineWidth(layout, |pieces|), p, next) && PiecePlaced(p, |pieces|, layout, height)
      ensures Progress(str, pieces + [p], next, layout, height)
      ensures next.Some? ==> next.value > start
    {
      hide LongestPrefix, LastBreak, Drawn, AllCut, Width, Breaking, Wrapped, LastTooWide;
      if next == None {
        WholeRest(str, pieces, start, p, layout, height);
      } else if next.value > |str| {
        CutPastEnd(str, pieces, start, p, layout, height);
      } else {
        CutGoesOn(str, pieces, start, p, layout, height);
      }
    }

    /** The adjusted position of a piece and the room it has. */
    method LineAt(start: nat, layout: Layout, ghost k: nat) returns (xposAdj: real, width: real)
      requires Valid() && (start == 0 <==> k == 0)
      ensures width == LineWidth(layout, k) && xposAdj == layout.x + (if k == 0 then 0.0 else layout.indent)
    {
      xposAdj := if start == 0 then layout.x else layout.x + layout.indent;
      width := layout.lineWidth - (xposAdj - layout.x);
    }

    /** One iteration: draws the rest of the string (None), or cuts a piece off it and moves on; past
        the terminator when the piece ended there. */
    method NextPiece(mangle: array<char>, ghost str: seq<char>, start: nat, x: real, y: real, width: real)
      returns (piece: Piece, next: Option<nat>)
      requires Valid() && NUL !in str && mangle[..] == str + [NUL] && start <= |str|
      modifies mangle
      ensures mangle[..] == old(mangle[..])
      ensures piece.x == x && piece.y == y
      ensures Drew(str, start, width, piece, next)
    {
      var rest := ReadCString(mangle, start, |str|);
      assert rest == str[start..];
      var brk, g := BreakString(rest, width);
      if brk == None {
        return Piece(rest, [], x, y), None;
      }
      BreakFits(rest, width, g, brk.value);
      var text, ch := CutOff(mangle, str, start, start + brk.value);
      var skip := StrchrFinds(ch);
      piece := Piece(text, if skip && ch != NUL then [ch] else [], x, y);
      CutsRest(rest, piece, width, g);
      next := Some(start + brk.value + (if skip then 1 else 0));
    }

    /** How much of the string is left for the loop. */
    function Left(str: seq<char>, start: Option<nat>): nat {
      if start.Some? && start.value <= |str| then |str| + 1 - start.value else 0
    }

    /** The body of the breaking loop. */
    method DrawLine(mangle: array<char>, ghost str: seq<char>, start: nat, layout: Layout, height: real, ypos: real,
                    ghost pieces: seq<Piece>)
      returns (piece: Piece, next: Option<nat>)
      requires Valid() && NUL !in str && mangle[..] == str + [NUL] && start <= |str|
      requires Progress(str, pieces, Some(start), layout, height) && ypos == LineTop(layout.y, |pieces|, height)
      modifies mangle
      ensures mangle[..] == old(mangle[..])
      ensures Progress(str, pieces + [piece], next, layout, height) && Left(str, next) < Left(str, Some(start))
    {
      var xposAdj, width := LineAt(start, layout, |pieces|);
      piece, next := NextPiece(mangle, str, start, xposAdj, ypos, width);
      ProgressStep(str, pieces, start, piece, next, layout, height);
    }

    lemma ProgressStarts(str: seq<char>, layout: Layout, height: real)
      requires Valid()
      ensures Progress(str, [], Some(0), layout, height)
    {
    }

    lemma ProgressEnds(str: seq<char>, pieces: seq<Piece>, start: Option<nat>, layout: Layout, height: real)
      requires Valid() && Progress(str, pieces, start, layout, height) && Left(str, start) == 0
      ensures Wrapped(str, pieces, layout, height)
      ensures start.Some? <==> LastTooWide(str, layout) && LastDrawn(pieces)
      ensures NoTrailingSpace(str) ==> (start.Some? <==> LastTooWide(str, layout))
      ensures start.Some? ==> CanRunPastEnd(str)
    {
    }

    /** The breaking loop of drawWrappedString. The pieces, with the skipped whitespace put back, are
        the string; every piece but the last ends at the chosen break; each fits its line or has at
        most one character. The last piece is empty exactly when the last line starts at the end of the
        string. The loop runs past the end exactly when the last line starts at the last character and
        that is wider than the line; for a string without trailing whitespace, exactly when its last
        character is too wide. */
    method DrawPieces(str: seq<char>, layout: Layout, height: real)
      returns (pieces: seq<Piece>, ypos: real, pastEnd: bool)
      requires Valid() && NUL !in str
      ensures Wrapped(str, pieces, layout, height)
      ensures ypos == LineTop(layout.y, |pieces|, height)
      ensures LastDrawn(pieces) <==> LastStart(str, layout, 0) < |str|
      ensures pastEnd <==> LastAloneTooWide(str, layout)
      ensures NoTrailingSpace(str) ==> (pastEnd <==> LastTooWide(str, layout))
      ensures pastEnd ==> CanRunPastEnd(str)
    {
      hide Progress, Breaking, Wrapped, LastTooWide;
      var mangle := StrDup(str);
      pieces, ypos := [], layout.y;
      var start := Some(0);
      ProgressStarts(str, layout, height);
      while Left(str, start) > 0
        invariant mangle[..] == str + [NUL]
        invariant ypos == LineTop(layout.y, |pieces|, height)
        invariant Progress(str, pieces, start, layout, height)
        decreases Left(str, start)
      {
        var piece;
        piece, start := DrawLine(mangle, str, start.value, layout, height, ypos, pieces);
        pieces, ypos := pieces + [piece], ypos + height;
      }
      ProgressEnds(str, pieces, start, layout, height);
      LastLineIff(str, pieces, layout, height);
      pastEnd := start.Some?;
    }

    // ---- Where the last line starts ------------------------------------------------------------

    function LongestFit(text: seq<char>, width: real, top: nat): (g: nat)
      requires Valid() && top <= |text|
      ensures 1 <= g && (g == 1 || g <= top)
    {
      if top <= 1 then 1 else if Width(text[..top]) < width then top else LongestFit(text, width, top - 1)
    }

    function SpaceUpTo(text: seq<char>, g: nat, top: nat): (brk: nat)
      requires 1 <= g && top <= g
      ensures 1 <= brk <= g
    {
      if top == 0 then g else if StrchrFinds(CharAt(text, top)) then top else SpaceUpTo(text, g, top - 1)
    }

    /** Where a text that does not fit is broken. */
    function BreakAt(text: seq<char>, width: real): (brk: nat)
      requires Valid() && text != []
      ensures 1 <= brk
    {
      var g := LongestFit(text, width, |text| - 1);
      SpaceUpTo(text, g, g)
    }

    /** Where the last line starts when one starts here: the rest fits, or is a single character, or is cut
        and the next line starts after the cut and the whitespace found there. */
    function LastStart(str: seq<char>, layout: Layout, start: nat): (last: nat)
      requires Valid() && start <= |str|
      ensures start <= last <= |str|
      decreases |str| - start
    {
      var rest, width := str[start..], LineWidth(layout, start);
      if rest == [] || Width(rest) <= width || BreakAt(rest, width) >= |rest| then start
      else
        var brk := BreakAt(rest, width);
        LastStart(str, layout, start + brk + (if IsWhitespace(rest[brk]) then 1 else 0))
    }

    lemma {:induction false} LongestFitIs(text: seq<char>, width: real, g: nat, top: nat)
      requires Valid() && LongestPrefix(text, width, g) && top < |text| && (g == 1 || g <= top)
      ensures LongestFit(text, width, top) == g
    {
      if top > 1 && top > g {
        if g + 1 < top { WidthGrows(text, g + 1, top); }
        LongestFitIs(text, width, g, top - 1);
      }
    }

    lemma {:induction false} SpaceUpToIs(text: seq<char>, g: nat, brk: nat, top: nat)
      requires LastBreak(text, g, brk) && top <= g && (StrchrFinds(CharAt(text, brk)) ==> brk <= top)
      ensures SpaceUpTo(text, g, top) == brk
    {
      if top > 0 && !StrchrFinds(CharAt(text, top)) { SpaceUpToIs(text, g, brk, top - 1); }
    }

    lemma CutIsAtBreak(rest: seq<char>, p: Piece, width: real)
      requires Valid() && Cut(rest, p, width)
      ensures |p.text| == BreakAt(rest, width)
    {
      var g: nat :| LongestPrefix(rest, width, g) && LastBreak(rest, g, |p.text|);
      LongestFitIs(rest, width, g, |rest| - 1);
      SpaceUpToIs(rest, g, |p.text|, g);
    }

    lemma LastStartAfterCut(str: seq<char>, layout: Layout, start: nat, p: Piece)
      requires Valid() && start <= |str| && |p.text| < |str| - start
      requires Cut(str[start..], p, LineWidth(layout, start))
      ensures var next := start + |p.text| + |p.skipped|;
              start < next <= |str| && LastStart(str, layout, next) == LastStart(str, layout, start)
    {
      CutIsAtBreak(str[start..], p, LineWidth(layout, start));
      hide LongestPrefix, LastBreak, BreakAt, Width;
    }

    /** The pieces cut off so far lead to a line start from which the same last line is reached. */
    ghost predicate LeadsToLast(str: seq<char>, pieces: seq<Piece>, layout: Layout)
      requires Valid()
    {
      var start := |Join(pieces)|;
      && start <= |str| && (start == 0 <==> pieces == [])
      && LastStart(str, layout, start) == LastStart(str, layout, 0)
    }

    lemma LeadsOn(str: seq<char>, pieces: seq<Piece>, p: Piece, layout: Layout)
      requires Valid() && LeadsToLast(str, pieces, layout) && |p.text| < |Remaining(str, pieces)|
      requires Cut(Remaining(str, pieces), p, LineWidth(layout, |pieces|))
      ensures LeadsToLast(str, pieces + [p], layout)
    {
      hide Cut, LastStart, Join;
      LastStartAfterCut(str, layout, |Join(pieces)|, p);
      JoinSnoc(pieces, p);
    }

    lemma LastIsCut(str: seq<char>, pieces: seq<Piece>, layout: Layout)
      requires Valid() && AllCut(str, pieces, layout) && pieces != []
      ensures var n := |pieces| - 1; var rest := Remaining(str, pieces[..n]);
              && AllCut(str, pieces[..n], layout) && |pieces[n].text| < |rest|
              && Cut(rest, pieces[n], LineWidth(layout, n))
    {
      hide Cut, Remaining;
    }

    lemma {:induction false} SameLastStart(str: seq<char>, pieces: seq<Piece>, layout: Layout)
      requires Valid() && AllCut(str, pieces, layout)
      ensures LeadsToLast(str, pieces, layout)
    {
      hide *;
      if pieces == [] {
        LeadsFromStart(str, layout);
      } else {
        LastIsCut(str, pieces, layout);
        var before, p := pieces[..|pieces| - 1], pieces[|pieces| - 1];
        SameLastStart(str, before, layout);
        LeadsOn(str, before, p, layout);
        assert before + [p] == pieces;
      }
    }

    lemma LeadsFromStart(str: seq<char>, layout: Layout)
      requires Valid()
      ensures LeadsToLast(str, [], layout)
    {
      hide LastStart;
    }

    lemma Suffix(all: seq<char>, a: seq<char>, t: seq<char>, skipped: seq<char>)
      requires all == a + t + skipped && skipped == []
      ensures |a| <= |all| && all[|a|..] == t
    {
    }

    /** The last piece is what the others have left. */
    lemma LastIsRest(str: seq<char>, pieces: seq<Piece>)
      requires pieces != [] && Join(pieces) == str && pieces[|pieces| - 1].skipped == []
      ensures var start := |Join(pieces[..|pieces| - 1])|;
              start <= |str| && pieces[|pieces| - 1].text == str[start..]
    {
      hide *;
      var firsts, p := pieces[..|pieces| - 1], pieces[|pieces| - 1];
      assert firsts + [p] == pieces;
      JoinSnoc(firsts, p);
      Suffix(str, Join(firsts), p.text, p.skipped);
    }

    lemma LastStartStops(str: seq<char>, layout: Layout, start: nat)
      requires Valid() && start <= |str| && (Width(str[start..]) <= LineWidth(layout, start) || |str| - start <= 1)
      ensures LastStart(str, layout, start) == start
    {
      hide Width;
    }

    lemma LastPieceStart(str: seq<char>, pieces: seq<Piece>, layout: Layout, height: real)
      requires Valid() && Wrapped(str, pieces, layout, height)
      ensures var last := LastStart(str, layout, 0);
              pieces[|pieces| - 1].text == str[last..] && (last == 0 <==> |pieces| == 1)
    {
      var n := |pieces| - 1;
      DrawnAt(pieces, n, layout, height);
      SameLastStart(str, pieces[..n], layout);
      LastIsRest(str, pieces);
      hide AllCut, Drawn, Join, LastStart, Width;
      LastStartStops(str, layout, |Join(pieces[..n])|);
    }

    /** The last line starts at the last character, and that is wider than the line. */
    predicate LastAloneTooWide(str: seq<char>, layout: Layout)
      requires Valid()
    {
      && str != [] && LastStart(str, layout, 0) == |str| - 1
      && Advance(str[|str| - 1]) > LineWidth(layout, |str| - 1)
    }

    /** For every text and layout: the last piece is empty exactly when the last line starts at the end of
        the text, and the last character is drawn too wide exactly when it has the last line to itself
        and does not fit it. */
    lemma LastLineIff(str: seq<char>, pieces: seq<Piece>, layout: Layout, height: real)
      requires Valid() && Wrapped(str, pieces, layout, height)
      ensures !LastDrawn(pieces) <==> LastStart(str, layout, 0) == |str|
      ensures LastTooWide(str, layout) && LastDrawn(pieces) <==> LastAloneTooWide(str, layout)
    {
      LastPieceStart(str, pieces, layout, height);
      var n, last := |pieces| - 1, LastStart(str, layout, 0);
      hide LastStart, AllCut;
      if last < |str| {
        LastFits(str, last);
        assert PieceFits(pieces[n], n, layout);
      }
      if |str| == 1 { assert str[..0] == []; }
    }

    // ---- What the pieces are -------------------------------------------------------------------

    lemma {:induction false} DrawnAt(pieces: seq<Piece>, k: nat, layout: Layout, height: real)
      requires Valid() && Drawn(pieces, layout, height) && k < |pieces|
      ensures PieceFits(pieces[k], k, layout) && PiecePlaced(pieces[k], k, layout, height)
      ensures |pieces[k].skipped| <= 1 && forall c :: c in pieces[k].skipped ==> IsWhitespace(c)
      ensures forall c :: c in pieces[k].text ==> c in Join(pieces)
    {
      if k < |pieces| - 1 { DrawnAt(pieces[..|pieces| - 1], k, layout, height); }
    }

    /** Every piece but the last is cut off what the ones before it left. */
    lemma {:induction false} AllCutAt(str: seq<char>, pieces: seq<Piece>, k: nat, layout: Layout)
      requires Valid() && AllCut(str, pieces, layout) && k < |pieces|
      ensures Cut(Remaining(str, pieces[..k]), pieces[k], LineWidth(layout, k))
    {
      if k < |pieces| - 1 {
        AllCutAt(str, pieces[..|pieces| - 1], k, layout);
        assert pieces[..|pieces| - 1][..k] == pieces[..k];
      }
    }

    /** Every piece of more than one character ends before the right border of the layout, and a piece is cut
        off only when what was left would pass it from where the piece is drawn. */
    lemma RightBorder(str: seq<char>, pieces: seq<Piece>, k: nat, layout: Layout, height: real)
      requires Valid() && Wrapped(str, pieces, layout, height) && k < |pieces|
      ensures |pieces[k].text| > 1 ==> pieces[k].x + Width(pieces[k].text) <= layout.x + layout.lineWidth
      ensures k < |pieces| - 1 ==> pieces[k].x + Width(Remaining(str, pieces[..k])) > layout.x + layout.lineWidth
    {
      DrawnAt(pieces, k, layout, height);
      if k < |pieces| - 1 {
        var firsts := pieces[..|pieces| - 1];
        AllCutAt(str, firsts, k, layout);
        assert firsts[..k] == pieces[..k];
      }
    }

    /** When every character is narrower than the indented line, every piece fits its line and the
        loop stays inside the string. */
    lemma NarrowTextFits(str: seq<char>, pieces: seq<Piece>, layout: Layout, height: real)
      requires Valid() && layout.indent >= 0.0 && str != [] && Wrapped(str, pieces, layout, height)
      requires forall c :: c in str ==> Advance(c) <= LineWidth(layout, 1)
      ensures forall k :: 0 <= k < |pieces| ==> Width(pieces[k].text) <= LineWidth(layout, k)
      ensures !LastTooWide(str, layout)
    {
      assert Advance(str[0]) <= LineWidth(layout, 1);
      forall k | 0 <= k < |pieces| ensures Width(pieces[k].text) <= LineWidth(layout, k) {
        DrawnAt(pieces, k, layout, height);
        var text := pieces[k].text;
        if |text| == 1 {
          assert text[0] in str;
          assert text[..0] == [];
        }
      }
      if |str| == 1 { assert str[..0] == []; }
    }

    lemma SpaceCut(str: seq<char>, p: Piece, width: real)
      requires Valid() && |str| >= 2 && IsWhitespace(str[|str| - 1]) && Width(str[..|str| - 1]) < width
      requires Cut(str, p, width)
      ensures p.text == str[..|str| - 1] && p.text + p.skipped == str
    {
      var n := |str|;
      var g: nat :| LongestPrefix(str, width, g) && LastBreak(str, g, |p.text|);
      if g + 1 < n - 1 { WidthGrows(str, g + 1, n - 1); }
      assert g == n - 1 && StrchrFinds(CharAt(str, g)) && |p.text| == g;
    }

    lemma JoinFirst(p: Piece)
      ensures Join([p]) == p.text + p.skipped
    {
      assert [p][..0] == [];
      assert Join([p]) == [] + p.text + p.skipped;
    }

    lemma FirstIsAll(str: seq<char>, pieces: seq<Piece>)
      requires pieces != [] && pieces[0].text + pieces[0].skipped == str
      ensures Join(pieces[..1]) == str && Remaining(str, pieces[..1]) == []
    {
      JoinFirst(pieces[0]);
      hide Join;
      assert pieces[..1] == [pieces[0]];
    }

    lemma FirstCut(str: seq<char>, pieces: seq<Piece>, layout: Layout)
      requires Valid() && AllCut(str, pieces, layout) && pieces != []
      requires |str| >= 2 && IsWhitespace(str[|str| - 1]) && Width(str[..|str| - 1]) < layout.lineWidth
      ensures pieces[0].text == str[..|str| - 1] && pieces[0].text + pieces[0].skipped == str
    {
      assert pieces[..0] == [] && Remaining(str, []) == str;
      AllCutAt(str, pieces, 0, layout);
      SpaceCut(str, pieces[0], layout.lineWidth);
    }

    lemma LastIsEmpty(str: seq<char>, pieces: seq<Piece>)
      requires |pieces| == 2 && Join(pieces[..1]) == str == Join(pieces)
      ensures pieces[1].text == []
    {
      JoinSnoc(pieces[..1], pieces[1]);
      assert pieces == pieces[..1] + [pieces[1]];
    }

    lemma NothingLeft(str: seq<char>, pieces: seq<Piece>, layout: Layout)
      requires Valid() && AllCut(str, pieces, layout) && pieces != [] && Remaining(str, pieces[..1]) == []
      ensures |pieces| == 1
    {
      if |pieces| > 1 {
        AllCutAt(str, pieces, 1, layout);
        assert false;
      }
    }

    /** A string that fits except for a whitespace character at its end is drawn as two lines, the
        second one empty: breakString's remark that its caller should detect an empty string and not
        advance ypos is not followed. */
    lemma TrailingSpaceDrawsEmptyLine(str: seq<char>, pieces: seq<Piece>, layout: Layout, height: real)
      requires Valid() && Wrapped(str, pieces, layout, height)
      requires |str| >= 2 && IsWhitespace(str[|str| - 1])
      requires Width(str[..|str| - 1]) < layout.lineWidth < Width(str)
      ensures |pieces| == 2 && pieces[0].text == str[..|str| - 1] && pieces[1].text == []
    {
      hide Cut, Drawn, Width;
      var firsts := pieces[..|pieces| - 1];
      FirstCut(str, firsts, layout);
      FirstIsAll(str, pieces);
      assert firsts[..1] == pieces[..1];
      NothingLeft(str, firsts, layout);
      LastIsEmpty(str, pieces);
    }

    /** Only the last piece can be empty, and only for an empty text, or one that does not fit and ends in
        whitespace. */
    lemma EmptyPieces(str: seq<char>, pieces: seq<Piece>, layout: Layout, height: real, k: nat)
      requires Valid() && Wrapped(str, pieces, layout, height) && k < |pieces| && pieces[k].text == []
      ensures k == |pieces| - 1
      ensures str == [] || (|str| > 1 && IsWhitespace(str[|str| - 1]) && Width(str) > layout.lineWidth)
    {
      if k < |pieces| - 1 {
        var firsts := pieces[..|pieces| - 1];
        AllCutAt(str, firsts, k, layout);
        CutFits(Remaining(str, firsts[..k]), firsts[k], LineWidth(layout, k));
        assert false;
      }
      if |pieces| == 1 {
        assert pieces[..0] == [] && str == Join(pieces) == Join(pieces[..0]) + pieces[0].text + pieces[0].skipped;
      }
    }

    /** An empty line is drawn exactly when the last line starts at the end of the text. */
    lemma EmptyLineIff(str: seq<char>, pieces: seq<Piece>, layout: Layout, height: real)
      requires Valid() && Wrapped(str, pieces, layout, height)
      ensures (exists k :: 0 <= k < |pieces| && pieces[k].text == []) <==> LastStart(str, layout, 0) == |str|
    {
      LastLineIff(str, pieces, layout, height);
      if k: nat :| k < |pieces| && pieces[k].text == [] {
        EmptyPieces(str, pieces, layout, height, k);
      }
      assert pieces[|pieces| - 1].text == [] || LastDrawn(pieces);
    }

    /** For a text that fits except for its last character: an empty line is drawn exactly when that
        character is whitespace and the whole text is too wide. */
    lemma ShortTextEmptyLineIff(str: seq<char>, pieces: seq<Piece>, layout: Layout, height: real)
      requires Valid() && Wrapped(str, pieces, layout, height)
      requires |str| >= 2 && Width(str[..|str| - 1]) < layout.lineWidth
      ensures (exists k :: 0 <= k < |pieces| && pieces[k].text == []) <==>
              IsWhitespace(str[|str| - 1]) && Width(str) > layout.lineWidth
    {
      hide Wrapped;
      if k: nat :| k < |pieces| && pieces[k].text == [] {
        EmptyPieces(str, pieces, layout, height, k);
      }
      if IsWhitespace(str[|str| - 1]) && Width(str) > layout.lineWidth {
        TrailingSpaceDrawsEmptyLine(str, pieces, layout, height);
        assert pieces[1].text == [];
      }
    }

    lemma WideCharacter(c: char, layout: Layout)
      requires Valid()
      ensures LastTooWide([c], layout) <==> Advance(c) > layout.lineWidth
    {
      var text := [c];
      assert text[..0] == [] && Width(text) == Width(text[..0]) + Advance(text[0]);
    }

    /** A single character wider than the line makes the loop run past the end of its string. */
    method DrawWideCharacter(c: char, layout: Layout, height: real) returns (pastEnd: bool)
      requires Valid() && c != NUL && Advance(c) > layout.lineWidth
      ensures pastEnd
    {
      WideCharacter(c, layout);
      var pieces, ypos;
      pieces, ypos, pastEnd := DrawPieces([c], layout, height);
    }

    // ---- drawWrappedString ---------------------------------------------------------------------

    /** Floats become size_t by truncation; a negative one is taken to give 0. */
    function ToSize(x: real): nat { if x < 0.0 then 0 else x.Floor }

    /** The layout computed at the entry of drawWrappedString. */
    function LayoutOf(screen: Screen, xpos: real, ypos: real): Layout {
      var x := if xpos < BORDER_WIDTH then BORDER_WIDTH else xpos;
      var y := if ypos < BORDER_WIDTH then BORDER_WIDTH else ypos;
      Layout(x, y, screen.width as real - BORDER_WIDTH - x, INDENT_MULT * scale)
    }

    /** The layout keeps ten pixels from the left, top and right border, and indents by thirty scaled
        pixels. */
    lemma LayoutBorders(screen: Screen, xpos: real, ypos: real)
      ensures var l := LayoutOf(screen, xpos, ypos);
              && l.x >= 10.0 && (xpos >= 10.0 ==> l.x == xpos) && (xpos < 10.0 ==> l.x == 10.0)
              && l.y >= 10.0 && (ypos >= 10.0 ==> l.y == ypos) && (ypos < 10.0 ==> l.y == 10.0)
              && l.x + l.lineWidth == screen.width as real - 10.0 && l.indent == 30.0 * scale
    {
    }

    /** Nothing is drawn on a screen without a size or without a whole pixel to the right of the
        position. Otherwise the string is wrapped, and the position returned is below its last
        line. */
    method DrawWrappedString(screen: Screen, xpos: real, ypos: real, str: seq<char>)
      returns (pieces: seq<Piece>, y: real, pastEnd: bool)
      requires Valid() && NUL !in str
      ensures var layout := LayoutOf(screen, xpos, ypos);
              var height := MAX_GLYPH_HEIGHT as real * scale;
              if screen.width == 0 || screen.height == 0 then pieces == [] && y == ypos && !pastEnd
              else if layout.lineWidth < 1.0 then pieces == [] && y == layout.y && !pastEnd
              else
                && Wrapped(str, pieces, layout, height) && y == LineTop(layout.y, |pieces|, height)
                && (LastDrawn(pieces) <==> LastStart(str, layout, 0) < |str|)
                && (pastEnd <==> LastAloneTooWide(str, layout))
                && (NoTrailingSpace(str) ==> (pastEnd <==> LastTooWide(str, layout)))
                && (pastEnd ==> CanRunPastEnd(str))
    {
      pastEnd := false;
      if screen.width == 0 || screen.height == 0 { return [], ypos, false; }
      var indentWidth := INDENT_MULT * scale;
      var x := xpos;
      y := ypos;
      if x < BORDER_WIDTH { x := BORDER_WIDTH; }
      if y < BORDER_WIDTH { y := BORDER_WIDTH; }
      var layout := Layout(x, y, screen.width as real - BORDER_WIDTH - x, indentWidth);
      assert layout == LayoutOf(screen, xpos, ypos);
      var maxWidth := ToSize(layout.lineWidth);
      if maxWidth < 1 { return [], y, false; }
      var stringWidth := ComputeScaledStringWidth(str, |str|);
      assert str[..|str|] == str;
      var height := MAX_GLYPH_HEIGHT as real * scale;
      if stringWidth <= maxWidth as real {
        pieces := [Piece(str, [], x, y)];
        WholeString(str, pieces[0], layout, height);
        LastLineIff(str, pieces, layout, height);
        y := y + height;
      } else {
        pieces, y, pastEnd := DrawPieces(str, layout, height);
      }
    }
  }
}
