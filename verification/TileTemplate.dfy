/**
 * The tile template grammar over configurable delimiters: static runs, holes,
 * and the doubled opening delimiter that stands for itself.
 */
module TileTemplate {
  import opened Wrappers
  import P = Parser

  // ----- Templates -----

  datatype Options = Options(open: string, close: string, sigil: string)

  /** What the option parser lets through: no delimiter is empty, nor the sigil. */
  predicate ValidOptions(o: Options) {
    o.open != "" && o.close != "" && o.sigil != ""
  }

  /** A piece of a template; a hole is its text, without the white space around it. */
  datatype Piece = Static(text: string) | Hole(text: string)

  /** Why a template is not a list of statics and holes: `Directive` leaves the rest to the directive parser. */
  datatype Fault = Unterminated | EmptyHole | Directive

  predicate StartsWith(text: string, prefix: string) {
    prefix <= text
  }

  /** Whether a `for` or `if` directive begins here. */
  predicate OpensDirective(o: Options, text: string) {
    && StartsWith(text, o.sigil)
    && var after := text[|o.sigil|..];
      || (StartsWith(after, "for") && |after| > 3 && P.IsWhitespace(after[3]))
      || (StartsWith(after, "if") && |after| > 2 && P.IsWhitespace(after[2]))
  }

  // ----- Rendering -----

  /** Every opening delimiter doubled, from left to right and without overlap. */
  function Escape(open: string, s: string): string
    requires open != ""
    decreases |s|
  {
    if s == "" then ""
    else if StartsWith(s, open) then open + open + Escape(open, s[|open|..])
    else [s[0]] + Escape(open, s[1..])
  }

  function RenderPiece(o: Options, piece: Piece): string
    requires o.open != ""
  {
    match piece
    case Static(text) => Escape(o.open, text)
    case Hole(text) => o.open + text + o.close
  }

  function Render(o: Options, pieces: seq<Piece>): string
    requires o.open != ""
  {
    if pieces == [] then "" else RenderPiece(o, pieces[0]) + Render(o, pieces[1..])
  }

  method RenderTemplate(o: Options, pieces: seq<Piece>) returns (out: string)
    requires o.open != ""
    ensures out == Render(o, pieces)
  {
    out := "";
    var i := 0;
    while i < |pieces|
      invariant 0 <= i <= |pieces|
      invariant out + Render(o, pieces[i..]) == Render(o, pieces)
    {
      assert pieces[i..][1..] == pieces[i + 1..];
      Regroup(out, RenderPiece(o, pieces[i]), Render(o, pieces[i + 1..]));
      out := out + RenderPiece(o, pieces[i]);
      i := i + 1;
    }
    assert out + "" == out;
  }

  lemma Regroup(a: string, b: string, c: string)
    ensures a + (b + c) == (a + b) + c
  {
  }

  // ----- Parsing -----

  /** The quote and bracket depth after a character outside quotes. */
  function Deeper(c: char, depth: int): int {
    if c == '(' || c == '[' || c == '{' then depth + 1
    else if c == ')' || c == ']' || c == '}' then depth - 1
    else depth
  }

  predicate IsQuote(c: char) {
    c == '\"' || c == '\''
  }

  /** The text up to the closing delimiter at bracket depth zero outside quotes, and the text after it. */
  function UntilClose(close: string, text: string, depth: int, quote: Option<char>): Option<(string, string)>
    requires close != ""
    decreases |text|
  {
    if text == "" then None
    else if quote.Some? then
      if text[0] == '\\' && |text| > 1 then Longer(text[..2], UntilClose(close, text[2..], depth, quote))
      else Longer(text[..1], UntilClose(close, text[1..], depth, if text[0] == quote.value then None else quote))
    else if depth == 0 && StartsWith(text, close) then Some(("", text[|close|..]))
    else if IsQuote(text[0]) then Longer(text[..1], UntilClose(close, text[1..], depth, Some(text[0])))
    else Longer(text[..1], UntilClose(close, text[1..], Deeper(text[0], depth), None))
  }

  function Longer(front: string, r: Option<(string, string)>): Option<(string, string)> {
    if r.Some? then Some((front + r.value.0, r.value.1)) else None
  }

  function Flush(buf: string): seq<Piece> {
    if buf == "" then [] else [Static(buf)]
  }

  function Prepend(front: seq<Piece>, r: Result<seq<Piece>, Fault>): Result<seq<Piece>, Fault> {
    if r.Ok? then Ok(front + r.value) else r
  }

  /** The pieces of the text, after the static run `buf`. */
  function Parse(o: Options, text: string, buf: string): Result<seq<Piece>, Fault>
    requires ValidOptions(o)
    decreases |text|
  {
    if text == "" then Ok(Flush(buf))
    else if StartsWith(text, o.open + o.open) then Parse(o, text[2 * |o.open|..], buf + o.open)
    else if StartsWith(text, o.open) then
      var inner := UntilClose(o.close, text[|o.open|..], 0, None);
      if inner.None? then Err(Unterminated)
      else
        UntilCloseShrinks(o.close, text[|o.open|..], 0, None);
        var hole := P.Trim(inner.value.0);
        if hole == "" then Err(EmptyHole)
        else Prepend(Flush(buf) + [Hole(hole)], Parse(o, inner.value.1, ""))
    else if OpensDirective(o, text) then Err(Directive)
    else Parse(o, text[1..], buf + [text[0]])
  }

  lemma {:induction false} UntilCloseShrinks(close: string, text: string, depth: int, quote: Option<char>)
    requires close != ""
    ensures UntilClose(close, text, depth, quote).Some? ==> |UntilClose(close, text, depth, quote).value.1| < |text|
    decreases |text|
  {
    if text != "" {
      if quote.Some? {
        if text[0] == '\\' && |text| > 1 {
          UntilCloseShrinks(close, text[2..], depth, quote);
        } else {
          UntilCloseShrinks(close, text[1..], depth, if text[0] == quote.value then None else quote);
        }
      } else if !(depth == 0 && StartsWith(text, close)) {
        if IsQuote(text[0]) {
          UntilCloseShrinks(close, text[1..], depth, Some(text[0]));
        } else {
          UntilCloseShrinks(close, text[1..], Deeper(text[0], depth), None);
        }
      }
    }
  }

  // ----- One step of the parse -----

  lemma SkipPrefix(p: string, q: string, t: string)
    ensures StartsWith(p + t, p + q) <==> StartsWith(t, q)
  {
    assert (p + t)[|p|..] == t && (p + q)[|p|..] == q;
    if StartsWith(p + t, p + q) {
      assert t[..|q|] == (p + t)[..|p + q|][|p|..];
    }
  }

  /** What a beginning of `a + b` says of `a`. */
  lemma Overlap(a: string, b: string, p: string)
    requires StartsWith(a + b, p)
    ensures if |p| <= |a| then StartsWith(a, p) else StartsWith(p, a)
  {
    assert (a + b)[..|p|] == p;
  }

  lemma StepEscape(o: Options, text: string, buf: string)
    requires ValidOptions(o) && StartsWith(text, o.open + o.open)
    ensures Parse(o, text, buf) == Parse(o, text[2 * |o.open|..], buf + o.open)
  {
  }

  lemma StepPlain(o: Options, text: string, buf: string)
    requires ValidOptions(o) && text != "" && !StartsWith(text, o.open) && !OpensDirective(o, text)
    ensures Parse(o, text, buf) == Parse(o, text[1..], buf + [text[0]])
  {
    NoEscapeWithoutOpen(o, text);
  }

  lemma NoEscapeWithoutOpen(o: Options, text: string)
    ensures StartsWith(text, o.open + o.open) ==> StartsWith(text, o.open)
  {
  }

  lemma StepDirective(o: Options, text: string, buf: string)
    requires ValidOptions(o) && text != "" && !StartsWith(text, o.open) && OpensDirective(o, text)
    ensures Parse(o, text, buf) == Err(Directive)
  {
    NoEscapeWithoutOpen(o, text);
  }

  lemma StepHole(o: Options, text: string, buf: string)
    requires ValidOptions(o) && StartsWith(text, o.open) && !StartsWith(text, o.open + o.open)
    ensures Parse(o, text, buf) ==
      var inner := UntilClose(o.close, text[|o.open|..], 0, None);
      if inner.None? then Err(Unterminated)
      else if P.Trim(inner.value.0) == "" then Err(EmptyHole)
      else Prepend(Flush(buf) + [Hole(P.Trim(inner.value.0))], Parse(o, inner.value.1, ""))
  {
  }

  // ----- The parser's loops -----

  class TemplateParser {
    const opts: Options
    const chars: string
    var pos: nat

    constructor (text: string, opts: Options)
      ensures chars == text && this.opts == opts && pos == 0
    {
      chars, this.opts, pos := text, opts, 0;
    }

    /** Consume up to and including the closing delimiter, and return the text it closes. */
    method Close() returns (r: Option<string>)
      requires ValidOptions(opts) && pos <= |chars|
      modifies this
      ensures pos <= |chars|
      ensures var found := UntilClose(opts.close, chars[old(pos)..], 0, None);
        if found.None? then r.None? else r == Some(found.value.0) && chars[pos..] == found.value.1
    {
      ghost var found := UntilClose(opts.close, chars[pos..], 0, None);
      var depth := 0;
      var quote: Option<char> := None;
      var buf := "";
      Nothing(found);
      hide UntilClose, Longer, Deeper, IsQuote;
      while pos < |chars|
        invariant pos <= |chars|
        invariant found == Longer(buf, UntilClose(opts.close, chars[pos..], depth, quote))
      {
        Unfold(opts.close, chars, pos, depth, quote);
        var c := chars[pos];
        if quote.Some? {
          if c == '\\' && pos + 1 < |chars| {
            Join(buf, chars[pos..pos + 2], UntilClose(opts.close, chars[pos + 2..], depth, quote));
            buf := buf + chars[pos..pos + 2];
            pos := pos + 2;
          } else {
            var next := if c == quote.value then None else quote;
            Join(buf, [c], UntilClose(opts.close, chars[pos + 1..], depth, next));
            quote := next;
            buf := buf + [c];
            pos := pos + 1;
          }
        } else if depth == 0 && StartsWith(chars[pos..], opts.close) {
          pos := pos + |opts.close|;
          FoundClose(buf, chars[pos..]);
          return Some(buf);
        } else {
          if IsQuote(c) {
            Join(buf, [c], UntilClose(opts.close, chars[pos + 1..], depth, Some(c)));
            quote := Some(c);
          } else {
            Join(buf, [c], UntilClose(opts.close, chars[pos + 1..], Deeper(c, depth), None));
            depth := Deeper(c, depth);
          }
          buf := buf + [c];
          pos := pos + 1;
        }
      }
      NoClose(opts.close, buf, depth, quote);
      return None;
    }

    /** The pieces of the whole text, a static run at a time. */
    method Pieces() returns (r: Result<seq<Piece>, Fault>)
      requires ValidOptions(opts) && pos <= |chars|
      modifies this
      ensures r == Parse(opts, chars[old(pos)..], "")
    {
      hide Parse, UntilClose, OpensDirective, Flush;
      ghost var whole := Parse(opts, chars[pos..], "");
      var out: seq<Piece> := [];
      var staticBuf := "";
      NoPieces(whole);
      while pos < |chars|
        invariant pos <= |chars|
        invariant whole == Prepend(out, Parse(opts, chars[pos..], staticBuf))
        decreases |chars| - pos
      {
        var text := chars[pos..];
        if StartsWith(text, opts.open + opts.open) {
          StepEscape(opts, text, staticBuf);
          assert text[2 * |opts.open|..] == chars[pos + 2 * |opts.open|..];
          pos := pos + 2 * |opts.open|;
          staticBuf := staticBuf + opts.open;
        } else if StartsWith(text, opts.open) {
          StepHole(opts, text, staticBuf);
          assert text[|opts.open|..] == chars[pos + |opts.open|..];
          pos := pos + |opts.open|;
          UntilCloseShrinks(opts.close, chars[pos..], 0, None);
          var inner := Close();
          if inner.None? {
            return Err(Unterminated);
          }
          var hole := P.Trim(inner.value);
          if hole == "" {
            return Err(EmptyHole);
          }
          JoinPieces(out, Flush(staticBuf) + [Hole(hole)], Parse(opts, chars[pos..], ""));
          out := out + (Flush(staticBuf) + [Hole(hole)]);
          staticBuf := "";
        } else if OpensDirective(opts, text) {
          StepDirective(opts, text, staticBuf);
          return Err(Directive);
        } else {
          StepPlain(opts, text, staticBuf);
          assert text[1..] == chars[pos + 1..];
          staticBuf := staticBuf + [chars[pos]];
          pos := pos + 1;
        }
      }
      AtEnd(opts, chars[pos..], staticBuf, out);
      return Ok(out + Flush(staticBuf));
    }
  }

  lemma AtEnd(o: Options, text: string, buf: string, out: seq<Piece>)
    requires ValidOptions(o) && text == ""
    ensures Prepend(out, Parse(o, text, buf)) == Ok(out + Flush(buf))
  {
  }

  lemma Nothing(r: Option<(string, string)>)
    ensures Longer("", r) == r
  {
    if r.Some? {
      assert "" + r.value.0 == r.value.0;
    }
  }

  lemma FoundClose(buf: string, rest: string)
    ensures Longer(buf, Some(("", rest))) == Some((buf, rest))
  {
    assert buf + "" == buf;
  }

  lemma NoClose(close: string, buf: string, depth: int, quote: Option<char>)
    requires close != ""
    ensures Longer(buf, UntilClose(close, "", depth, quote)) == None
  {
  }

  lemma Join(a: string, b: string, r: Option<(string, string)>)
    ensures Longer(a, Longer(b, r)) == Longer(a + b, r)
  {
    if r.Some? {
      Regroup(a, b, r.value.0);
    }
  }

  lemma NoPieces(r: Result<seq<Piece>, Fault>)
    ensures Prepend([], r) == r
  {
    if r.Ok? {
      assert [] + r.value == r.value;
    }
  }

  lemma JoinPieces(a: seq<Piece>, b: seq<Piece>, r: Result<seq<Piece>, Fault>)
    ensures Prepend(a, Prepend(b, r)) == Prepend(a + b, r)
  {
    if r.Ok? {
      assert a + (b + r.value) == (a + b) + r.value;
    }
  }

  /** One character of a hole's text, or two in a quote's escape. */
  lemma Unfold(close: string, chars: string, pos: nat, depth: int, quote: Option<char>)
    requires close != "" && pos < |chars|
    ensures var c := chars[pos];
      UntilClose(close, chars[pos..], depth, quote) ==
        if quote.Some? then
          if c == '\\' && pos + 1 < |chars| then
            Longer(chars[pos..pos + 2], UntilClose(close, chars[pos + 2..], depth, quote))
          else Longer([c], UntilClose(close, chars[pos + 1..], depth, if c == quote.value then None else quote))
        else if depth == 0 && StartsWith(chars[pos..], close) then Some(("", chars[pos + |close|..]))
        else if IsQuote(c) then Longer([c], UntilClose(close, chars[pos + 1..], depth, Some(c)))
        else Longer([c], UntilClose(close, chars[pos + 1..], Deeper(c, depth), None))
  {
    var text := chars[pos..];
    assert text[..1] == [chars[pos]] && text[1..] == chars[pos + 1..];
    if pos + 1 < |chars| {
      assert text[..2] == chars[pos..pos + 2] && text[2..] == chars[pos + 2..];
    }
    if StartsWith(text, close) {
      assert text[|close|..] == chars[pos + |close|..];
    }
  }

  // ----- Escaping parses back -----

  /** No proper beginning of the delimiter is also its end. */
  ghost predicate BorderFree(open: string) {
    forall k :: 0 < k < |open| ==> open[..k] != open[|open| - k..]
  }

  /** The hole's text never meets the closing delimiter at depth zero, and ends at depth zero outside quotes. */
  predicate Closed(close: string, h: string, depth: int, quote: Option<char>)
    requires close != ""
    decreases |h|
  {
    if h == "" then depth == 0 && quote.None?
    else if quote.Some? then
      if h[0] == '\\' then |h| > 1 && Closed(close, h[2..], depth, quote)
      else Closed(close, h[1..], depth, if h[0] == quote.value then None else quote)
    else if depth == 0 && StartsWith(h + close, close) then false
    else if IsQuote(h[0]) then Closed(close, h[1..], depth, Some(h[0]))
    else Closed(close, h[1..], Deeper(h[0], depth), None)
  }

  predicate GoodHole(o: Options, h: string)
    requires ValidOptions(o)
  {
    && h != "" && P.Trim(h) == h && Closed(o.close, h, 0, None)
    && !StartsWith(h + o.close, o.open) && !StartsWith(o.open, h + o.close)
  }

  /** No directive begins in a static run that `tail` follows. */
  predicate Quiet(o: Options, s: string, tail: string)
    requires ValidOptions(o)
    decreases |s|
  {
    if s == "" then true
    else if StartsWith(s, o.open) then Quiet(o, s[|o.open|..], tail)
    else !OpensDirective(o, Escape(o.open, s) + tail) && Quiet(o, s[1..], tail)
  }

  /** Statics and holes as the parser returns them: no static is empty or next to another, and each piece reads as itself. */
  predicate Good(o: Options, pieces: seq<Piece>)
    requires ValidOptions(o)
  {
    pieces == [] ||
    (&& Good(o, pieces[1..])
     && if pieces[0].Hole? then GoodHole(o, pieces[0].text)
        else
          && pieces[0].text != "" && (|pieces| > 1 ==> pieces[1].Hole?)
          && Quiet(o, pieces[0].text, Render(o, pieces[1..])))
  }

  lemma {:induction false} ClosedCloses(close: string, h: string, depth: int, quote: Option<char>, rest: string)
    requires close != "" && Closed(close, h, depth, quote)
    ensures UntilClose(close, h + close + rest, depth, quote) == Some((h, rest))
    decreases |h|
  {
    var text := h + close + rest;
    if h == "" {
      assert text == close + rest;
    } else {
      assert h == [h[0]] + h[1..];
      assert text[..1] == [h[0]] && text[1..] == h[1..] + close + rest;
      if quote.Some? {
        if h[0] == '\\' {
          assert text[..2] == h[..2] && text[2..] == h[2..] + close + rest;
          assert h == h[..2] + h[2..];
          ClosedCloses(close, h[2..], depth, quote, rest);
        } else {
          ClosedCloses(close, h[1..], depth, if h[0] == quote.value then None else quote, rest);
        }
      } else {
        if StartsWith(text, close) {
          assert (h + close)[..|close|] == text[..|close|];
        }
        if IsQuote(h[0]) {
          ClosedCloses(close, h[1..], depth, Some(h[0]), rest);
        } else {
          ClosedCloses(close, h[1..], Deeper(h[0], depth), None, rest);
        }
      }
    }
  }

  lemma PlainFirst(open: string, s: string, tail: string, m: nat, rest: string)
    requires open != "" && s != "" && !StartsWith(s, open) && m < |s|
    requires Escape(open, s[1..]) + tail == s[1..][..m] + rest
    ensures Escape(open, s) + tail == s[..m + 1] + rest
  {
    Regroup([s[0]], Escape(open, s[1..]), tail);
    Regroup([s[0]], s[1..][..m], rest);
    assert s[..m + 1] == [s[0]] + s[1..][..m];
  }

  /** Up to the first opening delimiter a run is written as it is, and there the delimiter or the end follows. */
  lemma {:induction false} FirstOpen(open: string, s: string, tail: string) returns (m: nat, rest: string)
    requires open != "" && (tail == "" || StartsWith(tail, open))
    ensures m <= |s| && Escape(open, s) + tail == s[..m] + rest && (rest == "" || StartsWith(rest, open))
    ensures s != "" && !StartsWith(s, open) ==> m > 0
    ensures m < |s| ==> StartsWith(s[m..], open)
    decreases |s|
  {
    if s == "" || StartsWith(s, open) {
      m, rest := 0, Escape(open, s) + tail;
      assert s == "" ==> rest == tail;
      assert s[..0] + rest == rest;
    } else {
      hide Escape;
      m, rest := FirstOpen(open, s[1..], tail);
      PlainFirst(open, s, tail, m, rest);
      assert m < |s[1..]| ==> s[1..][m..] == s[m + 1..];
      m := m + 1;
    }
  }

  /** A run that does not begin with the delimiter is not written as if it did: that would give the delimiter a border. */
  lemma NoFalseOpen(open: string, s: string, tail: string)
    requires open != "" && BorderFree(open) && (tail == "" || StartsWith(tail, open))
    requires s != "" && !StartsWith(s, open)
    ensures !StartsWith(Escape(open, s) + tail, open)
  {
    var m, rest := FirstOpen(open, s, tail);
    hide Escape, BorderFree;
    if StartsWith(s[..m] + rest, open) {
      if m < |open| && rest != "" {
        OverlapIsBorder(s[..m], rest, open);
      } else {
        Overlap(s[..m], rest, open);
      }
    }
  }

  /** Two beginnings of the delimiter that overlap show its border. */
  lemma OverlapIsBorder(front: string, rest: string, open: string)
    requires 0 < |front| < |open| && StartsWith(front + rest, open) && StartsWith(rest, open)
    ensures !BorderFree(open)
  {
    var k := |open| - |front|;
    assert (front + rest)[|front|..|open|] == rest[..k];
    assert open[..k] == open[|open| - k..];
  }

  lemma {:induction false} StaticParses(o: Options, s: string, tail: string, buf: string)
    requires ValidOptions(o) && BorderFree(o.open) && (tail == "" || StartsWith(tail, o.open))
    requires Quiet(o, s, tail)
    ensures Parse(o, Escape(o.open, s) + tail, buf) == Parse(o, tail, buf + s)
    decreases |s|
  {
    hide Parse, OpensDirective, BorderFree;
    if s == "" {
      assert Escape(o.open, s) + tail == tail && buf + s == buf;
    } else if StartsWith(s, o.open) {
      var rest := s[|o.open|..];
      var left := Escape(o.open, rest) + tail;
      var text := (o.open + o.open) + left;
      Regroup(o.open + o.open, Escape(o.open, rest), tail);
      StepEscape(o, text, buf);
      assert text[2 * |o.open|..] == left;
      StaticParses(o, rest, tail, buf + o.open);
      assert (buf + o.open) + rest == buf + s;
    } else {
      var left := Escape(o.open, s[1..]) + tail;
      var text := [s[0]] + left;
      Regroup([s[0]], Escape(o.open, s[1..]), tail);
      NoFalseOpen(o.open, s, tail);
      StepPlain(o, text, buf);
      assert text[1..] == left;
      StaticParses(o, s[1..], tail, buf + [s[0]]);
      assert (buf + [s[0]]) + s[1..] == buf + s;
    }
  }

  /** After its delimiter a good hole does not read as a second delimiter. */
  lemma HoleIsNoEscape(o: Options, h: string, rest: string)
    requires ValidOptions(o) && GoodHole(o, h)
    ensures !StartsWith(o.open + (h + o.close + rest), o.open + o.open)
  {
    SkipPrefix(o.open, o.open, h + o.close + rest);
    if StartsWith(h + o.close + rest, o.open) {
      Overlap(h + o.close, rest, o.open);
    }
  }

  lemma HoleParses(o: Options, h: string, tail: string, buf: string)
    requires ValidOptions(o) && GoodHole(o, h)
    ensures Parse(o, o.open + h + o.close + tail, buf) == Prepend(Flush(buf) + [Hole(h)], Parse(o, tail, ""))
  {
    var text := o.open + (h + o.close + tail);
    assert text == o.open + h + o.close + tail;
    HoleIsNoEscape(o, h, tail);
    assert text[|o.open|..] == h + o.close + tail;
    StepHole(o, text, buf);
    ClosedCloses(o.close, h, 0, None, tail);
    hide Parse, UntilClose, Closed;
  }

  lemma StaticThenRest(o: Options, pieces: seq<Piece>)
    requires ValidOptions(o) && BorderFree(o.open) && Good(o, pieces) && pieces != [] && pieces[0].Static?
    ensures Parse(o, Render(o, pieces), "") == Parse(o, Render(o, pieces[1..]), pieces[0].text)
  {
    var s, tail := pieces[0].text, Render(o, pieces[1..]);
    StartOfRest(o, pieces[1..]);
    assert Render(o, pieces) == Escape(o.open, s) + tail;
    StaticParses(o, s, tail, "");
    hide Parse, Escape, Quiet, BorderFree, Good;
    assert "" + s == s;
  }

  lemma HoleThenRest(o: Options, pieces: seq<Piece>, buf: string)
    requires ValidOptions(o) && Good(o, pieces) && pieces != [] && pieces[0].Hole?
    ensures Parse(o, Render(o, pieces), buf) == Prepend(Flush(buf) + [pieces[0]], Parse(o, Render(o, pieces[1..]), ""))
  {
    HoleParses(o, pieces[0].text, Render(o, pieces[1..]), buf);
  }

  lemma {:induction false} RenderedParses(o: Options, pieces: seq<Piece>, buf: string)
    requires ValidOptions(o) && BorderFree(o.open) && Good(o, pieces)
    requires buf != "" ==> pieces == [] || pieces[0].Hole?
    ensures Parse(o, Render(o, pieces), buf) == Ok(Flush(buf) + pieces)
    decreases pieces
  {
    if pieces == [] {
      assert Flush(buf) + pieces == Flush(buf);
    } else {
      assert Good(o, pieces[1..]);
      Assemble(buf, pieces);
      if pieces[0].Static? {
        StaticThenRest(o, pieces);
        assert pieces[0].text != "" && (|pieces| > 1 ==> pieces[1].Hole?);
        hide *;
        RenderedParses(o, pieces[1..], pieces[0].text);
      } else {
        HoleThenRest(o, pieces, buf);
        hide *;
        RenderedParses(o, pieces[1..], "");
      }
    }
  }

  lemma Assemble(buf: string, pieces: seq<Piece>)
    requires pieces != []
    ensures pieces[0].Static? && pieces[0].text != "" ==> Flush(pieces[0].text) + pieces[1..] == Flush("") + pieces
    ensures Prepend(Flush(buf) + [pieces[0]], Ok(Flush("") + pieces[1..])) == Ok(Flush(buf) + pieces)
  {
    assert [pieces[0]] + pieces[1..] == pieces;
    assert Flush("") + pieces[1..] == pieces[1..] && Flush("") + pieces == pieces;
    assert (Flush(buf) + [pieces[0]]) + pieces[1..] == Flush(buf) + pieces;
  }

  lemma StartOfRest(o: Options, rest: seq<Piece>)
    requires ValidOptions(o) && (rest == [] || rest[0].Hole?)
    ensures Render(o, rest) == "" || StartsWith(Render(o, rest), o.open)
  {
    if rest != [] {
      var h := rest[0].text;
      assert Render(o, rest)[..|o.open|] == o.open;
    }
  }

  /** Rendering statics and holes and parsing again returns them, for every delimiter without a border. */
  lemma ParseInvertsRender(o: Options, pieces: seq<Piece>)
    requires ValidOptions(o) && BorderFree(o.open) && Good(o, pieces)
    ensures Parse(o, Render(o, pieces), "") == Ok(pieces)
  {
    RenderedParses(o, pieces, "");
    assert Flush("") + pieces == pieces;
  }

  // ----- A delimiter with a border does not -----

  lemma {:induction false} ShortIsPlain(open: string, s: string)
    requires open != "" && |s| < |open|
    ensures Escape(open, s) == s
    decreases |s|
  {
    if s != "" {
      ShortIsPlain(open, s[1..]);
    }
  }

  /** A run already begun comes out first, as the beginning of a static. */
  lemma {:induction false} BegunComesFirst(o: Options, text: string, buf: string)
    requires ValidOptions(o) && buf != "" && Parse(o, text, buf).Ok?
    ensures var r := Parse(o, text, buf).value;
      r != [] && r[0].Static? && |buf| <= |r[0].text|
    decreases |text|
  {
    if text != "" {
      if StartsWith(text, o.open + o.open) {
        BegunComesFirst(o, text[2 * |o.open|..], buf + o.open);
      } else if !StartsWith(text, o.open) && !OpensDirective(o, text) {
        BegunComesFirst(o, text[1..], buf + [text[0]]);
      }
    }
  }

  /** With a border, the static that ends just before it takes the next hole's delimiter apart, whatever the hole. */
  lemma BorderBreaksRoundTrip(o: Options, k: nat, hole: string)
    requires ValidOptions(o) && 0 < k < |o.open| && o.open[..k] == o.open[|o.open| - k..]
    ensures var pieces := [Static(o.open[..|o.open| - k]), Hole(hole)];
      Parse(o, Render(o, pieces), "") != Ok(pieces)
  {
    var p := o.open[..|o.open| - k];
    var pieces := [Static(p), Hole(hole)];
    var tail := o.open + (hole + o.close);
    ShortIsPlain(o.open, p);
    assert pieces[1..] == [Hole(hole)] && [Hole(hole)][1..] == [];
    assert Render(o, [Hole(hole)]) == tail + "";
    var text := Render(o, pieces);
    assert text == p + tail;
    assert p + o.open[..k] == o.open;
    SplitOpen(p, o.open, k, hole + o.close);
    hide Render, Escape;
    if StartsWith(text, o.open + o.open) {
      StepEscape(o, text, "");
      assert "" + o.open == o.open;
      hide Parse;
      if Parse(o, text, "").Ok? {
        BegunComesFirst(o, text[2 * |o.open|..], o.open);
      }
    } else {
      StepHole(o, text, "");
    }
  }

  lemma SplitOpen(p: string, open: string, k: nat, rest: string)
    requires k <= |open| && p + open[..k] == open
    ensures StartsWith(p + (open + rest), open)
  {
    assert p + (open + rest) == (p + open[..k]) + (open[k..] + rest);
  }

  /** A static that does not hold the sigil's first character opens no directive. */
  lemma {:induction false} SigilFreeIsQuiet(o: Options, s: string, tail: string)
    requires ValidOptions(o) && o.sigil[0] !in s
    ensures Quiet(o, s, tail)
    decreases |s|
  {
    if s != "" {
      if StartsWith(s, o.open) {
        SigilFreeIsQuiet(o, s[|o.open|..], tail);
      } else {
        assert (Escape(o.open, s) + tail)[0] == s[0];
        SigilFreeIsQuiet(o, s[1..], tail);
      }
    }
  }

  /** A letter that begins neither delimiter. */
  function Letter(o: Options): (c: char)
    requires ValidOptions(o)
    ensures c != o.open[0] && c != o.close[0] && c in "abc"
  {
    if 'a' != o.open[0] && 'a' != o.close[0] then 'a' else if 'b' != o.open[0] && 'b' != o.close[0] then 'b' else 'c'
  }

  lemma LetterIsGoodHole(o: Options)
    requires ValidOptions(o)
    ensures GoodHole(o, [Letter(o)])
  {
    var h := [Letter(o)];
    assert (h + o.close)[0] == h[0];
    assert h[1..] == "" && Closed(o.close, "", 0, None);
  }

  /** With a border there is a rendering of good pieces that does not parse back. */
  lemma BorderHasGoodPieces(o: Options, k: nat) returns (pieces: seq<Piece>)
    requires ValidOptions(o) && o.sigil[0] !in o.open
    requires 0 < k < |o.open| && o.open[..k] == o.open[|o.open| - k..]
    ensures Good(o, pieces) && Parse(o, Render(o, pieces), "") != Ok(pieces)
  {
    var p, h := o.open[..|o.open| - k], [Letter(o)];
    pieces := [Static(p), Hole(h)];
    BorderBreaksRoundTrip(o, k, h);
    LetterIsGoodHole(o);
    assert pieces[1..] == [Hole(h)] && [Hole(h)][1..] == [];
    SigilFreeIsQuiet(o, p, Render(o, [Hole(h)]));
    hide GoodHole, Parse, Render, Quiet;
    assert Good(o, []);
    assert Good(o, [Hole(h)]);
  }

  /**
   * Rendering and parsing return every list of good pieces exactly for the
   * opening delimiters without a border, where the sigil does not begin with a
   * character of the delimiter.
   */
  lemma RoundTripsExactlyWithoutBorder(o: Options)
    requires ValidOptions(o) && o.sigil[0] !in o.open
    ensures (forall pieces :: Good(o, pieces) ==> Parse(o, Render(o, pieces), "") == Ok(pieces)) <==> BorderFree(o.open)
  {
    if BorderFree(o.open) {
      forall pieces | Good(o, pieces) ensures Parse(o, Render(o, pieces), "") == Ok(pieces) {
        ParseInvertsRender(o, pieces);
      }
    } else {
      var k :| 0 < k < |o.open| && o.open[..k] == o.open[|o.open| - k..];
      var pieces := BorderHasGoodPieces(o, k);
    }
    hide Good, Parse, Render;
  }

  // ----- What the parser returns -----

  /** What the parser returns: statics are not empty and never adjacent, and no hole is empty. */
  predicate Alternating(pieces: seq<Piece>) {
    && (forall i :: 0 <= i < |pieces| ==> pieces[i].text != "")
    && (forall i :: 0 <= i < |pieces| - 1 ==> pieces[i].Hole? || pieces[i + 1].Hole?)
  }

  lemma {:induction false} ParsedAlternates(o: Options, text: string, buf: string)
    requires ValidOptions(o) && Parse(o, text, buf).Ok?
    ensures Alternating(Parse(o, text, buf).value)
    decreases |text|
  {
    if text != "" {
      if StartsWith(text, o.open + o.open) {
        ParsedAlternates(o, text[2 * |o.open|..], buf + o.open);
      } else if StartsWith(text, o.open) {
        var inner := UntilClose(o.close, text[|o.open|..], 0, None);
        UntilCloseShrinks(o.close, text[|o.open|..], 0, None);
        ParsedAlternates(o, inner.value.1, "");
      } else {
        ParsedAlternates(o, text[1..], buf + [text[0]]);
      }
    }
  }

  // ----- Parsed pieces parse again -----

  predicate HolesGood(o: Options, pieces: seq<Piece>)
    requires ValidOptions(o)
  {
    forall i :: 0 <= i < |pieces| && pieces[i].Hole? ==> GoodHole(o, pieces[i].text)
  }

  /** A static in which a directive begins stops the parser. */
  lemma {:induction false} LoudStaticFails(o: Options, s: string, tail: string, buf: string)
    requires ValidOptions(o) && BorderFree(o.open) && (tail == "" || StartsWith(tail, o.open))
    requires !Quiet(o, s, tail)
    ensures Parse(o, Escape(o.open, s) + tail, buf) == Err(Directive)
    decreases |s|
  {
    hide Parse, OpensDirective, BorderFree;
    if StartsWith(s, o.open) {
      var rest := s[|o.open|..];
      var left := Escape(o.open, rest) + tail;
      var text := (o.open + o.open) + left;
      Regroup(o.open + o.open, Escape(o.open, rest), tail);
      StepEscape(o, text, buf);
      assert text[2 * |o.open|..] == left;
      LoudStaticFails(o, rest, tail, buf + o.open);
    } else {
      var left := Escape(o.open, s[1..]) + tail;
      var text := [s[0]] + left;
      Regroup([s[0]], Escape(o.open, s[1..]), tail);
      NoFalseOpen(o.open, s, tail);
      if OpensDirective(o, text) {
        StepDirective(o, text, buf);
      } else {
        StepPlain(o, text, buf);
        assert text[1..] == left;
        LoudStaticFails(o, s[1..], tail, buf + [s[0]]);
      }
    }
  }

  /** What a rendering parses to: its pieces, or the fault of a static that a directive begins in. */
  lemma {:induction false} RenderingParses(o: Options, pieces: seq<Piece>, buf: string)
    requires ValidOptions(o) && BorderFree(o.open) && Alternating(pieces) && HolesGood(o, pieces)
    requires buf != "" ==> pieces == [] || pieces[0].Hole?
    ensures Parse(o, Render(o, pieces), buf) == if Good(o, pieces) then Ok(Flush(buf) + pieces) else Err(Directive)
    decreases pieces
  {
    if Good(o, pieces) {
      RenderedParses(o, pieces, buf);
    } else {
      var rest := pieces[1..];
      assert Alternating(rest) && HolesGood(o, rest);
      hide HolesGood, Parse, Quiet, GoodHole, BorderFree;
      if pieces[0].Hole? {
        HoleIsGood(o, pieces);
        HoleParses(o, pieces[0].text, Render(o, rest), buf);
        assert !Good(o, rest);
        RenderingParses(o, rest, "");
      } else {
        StartOfRest(o, rest);
        if Quiet(o, pieces[0].text, Render(o, rest)) {
          StaticParses(o, pieces[0].text, Render(o, rest), buf);
          assert !Good(o, rest);
          RenderingParses(o, rest, buf + pieces[0].text);
        } else {
          LoudStaticFails(o, pieces[0].text, Render(o, rest), buf);
        }
      }
    }
  }

  lemma HoleIsGood(o: Options, pieces: seq<Piece>)
    requires ValidOptions(o) && HolesGood(o, pieces) && pieces != [] && pieces[0].Hole?
    ensures GoodHole(o, pieces[0].text)
  {
  }

  /** The plain character and the run after it are not the delimiter, or the text would begin with it. */
  lemma PlainStays(open: string, c: char, s: string, tail: string)
    requires open != "" && BorderFree(open) && (tail == "" || StartsWith(tail, open))
    requires !StartsWith([c] + (Escape(open, s) + tail), open)
    ensures !StartsWith([c] + s, open)
  {
    var m, rest := FirstOpen(open, s, tail);
    hide Escape, BorderFree;
    Regroup([c], s[..m], rest);
    if StartsWith([c] + s, open) {
      assert [c] + s == ([c] + s[..m]) + s[m..];
      if m + 1 < |open| {
        OverlapIsBorder([c] + s[..m], s[m..], open);
      }
    }
  }

  lemma EscapedRun(o: Options, s: string, tail: string)
    requires ValidOptions(o) && Quiet(o, s, tail)
    ensures Quiet(o, o.open + s, tail) && Escape(o.open, o.open + s) + tail == (o.open + o.open) + (Escape(o.open, s) + tail)
  {
    assert (o.open + s)[|o.open|..] == s;
    hide OpensDirective;
  }

  lemma PlainRun(o: Options, c: char, s: string, tail: string)
    requires ValidOptions(o) && BorderFree(o.open) && Quiet(o, s, tail) && (tail == "" || StartsWith(tail, o.open))
    requires var text := [c] + (Escape(o.open, s) + tail); !StartsWith(text, o.open) && !OpensDirective(o, text)
    ensures Quiet(o, [c] + s, tail) && Escape(o.open, [c] + s) + tail == [c] + (Escape(o.open, s) + tail)
  {
    hide OpensDirective, BorderFree;
    PlainStays(o.open, c, s, tail);
    assert ([c] + s)[1..] == s;
    assert Escape(o.open, [c] + s) + tail == [c] + (Escape(o.open, s) + tail);
  }

  /** A hole after a run: the run comes out first. */
  lemma HoleAfter(o: Options, text: string, buf: string)
    requires ValidOptions(o) && StartsWith(text, o.open) && !StartsWith(text, o.open + o.open) && Parse(o, text, buf).Ok?
    ensures Parse(o, text, "").Ok? && Parse(o, text, buf).value == Flush(buf) + Parse(o, text, "").value
  {
    StepHole(o, text, buf);
    StepHole(o, text, "");
    hide Parse, UntilClose;
  }

  /** The text begins with the static run `s`, escaped and quiet, and then comes a hole or the end. */
  predicate Splits(o: Options, text: string, buf: string, s: string, tail: string)
    requires ValidOptions(o)
  {
    && text == Escape(o.open, s) + tail && Quiet(o, s, tail)
    && (tail == "" || (StartsWith(tail, o.open) && !StartsWith(tail, o.open + o.open)))
    && Parse(o, tail, "").Ok? && Parse(o, text, buf) == Ok(Flush(buf + s) + Parse(o, tail, "").value)
  }

  lemma EscapeSplits(o: Options, text: string, buf: string, s: string, tail: string)
    requires ValidOptions(o) && StartsWith(text, o.open + o.open)
    requires Splits(o, text[2 * |o.open|..], buf + o.open, s, tail)
    ensures Splits(o, text, buf, o.open + s, tail)
  {
    hide Parse, Quiet, Escape;
    StepEscape(o, text, buf);
    assert text == (o.open + o.open) + text[2 * |o.open|..];
    EscapedRun(o, s, tail);
    assert (buf + o.open) + s == buf + (o.open + s);
  }

  lemma PlainSplits(o: Options, text: string, buf: string, s: string, tail: string)
    requires ValidOptions(o) && BorderFree(o.open) && text != "" && !StartsWith(text, o.open) && !OpensDirective(o, text)
    requires Splits(o, text[1..], buf + [text[0]], s, tail)
    ensures Splits(o, text, buf, [text[0]] + s, tail)
  {
    hide Parse, Quiet, Escape, OpensDirective, BorderFree;
    StepPlain(o, text, buf);
    assert text == [text[0]] + (Escape(o.open, s) + tail);
    PlainRun(o, text[0], s, tail);
    assert (buf + [text[0]]) + s == buf + ([text[0]] + s);
  }

  lemma HoleSplits(o: Options, text: string, buf: string)
    requires ValidOptions(o) && StartsWith(text, o.open) && !StartsWith(text, o.open + o.open) && Parse(o, text, buf).Ok?
    ensures Splits(o, text, buf, "", text)
  {
    HoleAfter(o, text, buf);
    assert buf + "" == buf && Escape(o.open, "") + text == text;
    hide Parse;
  }

  lemma EndSplits(o: Options, buf: string)
    requires ValidOptions(o)
    ensures Splits(o, "", buf, "", "")
  {
    assert buf + "" == buf && Flush(buf) + [] == Flush(buf);
  }

  /** Every text that parses does so begin. */
  lemma {:induction false} ParseSplits(o: Options, text: string, buf: string) returns (s: string, tail: string)
    requires ValidOptions(o) && BorderFree(o.open) && Parse(o, text, buf).Ok?
    ensures Splits(o, text, buf, s, tail)
    decreases |text|
  {
    hide Parse, Splits, OpensDirective, BorderFree;
    if text == "" {
      s, tail := "", "";
      EndSplits(o, buf);
    } else if StartsWith(text, o.open + o.open) {
      StepEscape(o, text, buf);
      s, tail := ParseSplits(o, text[2 * |o.open|..], buf + o.open);
      EscapeSplits(o, text, buf, s, tail);
      s := o.open + s;
    } else if StartsWith(text, o.open) {
      s, tail := "", text;
      HoleSplits(o, text, buf);
    } else {
      if OpensDirective(o, text) {
        StepDirective(o, text, buf);
      }
      StepPlain(o, text, buf);
      s, tail := ParseSplits(o, text[1..], buf + [text[0]]);
      PlainSplits(o, text, buf, s, tail);
      s := [text[0]] + s;
    }
  }

  /** The delimiter within a word, past its first character and short of its end. */
  ghost predicate Inside(open: string, word: string) {
    exists k: nat :: StandsAt(open, word, k)
  }

  predicate StandsAt(open: string, word: string, k: nat) {
    0 < k && k + |open| < |word| && word[k..k + |open|] == open
  }

  lemma WordReachesPast(open: string, word: string, front: string, y: string)
    requires front != "" && |front| + |open| < |word| && StartsWith(front + open + y, word)
    ensures Inside(open, word)
  {
    var text := front + open + y;
    assert text[|front|..|front| + |open|] == open;
    assert StandsAt(open, word, |front|);
  }

  /** No directive's opening word holds the opening delimiter inside. */
  ghost predicate Apart(o: Options) {
    !Inside(o.open, o.sigil + "for") && !Inside(o.open, o.sigil + "if")
  }

  /** Whether the text begins with the word and a white space after it. */
  predicate OpensWord(word: string, text: string) {
    StartsWith(text, word) && |text| > |word| && P.IsWhitespace(text[|word|])
  }

  lemma DirectiveByWord(o: Options, text: string)
    ensures OpensDirective(o, text) <==> OpensWord(o.sigil + "for", text) || OpensWord(o.sigil + "if", text)
  {
    if StartsWith(text, o.sigil) {
      var after := text[|o.sigil|..];
      assert text == o.sigil + after;
      SkipPrefix(o.sigil, "for", after);
      SkipPrefix(o.sigil, "if", after);
    }
    if StartsWith(text, o.sigil + "for") || StartsWith(text, o.sigil + "if") {
      assert StartsWith(text, o.sigil);
    }
  }

  /** What follows the delimiter is not read by a word that does not hold it, nor as white space if it is none. */
  lemma WordByFront(open: string, word: string, front: string, x: string, y: string)
    requires front != "" && !Inside(open, word) && y != "" && !P.IsWhitespace(y[0])
    ensures OpensWord(word, front + open + y) ==> OpensWord(word, front + open + x)
  {
    var n, text := |front| + |open|, front + open + y;
    if OpensWord(word, text) {
      if |word| < n {
        assert (front + open + x)[..|word|] == text[..|word|];
        assert (front + open + x)[|word|] == text[|word|];
      } else if |word| > n {
        WordReachesPast(open, word, front, y);
      }
    }
  }

  lemma {:induction false} QuietTransfers(o: Options, s: string, x: string, y: string)
    requires ValidOptions(o) && Apart(o) && y != "" && !P.IsWhitespace(y[0])
    requires Quiet(o, s, o.open + x)
    ensures Quiet(o, s, o.open + y)
    decreases |s|
  {
    if s != "" {
      if StartsWith(s, o.open) {
        hide OpensDirective, Apart;
        QuietTransfers(o, s[|o.open|..], x, y);
      } else {
        hide OpensDirective;
        var front := Escape(o.open, s);
        Regroup(front, o.open, x);
        Regroup(front, o.open, y);
        DirectiveByWord(o, front + o.open + x);
        DirectiveByWord(o, front + o.open + y);
        WordByFront(o.open, o.sigil + "for", front, x, y);
        WordByFront(o.open, o.sigil + "if", front, x, y);
        QuietTransfers(o, s[1..], x, y);
      }
    }
  }

  /** The pieces of a text from its first hole on. */
  lemma HoleFirst(o: Options, tail: string) returns (h: string, left: string)
    requires ValidOptions(o) && tail != "" && StartsWith(tail, o.open) && !StartsWith(tail, o.open + o.open) && Parse(o, tail, "").Ok?
    ensures |left| < |tail| && Parse(o, left, "").Ok? && Parse(o, tail, "").value == [Hole(h)] + Parse(o, left, "").value
  {
    var inner := UntilClose(o.close, tail[|o.open|..], 0, None);
    StepHole(o, tail, "");
    UntilCloseShrinks(o.close, tail[|o.open|..], 0, None);
    h, left := P.Trim(inner.value.0), inner.value.1;
    assert Flush("") + [Hole(h)] == [Hole(h)];
    hide Parse, UntilClose;
  }

  lemma HolesGoodAfter(o: Options, front: seq<Piece>, h: string, rest: seq<Piece>)
    requires ValidOptions(o) && HolesGood(o, front + ([Hole(h)] + rest))
    ensures HolesGood(o, rest) && GoodHole(o, h)
  {
    hide GoodHole;
    var pieces := front + ([Hole(h)] + rest);
    assert pieces[|front|] == Hole(h);
    forall i | 0 <= i < |rest| && rest[i].Hole? ensures GoodHole(o, rest[i].text) {
      assert pieces[|front| + 1 + i] == rest[i];
    }
  }

  lemma GoodWithHole(o: Options, h: string, rest: seq<Piece>)
    requires ValidOptions(o) && GoodHole(o, h) && Good(o, rest)
    ensures Good(o, [Hole(h)] + rest)
    ensures Render(o, [Hole(h)] + rest) == o.open + (h + o.close + Render(o, rest))
  {
    hide GoodHole;
    assert ([Hole(h)] + rest)[1..] == rest;
  }

  lemma GoodWithRun(o: Options, s: string, after: seq<Piece>)
    requires ValidOptions(o) && Good(o, after) && Quiet(o, s, Render(o, after)) && (after == [] || after[0].Hole?)
    ensures Good(o, Flush(s) + after)
  {
    hide Quiet, GoodHole;
    if s == "" {
      assert Flush(s) + after == after;
    } else {
      assert (Flush(s) + after)[1..] == after;
    }
  }

  lemma SplitsGives(o: Options, text: string, s: string, tail: string)
    requires ValidOptions(o) && Splits(o, text, "", s, tail)
    ensures |tail| <= |text| && Quiet(o, s, tail)
    ensures tail == "" || (tail != "" && StartsWith(tail, o.open) && !StartsWith(tail, o.open + o.open))
    ensures Parse(o, tail, "").Ok? && Parse(o, text, "") == Ok(Flush(s) + Parse(o, tail, "").value)
  {
    hide Parse, Quiet, Escape, Flush;
    assert "" + s == s;
  }

  lemma SplitFront(open: string, tail: string)
    requires StartsWith(tail, open)
    ensures |open| <= |tail| && tail == open + tail[|open|..]
  {
  }

  lemma NoPiecesAreGood(o: Options)
    requires ValidOptions(o)
    ensures Parse(o, "", "") == Ok([]) && Good(o, []) && Render(o, []) == ""
  {
  }

  /** Unless a directive's word holds the delimiter, what the parser returns holds no static that a directive begins in. */
  lemma {:induction false} ParsedIsGood(o: Options, text: string)
    requires ValidOptions(o) && BorderFree(o.open) && Apart(o)
    requires Parse(o, text, "").Ok? && HolesGood(o, Parse(o, text, "").value)
    ensures Good(o, Parse(o, text, "").value)
    decreases |text|
  {
    assert o.open != "" && o.close != "";
    hide *;
    var s, tail := ParseSplits(o, text, "");
    SplitsGives(o, text, s, tail);
    NoPiecesAreGood(o);
    if tail == "" {
      GoodWithRun(o, s, []);
    } else {
      var h, left := HoleFirst(o, tail);
      var rest := Parse(o, left, "").value;
      HolesGoodAfter(o, Flush(s), h, rest);
      ParsedIsGood(o, left);
      GoodWithHole(o, h, rest);
      GoodHoleStarts(o, h);
      SplitFront(o.open, tail);
      QuietTransfers(o, s, tail[|o.open|..], h + o.close + Render(o, rest));
      GoodWithRun(o, s, [Hole(h)] + rest);
    }
  }

  lemma GoodHoleStarts(o: Options, h: string)
    requires ValidOptions(o) && GoodHole(o, h)
    ensures h != "" && !P.IsWhitespace(h[0])
  {
  }

  /**
   * What a text parses to renders and parses again to the same pieces exactly
   * where no static of it begins a directive when rendered, for an opening
   * delimiter without a border and holes whose trimmed text reads as itself;
   * and none does unless a directive's word holds the delimiter inside.
   */
  lemma ParsedReparses(o: Options, text: string)
    requires ValidOptions(o) && BorderFree(o.open)
    requires Parse(o, text, "").Ok? && HolesGood(o, Parse(o, text, "").value)
    ensures var pieces := Parse(o, text, "").value;
      && (Parse(o, Render(o, pieces), "") == Ok(pieces) <==> Good(o, pieces))
      && (Apart(o) ==> Good(o, pieces))
  {
    var pieces := Parse(o, text, "").value;
    ParsedAlternates(o, text, "");
    RenderingParses(o, pieces, "");
    assert Flush("") + pieces == pieces;
    if Apart(o) {
      ParsedIsGood(o, text);
    }
  }

  lemma ClosedStep(close: string, c: char, h: string)
    requires close != "" && c != close[0] && !IsQuote(c) && Deeper(c, 0) == 0 && Closed(close, h, 0, None)
    ensures Closed(close, [c] + h, 0, None)
  {
    assert ([c] + h)[1..] == h && ([c] + h + close)[0] == c;
  }

  /** The text of a hole between its delimiters, and what the parser makes of it. */
  lemma WitnessHole()
    ensures Closed("}", "f x", 0, None) && UntilClose("}", " f x}", 0, None) == Some((" f x", ""))
    ensures P.Trim(" f x") == "f x" && P.Trim("f x") == "f x"
  {
    assert ['x'] + "" == "x" && [' '] + "x" == " x" && ['f'] + " x" == "f x" && [' '] + "f x" == " f x";
    assert " f x" + "}" + "" == " f x}" && " f x"[1..] == "f x";
    assert P.TrimStart(" f x") == "f x" && P.TrimStart("f x") == "f x" && P.TrimEnd("f x") == "f x";
    ClosedStep("}", 'x', "");
    hide Closed, UntilClose, P.TrimStart, P.TrimEnd;
    ClosedStep("}", ' ', "x");
    ClosedStep("}", 'f', " x");
    ClosedStep("}", ' ', "f x");
    ClosedCloses("}", " f x", 0, None, "");
  }

  lemma WitnessParses(o: Options)
    requires o == Options("i", "}", "@")
    ensures ValidOptions(o) && Parse(o, "@i f x}", "") == Ok([Static("@"), Hole("f x")])
  {
    assert Parse(o, "", "") == Ok([]);
    hide Parse, UntilClose, P.Trim;
    assert "@i f x}"[1..] == "i f x}" && "i f x}"[1..] == " f x}" && "" + "@" == "@";
    assert "i f x}"[0] == 'i' && "i f x}"[1] == ' ' && (o.open + o.open)[1] == 'i';
    StepPlain(o, "@i f x}", "");
    WitnessHole();
    StepHole(o, "i f x}", "@");
    assert Flush("@") + [Hole("f x")] + [] == [Static("@"), Hole("f x")];
  }

  lemma WitnessRenders(o: Options)
    requires o == Options("i", "}", "@")
    ensures ValidOptions(o) && Parse(o, Render(o, [Static("@"), Hole("f x")]), "") == Err(Directive)
  {
    hide Parse;
    var pieces := [Static("@"), Hole("f x")];
    assert "@"[1..] == "" && "@"[0] != 'i' && Escape("i", "") == "" && Escape("i", "@") == "@";
    assert pieces[1..] == [Hole("f x")] && [Hole("f x")][1..] == [];
    assert Render(o, [Hole("f x")]) == "if x}";
    assert Render(o, pieces) == "@if x}";
    assert "@if x}"[1..] == "if x}" && "if x}"[..2] == "if";
    StepDirective(o, "@if x}", "");
  }

  /** A delimiter that a directive's word holds inside: the white space that kept the word apart is trimmed away. */
  lemma TrimmedHoleBeginsDirective()
    ensures var o, text, pieces := Options("i", "}", "@"), "@i f x}", [Static("@"), Hole("f x")];
      && ValidOptions(o) && BorderFree(o.open) && Inside(o.open, o.sigil + "if")
      && Parse(o, text, "") == Ok(pieces) && HolesGood(o, pieces)
      && Parse(o, Render(o, pieces), "") == Err(Directive)
  {
    var o := Options("i", "}", "@");
    assert o.sigil + "if" == "@if" && StandsAt(o.open, "@if", 1);
    assert ("f x" + "}")[0] == 'f' && "i"[0] == 'i';
    hide Closed, Parse, Render, P.Trim;
    WitnessParses(o);
    WitnessRenders(o);
    WitnessHole();
  }
}
