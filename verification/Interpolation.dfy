/** Splitting a string literal at its `{...}` placeholders. */
module Interpolation {
  import opened Wrappers

  /** A piece of an interpolated string: text as written, `{{` and `}}` included, or
      the body of a placeholder without its braces. */
  datatype Segment = Literal(text: string) | Placeholder(body: string)

  // ------------------------------------------------------------------
  // Where a placeholder ends
  // ------------------------------------------------------------------

  /** How deep in brackets a reader of a placeholder body is, and whether it is inside
      a quoted string or just after a backslash there. */
  datatype Mode = Mode(depth: int, quoted: bool, escaped: bool)

  const OUTSIDE := Mode(0, false, false)

  function After(m: Mode, c: char): Mode {
    if m.escaped then m.(escaped := false)
    else if m.quoted then
      if c == '\\' then m.(escaped := true) else if c == '"' then m.(quoted := false) else m
    else if c == '"' then m.(quoted := true)
    else if c == '(' || c == '[' || c == '{' then m.(depth := m.depth + 1)
    else if c == ')' || c == ']' || c == '}' then m.(depth := m.depth - 1)
    else m
  }

  function ModeAfter(m: Mode, s: string): Mode {
    if s == [] then m else After(ModeAfter(m, s[..|s| - 1]), s[|s| - 1])
  }

  /** The brace at `i` is unquoted and at depth zero. */
  predicate Closes(m: Mode, s: string, i: nat) {
    i < |s| && s[i] == '}' && ModeAfter(m, s[..i]) == OUTSIDE
  }

  /** The index of the brace that ends a placeholder whose body starts `s`. */
  function PlaceholderEnd(s: string, m: Mode): (r: Option<nat>)
    ensures r.Some? ==> r.value < |s| && s[r.value] == '}'
  {
    if s == [] then None
    else if m == OUTSIDE && s[0] == '}' then Some(0)
    else match PlaceholderEnd(s[1..], After(m, s[0]))
      case Some(n) => Some(n + 1)
      case None => None
  }

  lemma {:induction false} ModeAfterFirst(m: Mode, s: string)
    requires s != []
    ensures ModeAfter(m, s) == ModeAfter(After(m, s[0]), s[1..])
  {
    if |s| == 1 {
      assert s[..0] == [] && s[1..] == [];
    } else {
      ModeAfterFirst(m, s[..|s| - 1]);
      assert s[..|s| - 1][1..] == s[1..][..|s[1..]| - 1];
    }
  }

  /** A placeholder ends at its first unquoted brace of depth zero, and is unterminated
      when there is none. */
  lemma {:induction false} EndIsFirstClose(s: string, m: Mode)
    ensures match PlaceholderEnd(s, m)
            case Some(i) => Closes(m, s, i) && forall j: nat :: j < i ==> !Closes(m, s, j)
            case None => forall j: nat :: !Closes(m, s, j)
  {
    if s != [] {
      assert s[..0] == [];
      EndIsFirstClose(s[1..], After(m, s[0]));
      forall j: nat | 0 < j < |s|
        ensures Closes(m, s, j) <==> Closes(After(m, s[0]), s[1..], j - 1)
      {
        ModeAfterFirst(m, s[..j]);
        assert s[..j][1..] == s[1..][..j - 1];
      }
    }
  }

  function Shift(r: Option<nat>, k: nat): Option<nat> {
    match r case Some(n) => Some(n + k) case None => None
  }

  /** One character of the scan. */
  lemma EndStep(chars: string, i: nat, m: Mode)
    requires i < |chars|
    ensures PlaceholderEnd(chars[i..], m)
         == if m == OUTSIDE && chars[i] == '}' then Some(0)
            else Shift(PlaceholderEnd(chars[i + 1..], After(m, chars[i])), 1)
  {
    assert chars[i..][0] == chars[i] && chars[i..][1..] == chars[i + 1..];
  }

  /** The scan for the closing brace, an index at a time. */
  method FindPlaceholderEnd(chars: string, start: nat) returns (r: Option<nat>)
    requires start <= |chars|
    ensures r == Shift(PlaceholderEnd(chars[start..], OUTSIDE), start)
  {
    hide PlaceholderEnd;
    var depth := 0;
    var inString := false;
    var i := start;
    while i < |chars|
      invariant start <= i <= |chars|
      invariant Shift(PlaceholderEnd(chars[i..], Mode(depth, inString, false)), i) == Shift(PlaceholderEnd(chars[start..], OUTSIDE), start)
    {
      var c := chars[i];
      EndStep(chars, i, Mode(depth, inString, false));
      if inString {
        if c == '\\' && i + 1 < |chars| {
          EndStep(chars, i + 1, Mode(depth, true, true));
          i := i + 2;
          continue;
        }
        if c == '"' {
          inString := false;
        } else if c == '\\' {
          NoEndOfEmpty(chars, Mode(depth, true, true));
          NoEndOfEmpty(chars, Mode(depth, true, false));
        }
        i := i + 1;
        continue;
      }
      match c {
        case '"' => inString := true;
        case '(' => depth := depth + 1;
        case '[' => depth := depth + 1;
        case '{' => depth := depth + 1;
        case ')' => depth := depth - 1;
        case ']' => depth := depth - 1;
        case '}' =>
          if depth == 0 {
            return Some(i);
          }
          depth := depth - 1;
        case _ =>
      }
      i := i + 1;
    }
    NoEndOfEmpty(chars, Mode(depth, inString, false));
    return None;
  }

  lemma NoEndOfEmpty(chars: string, m: Mode)
    ensures PlaceholderEnd(chars[|chars|..], m) == None
  {}

  // ------------------------------------------------------------------
  // Segments
  // ------------------------------------------------------------------

  function Flush(literal: string): seq<Segment> {
    if literal == [] then [] else [Literal(literal)]
  }

  predicate Doubled(s: string, c: char) {
    |s| > 1 && s[0] == c && s[1] == c
  }

  /** The segments of `s`, after the literal text already collected. */
  function Segments(s: string, literal: string): Option<seq<Segment>>
    decreases |s|
  {
    if s == [] then Some(Flush(literal))
    else if Doubled(s, '{') || Doubled(s, '}') then Segments(s[2..], literal + s[..2])
    else if s[0] == '{' then
      match PlaceholderEnd(s[1..], OUTSIDE)
      case None => None
      case Some(n) =>
        match Segments(s[n + 2..], "")
        case None => None
        case Some(more) => Some(Flush(literal) + [Placeholder(s[1..n + 1])] + more)
    else Segments(s[1..], literal + [s[0]])
  }

  function Add(segments: seq<Segment>, r: Option<seq<Segment>>): Option<seq<Segment>> {
    match r case Some(more) => Some(segments + more) case None => None
  }

  /** One step of the split at `i`. */
  lemma SegmentsStep(s: string, i: nat, literal: string)
    requires i < |s|
    ensures Segments(s[i..], literal)
         == if i + 1 < |s| && s[i] == s[i + 1] && (s[i] == '{' || s[i] == '}') then Segments(s[i + 2..], literal + [s[i], s[i]])
            else if s[i] == '{' then
              match PlaceholderEnd(s[i + 1..], OUTSIDE)
              case None => None
              case Some(n) => Add(Flush(literal) + [Placeholder(s[i + 1..i + 1 + n])], Segments(s[i + n + 2..], ""))
            else Segments(s[i + 1..], literal + [s[i]])
  {
    var t := s[i..];
    assert t[1..] == s[i + 1..];
    if Doubled(t, '{') || Doubled(t, '}') {
      assert t[2..] == s[i + 2..] && t[..2] == [s[i], s[i]];
    } else if s[i] == '{' && PlaceholderEnd(s[i + 1..], OUTSIDE).Some? {
      var n := PlaceholderEnd(s[i + 1..], OUTSIDE).value;
      assert t[n + 2..] == s[i + n + 2..] && t[1..n + 1] == s[i + 1..i + 1 + n];
    }
  }

  lemma AddTwice(a: seq<Segment>, b: seq<Segment>, r: Option<seq<Segment>>)
    ensures Add(a, Add(b, r)) == Add(a + b, r)
  {
    if r.Some? { assert a + (b + r.value) == a + b + r.value; }
  }

  /** What is still to be split at `i`, after what has been collected. */
  function Remaining(s: string, i: nat, literal: string, segments: seq<Segment>): Option<seq<Segment>>
    requires i <= |s|
  {
    Add(segments, Segments(s[i..], literal))
  }

  lemma RemainingAtHole(s: string, i: nat, literal: string, segments: seq<Segment>)
    requires i < |s| && s[i] == '{' && (i + 1 < |s| ==> s[i + 1] != '{')
    ensures match PlaceholderEnd(s[i + 1..], OUTSIDE)
            case None => Remaining(s, i, literal, segments) == None
            case Some(n) =>
              Remaining(s, i, literal, segments)
              == Remaining(s, i + n + 2, "", segments + (Flush(literal) + [Placeholder(s[i + 1..i + 1 + n])]))
  {
    SegmentsStep(s, i, literal);
    hide Segments;
    match PlaceholderEnd(s[i + 1..], OUTSIDE)
    case None =>
    case Some(n) => AddTwice(segments, Flush(literal) + [Placeholder(s[i + 1..i + 1 + n])], Segments(s[i + n + 2..], ""));
  }

  lemma RemainingElsewhere(s: string, i: nat, literal: string, segments: seq<Segment>)
    requires i < |s|
    ensures i + 1 < |s| && s[i] == s[i + 1] && (s[i] == '{' || s[i] == '}')
            ==> Remaining(s, i, literal, segments) == Remaining(s, i + 2, literal + [s[i], s[i]], segments)
    ensures s[i] != '{' && !(i + 1 < |s| && s[i] == s[i + 1] && s[i] == '}')
            ==> Remaining(s, i, literal, segments) == Remaining(s, i + 1, literal + [s[i]], segments)
  {
    SegmentsStep(s, i, literal);
  }

  lemma RemainingAtEnds(s: string, literal: string, segments: seq<Segment>)
    ensures Remaining(s, 0, "", []) == Segments(s, "")
    ensures Remaining(s, |s|, literal, segments) == Some(segments + Flush(literal))
  {
    assert s[0..] == s;
    if Segments(s, "").Some? { assert [] + Segments(s, "").value == Segments(s, "").value; }
  }

  /** The segments, collected into a list. */
  method ScanSegments(s: string) returns (r: Option<seq<Segment>>)
    ensures r == Segments(s, "")
  {
    hide Segments, Remaining, PlaceholderEnd, Flush;
    var segments: seq<Segment> := [];
    var literal := "";
    var i := 0;
    RemainingAtEnds(s, literal, segments);
    while i < |s|
      invariant 0 <= i <= |s|
      invariant Remaining(s, i, literal, segments) == Segments(s, "")
    {
      RemainingElsewhere(s, i, literal, segments);
      if i + 1 < |s| && s[i] == s[i + 1] && (s[i] == '{' || s[i] == '}') {
        literal := literal + [s[i], s[i]];
        i := i + 2;
        continue;
      }
      if s[i] == '{' {
        RemainingAtHole(s, i, literal, segments);
        var end := FindPlaceholderEnd(s, i + 1);
        if end.None? {
          return None;
        }
        segments := segments + (Flush(literal) + [Placeholder(s[i + 1..end.value])]);
        literal := "";
        i := end.value + 1;
        continue;
      }
      literal := literal + [s[i]];
      i := i + 1;
    }
    RemainingAtEnds(s, literal, segments);
    return Some(segments + Flush(literal));
  }

  function Braced(body: string): string { "{" + body + "}" }

  function Hollow(body: string): string { "{}" }

  /** Segments written out, each placeholder body spelled by `hole`. */
  function Spell(segments: seq<Segment>, hole: string -> string): string {
    if segments == [] then ""
    else (match segments[0] case Literal(t) => t case Placeholder(b) => hole(b)) + Spell(segments[1..], hole)
  }

  lemma SpellFlush(literal: string, hole: string -> string)
    ensures Spell(Flush(literal), hole) == literal
  {
    if literal != [] {
      assert Spell([Literal(literal)], hole) == literal + Spell([], hole);
    }
  }

  lemma SpellPlaceholder(literal: string, body: string, more: seq<Segment>, hole: string -> string)
    ensures Spell(Flush(literal) + [Placeholder(body)] + more, hole) == literal + (hole(body) + Spell(more, hole))
  {
    var tail := [Placeholder(body)] + more;
    assert tail[1..] == more;
    assert Spell(tail, hole) == hole(body) + Spell(more, hole);
    assert Flush(literal) + [Placeholder(body)] + more == Flush(literal) + tail;
    if literal != [] {
      assert (Flush(literal) + tail)[1..] == tail;
    } else {
      assert Flush(literal) + tail == tail;
      assert literal + Spell(tail, hole) == Spell(tail, hole);
    }
  }

  /** Splitting loses nothing: the literals and the braced bodies give the string back. */
  lemma {:induction false} SegmentsLoseNothing(s: string, literal: string)
    requires Segments(s, literal).Some?
    ensures Spell(Segments(s, literal).value, Braced) == literal + s
    decreases |s|
  {
    if s == [] {
      SpellFlush(literal, Braced);
      assert literal + s == literal;
    } else if Doubled(s, '{') || Doubled(s, '}') {
      SegmentsLoseNothing(s[2..], literal + s[..2]);
      assert literal + s == literal + s[..2] + s[2..];
    } else if s[0] == '{' {
      HoleLosesNothing(s, literal);
    } else {
      SegmentsLoseNothing(s[1..], literal + [s[0]]);
      assert literal + s == literal + [s[0]] + s[1..];
    }
  }

  lemma HoleLosesNothing(s: string, literal: string)
    requires s != [] && s[0] == '{' && !Doubled(s, '{') && Segments(s, literal).Some?
    ensures Spell(Segments(s, literal).value, Braced) == literal + s
    decreases |s|, 0
  {
    var n := PlaceholderEnd(s[1..], OUTSIDE).value;
    var more := Segments(s[n + 2..], "").value;
    SegmentsLoseNothing(s[n + 2..], "");
    hide Spell, Segments;
    SpellPlaceholder(literal, s[1..n + 1], more, Braced);
    assert "" + s[n + 2..] == s[n + 2..];
    BracedPart(s, n);
  }

  lemma BracedPart(s: string, n: nat)
    requires n + 1 < |s| && s[0] == '{' && s[n + 1] == '}'
    ensures Braced(s[1..n + 1]) + s[n + 2..] == s
  {}

  /** Every body is shorter than the string by its two braces. */
  predicate BodiesFit(segments: seq<Segment>, n: nat) {
    forall g :: g in segments && g.Placeholder? ==> |g.body| + 2 <= n
  }

  lemma {:induction false} SegmentBodiesFit(s: string, literal: string)
    requires Segments(s, literal).Some?
    ensures BodiesFit(Segments(s, literal).value, |s|)
    decreases |s|
  {
    if s == [] {
    } else if Doubled(s, '{') || Doubled(s, '}') {
      SegmentBodiesFit(s[2..], literal + s[..2]);
    } else if s[0] == '{' {
      SegmentBodiesFit(s[PlaceholderEnd(s[1..], OUTSIDE).value + 2..], "");
    } else {
      SegmentBodiesFit(s[1..], literal + [s[0]]);
    }
  }

  predicate HasPlaceholder(segments: seq<Segment>) {
    exists g :: g in segments && g.Placeholder?
  }

  // ------------------------------------------------------------------
  // The format string
  // ------------------------------------------------------------------

  /** The format string of segments: `{}` stands for each placeholder. */
  function Format(segments: seq<Segment>): string {
    Spell(segments, Hollow)
  }

  /** The format string of a string, read off the string itself. */
  ghost function FormatOf(s: string): string
    decreases |s|
  {
    if s == [] then ""
    else if Doubled(s, '{') || Doubled(s, '}') then s[..2] + FormatOf(s[2..])
    else if s[0] == '{' then
      match PlaceholderEnd(s[1..], OUTSIDE)
      case None => ""
      case Some(n) => "{}" + FormatOf(s[n + 2..])
    else [s[0]] + FormatOf(s[1..])
  }

  lemma {:induction false} FormatOfSegments(s: string, literal: string)
    requires Segments(s, literal).Some?
    ensures Spell(Segments(s, literal).value, Hollow) == literal + FormatOf(s)
    decreases |s|, 1
  {
    if s == [] {
      SpellFlush(literal, Hollow);
      assert literal + "" == literal;
    } else if Doubled(s, '{') || Doubled(s, '}') {
      FormatOfText(s, literal, 2);
    } else if s[0] == '{' {
      FormatOfHole(s, literal);
    } else {
      FormatOfText(s, literal, 1);
    }
  }

  lemma FormatOfText(s: string, literal: string, n: nat)
    requires s != [] && Segments(s, literal).Some?
    requires if Doubled(s, '{') || Doubled(s, '}') then n == 2 else s[0] != '{' && n == 1
    ensures Spell(Segments(s, literal).value, Hollow) == literal + FormatOf(s)
    decreases |s|, 0
  {
    hide Segments, Spell, FormatOf, Doubled;
    TextStep(s, literal, n);
    FormatOfSegments(s[n..], literal + s[..n]);
    Regroup(literal, s[..n], FormatOf(s[n..]));
  }

  lemma Regroup(a: string, b: string, c: string)
    ensures (a + b) + c == a + (b + c)
  {
  }

  lemma TextStep(s: string, literal: string, n: nat)
    requires s != []
    requires if Doubled(s, '{') || Doubled(s, '}') then n == 2 else s[0] != '{' && n == 1
    ensures n <= |s| && FormatOf(s) == s[..n] + FormatOf(s[n..]) && Segments(s, literal) == Segments(s[n..], literal + s[..n])
  {
    assert n == 1 ==> s[..n] == [s[0]];
  }

  lemma FormatOfHole(s: string, literal: string)
    requires s != [] && s[0] == '{' && !Doubled(s, '{') && Segments(s, literal).Some?
    ensures Spell(Segments(s, literal).value, Hollow) == literal + FormatOf(s)
    decreases |s|, 0
  {
    var n := PlaceholderEnd(s[1..], OUTSIDE).value;
    var more := Segments(s[n + 2..], "").value;
    assert FormatOf(s) == "{}" + FormatOf(s[n + 2..]);
    FormatOfSegments(s[n + 2..], "");
    hide Spell, Segments, FormatOf;
    assert "" + FormatOf(s[n + 2..]) == FormatOf(s[n + 2..]);
    SpellPlaceholder(literal, s[1..n + 1], more, Hollow);
  }

  lemma FormatOfStart(s: string)
    requires s != [] && Segments(s, "").Some?
    ensures FormatOf(s) != [] && FormatOf(s)[0] == s[0]
  {}

  /** Whether a string scans does not depend on the literal collected before it. */
  lemma {:induction false} LiteralOnlyPrefixes(s: string, a: string, b: string)
    requires Segments(s, a).Some?
    ensures Segments(s, b).Some?
    decreases |s|
  {
    if s == [] {
    } else if Doubled(s, '{') || Doubled(s, '}') {
      LiteralOnlyPrefixes(s[2..], a + s[..2], b + s[..2]);
    } else if s[0] == '{' {
    } else {
      LiteralOnlyPrefixes(s[1..], a + [s[0]], b + [s[0]]);
    }
  }

  /** Scanning a format string that came from a string with a placeholder meets an
      empty placeholder, if it does not fail. */
  lemma {:induction false} FormatHasEmptyBody(s: string, literal: string, other: string)
    requires Segments(s, literal).Some? && HasPlaceholder(Segments(s, literal).value)
    ensures Segments(FormatOf(s), other).Some? ==> Placeholder("") in Segments(FormatOf(s), other).value
    decreases |s|
  {
    var f := FormatOf(s);
    if Doubled(s, '{') || Doubled(s, '}') {
      FormatHasEmptyBody(s[2..], literal + s[..2], other + s[..2]);
      assert f[..2] == s[..2] && f[2..] == FormatOf(s[2..]);
    } else if s[0] == '{' {
      var n := PlaceholderEnd(s[1..], OUTSIDE).value;
      EmptyBodyFirst(FormatOf(s[n + 2..]), other);
    } else {
      FormatHasEmptyBody(s[1..], literal + [s[0]], other + [s[0]]);
      LiteralOnlyPrefixes(s[1..], literal + [s[0]], "");
      FormatOfStart(s[1..]);
      assert f[1..] == FormatOf(s[1..]);
    }
  }

  lemma EmptyBodyFirst(more: string, other: string)
    ensures Segments("{}" + more, other).Some? ==> Placeholder("") in Segments("{}" + more, other).value
  {
    var f := "{}" + more;
    assert f[1..] == "}" + more && f[2..] == more && f[1..1] == "";
    assert PlaceholderEnd(f[1..], OUTSIDE) == Some(0);
  }

  /** The format string of a literal with a placeholder, scanned again, fails to scan
      or meets an empty placeholder. */
  lemma FormatStays(s: string)
    requires Segments(s, "").Some? && HasPlaceholder(Segments(s, "").value)
    ensures var f := Format(Segments(s, "").value);
            Segments(f, "").Some? ==> Placeholder("") in Segments(f, "").value
  {
    FormatOfSegments(s, "");
    assert "" + FormatOf(s) == FormatOf(s);
    FormatHasEmptyBody(s, "", "");
  }
}
