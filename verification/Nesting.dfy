/** What a hole or a placeholder may hold: text with brackets and quoted strings, where the scanners find its end. */
module Nesting {
  import opened Wrappers
  import I = Interpolation
  import TT = TileTemplate

  /** One character of a quoted string, or a backslash and the character it keeps from ending the string. */
  datatype Unit = Plain(c: char) | Escaped(c: char)

  datatype Nest = Letter(c: char) | Quoted(quote: char, units: seq<Unit>) | Bracketed(kind: nat, inside: seq<Nest>)

  const OPENERS: string := "([{"
  const CLOSERS: string := ")]}"

  function UnitsText(units: seq<Unit>): string {
    if units == [] then ""
    else (match units[0] case Plain(c) => [c] case Escaped(c) => ['\\', c]) + UnitsText(units[1..])
  }

  /** Letters are neither brackets nor quotes, strings hold no bare quote or backslash, and brackets come in pairs. */
  predicate Proper(n: Nest, quotes: string)
    decreases n, 0
  {
    match n
    case Letter(c) => c !in OPENERS && c !in CLOSERS && c !in quotes
    case Quoted(quote, units) =>
      && quote in quotes
      && forall k :: 0 <= k < |units| && units[k].Plain? ==> units[k].c != quote && units[k].c != '\\'
    case Bracketed(kind, inside) => kind < 3 && AllProper(inside, quotes)
  }

  predicate AllProper(ns: seq<Nest>, quotes: string)
    decreases ns, 1
  {
    ns == [] || (Proper(ns[0], quotes) && AllProper(ns[1..], quotes))
  }

  function NestText(n: Nest, quotes: string): string
    requires Proper(n, quotes)
    decreases n, 0
  {
    match n
    case Letter(c) => [c]
    case Quoted(quote, units) => [quote] + UnitsText(units) + [quote]
    case Bracketed(kind, inside) => [OPENERS[kind]] + AllText(inside, quotes) + [CLOSERS[kind]]
  }

  function AllText(ns: seq<Nest>, quotes: string): string
    requires AllProper(ns, quotes)
    decreases ns, 1
  {
    if ns == [] then "" else NestText(ns[0], quotes) + AllText(ns[1..], quotes)
  }

  /** Outside all brackets and strings nothing begins as the closing delimiter does. */
  predicate Clear(ns: seq<Nest>, quotes: string, first: char)
    requires AllProper(ns, quotes)
  {
    ns == [] || (NestText(ns[0], quotes)[0] != first && Clear(ns[1..], quotes, first))
  }

  lemma Regroup(a: string, b: string, c: string)
    ensures (a + b) + c == a + (b + c)
  {
  }

  // ----- The holes of a template -----

  const HOLE_QUOTES: string := "\"'"

  lemma OneCharacter(close: string, c: char, rest: string, depth: int)
    requires close != "" && (depth == 0 ==> c != close[0]) && c !in HOLE_QUOTES
    ensures TT.UntilClose(close, [c] + rest, depth, None)
         == TT.Longer([c], TT.UntilClose(close, rest, TT.Deeper(c, depth), None))
  {
    var text := [c] + rest;
    assert text[..1] == [c] && text[1..] == rest && text[0] == c;
    assert c != '\"' && c != '\'' by {
      assert HOLE_QUOTES[0] == '\"' && HOLE_QUOTES[1] == '\'';
    }
  }

  lemma OpensQuote(close: string, quote: char, rest: string, depth: int)
    requires close != "" && (depth == 0 ==> quote != close[0]) && quote in HOLE_QUOTES
    ensures TT.UntilClose(close, [quote] + rest, depth, None)
         == TT.Longer([quote], TT.UntilClose(close, rest, depth, Some(quote)))
  {
    var text := [quote] + rest;
    assert text[..1] == [quote] && text[1..] == rest && text[0] == quote;
  }

  lemma InQuote(close: string, c: char, rest: string, depth: int, quote: char)
    requires close != "" && c != '\\'
    ensures TT.UntilClose(close, [c] + rest, depth, Some(quote))
         == TT.Longer([c], TT.UntilClose(close, rest, depth, if c == quote then None else Some(quote)))
  {
    var text := [c] + rest;
    assert text[..1] == [c] && text[1..] == rest;
  }

  lemma InEscape(close: string, c: char, rest: string, depth: int, quote: char)
    requires close != ""
    ensures TT.UntilClose(close, ['\\', c] + rest, depth, Some(quote))
         == TT.Longer(['\\', c], TT.UntilClose(close, rest, depth, Some(quote)))
  {
    var text := ['\\', c] + rest;
    assert text[..2] == ['\\', c] && text[2..] == rest;
  }

  /** A string is passed over, whatever brackets or delimiters it holds. */
  lemma {:induction false} QuotePasses(close: string, units: seq<Unit>, quote: char, rest: string, depth: int)
    requires close != "" && quote in HOLE_QUOTES && Proper(Quoted(quote, units), HOLE_QUOTES)
    ensures TT.UntilClose(close, UnitsText(units) + ([quote] + rest), depth, Some(quote))
         == TT.Longer(UnitsText(units) + [quote], TT.UntilClose(close, rest, depth, None))
    decreases |units|
  {
    hide TT.UntilClose, TT.Longer;
    if units == [] {
      InQuote(close, quote, rest, depth, quote);
      assert UnitsText(units) + ([quote] + rest) == [quote] + rest && UnitsText(units) + [quote] == [quote];
    } else {
      var first := match units[0] case Plain(c) => [c] case Escaped(c) => ['\\', c];
      var more := UnitsText(units[1..]);
      assert Proper(Quoted(quote, units[1..]), HOLE_QUOTES);
      QuotePasses(close, units[1..], quote, rest, depth);
      Regroup(first, more, [quote] + rest);
      Regroup(first, more, [quote]);
      if units[0].Plain? {
        InQuote(close, units[0].c, more + ([quote] + rest), depth, quote);
      } else {
        InEscape(close, units[0].c, more + ([quote] + rest), depth, quote);
      }
      TT.Join(first, more + [quote], TT.UntilClose(close, rest, depth, None));
    }
  }

  lemma {:induction false} NestPasses(close: string, n: Nest, rest: string, depth: nat)
    requires close != "" && Proper(n, HOLE_QUOTES) && (depth == 0 ==> NestText(n, HOLE_QUOTES)[0] != close[0])
    ensures TT.UntilClose(close, NestText(n, HOLE_QUOTES) + rest, depth, None)
         == TT.Longer(NestText(n, HOLE_QUOTES), TT.UntilClose(close, rest, depth, None))
    decreases n, 0
  {
    hide TT.UntilClose, TT.Longer;
    match n
    case Letter(c) =>
      OneCharacter(close, c, rest, depth);
      LetterDepth(c, depth);
    case Quoted(quote, units) =>
      var text := UnitsText(units);
      OpensQuote(close, quote, text + ([quote] + rest), depth);
      QuotePasses(close, units, quote, rest, depth);
      TT.Join([quote], text + [quote], TT.UntilClose(close, rest, depth, None));
      assert [quote] + text + [quote] + rest == [quote] + (text + ([quote] + rest));
      assert [quote] + text + [quote] == [quote] + (text + [quote]);
    case Bracketed(kind, inside) =>
      var o, c, text := OPENERS[kind], CLOSERS[kind], AllText(inside, HOLE_QUOTES);
      BracketDepth(kind, depth);
      OneCharacter(close, o, text + ([c] + rest), depth);
      AllPass(close, inside, [c] + rest, depth + 1);
      OneCharacter(close, c, rest, depth + 1);
      TT.Join(text, [c], TT.UntilClose(close, rest, depth, None));
      TT.Join([o], text + [c], TT.UntilClose(close, rest, depth, None));
      assert [o] + text + [c] + rest == [o] + (text + ([c] + rest));
      assert [o] + text + [c] == [o] + (text + [c]);
  }

  lemma LetterDepth(c: char, depth: int)
    requires c !in OPENERS && c !in CLOSERS
    ensures TT.Deeper(c, depth) == depth
  {
    assert OPENERS[0] == '(' && OPENERS[1] == '[' && OPENERS[2] == '{';
    assert CLOSERS[0] == ')' && CLOSERS[1] == ']' && CLOSERS[2] == '}';
  }

  lemma BracketDepth(kind: nat, depth: int)
    requires kind < 3
    ensures TT.Deeper(OPENERS[kind], depth) == depth + 1 && TT.Deeper(CLOSERS[kind], depth + 1) == depth
    ensures OPENERS[kind] !in HOLE_QUOTES && CLOSERS[kind] !in HOLE_QUOTES
  {
  }

  lemma {:induction false} AllPass(close: string, ns: seq<Nest>, rest: string, depth: nat)
    requires close != "" && AllProper(ns, HOLE_QUOTES) && (depth == 0 ==> Clear(ns, HOLE_QUOTES, close[0]))
    ensures TT.UntilClose(close, AllText(ns, HOLE_QUOTES) + rest, depth, None)
         == TT.Longer(AllText(ns, HOLE_QUOTES), TT.UntilClose(close, rest, depth, None))
    decreases ns, 1
  {
    hide TT.UntilClose, TT.Longer, NestText;
    if ns == [] {
      assert AllText(ns, HOLE_QUOTES) + rest == rest;
      TT.Nothing(TT.UntilClose(close, rest, depth, None));
    } else {
      var first, more := NestText(ns[0], HOLE_QUOTES), AllText(ns[1..], HOLE_QUOTES);
      AllPass(close, ns[1..], rest, depth);
      NestPasses(close, ns[0], more + rest, depth);
      TT.Join(first, more, TT.UntilClose(close, rest, depth, None));
      Regroup(first, more, rest);
    }
  }

  /**
   * A hole ends at the first closing delimiter outside brackets and strings:
   * inside of them the delimiter, other brackets and other quotes are text.
   */
  lemma HoleEndsOutside(close: string, ns: seq<Nest>, rest: string)
    requires close != "" && AllProper(ns, HOLE_QUOTES) && Clear(ns, HOLE_QUOTES, close[0])
    ensures TT.UntilClose(close, AllText(ns, HOLE_QUOTES) + (close + rest), 0, None) == Some((AllText(ns, HOLE_QUOTES), rest))
  {
    AllPass(close, ns, close + rest, 0);
    assert (close + rest)[|close|..] == rest;
    assert TT.UntilClose(close, close + rest, 0, None) == Some(("", rest));
    TT.FoundClose(AllText(ns, HOLE_QUOTES), rest);
    hide TT.UntilClose, TT.Longer;
  }

  // ----- The placeholders of a string -----

  const PLACEHOLDER_QUOTES: string := "\""

  function Inside(depth: int): I.Mode {
    I.Mode(depth, false, false)
  }

  lemma ScanOne(c: char, rest: string, m: I.Mode)
    requires !(m == I.OUTSIDE && c == '}')
    ensures I.PlaceholderEnd([c] + rest, m) == I.Shift(I.PlaceholderEnd(rest, I.After(m, c)), 1)
  {
    assert ([c] + rest)[1..] == rest;
  }

  lemma ShiftTwice(r: Option<nat>, a: nat, b: nat)
    ensures I.Shift(I.Shift(r, a), b) == I.Shift(r, a + b)
  {
  }

  lemma {:induction false} StringScans(units: seq<Unit>, rest: string, depth: int)
    requires Proper(Quoted('\"', units), PLACEHOLDER_QUOTES)
    ensures I.PlaceholderEnd(UnitsText(units) + (['\"'] + rest), I.Mode(depth, true, false))
         == I.Shift(I.PlaceholderEnd(rest, Inside(depth)), |UnitsText(units)| + 1)
    decreases |units|
  {
    hide I.PlaceholderEnd;
    if units == [] {
      ScanOne('\"', rest, I.Mode(depth, true, false));
      assert UnitsText(units) + (['\"'] + rest) == ['\"'] + rest;
    } else {
      var more := UnitsText(units[1..]) + (['\"'] + rest);
      var end := I.PlaceholderEnd(rest, Inside(depth));
      assert Proper(Quoted('\"', units[1..]), PLACEHOLDER_QUOTES);
      StringScans(units[1..], rest, depth);
      if units[0].Plain? {
        ScanOne(units[0].c, more, I.Mode(depth, true, false));
        assert UnitsText(units) + (['\"'] + rest) == [units[0].c] + more;
      } else {
        var c := units[0].c;
        ScanOne('\\', [c] + more, I.Mode(depth, true, false));
        ScanOne(c, more, I.Mode(depth, true, true));
        assert UnitsText(units) + (['\"'] + rest) == ['\\'] + ([c] + more);
      }
    }
  }

  lemma {:induction false} NestScans(n: Nest, rest: string, depth: nat)
    requires Proper(n, PLACEHOLDER_QUOTES)
    ensures I.PlaceholderEnd(NestText(n, PLACEHOLDER_QUOTES) + rest, Inside(depth))
         == I.Shift(I.PlaceholderEnd(rest, Inside(depth)), |NestText(n, PLACEHOLDER_QUOTES)|)
    decreases n, 0
  {
    hide I.PlaceholderEnd;
    match n
    case Letter(c) =>
      LetterMode(c, depth);
      ScanOne(c, rest, Inside(depth));
    case Quoted(quote, units) =>
      assert quote == '\"';
      ScanOne('\"', UnitsText(units) + (['\"'] + rest), Inside(depth));
      StringScans(units, rest, depth);
      assert ['\"'] + UnitsText(units) + ['\"'] + rest == ['\"'] + (UnitsText(units) + (['\"'] + rest));
    case Bracketed(kind, inside) =>
      var o, c, text := OPENERS[kind], CLOSERS[kind], AllText(inside, PLACEHOLDER_QUOTES);
      BracketMode(kind, depth);
      ScanOne(o, text + ([c] + rest), Inside(depth));
      AllScan(inside, [c] + rest, depth + 1);
      ScanOne(c, rest, Inside(depth + 1));
      assert [o] + text + [c] + rest == [o] + (text + ([c] + rest));
  }

  lemma LetterMode(c: char, depth: int)
    requires c !in OPENERS && c !in CLOSERS && c !in PLACEHOLDER_QUOTES
    ensures I.After(Inside(depth), c) == Inside(depth) && c != '}'
  {
    assert OPENERS[0] == '(' && OPENERS[1] == '[' && OPENERS[2] == '{';
    assert CLOSERS[0] == ')' && CLOSERS[1] == ']' && CLOSERS[2] == '}';
    assert PLACEHOLDER_QUOTES[0] == '\"';
  }

  lemma BracketMode(kind: nat, depth: int)
    requires kind < 3
    ensures I.After(Inside(depth), OPENERS[kind]) == Inside(depth + 1) && I.After(Inside(depth + 1), CLOSERS[kind]) == Inside(depth)
    ensures OPENERS[kind] != '}'
  {
  }

  lemma {:induction false} AllScan(ns: seq<Nest>, rest: string, depth: nat)
    requires AllProper(ns, PLACEHOLDER_QUOTES)
    ensures I.PlaceholderEnd(AllText(ns, PLACEHOLDER_QUOTES) + rest, Inside(depth))
         == I.Shift(I.PlaceholderEnd(rest, Inside(depth)), |AllText(ns, PLACEHOLDER_QUOTES)|)
    decreases ns, 1
  {
    hide I.PlaceholderEnd, NestText;
    if ns == [] {
      assert AllText(ns, PLACEHOLDER_QUOTES) + rest == rest;
    } else {
      var first, more := NestText(ns[0], PLACEHOLDER_QUOTES), AllText(ns[1..], PLACEHOLDER_QUOTES);
      AllScan(ns[1..], rest, depth);
      NestScans(ns[0], more + rest, depth);
      Regroup(first, more, rest);
    }
  }

  /** A placeholder ends at the brace outside brackets and strings: a brace in a string or in a pair of its own is text. */
  lemma PlaceholderEndsOutside(ns: seq<Nest>, rest: string)
    requires AllProper(ns, PLACEHOLDER_QUOTES)
    ensures I.PlaceholderEnd(AllText(ns, PLACEHOLDER_QUOTES) + (['}'] + rest), I.OUTSIDE) == Some(|AllText(ns, PLACEHOLDER_QUOTES)|)
  {
    AllScan(ns, ['}'] + rest, 0);
    assert I.PlaceholderEnd(['}'] + rest, I.OUTSIDE) == Some(0);
    hide I.PlaceholderEnd;
  }
}
