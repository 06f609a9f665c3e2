/**
 * The panel's `escapeHTML`: five global one-character replacements applied in a chain,
 * `&` first, then `<`, `>`, `"`, `'`, and finally newline to `<br>`.
 */
module HtmlEscape {
  import opened Js

  /** `s.replace(/c/g, rep)` for a pattern that is the single character `c` (no `$` in `rep`). */
  function ReplaceAll(s: string, c: char, rep: string): string
  {
    if s == [] then [] else (if s[0] == c then rep else [s[0]]) + ReplaceAll(s[1..], c, rep)
  }

  /** `escapeHTML(text)`, as the chain the panel writes. */
  function EscapeHtml(text: string): string
  {
    var amp := ReplaceAll(text, '&', "&amp;");
    var lt := ReplaceAll(amp, '<', "&lt;");
    var gt := ReplaceAll(lt, '>', "&gt;");
    var quot := ReplaceAll(gt, '"', "&quot;");
    var apos := ReplaceAll(quot, '\'', "&#039;");
    ReplaceAll(apos, '\n', "<br>")
  }

  /** The reference definition: what each character of the input becomes. */
  function EscapeChar(c: char): string
  {
    match c
    case '&' => "&amp;"
    case '<' => "&lt;"
    case '>' => "&gt;"
    case '"' => "&quot;"
    case '\'' => "&#039;"
    case '\n' => "<br>"
    case _ => [c]
  }

  /** The per-character map: every character replaced by `EscapeChar` of it. */
  function EscapeEach(s: string): string
  {
    if s == [] then [] else EscapeChar(s[0]) + EscapeEach(s[1..])
  }

  lemma {:induction false} ReplaceAllConcat(a: string, b: string, c: char, rep: string)
    ensures ReplaceAll(a + b, c, rep) == ReplaceAll(a, c, rep) + ReplaceAll(b, c, rep)
  {
    if a == [] {
      assert a + b == b;
    } else {
      assert (a + b)[1..] == a[1..] + b;
      ReplaceAllConcat(a[1..], b, c, rep);
    }
  }

  lemma {:induction false} ReplaceAllAbsent(s: string, c: char, rep: string)
    requires c !in s
    ensures ReplaceAll(s, c, rep) == s
  {
    if s != [] {
      assert s[0] != c && c !in s[1..];
      ReplaceAllAbsent(s[1..], c, rep);
    }
  }

  lemma ReplaceAllSingle(d: char, c: char, rep: string)
    ensures ReplaceAll([d], c, rep) == if d == c then rep else [d]
  {
    assert [d][1..] == [];
  }

  lemma EscapeHtmlConcat(a: string, b: string)
    ensures EscapeHtml(a + b) == EscapeHtml(a) + EscapeHtml(b)
  {
    var a1, b1 := ReplaceAll(a, '&', "&amp;"), ReplaceAll(b, '&', "&amp;");
    ReplaceAllConcat(a, b, '&', "&amp;");
    var a2, b2 := ReplaceAll(a1, '<', "&lt;"), ReplaceAll(b1, '<', "&lt;");
    ReplaceAllConcat(a1, b1, '<', "&lt;");
    var a3, b3 := ReplaceAll(a2, '>', "&gt;"), ReplaceAll(b2, '>', "&gt;");
    ReplaceAllConcat(a2, b2, '>', "&gt;");
    var a4, b4 := ReplaceAll(a3, '"', "&quot;"), ReplaceAll(b3, '"', "&quot;");
    ReplaceAllConcat(a3, b3, '"', "&quot;");
    var a5, b5 := ReplaceAll(a4, '\'', "&#039;"), ReplaceAll(b4, '\'', "&#039;");
    ReplaceAllConcat(a4, b4, '\'', "&#039;");
    ReplaceAllConcat(a5, b5, '\n', "<br>");
  }

  /*
   * The stages after the one that inserts an entity leave a text alone when it holds none of
   * the characters they replace; stated on an arbitrary text `e`, then used for each entity.
   */

  lemma KeptByNewlineStage(e: string)
    requires '\n' !in e
    ensures ReplaceAll(e, '\n', "<br>") == e
  {
    ReplaceAllAbsent(e, '\n', "<br>");
  }

  lemma KeptFromSingleQuoteStage(e: string)
    requires '\'' !in e && '\n' !in e
    ensures ReplaceAll(ReplaceAll(e, '\'', "&#039;"), '\n', "<br>") == e
  {
    ReplaceAllAbsent(e, '\'', "&#039;");
    KeptByNewlineStage(e);
  }

  lemma KeptFromDoubleQuoteStage(e: string)
    requires '"' !in e && '\'' !in e && '\n' !in e
    ensures ReplaceAll(ReplaceAll(ReplaceAll(e, '"', "&quot;"), '\'', "&#039;"), '\n', "<br>") == e
  {
    ReplaceAllAbsent(e, '"', "&quot;");
    KeptFromSingleQuoteStage(e);
  }

  lemma KeptFromGreaterThanStage(e: string)
    requires '>' !in e && '"' !in e && '\'' !in e && '\n' !in e
    ensures ReplaceAll(ReplaceAll(ReplaceAll(ReplaceAll(e, '>', "&gt;"), '"', "&quot;"), '\'', "&#039;"), '\n', "<br>") == e
  {
    ReplaceAllAbsent(e, '>', "&gt;");
    KeptFromDoubleQuoteStage(e);
  }

  lemma KeptFromLessThanStage(e: string)
    requires '<' !in e && '>' !in e && '"' !in e && '\'' !in e && '\n' !in e
    ensures ReplaceAll(ReplaceAll(ReplaceAll(ReplaceAll(ReplaceAll(e, '<', "&lt;"), '>', "&gt;"), '"', "&quot;"), '\'', "&#039;"), '\n', "<br>") == e
  {
    ReplaceAllAbsent(e, '<', "&lt;");
    KeptFromGreaterThanStage(e);
  }

  /** On one character the chain yields `EscapeChar`: no entity inserted early is re-escaped later. */
  lemma EscapeHtmlChar(d: char)
    ensures EscapeHtml([d]) == EscapeChar(d)
  {
    ReplaceAllSingle(d, '&', "&amp;");
    if d == '&' {
      KeptFromLessThanStage("&amp;");
      return;
    }
    ReplaceAllSingle(d, '<', "&lt;");
    if d == '<' {
      KeptFromGreaterThanStage("&lt;");
      return;
    }
    ReplaceAllSingle(d, '>', "&gt;");
    if d == '>' {
      KeptFromDoubleQuoteStage("&gt;");
      return;
    }
    ReplaceAllSingle(d, '"', "&quot;");
    if d == '"' {
      KeptFromSingleQuoteStage("&quot;");
      return;
    }
    ReplaceAllSingle(d, '\'', "&#039;");
    if d == '\'' {
      KeptByNewlineStage("&#039;");
      return;
    }
    ReplaceAllSingle(d, '\n', "<br>");
  }

  /** The chain of replacements equals the per-character map. */
  lemma {:induction false} EscapeHtmlIsPerCharacter(s: string)
    ensures EscapeHtml(s) == EscapeEach(s)
  {
    if s == [] {
    } else {
      assert s == [s[0]] + s[1..];
      EscapeHtmlConcat([s[0]], s[1..]);
      EscapeHtmlChar(s[0]);
      EscapeHtmlIsPerCharacter(s[1..]);
    }
  }

  /**
   * The decoder of the six forms `escapeHTML` writes: each of the five character references
   * and `<br>` becomes the character it was made from; any other character stands for itself.
   * It stands for the text a reader sees, not for a browser's parse, which builds a `<br>`
   * element rather than a newline and also rewrites carriage returns.
   */
  function Unescape(t: string): string
    decreases |t|
  {
    if t == [] then []
    else if StartsWith(t, "&amp;") then "&" + Unescape(t[5..])
    else if StartsWith(t, "&lt;") then "<" + Unescape(t[4..])
    else if StartsWith(t, "&gt;") then ">" + Unescape(t[4..])
    else if StartsWith(t, "&quot;") then "\"" + Unescape(t[6..])
    else if StartsWith(t, "&#039;") then "'" + Unescape(t[6..])
    else if StartsWith(t, "<br>") then "\n" + Unescape(t[4..])
    else [t[0]] + Unescape(t[1..])
  }

  /** A text starts with each of its own prefixes, whatever follows them. */
  lemma PrefixMatches(e: string, rest: string)
    ensures StartsWith(e + rest, e) && (e + rest)[|e|..] == rest
  {
    assert (e + rest)[..|e|] == e;
  }

  /** A text that differs from `p` at index `k` does not start with `p`. */
  lemma PrefixMismatch(t: string, p: string, k: nat)
    requires k < |p| && k < |t| && t[k] != p[k]
    ensures !StartsWith(t, p)
  {
  }

  lemma UnescapeEntity(e: string, c: char, rest: string)
    requires (e, c) in {("&amp;", '&'), ("&lt;", '<'), ("&gt;", '>'), ("&quot;", '"'), ("&#039;", '\''), ("<br>", '\n')}
    ensures Unescape(e + rest) == [c] + Unescape(rest)
  {
    var t := e + rest;
    PrefixMatches(e, rest);
    assert t[0] == e[0] && t[1] == e[1];
    if e == "<br>" {
      PrefixMismatch(t, "&amp;", 0);
      PrefixMismatch(t, "&lt;", 0);
      PrefixMismatch(t, "&gt;", 0);
      PrefixMismatch(t, "&quot;", 0);
      PrefixMismatch(t, "&#039;", 0);
    } else if e != "&amp;" {
      PrefixMismatch(t, "&amp;", 1);
      if e != "&lt;" {
        PrefixMismatch(t, "&lt;", 1);
        if e != "&gt;" {
          PrefixMismatch(t, "&gt;", 1);
          if e != "&quot;" {
            PrefixMismatch(t, "&quot;", 1);
          }
        }
      }
    }
  }

  lemma UnescapePlain(c: char, rest: string)
    requires c != '&' && c != '<'
    ensures Unescape([c] + rest) == [c] + Unescape(rest)
  {
    var t := [c] + rest;
    assert t[0] == c && t[1..] == rest;
    PrefixMismatch(t, "&amp;", 0);
    PrefixMismatch(t, "&lt;", 0);
    PrefixMismatch(t, "&gt;", 0);
    PrefixMismatch(t, "&quot;", 0);
    PrefixMismatch(t, "&#039;", 0);
    PrefixMismatch(t, "<br>", 0);
  }

  lemma UnescapeStep(c: char, rest: string)
    ensures Unescape(EscapeChar(c) + rest) == [c] + Unescape(rest)
  {
    match c
    case '&' => UnescapeEntity("&amp;", c, rest);
    case '<' => UnescapeEntity("&lt;", c, rest);
    case '>' => UnescapeEntity("&gt;", c, rest);
    case '"' => UnescapeEntity("&quot;", c, rest);
    case '\'' => UnescapeEntity("&#039;", c, rest);
    case '\n' => UnescapeEntity("<br>", c, rest);
    case _ => UnescapePlain(c, rest);
  }

  /** Decoding what `escapeHTML` produced gives back the original text. */
  lemma {:induction false} UnescapeEscapeHtml(s: string)
    ensures Unescape(EscapeHtml(s)) == s
  {
    EscapeHtmlIsPerCharacter(s);
    UnescapeEachInverse(s);
  }

  lemma {:induction false} UnescapeEachInverse(s: string)
    ensures Unescape(EscapeEach(s)) == s
  {
    if s != [] {
      UnescapeStep(s[0], EscapeEach(s[1..]));
      UnescapeEachInverse(s[1..]);
    }
  }

  /** The five character references `escapeHTML` inserts. */
  predicate StartsWithEntity(t: string)
  {
    StartsWith(t, "&amp;") || StartsWith(t, "&lt;") || StartsWith(t, "&gt;")
    || StartsWith(t, "&quot;") || StartsWith(t, "&#039;")
  }

  /** Every `&` in `t` begins one of the five character references. */
  predicate AmpersandsBeginEntities(t: string)
  {
    forall i :: 0 <= i < |t| && t[i] == '&' ==> StartsWithEntity(t[i..])
  }

  lemma AmpersandsConcat(a: string, b: string)
    requires AmpersandsBeginEntities(a) && AmpersandsBeginEntities(b)
    ensures AmpersandsBeginEntities(a + b)
  {
    var t := a + b;
    forall i | 0 <= i < |t| && t[i] == '&' ensures StartsWithEntity(t[i..]) {
      if i < |a| {
        assert a[i] == '&';
        assert StartsWithEntity(a[i..]);
        assert t[i..] == a[i..] + b;
      } else {
        assert b[i - |a|] == '&';
        assert t[i..] == b[i - |a|..];
      }
    }
  }

  lemma StartsWithItself(e: string)
    ensures StartsWith(e, e)
  {
    assert e[..|e|] == e;
  }

  /** A text that begins with an entity and holds no other `&` has every `&` beginning an entity. */
  lemma LeadingEntityOnly(e: string)
    requires |e| > 0 && StartsWithEntity(e) && '&' !in e[1..]
    ensures AmpersandsBeginEntities(e)
  {
    forall i | 0 <= i < |e| && e[i] == '&' ensures StartsWithEntity(e[i..]) {
      assert e[0..] == e;
    }
  }

  /** What one character becomes holds no quote and no newline, and no `<` or `>` unless it came from a newline. */
  lemma EscapeCharShape(c: char)
    ensures '"' !in EscapeChar(c) && '\'' !in EscapeChar(c) && '\n' !in EscapeChar(c)
    ensures c != '\n' ==> '<' !in EscapeChar(c) && '>' !in EscapeChar(c)
  {
  }

  /** What one character becomes holds either no `&` or a single leading one that begins an entity. */
  lemma EscapeCharLeadingAmpersand(c: char)
    ensures '&' !in EscapeChar(c)
            || (|EscapeChar(c)| > 0 && StartsWithEntity(EscapeChar(c)) && '&' !in EscapeChar(c)[1..])
  {
    match c
    case '&' => StartsWithItself("&amp;");
    case '<' => StartsWithItself("&lt;");
    case '>' => StartsWithItself("&gt;");
    case '"' => StartsWithItself("&quot;");
    case '\'' => StartsWithItself("&#039;");
    case _ =>
  }

  lemma EscapeCharAmpersands(c: char)
    ensures AmpersandsBeginEntities(EscapeChar(c))
  {
    EscapeCharLeadingAmpersand(c);
    var e := EscapeChar(c);
    if '&' in e {
      LeadingEntityOnly(e);
    }
  }

  lemma {:induction false} EscapeEachShape(s: string)
    ensures '"' !in EscapeEach(s) && '\'' !in EscapeEach(s) && '\n' !in EscapeEach(s)
    ensures '\n' !in s ==> '<' !in EscapeEach(s) && '>' !in EscapeEach(s)
    ensures AmpersandsBeginEntities(EscapeEach(s))
  {
    if s != [] {
      EscapeCharShape(s[0]);
      EscapeCharAmpersands(s[0]);
      EscapeEachShape(s[1..]);
      AmpersandsConcat(EscapeChar(s[0]), EscapeEach(s[1..]));
      assert '\n' !in s ==> s[0] != '\n' && '\n' !in s[1..];
    }
  }

  /**
   * The output of `escapeHTML` holds no raw quote of either kind and no raw newline, every `&`
   * in it begins a character reference, and when the input has no newline it holds no `<` or `>`.
   */
  lemma EscapeHtmlOutputShape(s: string)
    ensures '"' !in EscapeHtml(s) && '\'' !in EscapeHtml(s) && '\n' !in EscapeHtml(s)
    ensures '\n' !in s ==> '<' !in EscapeHtml(s) && '>' !in EscapeHtml(s)
    ensures AmpersandsBeginEntities(EscapeHtml(s))
  {
    EscapeHtmlIsPerCharacter(s);
    EscapeEachShape(s);
  }
}
