/**
 * The two pure pieces of chat.js's rendering that the rest relies on:
 * escapeHtml, which hides a code block's raw text in the rendered message,
 * and the choice of action buttons in createMessageElement.
 */
module View {
  import opened History

  /** `text.replace(/c/g, rep)`: every occurrence of `c` replaced by `rep`, left to right. */
  function ReplaceAll(s: string, c: char, rep: string): (r: string)
    ensures c !in rep ==> c !in r
    ensures c !in s ==> r == s
  {
    if s == [] then [] else (if s[0] == c then rep else [s[0]]) + ReplaceAll(s[1..], c, rep)
  }

  lemma {:induction false} ReplaceAllAppend(a: string, b: string, c: char, rep: string)
    ensures ReplaceAll(a + b, c, rep) == ReplaceAll(a, c, rep) + ReplaceAll(b, c, rep)
  {
    if a == [] {
      assert a + b == b;
    } else {
      assert (a + b)[0] == a[0];
      assert (a + b)[1..] == a[1..] + b;
      ReplaceAllAppend(a[1..], b, c, rep);
    }
  }

  /**
   * The five replace calls of escapeHtml, in their order: `&` first, then
   * `<`, `>`, `"` and `'` (the last four are FromLt and the stages it calls).
   */
  function ReplaceChain(text: string): string {
    FromLt(ReplaceAll(text, '&', "&amp;"))
  }

  function FromLt(t: string): (r: string)
    ensures '<' !in t && '>' !in t && '"' !in t && '\'' !in t ==> r == t
  {
    FromGt(ReplaceAll(t, '<', "&lt;"))
  }

  function FromGt(t: string): (r: string)
    ensures '>' !in t && '"' !in t && '\'' !in t ==> r == t
  {
    FromQuot(ReplaceAll(t, '>', "&gt;"))
  }

  function FromQuot(t: string): (r: string)
    ensures '"' !in t && '\'' !in t ==> r == t
  {
    FromApos(ReplaceAll(t, '"', "&quot;"))
  }

  function FromApos(t: string): (r: string)
    ensures '\'' !in t ==> r == t
  {
    ReplaceAll(t, '\'', "&#039;")
  }

  /** escapeHtml: an empty (falsy) text gives "", anything else goes through the chain. */
  function EscapeHtml(text: string): string {
    if text == "" then "" else ReplaceChain(text)
  }

  /** The entity each character stands for in escaped text. */
  function EscapeChar(c: char): string {
    match c
    case '&' => "&amp;"
    case '<' => "&lt;"
    case '>' => "&gt;"
    case '"' => "&quot;"
    case '\'' => "&#039;"
    case _ => [c]
  }

  /** The reference escape: one left-to-right pass, each character replaced by its entity. */
  function Escaped(s: string): string {
    if s == [] then [] else EscapeChar(s[0]) + Escaped(s[1..])
  }

  lemma FromAposAppend(a: string, b: string)
    ensures FromApos(a + b) == FromApos(a) + FromApos(b)
  {
    ReplaceAllAppend(a, b, '\'', "&#039;");
  }

  lemma FromQuotAppend(a: string, b: string)
    ensures FromQuot(a + b) == FromQuot(a) + FromQuot(b)
  {
    ReplaceAllAppend(a, b, '"', "&quot;");
    FromAposAppend(ReplaceAll(a, '"', "&quot;"), ReplaceAll(b, '"', "&quot;"));
  }

  lemma FromGtAppend(a: string, b: string)
    ensures FromGt(a + b) == FromGt(a) + FromGt(b)
  {
    ReplaceAllAppend(a, b, '>', "&gt;");
    FromQuotAppend(ReplaceAll(a, '>', "&gt;"), ReplaceAll(b, '>', "&gt;"));
  }

  lemma FromLtAppend(a: string, b: string)
    ensures FromLt(a + b) == FromLt(a) + FromLt(b)
  {
    ReplaceAllAppend(a, b, '<', "&lt;");
    FromGtAppend(ReplaceAll(a, '<', "&lt;"), ReplaceAll(b, '<', "&lt;"));
  }

  lemma ChainAppend(a: string, b: string)
    ensures ReplaceChain(a + b) == ReplaceChain(a) + ReplaceChain(b)
  {
    ReplaceAllAppend(a, b, '&', "&amp;");
    FromLtAppend(ReplaceAll(a, '&', "&amp;"), ReplaceAll(b, '&', "&amp;"));
  }

  lemma ReplaceSingle(c: char, d: char, rep: string)
    ensures ReplaceAll([c], d, rep) == if c == d then rep else [c]
  {
    assert [c][1..] == [];
  }

  lemma ChainAmp(c: char)
    requires c == '&'
    ensures ReplaceChain([c]) == EscapeChar(c)
  {
    ReplaceSingle(c, '&', "&amp;");
    var e := "&amp;";
    assert '<' !in e && '>' !in e && '"' !in e && '\'' !in e;
  }

  lemma ChainLt(c: char)
    requires c == '<'
    ensures ReplaceChain([c]) == EscapeChar(c)
  {
    ReplaceSingle(c, '&', "&amp;");
    ReplaceSingle(c, '<', "&lt;");
    var e := "&lt;";
    assert '>' !in e && '"' !in e && '\'' !in e;
  }

  lemma ChainGt(c: char)
    requires c == '>'
    ensures ReplaceChain([c]) == EscapeChar(c)
  {
    ReplaceSingle(c, '&', "&amp;");
    ReplaceSingle(c, '<', "&lt;");
    ReplaceSingle(c, '>', "&gt;");
    var e := "&gt;";
    assert '"' !in e && '\'' !in e;
  }

  lemma ChainQuot(c: char)
    requires c == '"'
    ensures ReplaceChain([c]) == EscapeChar(c)
  {
    ReplaceSingle(c, '&', "&amp;");
    ReplaceSingle(c, '<', "&lt;");
    ReplaceSingle(c, '>', "&gt;");
    ReplaceSingle(c, '"', "&quot;");
    var e := "&quot;";
    assert '\'' !in e;
  }

  lemma ChainApos(c: char)
    requires c == '\''
    ensures ReplaceChain([c]) == EscapeChar(c)
  {
    ReplaceSingle(c, '&', "&amp;");
    ReplaceSingle(c, '<', "&lt;");
    ReplaceSingle(c, '>', "&gt;");
    ReplaceSingle(c, '"', "&quot;");
    ReplaceSingle(c, '\'', "&#039;");
  }

  /**
   * The chain on one character: the replace for that character makes its
   * entity, and every other replace leaves what it gets unchanged (no entity
   * holds a character replaced after `&`).
   */
  lemma ChainChar(c: char)
    ensures ReplaceChain([c]) == EscapeChar(c)
  {
    match c
    case '&' => ChainAmp(c);
    case '<' => ChainLt(c);
    case '>' => ChainGt(c);
    case '"' => ChainQuot(c);
    case '\'' => ChainApos(c);
    case _ =>
      ReplaceSingle(c, '&', "&amp;");
  }

  /**
   * The chain of global replaces gives the same text as the one-pass escape:
   * the entities that later replaces insert contain no character an earlier
   * or later replace looks for, except `&`, which is replaced first.
   */
  lemma {:induction false} EscapeHtmlOnePass(s: string)
    ensures EscapeHtml(s) == Escaped(s)
  {
    if s != [] {
      assert s == [s[0]] + s[1..];
      ChainAppend([s[0]], s[1..]);
      ChainChar(s[0]);
      EscapeHtmlOnePass(s[1..]);
    }
  }

  /** Escaped text contains none of the characters HTML gives meaning to, except the `&` of an entity. */
  lemma {:induction false} EscapedHasNoMarkup(s: string)
    ensures forall i | 0 <= i < |Escaped(s)| :: Escaped(s)[i] !in "<>\"'"
  {
    if s != [] {
      EscapedHasNoMarkup(s[1..]);
      var e := EscapeChar(s[0]);
      assert forall i | 0 <= i < |e| :: e[i] !in "<>\"'";
      assert Escaped(s) == e + Escaped(s[1..]);
    }
  }

  /** What reading the hidden text back through the browser gives: the five entities decoded. */
  function Unescape(s: string): string {
    if s == [] then []
    else if "&amp;" <= s then "&" + Unescape(s[5..])
    else if "&lt;" <= s then "<" + Unescape(s[4..])
    else if "&gt;" <= s then ">" + Unescape(s[4..])
    else if "&quot;" <= s then "\"" + Unescape(s[6..])
    else if "&#039;" <= s then "'" + Unescape(s[6..])
    else [s[0]] + Unescape(s[1..])
  }

  /** An entity at the head of the text decodes to its character. */
  lemma UnescapeEntity(e: string, c: char, t: string)
    requires e == EscapeChar(c) && c in "&<>\"'"
    ensures Unescape(e + t) == [c] + Unescape(t)
  {
    var s := e + t;
    assert s[..|e|] == e;
    assert s[|e|..] == t;
    assert s[1] == e[1];
  }

  /** Any other character is copied through. */
  lemma UnescapePlain(c: char, t: string)
    requires c !in "&<>\"'"
    ensures Unescape([c] + t) == [c] + Unescape(t)
  {
    var s := [c] + t;
    assert s[0] == c != '&';
    assert s[1..] == t;
  }

  lemma UnescapeChar(c: char, t: string)
    ensures Unescape(EscapeChar(c) + t) == [c] + Unescape(t)
  {
    if c in "&<>\"'" {
      UnescapeEntity(EscapeChar(c), c, t);
    } else {
      UnescapePlain(c, t);
    }
  }

  /** escapeHtml loses nothing: decoding what it produced gives the text back. */
  lemma {:induction false} EscapeHtmlRoundTrip(s: string)
    ensures Unescape(EscapeHtml(s)) == s
  {
    EscapeHtmlOnePass(s);
    EscapedRoundTrip(s);
  }

  lemma {:induction false} EscapedRoundTrip(s: string)
    ensures Unescape(Escaped(s)) == s
  {
    if s != [] {
      UnescapeChar(s[0], Escaped(s[1..]));
      EscapedRoundTrip(s[1..]);
    }
  }

  /** The action buttons createMessageElement attaches to a message. */
  datatype Action = Edit | Delete | Copy | Regenerate | Like | Dislike

  /**
   * User messages get edit and delete; the greeting (an assistant message at
   * index 0) gets nothing; every other message gets copy, regenerate and the
   * two feedback buttons.
   */
  function Actions(msg: Message, index: nat): (r: seq<Action>)
    ensures r == [] <==> msg.role == Assistant && index == 0
    ensures Edit in r <==> msg.role == User
    ensures Delete in r <==> msg.role == User
    ensures Regenerate in r <==> msg.role != User && !(index == 0 && msg.role == Assistant)
    ensures Copy in r <==> Regenerate in r
    ensures Like in r <==> Regenerate in r
    ensures Dislike in r <==> Regenerate in r
    ensures |r| <= 4
    ensures Edit in r ==> r == [Edit, Delete]
    ensures Regenerate in r ==> r == [Copy, Regenerate, Like, Dislike]
  {
    if msg.role == User then [Edit, Delete]
    else if index == 0 && msg.role == Assistant then []
    else [Copy, Regenerate, Like, Dislike]
  }
}
