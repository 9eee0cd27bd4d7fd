/**
 * HTML rendering of formatted bodies (src/util/html.rs): escaping of the
 * three markup characters, tags for styles, and the section and text layout.
 */
module Html {
  import opened Strings
  import opened FormattedDetail

  // ---------------------------------------------------------------------------
  // Escaping.

  /** `escape_html`: '&' first, then '>', then '<'. */
  function EscapeHtml(s: string): string
  {
    Replace(Replace(Replace(s, '&', "&amp;"), '>', "&gt;"), '<', "&lt;")
  }

  /** The escape of one character. */
  function EscapeChar(c: char): string
  {
    if c == '&' then "&amp;"
    else if c == '>' then "&gt;"
    else if c == '<' then "&lt;"
    else [c]
  }

  /** A reference escape, one character at a time. */
  function EscapeEach(s: string): string
  {
    if s == [] then "" else EscapeChar(s[0]) + EscapeEach(s[1..])
  }

  /** Reading the three entities back. */
  function Unescape(t: string): string
  {
    if t == [] then ""
    else if |t| >= 5 && t[..5] == "&amp;" then "&" + Unescape(t[5..])
    else if |t| >= 4 && t[..4] == "&gt;" then ">" + Unescape(t[4..])
    else if |t| >= 4 && t[..4] == "&lt;" then "<" + Unescape(t[4..])
    else [t[0]] + Unescape(t[1..])
  }

  /**
   * The chained replacements escape each character on its own: since '&' is
   * replaced first, the '&' of an entity made later is never escaped again.
   */
  lemma {:induction false} EscapeIsPerChar(s: string)
    ensures EscapeHtml(s) == EscapeEach(s)
  {
    if s != [] {
      var c, rest := s[0], s[1..];
      EscapeIsPerChar(rest);
      assert s == [c] + rest;
      ReplaceAppend([c], rest, '&', "&amp;");
      var a1 := Replace([c], '&', "&amp;");
      var r1 := Replace(rest, '&', "&amp;");
      ReplaceAppend(a1, r1, '>', "&gt;");
      var a2 := Replace(a1, '>', "&gt;");
      var r2 := Replace(r1, '>', "&gt;");
      ReplaceAppend(a2, r2, '<', "&lt;");
      assert [c][1..] == [];
      if c == '&' {
        assert a1 == "&amp;";
        ReplaceAbsent("&amp;", '>', "&gt;");
        ReplaceAbsent("&amp;", '<', "&lt;");
      } else if c == '>' {
        assert a1 == [c];
        assert a2 == "&gt;";
        ReplaceAbsent("&gt;", '<', "&lt;");
      } else if c == '<' {
        assert a1 == [c] && a2 == [c];
      } else {
        assert a1 == [c] && a2 == [c];
      }
    }
  }

  lemma {:induction false} EscapeEachAppend(a: string, b: string)
    ensures EscapeEach(a + b) == EscapeEach(a) + EscapeEach(b)
  {
    if a != [] {
      assert (a + b)[1..] == a[1..] + b;
      EscapeEachAppend(a[1..], b);
    } else {
      assert a + b == b;
    }
  }

  /** Escaped text holds no '<' and no '>'. */
  lemma {:induction false} EscapedHasNoAngles(s: string)
    ensures '<' !in EscapeHtml(s) && '>' !in EscapeHtml(s)
  {
    EscapeIsPerChar(s);
    NoAnglesEach(s);
  }

  lemma {:induction false} NoAnglesEach(s: string)
    ensures '<' !in EscapeEach(s) && '>' !in EscapeEach(s)
  {
    if s != [] {
      NoAnglesEach(s[1..]);
      var e := EscapeChar(s[0]);
      assert '<' !in e && '>' !in e;
    }
  }

  /** The escape grows the text by 4 per '&' and by 3 per '>' or '<'. */
  lemma {:induction false} EscapedLength(s: string)
    ensures |EscapeHtml(s)| == |s| + 4 * Count(s, '&') + 3 * Count(s, '>') + 3 * Count(s, '<')
  {
    EscapeIsPerChar(s);
    EscapedLengthEach(s);
  }

  lemma {:induction false} EscapedLengthEach(s: string)
    ensures |EscapeEach(s)| == |s| + 4 * Count(s, '&') + 3 * Count(s, '>') + 3 * Count(s, '<')
  {
    if s != [] {
      EscapedLengthEach(s[1..]);
    }
  }

  /** Unescaping gives the text back. */
  lemma {:induction false} UnescapeEscape(s: string)
    ensures Unescape(EscapeHtml(s)) == s
  {
    EscapeIsPerChar(s);
    UnescapeEach(s);
  }

  lemma {:induction false} UnescapeEach(s: string)
    ensures Unescape(EscapeEach(s)) == s
  {
    if s != [] {
      var c, rest := s[0], s[1..];
      UnescapeEach(rest);
      var t := EscapeChar(c) + EscapeEach(rest);
      if c == '&' {
        assert t[..5] == "&amp;" && t[5..] == EscapeEach(rest);
      } else if c == '>' {
        assert t[..4] == "&gt;" && t[4..] == EscapeEach(rest);
        assert t[1] == 'g';
      } else if c == '<' {
        assert t[..4] == "&lt;" && t[4..] == EscapeEach(rest);
        assert t[1] == 'l';
      } else {
        assert t[0] == c && t[1..] == EscapeEach(rest);
      }
      assert s == [c] + rest;
    }
  }

  // ---------------------------------------------------------------------------
  // Rendering.

  /** The opening tag of a style; `Monospace` and `Code` both give `<code>`. */
  function StartTag(style: Style): string
  {
    match style
    case Bold => "<b>"
    case Italics => "<i>"
    case Monospace => "<code>"
    case Code(_) => "<code>"
  }

  function EndTag(style: Style): string
  {
    match style
    case Bold => "</b>"
    case Italics => "</i>"
    case Monospace => "</code>"
    case Code(_) => "</code>"
  }

  function StartTags(styles: seq<Style>): string
  {
    ConcatMap(StartTag, styles)
  }

  /** The closing tags, in the same order as the opening ones (not reversed). */
  function EndTags(styles: seq<Style>): string
  {
    ConcatMap(EndTag, styles)
  }

  /** One part: its opening tags, its escaped text, its closing tags. */
  function PartHtml(part: FormattedString): string
  {
    StartTags(part.styles) + EscapeHtml(part.s) + EndTags(part.styles)
  }

  function PartsHtml(parts: seq<FormattedString>): string
  {
    ConcatMap(PartHtml, parts)
  }

  function ComponentHtml(c: FormattedMessageComponent): string
  {
    match c
    case Section(title, parts) => "<div><h2>" + EscapeHtml(title) + "</h2><p>" + PartsHtml(parts) + "</p></div>"
    case Text(parts) => "<p>" + PartsHtml(parts) + "</p>"
  }

  function ComponentsHtml(cs: seq<FormattedMessageComponent>): string
  {
    ConcatMap(ComponentHtml, cs)
  }

  /** `parse_formatted`: the parts one after another, each with its tag loops. */
  method ParseFormatted(parts: seq<FormattedString>) returns (html: string)
    ensures html == PartsHtml(parts)
  {
    html := "";
    var i := 0;
    while i < |parts|
      invariant 0 <= i <= |parts|
      invariant html == PartsHtml(parts[..i])
    {
      assert parts[..i + 1][..i] == parts[..i];
      var start := WriteStartTags(parts[i].styles);
      var end := WriteEndTags(parts[i].styles);
      var piece := start + EscapeHtml(parts[i].s) + end;
      html := html + piece;
      i := i + 1;
    }
    assert parts[..i] == parts;
  }

  /** The loop over a part's styles that writes the opening tags. */
  method WriteStartTags(styles: seq<Style>) returns (out: string)
    ensures out == StartTags(styles)
  {
    out := "";
    var j := 0;
    while j < |styles|
      invariant 0 <= j <= |styles|
      invariant out == StartTags(styles[..j])
    {
      assert styles[..j + 1][..j] == styles[..j];
      out := out + StartTag(styles[j]);
      j := j + 1;
    }
    assert styles[..j] == styles;
  }

  /** The loop over a part's styles that writes the closing tags. */
  method WriteEndTags(styles: seq<Style>) returns (out: string)
    ensures out == EndTags(styles)
  {
    out := "";
    var j := 0;
    while j < |styles|
      invariant 0 <= j <= |styles|
      invariant out == EndTags(styles[..j])
    {
      assert styles[..j + 1][..j] == styles[..j];
      out := out + EndTag(styles[j]);
      j := j + 1;
    }
    assert styles[..j] == styles;
  }

  /** `formatted_to_html`: each component's markup, in order. */
  method FormattedToHtml(formatted: FormattedMessageDetail) returns (html: string)
    ensures html == ComponentsHtml(formatted.components)
  {
    var cs := formatted.components;
    html := "";
    var i := 0;
    while i < |cs|
      invariant 0 <= i <= |cs|
      invariant html == ComponentsHtml(cs[..i])
    {
      assert cs[..i + 1][..i] == cs[..i];
      match cs[i] {
        case Section(section, parts) =>
          var body := ParseFormatted(parts);
          html := html + ("<div><h2>" + EscapeHtml(section) + "</h2><p>" + body + "</p></div>");
        case Text(parts) =>
          var body := ParseFormatted(parts);
          html := html + ("<p>" + body + "</p>");
      }
      i := i + 1;
    }
    assert cs[..i] == cs;
  }

  // ---------------------------------------------------------------------------
  // Properties of the rendering.

  /** The markup of a list of components is the markup of each, concatenated in order. */
  lemma ComponentsHtmlAppend(a: seq<FormattedMessageComponent>, b: seq<FormattedMessageComponent>)
    ensures ComponentsHtml(a + b) == ComponentsHtml(a) + ComponentsHtml(b)
  {
    ConcatMapAppend(ComponentHtml, a, b);
  }

  /** Likewise for the parts of a component. */
  lemma PartsHtmlAppend(a: seq<FormattedString>, b: seq<FormattedString>)
    ensures PartsHtml(a + b) == PartsHtml(a) + PartsHtml(b)
  {
    ConcatMapAppend(PartHtml, a, b);
  }

  /** Two styles open in order and close in the same order: bold then italics gives "<b><i>x</b></i>". */
  lemma TagsDoNotNest()
    ensures PartHtml(FormattedString("x", [Bold, Italics])) == "<b><i>x</b></i>"
  {
    ConcatMapTwo(StartTag, Bold, Italics);
    ConcatMapTwo(EndTag, Bold, Italics);
    PlainTextUnchanged("x");
  }

  /** `Monospace` and `Code` render alike, whatever the language. */
  lemma MonospaceLikeCode(s: string, lang: string)
    ensures PartHtml(FormattedString(s, [Monospace])) == PartHtml(FormattedString(s, [Code(lang)]))
  {
    ConcatMapTwo(StartTag, Monospace, Monospace);
    ConcatMapTwo(EndTag, Monospace, Monospace);
    ConcatMapTwo(StartTag, Code(lang), Code(lang));
    ConcatMapTwo(EndTag, Code(lang), Code(lang));
  }

  /** Text without markup characters is left as it is. */
  lemma {:induction false} PlainTextUnchanged(s: string)
    requires '&' !in s && '<' !in s && '>' !in s
    ensures EscapeHtml(s) == s
  {
    ReplaceAbsent(s, '&', "&amp;");
    ReplaceAbsent(s, '>', "&gt;");
    ReplaceAbsent(s, '<', "&lt;");
  }

  /** A plain part is its (escaped) text; a bold one is wrapped in `<b>`. */
  lemma OneStylePart(s: string, style: Style)
    requires '&' !in s && '<' !in s && '>' !in s
    ensures PartHtml(Plain(s)) == s
    ensures PartHtml(Styled(s, style)) == StartTag(style) + s + EndTag(style)
  {
    PlainTextUnchanged(s);
    ConcatMapTwo(StartTag, style, style);
    ConcatMapTwo(EndTag, style, style);
  }

  /** The layout of a section of two parts followed by a text block of one. */
  lemma SectionThenText(title: string, x: FormattedString, y: FormattedString, z: FormattedString)
    requires '&' !in title && '<' !in title && '>' !in title
    ensures ComponentsHtml([Section(title, [x, y]), Text([z])])
      == ("<div><h2>" + title + "</h2><p>" + (PartHtml(x) + PartHtml(y)) + "</p></div>") + ("<p>" + PartHtml(z) + "</p>")
  {
    PlainTextUnchanged(title);
    ConcatMapTwo(PartHtml, x, y);
    ConcatMapTwo(PartHtml, z, z);
    ConcatMapTwo(ComponentHtml, Section(title, [x, y]), Text([z]));
  }

  /** Two markup-free pieces make a markup-free string. */
  lemma PlainPieces(a: string, b: string)
    requires '&' !in a && '<' !in a && '>' !in a
    requires '&' !in b && '<' !in b && '>' !in b
    ensures '&' !in a + b && '<' !in a + b && '>' !in a + b
  {
    assert forall ch :: ch in a + b ==> ch in a || ch in b;
  }

  const Greeting := "Dear fellow inhabitants. " + ("it has come " + "to my attention that ")
  const Reproach := "you have not been doing " + "your job."
  const Closing := "That is all."

  predicate MarkupFree(s: string)
  {
    '&' !in s && '<' !in s && '>' !in s
  }

  lemma ExampleTextsPlain()
    ensures MarkupFree(Greeting) && MarkupFree(Reproach) && MarkupFree(Closing) && MarkupFree("hello world")
  {
    GreetingPlain();
    ReproachPlain();
    assert MarkupFree(Closing);
    assert MarkupFree("hello world");
  }

  lemma GreetingPlain()
    ensures MarkupFree(Greeting)
  {
    assert MarkupFree("it has come ");
    assert MarkupFree("to my attention that ");
    PlainPieces("it has come ", "to my attention that ");
    assert MarkupFree("Dear fellow inhabitants. ");
    PlainPieces("Dear fellow inhabitants. ", "it has come " + "to my attention that ");
  }

  lemma ReproachPlain()
    ensures MarkupFree(Reproach)
  {
    assert MarkupFree("you have not been doing ");
    assert MarkupFree("your job.");
    PlainPieces("you have not been doing ", "your job.");
  }

  /**
   * The example of src/util/html.rs: a section "hello world" holding a plain
   * and a bold string, then a text block, renders to the expected markup.
   */
  lemma HtmlExample()
    ensures ComponentsHtml([Section("hello world", [Plain(Greeting), Styled(Reproach, Bold)]), Text([Plain(Closing)])])
      == ("<div><h2>" + "hello world" + "</h2><p>" + (Greeting + ("<b>" + Reproach + "</b>")) + "</p></div>")
         + ("<p>" + Closing + "</p>")
  {
    ExampleTextsPlain();
    OneStylePart(Greeting, Bold);
    OneStylePart(Reproach, Bold);
    OneStylePart(Closing, Bold);
    SectionThenText("hello world", Plain(Greeting), Styled(Reproach, Bold), Plain(Closing));
  }
}
