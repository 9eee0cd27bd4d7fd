/**
 * The Telegram message of a notification (src/destination/kinds/telegram.rs):
 * Markdown-like styling of formatted strings and the text assembled piece by
 * piece, sent in HTML parse mode exactly when the body is formatted.
 *
 * The rendered timestamp is an input. The source reads the author as an
 * optional value (an older revision of `Message`), so the author is an
 * `Option` parameter here; the bot token and the post are not modelled.
 */
module Telegram {
  import opened Wrappers
  import opened Strings
  import Authors
  import opened FormattedDetail
  import opened Messages

  // ---------------------------------------------------------------------------
  // Styling.

  /** The styles `apply_style` handles: it has no arm for `Code`. */
  predicate NoCode(styles: seq<Style>)
  {
    forall i :: 0 <= i < |styles| ==> !styles[i].Code?
  }

  /** The single marker character of a style. */
  function Marker(style: Style): char
    requires !style.Code?
  {
    match style
    case Bold => '*'
    case Italics => '_'
    case Monospace => '`'
  }

  /** `apply_style`. */
  function ApplyStyle(s: string, style: Style): (r: string)
    requires !style.Code?
    ensures r == [Marker(style)] + s + [Marker(style)]
  {
    match style
    case Bold => "*" + s + "*"
    case Italics => "_" + s + "_"
    case Monospace => "`" + s + "`"
  }

  /** `to_tg_format` as a value: the styles applied in order, the last one outermost. */
  function TgFormat(s: string, styles: seq<Style>): string
    requires NoCode(styles)
  {
    if styles == [] then s
    else ApplyStyle(TgFormat(s, styles[..|styles| - 1]), styles[|styles| - 1])
  }

  /** The markers of the styles, outermost first. */
  function Opening(styles: seq<Style>): string
    requires NoCode(styles)
  {
    if styles == [] then "" else [Marker(styles[|styles| - 1])] + Opening(styles[..|styles| - 1])
  }

  /** The reverse of a string. */
  function Reverse(s: string): string
  {
    if s == [] then "" else Reverse(s[1..]) + [s[0]]
  }

  /** `to_tg_format`: the loop that reassigns `result` once per style. */
  method ToTgFormat(f: FormattedString) returns (result: string)
    requires NoCode(f.styles)
    ensures result == TgFormat(f.s, f.styles)
  {
    result := f.s;
    var i := 0;
    while i < |f.styles|
      invariant 0 <= i <= |f.styles|
      invariant result == TgFormat(f.s, f.styles[..i])
    {
      assert f.styles[..i + 1][..i] == f.styles[..i];
      result := ApplyStyle(result, f.styles[i]);
      i := i + 1;
    }
    assert f.styles[..i] == f.styles;
  }

  lemma {:induction false} ReverseAppend(a: string, b: string)
    ensures Reverse(a + b) == Reverse(b) + Reverse(a)
  {
    if a != [] {
      assert (a + b)[1..] == a[1..] + b;
      ReverseAppend(a[1..], b);
    } else {
      assert a + b == b;
    }
  }

  /**
   * Styling is symmetric: the markers open outermost-first, the text stays
   * intact, and the same markers close in the reverse order.
   */
  lemma {:induction false} FormatIsMirrored(s: string, styles: seq<Style>)
    requires NoCode(styles)
    ensures TgFormat(s, styles) == Opening(styles) + s + Reverse(Opening(styles))
  {
    if styles != [] {
      var n := |styles| - 1;
      assert NoCode(styles[..n]);
      FormatIsMirrored(s, styles[..n]);
      var m := [Marker(styles[n])];
      var o := Opening(styles[..n]);
      ReverseAppend(m, o);
      assert Reverse(m) == m by {
        assert m[1..] == [];
      }
      Rewrap(m, o, s, Reverse(o), m);
    }
  }

  lemma Associate(x: string, y: string, z: string)
    ensures (x + y) + z == x + (y + z)
  {
  }


  // ---------------------------------------------------------------------------
  // The message text.

  datatype ParseMode = Html

  datatype TelegramMessage = TelegramMessage(chatId: string, text: string, disableNotification: bool, parseMode: Option<ParseMode>)

  /** Parts whose styles `apply_style` can all handle. */
  predicate PartsRenderable(parts: seq<FormattedString>)
  {
    forall j :: 0 <= j < |parts| ==> NoCode(parts[j].styles)
  }

  /** The rendering of a list of parts, concatenated. */
  function PartsText(parts: seq<FormattedString>): string
    requires PartsRenderable(parts)
  {
    if parts == [] then ""
    else PartsText(parts[..|parts| - 1]) + TgFormat(parts[|parts| - 1].s, parts[|parts| - 1].styles)
  }

  /** A component: a section opens with its bold, underlined title line. */
  function ComponentText(c: FormattedMessageComponent): string
    requires PartsRenderable(c.parts)
  {
    match c
    case Section(title, parts) => "<b><u>" + title + "</u></b>\n" + PartsText(parts)
    case Text(parts) => PartsText(parts)
  }

  predicate ComponentsRenderable(cs: seq<FormattedMessageComponent>)
  {
    forall k :: 0 <= k < |cs| ==> PartsRenderable(cs[k].parts)
  }

  function ComponentsText(cs: seq<FormattedMessageComponent>): string
    requires ComponentsRenderable(cs)
  {
    if cs == [] then "" else ComponentsText(cs[..|cs| - 1]) + ComponentText(cs[|cs| - 1])
  }

  /** The first line: the level's name, then the title, bold when the body is formatted. */
  function Head(m: Message): string
  {
    LevelName(m.level)
      + (if m.title.None? then ""
         else if m.detail.HasFormatting() then ": <b>" + m.title.value + "</b>"
         else ": " + m.title.value)
      + "\n"
  }

  /** The body: the raw text as it is, or each component in order. */
  function BodyText(d: MessageDetail): string
    requires d.Formatted? ==> ComponentsRenderable(d.formatted.components)
  {
    match d
    case Raw(raw) => raw
    case Formatted(f) => ComponentsText(f.components)
  }

  /** The closing lines: the rule, the timestamp (preformatted when formatted), and the author if any. */
  function Tail(formatted: bool, timestamp: string, author: Option<Authors.Author>): string
  {
    "\n" + "-----\n" + (if formatted then "<pre>" + timestamp + "</pre>" else timestamp)
      + (if author.Some? then "\n" + "@ " + Authors.ToString(author.value) else "")
  }

  /** `to_tg_message` as a value. */
  function TgMessageOf(chatId: string, m: Message, timestamp: string, author: Option<Authors.Author>): TelegramMessage
    requires m.detail.Formatted? ==> ComponentsRenderable(m.detail.formatted.components)
  {
    TelegramMessage(
      chatId,
      Head(m) + BodyText(m.detail) + Tail(m.detail.HasFormatting(), timestamp, author),
      false,
      if m.detail.HasFormatting() then Some(Html) else None)
  }

  /** The parts of a component, one `to_tg_format` call per part. */
  method PushParts(content: string, parts: seq<FormattedString>) returns (out: string)
    requires PartsRenderable(parts)
    ensures out == content + PartsText(parts)
  {
    out := content;
    var i := 0;
    while i < |parts|
      invariant 0 <= i <= |parts|
      invariant out == content + PartsText(parts[..i])
    {
      assert parts[..i + 1][..i] == parts[..i];
      var piece := ToTgFormat(parts[i]);
      out := out + piece;
      i := i + 1;
    }
    assert parts[..i] == parts;
  }

  /** One component: a section's title line, then its parts. */
  method PushComponent(content: string, c: FormattedMessageComponent) returns (out: string)
    requires PartsRenderable(c.parts)
    ensures out == content + ComponentText(c)
  {
    match c {
      case Section(title, sectionContent) =>
        var titled := content + ("<b><u>" + title + "</u></b>\n");
        out := PushParts(titled, sectionContent);
      case Text(parts) =>
        out := PushParts(content, parts);
    }
  }

  /** The loop over the components of a formatted body. */
  method PushComponents(content: string, cs: seq<FormattedMessageComponent>) returns (out: string)
    requires ComponentsRenderable(cs)
    ensures out == content + ComponentsText(cs)
  {
    out := content;
    var i := 0;
    while i < |cs|
      invariant 0 <= i <= |cs|
      invariant out == content + ComponentsText(cs[..i])
    {
      ComponentsTextStep(cs, i);
      out := PushComponent(out, cs[i]);
      Associate(content, ComponentsText(cs[..i]), ComponentText(cs[i]));
      i := i + 1;
    }
    assert cs[..i] == cs;
  }

  /** One more component adds its own text at the end. */
  lemma ComponentsTextStep(cs: seq<FormattedMessageComponent>, i: nat)
    requires ComponentsRenderable(cs) && i < |cs|
    ensures ComponentsRenderable(cs[..i]) && ComponentsRenderable(cs[..i + 1])
    ensures ComponentsText(cs[..i + 1]) == ComponentsText(cs[..i]) + ComponentText(cs[i])
  {
    assert cs[..i + 1][..i] == cs[..i];
  }

  /** The first line, pushed piece by piece. */
  method PushHead(m: Message) returns (content: string)
    ensures content == Head(m)
  {
    content := LevelName(m.level);
    if m.title.Some? {
      if m.detail.HasFormatting() {
        content := content + (": <b>" + m.title.value + "</b>");
      } else {
        content := content + (": " + m.title.value);
      }
    }
    content := content + "\n";
  }

  /** The closing lines, pushed piece by piece. */
  method PushTail(content: string, htmlFormatting: bool, timestamp: string, author: Option<Authors.Author>) returns (out: string)
    ensures out == content + Tail(htmlFormatting, timestamp, author)
  {
    out := content + "\n";
    out := out + "-----\n";
    if htmlFormatting {
      out := out + ("<pre>" + timestamp + "</pre>");
    } else {
      out := out + timestamp;
    }
    if author.Some? {
      out := out + "\n";
      out := out + ("@ " + Authors.ToString(author.value));
    }
  }

  /** `to_tg_message`: the text built by successive pushes, and the parse mode. */
  method ToTgMessage(chatId: string, m: Message, timestamp: string, author: Option<Authors.Author>) returns (msg: TelegramMessage)
    requires m.detail.Formatted? ==> ComponentsRenderable(m.detail.formatted.components)
    ensures msg == TgMessageOf(chatId, m, timestamp, author)
  {
    var htmlFormatting := m.detail.HasFormatting();
    var content := PushHead(m);
    match m.detail {
      case Raw(raw) =>
        content := content + raw;
      case Formatted(formatted) =>
        content := PushComponents(content, formatted.components);
    }
    content := PushTail(content, htmlFormatting, timestamp, author);
    var parseMode: Option<ParseMode> := None;
    if htmlFormatting {
      parseMode := Some(Html);
    }
    msg := TelegramMessage(chatId, content, false, parseMode);
  }

  // ---------------------------------------------------------------------------
  // Properties of the text.

  /** HTML parse mode is requested exactly when the body is formatted. */
  lemma ParseModeIffFormatted(chatId: string, m: Message, timestamp: string, author: Option<Authors.Author>)
    requires m.detail.Formatted? ==> ComponentsRenderable(m.detail.formatted.components)
    ensures TgMessageOf(chatId, m, timestamp, author).parseMode == Some(Html) <==> m.detail.Formatted?
    ensures TgMessageOf(chatId, m, timestamp, author).parseMode == None <==> m.detail.Raw?
  {
  }

  /** The text opens with the level's name. */
  lemma StartsWithLevel(chatId: string, m: Message, timestamp: string, author: Option<Authors.Author>)
    requires m.detail.Formatted? ==> ComponentsRenderable(m.detail.formatted.components)
    ensures var t := TgMessageOf(chatId, m, timestamp, author).text;
      |LevelName(m.level)| <= |t| && t[..|LevelName(m.level)|] == LevelName(m.level)
  {
    var t := TgMessageOf(chatId, m, timestamp, author).text;
    var rest := Head(m)[|LevelName(m.level)|..] + BodyText(m.detail) + Tail(m.detail.HasFormatting(), timestamp, author);
    assert t == LevelName(m.level) + rest;
  }

  /** The author line closes the text exactly when an author is given. */
  lemma EndsWithAuthor(m: Message, timestamp: string, a: Authors.Author, chatId: string)
    requires m.detail.Formatted? ==> ComponentsRenderable(m.detail.formatted.components)
    ensures var t := TgMessageOf(chatId, m, timestamp, Some(a)).text;
      var line := "\n@ " + Authors.ToString(a);
      |line| <= |t| && t[|t| - |line|..] == line
  {
    var line := "\n@ " + Authors.ToString(a);
    var t := TgMessageOf(chatId, m, timestamp, Some(a)).text;
    var front := Head(m) + BodyText(m.detail) + "\n" + "-----\n"
      + (if m.detail.HasFormatting() then "<pre>" + timestamp + "</pre>" else timestamp);
    assert "\n" + "@ " + Authors.ToString(a) == line;
    assert t == front + line;
  }

  /** The text of a list of components is that of each, in order. */
  lemma {:induction false} ComponentsTextAppend(a: seq<FormattedMessageComponent>, b: seq<FormattedMessageComponent>)
    requires ComponentsRenderable(a) && ComponentsRenderable(b)
    ensures ComponentsRenderable(a + b)
    ensures ComponentsText(a + b) == ComponentsText(a) + ComponentsText(b)
  {
    RenderableAppend(a, b);
    if b != [] {
      var n := |b| - 1;
      var front, last := b[..n], b[n];
      assert b == front + [last];
      RenderableAppend(a, front);
      RenderablePrefix(b, n);
      calc {
        ComponentsText(a + b);
        { assert a + b == (a + front) + [last]; }
        ComponentsText((a + front) + [last]);
        { LastStep(a + front, last); }
        ComponentsText(a + front) + ComponentText(last);
        { ComponentsTextAppend(a, front); }
        (ComponentsText(a) + ComponentsText(front)) + ComponentText(last);
        { Associate(ComponentsText(a), ComponentsText(front), ComponentText(last)); }
        ComponentsText(a) + (ComponentsText(front) + ComponentText(last));
        { LastStep(front, last); }
        ComponentsText(a) + ComponentsText(front + [last]);
      }
    } else {
      assert a + b == a;
    }
  }

  lemma RenderableAppend(a: seq<FormattedMessageComponent>, b: seq<FormattedMessageComponent>)
    requires ComponentsRenderable(a) && ComponentsRenderable(b)
    ensures ComponentsRenderable(a + b)
  {
    forall k | 0 <= k < |a + b| ensures PartsRenderable((a + b)[k].parts) {
      if k < |a| { assert (a + b)[k] == a[k]; } else { assert (a + b)[k] == b[k - |a|]; }
    }
  }

  lemma RenderablePrefix(cs: seq<FormattedMessageComponent>, n: nat)
    requires ComponentsRenderable(cs) && n <= |cs|
    ensures ComponentsRenderable(cs[..n])
  {
    forall k | 0 <= k < n ensures PartsRenderable(cs[..n][k].parts) {
      assert cs[..n][k] == cs[k];
    }
  }

  lemma LastStep(cs: seq<FormattedMessageComponent>, c: FormattedMessageComponent)
    requires ComponentsRenderable(cs) && PartsRenderable(c.parts)
    ensures ComponentsRenderable(cs + [c])
    ensures ComponentsText(cs + [c]) == ComponentsText(cs) + ComponentText(c)
  {
    RenderableAppend(cs, [c]);
    assert (cs + [c])[..|cs|] == cs;
  }
}
