/**
 * The Discord message of a notification (src/destination/kinds/discord.rs):
 * Markdown styling of formatted strings, the colour of each level, the
 * mention line built from the notify entries that match, and the embed.
 *
 * The rendered timestamp, the package name and its version are inputs; the
 * webhook post itself is not modelled.
 */
module Discord {
  import opened Wrappers
  import opened Strings
  import Components
  import Authors
  import opened FormattedDetail
  import opened Messages
  import opened MessageConditions

  // ---------------------------------------------------------------------------
  // Styling.

  /**
   * `apply_style`. For `Monospace` the source builds a fenced block when the
   * text is empty or spans lines, then drops it: the single-backtick form is
   * always returned.
   */
  function ApplyStyle(s: string, style: Style): string
  {
    match style
    case Bold => "**" + s + "**"
    case Italics => "_" + s + "_"
    case Monospace => "`" + s + "`"
    case Code(lang) => "```" + lang + "\n" + s + "```"
  }

  /** The marker a style puts before and after the text. */
  function Wrapping(style: Style): (w: (string, string))
  {
    match style
    case Bold => ("**", "**")
    case Italics => ("_", "_")
    case Monospace => ("`", "`")
    case Code(lang) => ("```" + lang + "\n", "```")
  }

  /** `to_discord_format` as a value: the styles applied left to right, each wrapping the result so far. */
  function DiscordFormat(s: string, styles: seq<Style>): string
  {
    if styles == [] then s
    else ApplyStyle(DiscordFormat(s, styles[..|styles| - 1]), styles[|styles| - 1])
  }

  /** The accumulated markers of a list of styles: the last style's markers are outermost. */
  function Markers(styles: seq<Style>): (string, string)
  {
    if styles == [] then ("", "")
    else
      var inner := Markers(styles[..|styles| - 1]);
      var w := Wrapping(styles[|styles| - 1]);
      (w.0 + inner.0, inner.1 + w.1)
  }

  /** `to_discord_format`: the loop that reassigns `result` once per style. */
  method ToDiscordFormat(f: FormattedString) returns (result: string)
    ensures result == DiscordFormat(f.s, f.styles)
  {
    result := f.s;
    var i := 0;
    while i < |f.styles|
      invariant 0 <= i <= |f.styles|
      invariant result == DiscordFormat(f.s, f.styles[..i])
    {
      assert f.styles[..i + 1][..i] == f.styles[..i];
      result := ApplyStyle(result, f.styles[i]);
      i := i + 1;
    }
    assert f.styles[..i] == f.styles;
  }

  /** Each style wraps the text in its own markers. */
  lemma ApplyIsWrapping(s: string, style: Style)
    ensures ApplyStyle(s, style) == Wrapping(style).0 + s + Wrapping(style).1
  {
  }

  /**
   * Styling leaves the text intact in the middle: the result is the
   * accumulated opening markers, the text, and the accumulated closing ones.
   */
  lemma {:induction false} FormatIsWrapping(s: string, styles: seq<Style>)
    ensures DiscordFormat(s, styles) == Markers(styles).0 + s + Markers(styles).1
  {
    if styles != [] {
      var n := |styles| - 1;
      FormatIsWrapping(s, styles[..n]);
      var inner := Markers(styles[..n]);
      var w := Wrapping(styles[n]);
      assert Markers(styles) == (w.0 + inner.0, inner.1 + w.1);
      ApplyIsWrapping(DiscordFormat(s, styles[..n]), styles[n]);
      Rewrap(w.0, inner.0, s, inner.1, w.1);
    }
  }

  /**
   * The fenced form is never produced: for every text, empty or spanning
   * lines, monospace adds exactly the two backticks.
   */
  lemma MonospaceNeverFenced(s: string)
    ensures |ApplyStyle(s, Monospace)| == |s| + 2
    ensures ApplyStyle(s, Monospace)[0] == '`' && ApplyStyle(s, Monospace)[|s| + 1] == '`'
  {
  }

  /**
   * `apply_style` as evidently intended: the fenced block the source builds
   * for empty or multi-line monospace text is returned instead of dropped.
   */
  function ApplyStyleIntended(s: string, style: Style): string
  {
    if style == Monospace && (s == "" || '\n' in s) then "```\n" + s + "\n```"
    else ApplyStyle(s, style)
  }

  /**
   * The intended monospace style puts empty or multi-line text between fences
   * on lines of their own, and keeps every other case as the source has it.
   */
  lemma IntendedMonospaceFences(s: string, style: Style)
    ensures var r := ApplyStyleIntended(s, Monospace);
      (s == "" || '\n' in s) ==>
        |r| == |s| + 8 && r[..4] == "```\n" && r[4..|s| + 4] == s && r[|s| + 4..] == "\n```"
    ensures s != "" && '\n' !in s ==> ApplyStyleIntended(s, Monospace) == "`" + s + "`"
    ensures style != Monospace ==> ApplyStyleIntended(s, style) == ApplyStyle(s, style)
  {
    var r := ApplyStyleIntended(s, Monospace);
    if s == "" || '\n' in s {
      assert r == "```\n" + s + "\n```";
      assert r[..4] == "```\n";
      assert r[4..|s| + 4] == s;
      assert r[|s| + 4..] == "\n```";
    }
  }

  /** As written, the empty and the multi-line text get single backticks where fences were meant. */
  lemma AsWrittenMonospaceUnfenced()
    ensures ApplyStyle("", Monospace) == "``" != ApplyStyleIntended("", Monospace)
    ensures ApplyStyle("a\nb", Monospace) == "`a\nb`" != ApplyStyleIntended("a\nb", Monospace)
  {
    assert ApplyStyleIntended("", Monospace) == "```\n\n```";
    assert '\n' in "a\nb" by { assert "a\nb"[1] == '\n'; }
    assert ApplyStyleIntended("a\nb", Monospace) == "```\na\nb\n```";
    assert |"`a\nb`"| != |"```\na\nb\n```"|;
  }

  /** Bold then italics: the italics markers are outside. */
  lemma LastStyleOutermost(s: string)
    ensures DiscordFormat(s, [Bold, Italics]) == "_" + ("**" + s + "**") + "_"
  {
    assert [Bold, Italics][..1] == [Bold] && [Bold][..0] == [];
    assert DiscordFormat(s, [Bold]) == "**" + s + "**";
  }

  // ---------------------------------------------------------------------------
  // Colours.

  /** `get_color_from_level`; the source has no arm for `SelfInfo`. */
  function ColorFromLevel(level: Level): (c: nat)
    requires level != SelfInfo
    ensures c < 0x100_0000
  {
    match level
    case Info => 0x00F4D0
    case Warn => 0xFFFF00
    case Error => 0xFF0000
    case SelfError => 0xB30000
  }

  /** Different levels get different colours. */
  lemma ColoursDistinct(a: Level, b: Level)
    requires a != SelfInfo && b != SelfInfo && a != b
    ensures ColorFromLevel(a) != ColorFromLevel(b)
  {
  }

  // ---------------------------------------------------------------------------
  // Who is mentioned.

  predicate AllCanMatch(entries: seq<NotifyEntry<string>>, m: Message)
  {
    forall i :: 0 <= i < |entries| ==> CanMatch(entries[i].condition, m)
  }

  /** `x` is the notify target of some entry that matches `m`. */
  predicate NotifiedBy(entries: seq<NotifyEntry<string>>, m: Message, x: string)
    requires AllCanMatch(entries, m)
  {
    exists i :: 0 <= i < |entries| && entries[i].EntryMatches(m) && entries[i].notify == x
  }

  /** The notify targets of the entries that match, in entry order. */
  function NotifyReceivers(entries: seq<NotifyEntry<string>>, m: Message): (r: seq<string>)
    requires AllCanMatch(entries, m)
    ensures |r| <= |entries|
    ensures forall x :: x in r ==> NotifiedBy(entries, m, x)
  {
    if entries == [] then []
    else
      var n := |entries| - 1;
      var e := entries[n];
      var front := NotifyReceivers(entries[..n], m);
      assert forall x :: NotifiedBy(entries[..n], m, x) ==> NotifiedBy(entries, m, x) by {
        forall x | NotifiedBy(entries[..n], m, x)
          ensures NotifiedBy(entries, m, x)
        {
          var i :| 0 <= i < n && entries[..n][i].EntryMatches(m) && entries[..n][i].notify == x;
          assert entries[i] == entries[..n][i];
        }
      }
      assert e.EntryMatches(m) ==> NotifiedBy(entries, m, e.notify);
      front + (if e.EntryMatches(m) then [e.GetNotify()] else [])
  }

  /** The content line: the targets joined by spaces, set only when there is one. */
  function Content(entries: seq<NotifyEntry<string>>, m: Message): Option<string>
    requires AllCanMatch(entries, m)
  {
    var receivers := NotifyReceivers(entries, m);
    if receivers == [] then None else Some(Join(receivers, " "))
  }

  /** The receivers of two runs of entries are those of each, in order. */
  lemma {:induction false} ReceiversAppend(a: seq<NotifyEntry<string>>, b: seq<NotifyEntry<string>>, m: Message)
    requires AllCanMatch(a, m) && AllCanMatch(b, m)
    ensures AllCanMatch(a + b, m)
    ensures NotifyReceivers(a + b, m) == NotifyReceivers(a, m) + NotifyReceivers(b, m)
  {
    assert AllCanMatch(a + b, m) by {
      forall i | 0 <= i < |a + b| ensures CanMatch((a + b)[i].condition, m) {
        if i < |a| { assert (a + b)[i] == a[i]; } else { assert (a + b)[i] == b[i - |a|]; }
      }
    }
    if b != [] {
      var n := |b| - 1;
      assert (a + b)[..|a + b| - 1] == a + b[..n];
      assert (a + b)[|a + b| - 1] == b[n];
      assert AllCanMatch(b[..n], m) by {
        forall i | 0 <= i < n ensures CanMatch(b[..n][i].condition, m) {
          assert b[..n][i] == b[i];
        }
      }
      ReceiversAppend(a, b[..n], m);
    } else {
      assert a + b == a;
    }
  }

  /** A single entry contributes its target exactly when it matches. */
  lemma ReceiversOfOne(e: NotifyEntry<string>, m: Message)
    requires CanMatch(e.condition, m)
    ensures e.EntryMatches(m) ==> NotifyReceivers([e], m) == [e.GetNotify()]
    ensures !e.EntryMatches(m) ==> NotifyReceivers([e], m) == []
  {
    assert [e][..0] == [];
  }

  /** There is a content line exactly when some entry matches. */
  lemma {:induction false} ContentIffSomeMatch(entries: seq<NotifyEntry<string>>, m: Message)
    requires AllCanMatch(entries, m)
    ensures Content(entries, m).Some? <==> exists i :: 0 <= i < |entries| && entries[i].EntryMatches(m)
  {
    if entries != [] {
      var n := |entries| - 1;
      var front := entries[..n];
      assert AllCanMatch(front, m) by {
        forall i | 0 <= i < n ensures CanMatch(front[i].condition, m) {
          assert front[i] == entries[i];
        }
      }
      ContentIffSomeMatch(front, m);
      if exists i :: 0 <= i < n && front[i].EntryMatches(m) {
        var i :| 0 <= i < n && front[i].EntryMatches(m);
        assert entries[i] == front[i];
      }
      if exists i :: 0 <= i < |entries| && entries[i].EntryMatches(m) {
        var i :| 0 <= i < |entries| && entries[i].EntryMatches(m);
        if i < n {
          assert front[i] == entries[i];
        }
      }
    }
  }

  /** The embed title: the message's own, or a fixed fallback. */
  function EmbedTitle(m: Message): (t: string)
    ensures m.title.Some? ==> t == m.title.value
    ensures m.title.None? ==> t == "Rnotify Notification"
  {
    if m.title.Some? then m.title.value else "Rnotify Notification"
  }

  // ---------------------------------------------------------------------------
  // The embed.

  /** The embed fields Discord shows: a named field per section (not inline). */
  datatype Field = Field(name: string, value: string)

  datatype Embed = Embed(
    title: string,
    footer: string,
    color: string,
    author: Option<string>,
    description: Option<string>,
    fields: seq<Field>)

  datatype DiscordMessage = DiscordMessage(content: Option<string>, embed: Embed)

  /** The rendering of a list of parts, concatenated. */
  function PartsText(parts: seq<FormattedString>): string
  {
    if parts == [] then "" else PartsText(parts[..|parts| - 1]) + DiscordFormat(parts[|parts| - 1].s, parts[|parts| - 1].styles)
  }

  /** One field per section, in order. */
  function SectionFields(cs: seq<FormattedMessageComponent>): seq<Field>
  {
    if cs == [] then []
    else
      var c := cs[|cs| - 1];
      SectionFields(cs[..|cs| - 1]) + (if c.Section? then [Field(c.title, PartsText(c.parts))] else [])
  }

  /** The description: each text block overwrites it, so the last one is shown. */
  function LastText(cs: seq<FormattedMessageComponent>): Option<string>
  {
    if cs == [] then None
    else if cs[|cs| - 1].Text? then Some(PartsText(cs[|cs| - 1].parts))
    else LastText(cs[..|cs| - 1])
  }

  /** The embed of a message, with the rendered timestamp and package name and version as inputs. */
  function EmbedOf(m: Message, timestamp: string, pkgName: string, pkgVersion: string): Embed
    requires m.level != SelfInfo
  {
    Embed(
      EmbedTitle(m),
      timestamp + " @ " + Authors.ToString(m.author) + "\n" + pkgName + " v" + pkgVersion,
      NatToString(ColorFromLevel(m.level)),
      if m.component.Some? then Some("[" + Components.ToString(m.component.value) + "]") else None,
      if m.detail.Raw? then Some(m.detail.text) else LastText(m.detail.formatted.components),
      if m.detail.Raw? then [] else SectionFields(m.detail.formatted.components))
  }

  /** `to_discord_message`: the content line and the embed. */
  function DiscordMessageOf(entries: seq<NotifyEntry<string>>, m: Message, timestamp: string, pkgName: string, pkgVersion: string): DiscordMessage
    requires AllCanMatch(entries, m) && m.level != SelfInfo
  {
    DiscordMessage(Content(entries, m), EmbedOf(m, timestamp, pkgName, pkgVersion))
  }

  /** The string collected from a list of parts, one `to_discord_format` call per part. */
  method CollectParts(parts: seq<FormattedString>) returns (text: string)
    ensures text == PartsText(parts)
  {
    text := "";
    var i := 0;
    while i < |parts|
      invariant 0 <= i <= |parts|
      invariant text == PartsText(parts[..i])
    {
      assert parts[..i + 1][..i] == parts[..i];
      var piece := ToDiscordFormat(parts[i]);
      text := text + piece;
      i := i + 1;
    }
    assert parts[..i] == parts;
  }

  /** The loop over the components of a formatted body: a field per section, the description per text block. */
  method FillBody(cs: seq<FormattedMessageComponent>) returns (description: Option<string>, fields: seq<Field>)
    ensures description == LastText(cs) && fields == SectionFields(cs)
  {
    description := None;
    fields := [];
    var i := 0;
    while i < |cs|
      invariant 0 <= i <= |cs|
      invariant description == LastText(cs[..i]) && fields == SectionFields(cs[..i])
    {
      assert cs[..i + 1][..i] == cs[..i];
      match cs[i] {
        case Section(title, contents) =>
          var value := CollectParts(contents);
          fields := fields + [Field(title, value)];
        case Text(text) =>
          var value := CollectParts(text);
          description := Some(value);
      }
      i := i + 1;
    }
    assert cs[..i] == cs;
  }

  /** `to_discord_message`, step by step. */
  method ToDiscordMessage(entries: seq<NotifyEntry<string>>, m: Message, timestamp: string, pkgName: string, pkgVersion: string)
    returns (msg: DiscordMessage)
    requires AllCanMatch(entries, m) && m.level != SelfInfo
    ensures msg == DiscordMessageOf(entries, m, timestamp, pkgName, pkgVersion)
    ensures msg.content.Some? <==> exists i :: 0 <= i < |entries| && entries[i].EntryMatches(m)
    ensures msg.embed.title == EmbedTitle(m)
  {
    var receivers := NotifyReceivers(entries, m);
    var content: Option<string> := None;
    if receivers != [] {
      content := Some(Join(receivers, " "));
    }
    var author: Option<string> := None;
    if m.component.Some? {
      author := Some("[" + Components.ToString(m.component.value) + "]");
    }
    var description: Option<string>;
    var fields: seq<Field>;
    match m.detail {
      case Raw(raw) =>
        description, fields := Some(raw), [];
      case Formatted(formatted) =>
        description, fields := FillBody(formatted.components);
    }
    var footer := timestamp + " @ " + Authors.ToString(m.author) + "\n" + pkgName + " v" + pkgVersion;
    msg := DiscordMessage(content, Embed(EmbedTitle(m), footer, NatToString(ColorFromLevel(m.level)), author, description, fields));
    ContentIffSomeMatch(entries, m);
  }

  /** A formatted body gives one field per section, in order, and a text block only sets the description. */
  lemma {:induction false} FieldsAreSections(cs: seq<FormattedMessageComponent>)
    ensures |SectionFields(cs)| <= |cs|
    ensures (forall k :: 0 <= k < |cs| ==> cs[k].Section?) ==> |SectionFields(cs)| == |cs|
    ensures (forall k :: 0 <= k < |cs| ==> cs[k].Text?) ==> SectionFields(cs) == []
  {
    if cs != [] {
      FieldsAreSections(cs[..|cs| - 1]);
    }
  }

  /** The description is absent exactly when the body has no text block. */
  lemma {:induction false} DescriptionIffText(cs: seq<FormattedMessageComponent>)
    ensures LastText(cs).Some? <==> exists k :: 0 <= k < |cs| && cs[k].Text?
  {
    if cs != [] {
      var n := |cs| - 1;
      DescriptionIffText(cs[..n]);
      if exists k :: 0 <= k < n && cs[..n][k].Text? {
        var k :| 0 <= k < n && cs[..n][k].Text?;
        assert cs[k] == cs[..n][k];
      }
      if exists k :: 0 <= k < |cs| && cs[k].Text? {
        var k :| 0 <= k < |cs| && cs[k].Text?;
        if k < n {
          assert cs[..n][k] == cs[k];
        }
      }
    }
  }
}
