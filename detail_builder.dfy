/**
 * The mutable body builder (src/message/detail_builder.rs): a builder of
 * components whose `section` and `text_block` hand a fresh string builder to
 * a closure and push what it built.
 *
 * A closure is modelled by what it does to the builder it is handed: the
 * list of strings it appends, in call order.
 */
module DetailBuilders {
  import opened FormattedDetail
  import opened Messages

  /** The raw text of a builder made with `new`. */
  const RawNotAvailable := "Raw not available"

  /** The text-block builder: the strings appended so far. */
  class TextBlockBuilder {
    var contents: seq<FormattedString>

    /** `TextBlockBuilder::default()`. */
    constructor ()
      ensures contents == []
    {
      contents := [];
    }

    /** `append`: one string at the end. */
    method Append(s: FormattedString)
      modifies this
      ensures contents == old(contents) + [s]
    {
      contents := contents + [s];
    }

    /** `append_plain`: a string without style at the end. */
    method AppendPlain(s: string)
      modifies this
      ensures contents == old(contents) + [Plain(s)]
    {
      Append(Plain(s));
    }

    /** `append_styled`: a string with exactly that style at the end. */
    method AppendStyled(s: string, style: Style)
      modifies this
      ensures contents == old(contents) + [Styled(s, style)]
    {
      Append(Styled(s, style));
    }

    /** `build`: a text block of the strings, in append order. */
    function Build(): (c: FormattedMessageComponent)
      reads this
      ensures c.Text? && c.parts == contents
    {
      Text(contents)
    }
  }

  /** The section builder: a name and the strings appended so far. */
  class SectionBuilder {
    const name: string
    var contents: seq<FormattedString>

    constructor (name: string)
      ensures this.name == name && contents == []
    {
      this.name := name;
      contents := [];
    }

    method Append(s: FormattedString)
      modifies this
      ensures contents == old(contents) + [s]
    {
      contents := contents + [s];
    }

    method AppendPlain(s: string)
      modifies this
      ensures contents == old(contents) + [Plain(s)]
    {
      Append(Plain(s));
    }

    method AppendStyled(s: string, style: Style)
      modifies this
      ensures contents == old(contents) + [Styled(s, style)]
    {
      Append(Styled(s, style));
    }

    /** `build`: a section with the builder's name and strings. */
    function Build(): (c: FormattedMessageComponent)
      reads this
      ensures c.Section? && c.title == name && c.parts == contents
    {
      Section(name, contents)
    }
  }

  /** One call a user makes on a `MessageDetailBuilder`. */
  datatype DetailCall =
    | SetRaw(raw: string)
    | AddSection(name: string, parts: seq<FormattedString>)
    | AddTextBlock(parts: seq<FormattedString>)

  /** The components a list of calls contributes, in call order. */
  function AddedComponents(calls: seq<DetailCall>): seq<FormattedMessageComponent>
  {
    if calls == [] then []
    else
      var last := calls[|calls| - 1];
      AddedComponents(calls[..|calls| - 1]) +
        match last
        case SetRaw(_) => []
        case AddSection(name, parts) => [Section(name, parts)]
        case AddTextBlock(parts) => [Text(parts)]
  }

  /** The raw text after a list of calls: the last `raw(r)`, or the starting text. */
  function FinalRaw(start: string, calls: seq<DetailCall>): string
  {
    if calls == [] then start
    else if calls[|calls| - 1].SetRaw? then calls[|calls| - 1].raw
    else FinalRaw(start, calls[..|calls| - 1])
  }

  /** The number of calls that add a component. */
  function Additions(calls: seq<DetailCall>): nat
  {
    if calls == [] then 0
    else Additions(calls[..|calls| - 1]) + (if calls[|calls| - 1].SetRaw? then 0 else 1)
  }

  /** The mutable `MessageDetailBuilder`. */
  class MessageDetailBuilder {
    var contents: seq<FormattedMessageComponent>
    var raw: string

    /** `new`: no components and the placeholder raw text. */
    constructor New()
      ensures contents == [] && raw == RawNotAvailable
    {
      contents := [];
      raw := RawNotAvailable;
    }

    /** `with_raw`: no components and the given raw text. */
    constructor WithRaw(raw: string)
      ensures contents == [] && this.raw == raw
    {
      contents := [];
      this.raw := raw;
    }

    /** `raw(r)`: replaces the raw text only. */
    method SetRawText(r: string)
      modifies this
      ensures raw == r && contents == old(contents)
    {
      raw := r;
    }

    /**
     * `section(name, apply)`: a fresh section builder receives the strings the
     * closure appends; the section it builds is pushed at the end.
     */
    method AddSectionOf(name: string, appended: seq<FormattedString>)
      modifies this
      ensures contents == old(contents) + [Section(name, appended)]
      ensures raw == old(raw)
    {
      var section := new SectionBuilder(name);
      var i := 0;
      while i < |appended|
        invariant 0 <= i <= |appended|
        invariant section.name == name && section.contents == appended[..i]
        modifies section
      {
        section.Append(appended[i]);
        i := i + 1;
      }
      assert appended[..i] == appended;
      contents := contents + [section.Build()];
    }

    /** `text_block(apply)`: likewise with a text-block builder. */
    method AddTextBlockOf(appended: seq<FormattedString>)
      modifies this
      ensures contents == old(contents) + [Text(appended)]
      ensures raw == old(raw)
    {
      var block := new TextBlockBuilder();
      var i := 0;
      while i < |appended|
        invariant 0 <= i <= |appended|
        invariant block.contents == appended[..i]
        modifies block
      {
        block.Append(appended[i]);
        i := i + 1;
      }
      assert appended[..i] == appended;
      contents := contents + [block.Build()];
    }

    /** A chain of calls on the builder, made in order. */
    method Apply(calls: seq<DetailCall>)
      modifies this
      ensures contents == old(contents) + AddedComponents(calls)
      ensures raw == FinalRaw(old(raw), calls)
    {
      var i := 0;
      while i < |calls|
        invariant 0 <= i <= |calls|
        invariant contents == old(contents) + AddedComponents(calls[..i])
        invariant raw == FinalRaw(old(raw), calls[..i])
      {
        assert calls[..i + 1][..i] == calls[..i];
        match calls[i] {
          case SetRaw(r) => SetRawText(r);
          case AddSection(name, parts) => AddSectionOf(name, parts);
          case AddTextBlock(parts) => AddTextBlockOf(parts);
        }
        i := i + 1;
      }
      assert calls[..i] == calls;
    }

    /** `build`: a formatted body of the raw text and the components. */
    function Build(): (d: MessageDetail)
      reads this
      ensures d.HasFormatting() && d.RawText() == raw && d.formatted.components == contents
    {
      Formatted(FormattedMessageDetail(raw, contents))
    }
  }

  // ---------------------------------------------------------------------------
  // Properties of a chain of calls.

  /** Calls made one chain after another contribute their components in order. */
  lemma {:induction false} ComponentsAppend(a: seq<DetailCall>, b: seq<DetailCall>)
    ensures AddedComponents(a + b) == AddedComponents(a) + AddedComponents(b)
  {
    if b != [] {
      var n := |b| - 1;
      assert (a + b)[..|a + b| - 1] == a + b[..n];
      assert (a + b)[|a + b| - 1] == b[n];
      ComponentsAppend(a, b[..n]);
    } else {
      assert a + b == a;
    }
  }

  /** Each `section` or `text_block` call adds exactly one component; `raw` adds none. */
  lemma {:induction false} ComponentsCount(calls: seq<DetailCall>)
    ensures |AddedComponents(calls)| == Additions(calls)
  {
    if calls != [] {
      ComponentsCount(calls[..|calls| - 1]);
    }
  }

  /** Without a `raw` call the raw text stays what the builder started with. */
  lemma {:induction false} RawUntouched(start: string, calls: seq<DetailCall>)
    requires forall i :: 0 <= i < |calls| ==> !calls[i].SetRaw?
    ensures FinalRaw(start, calls) == start
    ensures Additions(calls) == |calls|
  {
    if calls != [] {
      RawUntouched(start, calls[..|calls| - 1]);
    }
  }

  /** `raw(r)` never changes the components: dropping it leaves them as they were. */
  lemma SetRawAddsNothing(before: seq<DetailCall>, r: string, after: seq<DetailCall>)
    ensures AddedComponents(before + [SetRaw(r)] + after) == AddedComponents(before + after)
  {
    ComponentsAppend(before + [SetRaw(r)], after);
    ComponentsAppend(before, [SetRaw(r)]);
    ComponentsAppend(before, after);
    assert [SetRaw(r)][..0] == [];
  }

  /**
   * The example of src/message/detail_builder.rs: a text block "Base
   * Description", then a section "New section" holding "hello" in monospace.
   */
  method DetailBuilderExample() returns (built: MessageDetail)
    ensures built == Formatted(FormattedMessageDetail(
      "Raw not available",
      [Text([Plain("Base Description")]), Section("New section", [Styled("hello", Monospace)])]))
  {
    var builder := new MessageDetailBuilder.New();
    var block := new TextBlockBuilder();
    block.AppendPlain("Base Description");
    assert block.contents == [Plain("Base Description")];
    builder.AddTextBlockOf(block.contents);
    assert builder.contents == [Text([Plain("Base Description")])];
    var section := new SectionBuilder("New section");
    section.AppendStyled("hello", Monospace);
    assert section.contents == [Styled("hello", Monospace)];
    builder.AddSectionOf("New section", section.contents);
    assert builder.contents == [Text([Plain("Base Description")]), Section("New section", [Styled("hello", Monospace)])];
    built := builder.Build();
  }
}
