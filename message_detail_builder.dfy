/**
 * The consuming body builder (src/message/message_detail_builder.rs): each
 * call takes the builder by value and returns it with one more component;
 * `section` hands a mutable section builder to a closure, modelled by the
 * strings the closure appends, in call order.
 */
module ConsumingDetailBuilders {
  import opened FormattedDetail
  import opened Messages
  import DetailBuilders

  /** The builder's value: the components so far and the raw text. */
  datatype DetailBuilder = DetailBuilder(contents: seq<FormattedMessageComponent>, raw: string)

  /** `new`: no components and the placeholder raw text. */
  function New(): (b: DetailBuilder)
    ensures b.contents == [] && b.raw == DetailBuilders.RawNotAvailable
  {
    WithRaw(DetailBuilders.RawNotAvailable)
  }

  /** `with_raw`: no components and the given raw text. */
  function WithRaw(raw: string): (b: DetailBuilder)
    ensures b.contents == [] && b.raw == raw
  {
    DetailBuilder([], raw)
  }

  /** The section builder the closure of `section` receives. */
  class SectionBuilder {
    const name: string
    var contents: seq<FormattedString>

    constructor (name: string)
      ensures this.name == name && contents == []
    {
      this.name := name;
      contents := [];
    }

    /** `append`: one string at the end. */
    method Append(s: FormattedString)
      modifies this
      ensures contents == old(contents) + [s]
    {
      contents := contents + [s];
    }

    /** `append_styled`: a string with exactly that style at the end. */
    method AppendStyled(s: string, style: Style)
      modifies this
      ensures contents == old(contents) + [Styled(s, style)]
    {
      contents := contents + [Styled(s, style)];
    }

    /** `append_plain`: a string without style at the end. */
    method AppendPlain(s: string)
      modifies this
      ensures contents == old(contents) + [Plain(s)]
    {
      contents := contents + [Plain(s)];
    }

    /** `build`: a section with the builder's name and strings. */
    function Build(): (c: FormattedMessageComponent)
      reads this
      ensures c.Section? && c.title == name && c.parts == contents
    {
      Section(name, contents)
    }
  }

  /** The builder after `section(name, ..)` whose closure appended `parts`. */
  function WithSection(b: DetailBuilder, name: string, parts: seq<FormattedString>): DetailBuilder
  {
    b.(contents := b.contents + [Section(name, parts)])
  }

  /** `text(parts)`: one text block of exactly those parts at the end. */
  function WithText(b: DetailBuilder, parts: seq<FormattedString>): DetailBuilder
  {
    b.(contents := b.contents + [Text(parts)])
  }

  /** `section(name, apply)`: the closure fills a fresh section builder, whose section is pushed. */
  method AddSection(b: DetailBuilder, name: string, appended: seq<FormattedString>) returns (r: DetailBuilder)
    ensures r == WithSection(b, name, appended)
  {
    var section := new SectionBuilder(name);
    var i := 0;
    while i < |appended|
      invariant 0 <= i <= |appended|
      invariant section.name == name && section.contents == appended[..i]
      modifies section
    {
      section.Append(appended[i]);
      i := i + 1;
    }
    assert appended[..i] == appended;
    r := b.(contents := b.contents + [section.Build()]);
  }

  /** `build`: a formatted body of the raw text and the components. */
  function Build(b: DetailBuilder): (d: MessageDetail)
    ensures d.HasFormatting() && d.RawText() == b.raw && d.formatted.components == b.contents
  {
    Formatted(FormattedMessageDetail(b.raw, b.contents))
  }

  // ---------------------------------------------------------------------------
  // Chains of calls.

  /** One link of a call chain. */
  datatype ChainCall = SectionCall(name: string, parts: seq<FormattedString>) | TextCall(parts: seq<FormattedString>)

  /** The component a link adds. */
  function Added(c: ChainCall): FormattedMessageComponent
  {
    match c
    case SectionCall(name, parts) => Section(name, parts)
    case TextCall(parts) => Text(parts)
  }

  /** The builder after a chain of calls, made left to right. */
  function Chain(b: DetailBuilder, calls: seq<ChainCall>): DetailBuilder
  {
    if calls == [] then b
    else
      var before := Chain(b, calls[..|calls| - 1]);
      match calls[|calls| - 1]
      case SectionCall(name, parts) => WithSection(before, name, parts)
      case TextCall(parts) => WithText(before, parts)
  }

  /**
   * A chain keeps the raw text and the earlier components, and adds exactly
   * one component per call, in call order.
   */
  lemma {:induction false} ChainAppends(b: DetailBuilder, calls: seq<ChainCall>)
    ensures Chain(b, calls).raw == b.raw
    ensures |Chain(b, calls).contents| == |b.contents| + |calls|
    ensures Chain(b, calls).contents[..|b.contents|] == b.contents
    ensures forall k :: 0 <= k < |calls| ==> Chain(b, calls).contents[|b.contents| + k] == Added(calls[k])
  {
    if calls != [] {
      var n := |calls| - 1;
      ChainAppends(b, calls[..n]);
      var before := Chain(b, calls[..n]);
      var after := Chain(b, calls);
      assert after.contents == before.contents + [Added(calls[n])];
      forall k | 0 <= k < |calls|
        ensures after.contents[|b.contents| + k] == Added(calls[k])
      {
        if k < n {
          assert calls[..n][k] == calls[k];
        }
      }
    }
  }

  /** Building after a chain from `new` gives the placeholder raw text and one component per call. */
  lemma BuildAfterChain(calls: seq<ChainCall>)
    ensures Build(Chain(New(), calls)).RawText() == DetailBuilders.RawNotAvailable
    ensures Build(Chain(New(), calls)).formatted.components == seq(|calls|, k requires 0 <= k < |calls| => Added(calls[k]))
  {
    ChainAppends(New(), calls);
  }

  /** The example of src/message/message_detail_builder.rs: one section holding "hello" in monospace. */
  method ConsumingBuilderExample() returns (built: MessageDetail)
    ensures built == Formatted(FormattedMessageDetail(
      "Raw not available", [Section("New section", [Styled("hello", Monospace)])]))
  {
    var section := new SectionBuilder("New section");
    section.AppendStyled("hello", Monospace);
    assert section.contents == [Styled("hello", Monospace)];
    var b := AddSection(New(), "New section", section.contents);
    built := Build(b);
  }
}
