/**
 * Formatted message bodies (src/message/formatted_detail.rs): styled strings,
 * sections and text blocks, and the line-oriented parser that turns a raw body
 * into sections at every "#<title>#" line.
 */
module FormattedDetail {
  import opened Wrappers
  import opened Strings

  /** The styles a piece of text can carry; `Code` carries the language of a fenced block. */
  datatype Style = Bold | Italics | Monospace | Code(lang: string)

  /** `FormattedString::new(s, styles)`: a string and the styles applied to it, in order. */
  datatype FormattedString = FormattedString(s: string, styles: seq<Style>)

  datatype FormattedMessageComponent =
    | Section(title: string, parts: seq<FormattedString>)
    | Text(parts: seq<FormattedString>)

  datatype FormattedMessageDetail = FormattedMessageDetail(raw: string, components: seq<FormattedMessageComponent>)

  /** `FormattedString::plain`: the string with no style. */
  function Plain(s: string): (f: FormattedString)
    ensures f.s == s && f.styles == []
  {
    FormattedString(s, [])
  }

  /** `FormattedString::styled`: the string with exactly one style. */
  function Styled(s: string, style: Style): (f: FormattedString)
    ensures f.s == s && f.styles == [style]
  {
    FormattedString(s, [style])
  }

  // ---------------------------------------------------------------------------
  // Header lines.

  /**
   * A line that opens a section: longer than 4, starting with "#<" and ending
   * with ">#". (The source measures bytes; the only line of at most four
   * characters with both markers is "#<>#", which is ASCII, so counting
   * characters gives the same answer.)
   */
  predicate IsHeader(line: string)
  {
    |line| > 4 && line[..2] == "#<" && line[|line| - 2..] == ">#"
  }

  /** The title of a header line: the line without its two markers. */
  function HeaderTitle(line: string): (t: string)
    requires IsHeader(line)
    ensures line == "#<" + t + ">#"
    ensures |t| == |line| - 4
  {
    var t := line[2..|line| - 2];
    assert line == line[..2] + t + line[|line| - 2..];
    t
  }

  /** The part a non-header line contributes: the line and its "\n", unstyled. */
  function LinePart(line: string): FormattedString
  {
    Plain(line + "\n")
  }

  function LineParts(lines: seq<string>): (r: seq<FormattedString>)
    ensures |r| == |lines|
    ensures forall i :: 0 <= i < |lines| ==> r[i] == LinePart(lines[i])
  {
    seq(|lines|, i requires 0 <= i < |lines| => LinePart(lines[i]))
  }

  // ---------------------------------------------------------------------------
  // The parser as a state machine, one step per line.

  /** The parser's variables: finished components, the open section's title and its text so far. */
  datatype ParseState = ParseState(
    components: seq<FormattedMessageComponent>,
    sectionTitle: Option<string>,
    sectionText: seq<FormattedString>)

  const Start := ParseState([], None, [])

  /**
   * `push_section`: when a title is open or text is pending, close them into a
   * Section (with a title) or a Text (without), and reset both.
   */
  function Flush(st: ParseState): (r: ParseState)
    ensures r.sectionTitle == None && r.sectionText == []
    ensures st.sectionTitle.Some? ==> r.components == st.components + [Section(st.sectionTitle.value, st.sectionText)]
    ensures st.sectionTitle.None? && st.sectionText != [] ==> r.components == st.components + [Text(st.sectionText)]
    ensures st.sectionTitle.None? && st.sectionText == [] ==> r.components == st.components
  {
    if st.sectionTitle.Some? || st.sectionText != [] then
      var c := if st.sectionTitle.Some? then Section(st.sectionTitle.value, st.sectionText) else Text(st.sectionText);
      ParseState(st.components + [c], None, [])
    else st
  }

  /** One iteration of the loop over lines. */
  function Step(st: ParseState, line: string): ParseState
  {
    if IsHeader(line) then Flush(st).(sectionTitle := Some(HeaderTitle(line)))
    else st.(sectionText := st.sectionText + [LinePart(line)])
  }

  /** The state after the loop has consumed `lines`. */
  function Run(lines: seq<string>): ParseState
  {
    if lines == [] then Start else Step(Run(lines[..|lines| - 1]), lines[|lines| - 1])
  }

  /** `parse_raw_to_formatted` as a value: the raw text is kept, the components are those of the final flush. */
  function FormattedOf(s: string): FormattedMessageDetail
  {
    FormattedMessageDetail(s, Flush(Run(Lines(s))).components)
  }

  /** `push_section`, updating the parser's three variables in place. */
  method PushSection(title: Option<string>, text: seq<FormattedString>, components: seq<FormattedMessageComponent>)
    returns (title': Option<string>, text': seq<FormattedString>, components': seq<FormattedMessageComponent>)
    ensures ParseState(components', title', text') == Flush(ParseState(components, title, text))
  {
    title', text', components' := title, text, components;
    if title.Some? || text != [] {
      var old_text := text';
      text' := [];
      var component;
      if title'.Some? {
        component := Section(title'.value, old_text);
        title' := None;
      } else {
        component := Text(old_text);
      }
      components' := components' + [component];
    }
  }

  /** `parse_raw_to_formatted`: the loop over the lines of `s`. */
  method ParseRawToFormatted(s: string) returns (d: FormattedMessageDetail)
    ensures d == FormattedOf(s)
    ensures d.raw == s
    ensures d.components == Reference(Lines(s))
  {
    var lines := Lines(s);
    var components: seq<FormattedMessageComponent> := [];
    var sectionTitle: Option<string> := None;
    var sectionText: seq<FormattedString> := [];
    var i := 0;
    while i < |lines|
      invariant 0 <= i <= |lines|
      invariant ParseState(components, sectionTitle, sectionText) == Run(lines[..i])
    {
      var line := lines[i];
      assert lines[..i + 1][..i] == lines[..i];
      if |line| > 4 && line[..2] == "#<" && line[|line| - 2..] == ">#" {
        sectionTitle, sectionText, components := PushSection(sectionTitle, sectionText, components);
        sectionTitle := Some(line[2..|line| - 2]);
      } else {
        sectionText := sectionText + [Plain(line + "\n")];
      }
      i := i + 1;
    }
    assert lines[..i] == lines;
    sectionTitle, sectionText, components := PushSection(sectionTitle, sectionText, components);
    d := FormattedMessageDetail(s, components);
    FormattedOfIsReference(s);
  }

  // ---------------------------------------------------------------------------
  // An independent description of the result: group the lines by header.

  /** The index of the last header line, if there is one. */
  function LastHeader(lines: seq<string>): (r: Option<nat>)
    ensures r.Some? ==> r.value < |lines| && IsHeader(lines[r.value])
    ensures r.Some? ==> forall j :: r.value < j < |lines| ==> !IsHeader(lines[j])
    ensures r.None? ==> forall j :: 0 <= j < |lines| ==> !IsHeader(lines[j])
  {
    if lines == [] then None
    else if IsHeader(lines[|lines| - 1]) then Some(|lines| - 1)
    else LastHeader(lines[..|lines| - 1])
  }

  /**
   * The components the parser should produce: the lines before the first
   * header form one Text (if there are any), and every header line opens a
   * Section holding the lines up to the next header.
   */
  function Reference(lines: seq<string>): seq<FormattedMessageComponent>
    decreases |lines|
  {
    match LastHeader(lines)
    case None => if lines == [] then [] else [Text(LineParts(lines))]
    case Some(k) => Reference(lines[..k]) + [Section(HeaderTitle(lines[k]), LineParts(lines[k + 1..]))]
  }

  /**
   * What the loop holds after consuming `lines`, in terms of the grouping:
   * with no header yet, only pending text; otherwise the grouping of the
   * lines before the last header, that header's title, and the lines after it.
   */
  predicate GroupedRun(lines: seq<string>)
  {
    match LastHeader(lines)
    case None => Run(lines) == ParseState([], None, LineParts(lines))
    case Some(k) => Run(lines) == ParseState(Reference(lines[..k]), Some(HeaderTitle(lines[k])), LineParts(lines[k + 1..]))
  }

  lemma {:induction false} RunIsGrouping(lines: seq<string>)
    ensures GroupedRun(lines)
  {
    if lines != [] {
      RunIsGrouping(lines[..|lines| - 1]);
      if IsHeader(lines[|lines| - 1]) {
        HeaderStep(lines);
      } else {
        BodyStep(lines);
      }
    }
  }

  /** A header line closes the pending group and opens a section. */
  lemma HeaderStep(lines: seq<string>)
    requires lines != [] && IsHeader(lines[|lines| - 1]) && GroupedRun(lines[..|lines| - 1])
    ensures GroupedRun(lines)
  {
    var n := |lines| - 1;
    var prefix := lines[..n];
    assert Run(lines) == Step(Run(prefix), lines[n]);
    assert LastHeader(lines) == Some(n);
    assert Flush(Run(prefix)).components == Reference(prefix);
    assert lines[n + 1..] == [];
  }

  /** Any other line joins the pending group. */
  lemma BodyStep(lines: seq<string>)
    requires lines != [] && !IsHeader(lines[|lines| - 1]) && GroupedRun(lines[..|lines| - 1])
    ensures GroupedRun(lines)
  {
    var n := |lines| - 1;
    var prefix := lines[..n];
    assert LastHeader(lines) == LastHeader(prefix);
    var st := Run(prefix);
    assert Run(lines) == st.(sectionText := st.sectionText + [LinePart(lines[n])]);
    match LastHeader(prefix)
    case None =>
      LinePartsSnoc(prefix, lines[n]);
      assert lines == prefix + [lines[n]];
    case Some(k) =>
      SectionGrows(lines, k);
  }

  lemma SectionGrows(lines: seq<string>, k: nat)
    requires k < |lines| - 1
    ensures lines[..k] == lines[..|lines| - 1][..k]
    ensures LineParts(lines[k + 1..]) == LineParts(lines[..|lines| - 1][k + 1..]) + [LinePart(lines[|lines| - 1])]
  {
    var n := |lines| - 1;
    assert lines[k + 1..] == lines[..n][k + 1..] + [lines[n]];
    LinePartsSnoc(lines[..n][k + 1..], lines[n]);
  }

  lemma LinePartsSnoc(a: seq<string>, x: string)
    ensures LineParts(a + [x]) == LineParts(a) + [LinePart(x)]
  {
    assert forall i :: 0 <= i < |a| ==> (a + [x])[i] == a[i];
  }

  /** The final flush turns the loop state into exactly the grouping. */
  lemma FlushIsReference(lines: seq<string>)
    ensures Flush(Run(lines)).components == Reference(lines)
  {
    RunIsGrouping(lines);
  }

  /** `parse_raw_to_formatted` keeps the input as raw text and groups its lines by header. */
  lemma FormattedOfIsReference(s: string)
    ensures FormattedOf(s).raw == s
    ensures FormattedOf(s).components == Reference(Lines(s))
  {
    FlushIsReference(Lines(s));
  }

  // ---------------------------------------------------------------------------
  // Properties of the grouping.

  /** The titles of all header lines, in order. */
  function HeaderTitles(lines: seq<string>): seq<string>
  {
    if lines == [] then []
    else HeaderTitles(lines[..|lines| - 1]) + (if IsHeader(lines[|lines| - 1]) then [HeaderTitle(lines[|lines| - 1])] else [])
  }

  /** The non-header lines, in order. */
  function BodyLines(lines: seq<string>): seq<string>
  {
    if lines == [] then []
    else BodyLines(lines[..|lines| - 1]) + (if IsHeader(lines[|lines| - 1]) then [] else [lines[|lines| - 1]])
  }

  /** The titles of the Section components, in order. */
  function SectionTitles(cs: seq<FormattedMessageComponent>): seq<string>
  {
    if cs == [] then []
    else SectionTitles(cs[..|cs| - 1]) + (if cs[|cs| - 1].Section? then [cs[|cs| - 1].title] else [])
  }

  /** All parts of all components, in order. */
  function AllParts(cs: seq<FormattedMessageComponent>): seq<FormattedString>
  {
    if cs == [] then [] else AllParts(cs[..|cs| - 1]) + cs[|cs| - 1].parts
  }

  lemma {:induction false} HeaderFreeTail(lines: seq<string>, k: nat)
    requires k < |lines| && IsHeader(lines[k])
    requires forall j :: k < j < |lines| ==> !IsHeader(lines[j])
    ensures HeaderTitles(lines) == HeaderTitles(lines[..k]) + [HeaderTitle(lines[k])]
    ensures BodyLines(lines) == BodyLines(lines[..k]) + lines[k + 1..]
    decreases |lines|
  {
    var n := |lines| - 1;
    if n == k {
      assert lines[..n] == lines[..k];
      assert lines[k + 1..] == [];
    } else {
      HeaderFreeTail(lines[..n], k);
      assert lines[..n][..k] == lines[..k];
      assert lines[..n][k + 1..] + [lines[n]] == lines[k + 1..];
    }
  }

  lemma {:induction false} HeaderFree(lines: seq<string>)
    requires forall j :: 0 <= j < |lines| ==> !IsHeader(lines[j])
    ensures HeaderTitles(lines) == []
    ensures BodyLines(lines) == lines
  {
    if lines != [] {
      var n := |lines| - 1;
      HeaderFree(lines[..n]);
      assert lines[..n] + [lines[n]] == lines;
    }
  }

  lemma AllPartsAppend(cs: seq<FormattedMessageComponent>, c: FormattedMessageComponent)
    ensures AllParts(cs + [c]) == AllParts(cs) + c.parts
    ensures SectionTitles(cs + [c]) == SectionTitles(cs) + (if c.Section? then [c.title] else [])
  {
    assert (cs + [c])[..|cs|] == cs;
  }

  /** There is one Section per header line, in the same order and with the header's title. */
  lemma {:induction false} ReferenceSectionTitles(lines: seq<string>)
    ensures SectionTitles(Reference(lines)) == HeaderTitles(lines)
    decreases |lines|
  {
    match LastHeader(lines)
    case None =>
      HeaderFree(lines);
      if lines != [] {
        AllPartsAppend([], Text(LineParts(lines)));
        assert [] + [Text(LineParts(lines))] == [Text(LineParts(lines))];
      }
    case Some(k) =>
      ReferenceSectionTitles(lines[..k]);
      HeaderFreeTail(lines, k);
      AllPartsAppend(Reference(lines[..k]), Section(HeaderTitle(lines[k]), LineParts(lines[k + 1..])));
  }

  /** Every non-header line contributes exactly one unstyled part, line + "\n", in order. */
  lemma {:induction false} ReferenceBodyLines(lines: seq<string>)
    ensures AllParts(Reference(lines)) == LineParts(BodyLines(lines))
    decreases |lines|
  {
    match LastHeader(lines)
    case None =>
      HeaderFree(lines);
      if lines != [] {
        AllPartsAppend([], Text(LineParts(lines)));
        assert [] + [Text(LineParts(lines))] == [Text(LineParts(lines))];
      }
    case Some(k) =>
      var before := lines[..k];
      var after := lines[k + 1..];
      ReferenceBodyLines(before);
      HeaderFreeTail(lines, k);
      AllPartsAppend(Reference(before), Section(HeaderTitle(lines[k]), LineParts(after)));
      LinePartsAppend(BodyLines(before), after);
  }

  lemma LinePartsAppend(a: seq<string>, b: seq<string>)
    ensures LineParts(a + b) == LineParts(a) + LineParts(b)
  {
  }

  /**
   * Only the first component can be a Text, a Text is never empty, and the
   * first component is a Text exactly when some line precedes the first header.
   */
  lemma {:induction false} ReferenceShape(lines: seq<string>)
    ensures forall i :: 0 < i < |Reference(lines)| ==> Reference(lines)[i].Section?
    ensures forall i :: 0 <= i < |Reference(lines)| && Reference(lines)[i].Text? ==> Reference(lines)[i].parts != []
    ensures |Reference(lines)| > 0 && Reference(lines)[0].Text? <==> |lines| > 0 && !IsHeader(lines[0])
    decreases |lines|
  {
    match LastHeader(lines)
    case None =>
    case Some(k) =>
      ReferenceShape(lines[..k]);
      if k == 0 {
        assert lines[..k] == [];
      } else {
        assert lines[..k][0] == lines[0];
      }
  }

  /**
   * The leading Text holds exactly the lines before the first header: when the
   * first `n` lines are not headers and line `n` is (or the input ends there),
   * the first component is Text of those `n` lines.
   */
  lemma {:induction false} LeadingText(lines: seq<string>, n: nat)
    requires 0 < n <= |lines|
    requires forall j :: 0 <= j < n ==> !IsHeader(lines[j])
    requires n < |lines| ==> IsHeader(lines[n])
    ensures |Reference(lines)| > 0 && Reference(lines)[0] == Text(LineParts(lines[..n]))
    decreases |lines|
  {
    match LastHeader(lines)
    case None =>
      assert lines[..n] == lines;
    case Some(k) =>
      assert k >= n;
      if k == n {
        NoHeaderAtMostOneText(lines[..k]);
        assert lines[..k][..n] == lines[..n];
      } else {
        LeadingText(lines[..k], n);
        assert lines[..k][..n] == lines[..n];
      }
  }

  /** Input without a header line gives at most one component, a Text; no lines give none. */
  lemma NoHeaderAtMostOneText(lines: seq<string>)
    requires forall j :: 0 <= j < |lines| ==> !IsHeader(lines[j])
    ensures lines == [] ==> Reference(lines) == []
    ensures lines != [] ==> Reference(lines) == [Text(LineParts(lines))]
  {
  }

  /** Empty input parses to no components. */
  lemma EmptyInput()
    ensures FormattedOf("") == FormattedMessageDetail("", [])
  {
    assert Split("", '\n') == [""];
  }

  /** A header with nothing under it still yields a Section with no parts. */
  lemma {:induction false} EmptySection(lines: seq<string>, title: string)
    requires IsHeader("#<" + title + ">#")
    ensures Reference(lines + ["#<" + title + ">#"]) == Reference(lines) + [Section(title, [])]
  {
    var h := "#<" + title + ">#";
    var all := lines + [h];
    assert all[|all| - 1] == h;
    assert all[..|lines|] == lines;
    assert all[|lines| + 1..] == [];
    assert HeaderTitle(h) == title;
  }
}
