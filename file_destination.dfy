/**
 * The log line the file destination appends (src/destination/kinds/file.rs):
 * timestamp, level, component, title, the raw body folded onto one line, and
 * the author. The rendered timestamp is an input; the file write is not
 * modelled.
 */
module FileDestination {
  import opened Wrappers
  import opened Strings
  import Components
  import Authors
  import opened Messages

  /** The two characters a line break becomes: a backslash and an 'n'. */
  const EscapedBreak := "\\n"

  /** `inline`: the lines of the text joined by an escaped line break. */
  function Inline(s: string): string
  {
    Join(Lines(s), EscapedBreak)
  }

  /** The pieces `format_message` writes, in order. */
  function LevelPart(timestamp: string, level: Level): string
  {
    timestamp + " - " + LevelName(level) + ": "
  }

  function ComponentPart(m: Message): string
  {
    if m.component.Some? then "[" + Components.ToString(m.component.value) + "] " else ""
  }

  function TitlePart(m: Message): string
  {
    if m.title.Some? then m.title.value + " - " else ""
  }

  function BodyPart(m: Message): string
  {
    "'" + Inline(m.detail.RawText()) + "'"
  }

  function AuthorPart(m: Message): string
  {
    " @ " + Authors.ToString(m.author)
  }

  /** The whole line. */
  function LogLine(m: Message, timestamp: string): string
  {
    LevelPart(timestamp, m.level) + ComponentPart(m) + TitlePart(m) + BodyPart(m) + AuthorPart(m)
  }

  /** `format_message`: the line written piece by piece into a string. */
  method FormatMessage(m: Message, timestamp: string) returns (s: string)
    ensures s == LogLine(m, timestamp)
  {
    s := LevelPart(timestamp, m.level);
    if m.component.Some? {
      s := s + ComponentPart(m);
    }
    if m.title.Some? {
      s := s + TitlePart(m);
    }
    s := s + BodyPart(m);
    s := s + AuthorPart(m);
  }

  // ---------------------------------------------------------------------------
  // Properties of `inline`.

  /** The folded text has no line break left. */
  lemma InlineHasNoBreak(s: string)
    ensures '\n' !in Inline(s)
  {
    JoinAvoids(Lines(s), EscapedBreak, '\n');
  }

  /** Text on one line is left as it is (a lone '\r' included, since only "\r\n" ends a line). */
  lemma InlineOneLine(s: string)
    requires '\n' !in s
    ensures Inline(s) == s
  {
    SplitNoSeparator(s, '\n');
  }

  /** Two lines, the first ended by "\n", are joined by the escaped break. */
  lemma InlineTwoLines(a: string, b: string)
    requires '\n' !in a && '\n' !in b && b != ""
    requires a == [] || a[|a| - 1] != '\r'
    ensures Inline(a + "\n" + b) == a + EscapedBreak + b
  {
    LinesOfTwo(a, a, b);
    assert a + "\n" + b == a + ['\n'] + b;
  }

  /** The same when the first line is ended by "\r\n": the carriage return is dropped. */
  lemma InlineTwoLinesCrLf(a: string, b: string)
    requires '\n' !in a && '\n' !in b && b != ""
    ensures Inline(a + "\r\n" + b) == a + EscapedBreak + b
  {
    var ar := a + ['\r'];
    assert '\n' !in ar;
    assert StripCr(ar) == a;
    LinesOfTwo(ar, a, b);
    assert a + "\r\n" + b == ar + ['\n'] + b;
  }

  lemma LinesOfTwo(first: string, stripped: string, b: string)
    requires '\n' !in first && '\n' !in b && b != ""
    requires StripCr(first) == stripped
    ensures Inline(first + ['\n'] + b) == stripped + EscapedBreak + b
  {
    SplitNoSeparator(b, '\n');
    SplitAfterPiece(first, '\n', b);
    var pieces := Split(first + ['\n'] + b, '\n');
    assert pieces == [first, b];
    assert Lines(first + ['\n'] + b) == [stripped, b];
    assert Join([stripped, b], EscapedBreak) == stripped + EscapedBreak + Join([b], EscapedBreak);
  }

  // ---------------------------------------------------------------------------
  // Properties of the line.

  /** The component part is written exactly when the message has a component. */
  lemma ComponentShownIff(m: Message)
    ensures ComponentPart(m) != "" <==> m.component.Some?
    ensures m.component.Some? ==> ComponentPart(m)[0] == '[' && ComponentPart(m)[|ComponentPart(m)| - 2..] == "] "
  {
  }

  /** The title part is written exactly when the message has a title, and ends with " - ". */
  lemma TitleShownIff(m: Message)
    ensures m.title.None? ==> TitlePart(m) == ""
    ensures m.title.Some? ==> |TitlePart(m)| >= 3 && TitlePart(m)[|TitlePart(m)| - 3..] == " - "
  {
  }

  /**
   * One message makes one line: when the timestamp, the component, the title
   * and the author hold no line break, neither does the line, whatever the
   * body holds.
   */
  lemma OneLinePerMessage(m: Message, timestamp: string)
    requires '\n' !in timestamp && '\n' !in Authors.ToString(m.author)
    requires m.component.Some? ==> '\n' !in Components.ToString(m.component.value)
    requires m.title.Some? ==> '\n' !in m.title.value
    ensures '\n' !in LogLine(m, timestamp)
  {
    InlineHasNoBreak(m.detail.RawText());
    var name := LevelName(m.level);
    assert '\n' !in name by {
      match m.level
      case Info =>
      case Warn =>
      case Error =>
      case SelfInfo =>
      case SelfError =>
    }
    NoBreakInConcat(LevelPart(timestamp, m.level), ComponentPart(m), TitlePart(m), BodyPart(m), AuthorPart(m));
  }

  lemma NoBreakInConcat(a: string, b: string, c: string, d: string, e: string)
    requires '\n' !in a && '\n' !in b && '\n' !in c && '\n' !in d && '\n' !in e
    ensures '\n' !in a + b + c + d + e
  {
  }
}
