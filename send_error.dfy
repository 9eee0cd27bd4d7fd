/**
 * What `route` returns on failure (src/send_error/): the failed sends, the
 * report message built for each, what happened to the reports, and the
 * text the summary prints.
 */
module SendErrorReports {
  import opened Wrappers
  import opened Strings
  import opened Authors
  import opened Messages

  /**
   * A `Box<dyn Error>`, seen only through its two renderings: `Display`
   * (`{}`) and `Debug` (`{:?}`).
   */
  datatype DynError = DynError(display: string, debug: string)

  /**
   * The `Debug` renderings the summary text uses and the model does not
   * spell out: that of a `Message` and that of a `&str` (quoted and escaped).
   */
  datatype DebugFormat = DebugFormat(message: Message -> string, str: string -> string)

  /** `SendErrorBorrowed::create(err, item_id, message)`; the getters are the fields. */
  datatype SendErrorBorrowed = SendErrorBorrowed(error: DynError, destinationId: string, message: Message)

  /** `SendErrorOwned::create(err, destination_id, message)`; the getters are the fields. */
  datatype SendErrorOwned = SendErrorOwned(error: DynError, destinationId: string, message: Message)

  /** `ErrorReportSummary::new(reported, failures)`: whether some Root took the report, and the Roots that refused it. */
  datatype ErrorReportSummary = ErrorReportSummary(reported: bool, failures: seq<SendErrorOwned>)

  /** `Default for ErrorReportSummary`. */
  function DefaultSummary(): (s: ErrorReportSummary)
    ensures !s.reported && s.failures == []
  {
    ErrorReportSummary(false, [])
  }

  /** `ReportedSendError::new(send_err, summary)`. */
  datatype ReportedSendError = ReportedSendError(sendErr: SendErrorBorrowed, summary: ErrorReportSummary)
  {
    /** `get_error`, delegated to the wrapped error. */
    function Error(): DynError { sendErr.error }

    /** `get_failed_destination_id`, delegated to the wrapped error. */
    function FailedDestinationId(): string { sendErr.destinationId }

    /** `get_failed_message`, delegated to the wrapped error. */
    function FailedMessage(): Message { sendErr.message }
  }

  /** A reported error answers exactly as the error it wraps and keeps the summary it was given. */
  lemma ReportedDelegates(e: SendErrorBorrowed, s: ErrorReportSummary)
    ensures ReportedSendError(e, s).Error() == e.error
    ensures ReportedSendError(e, s).FailedDestinationId() == e.destinationId
    ensures ReportedSendError(e, s).FailedMessage() == e.message
    ensures ReportedSendError(e, s).summary == s
  {
  }

  /** `SendErrors::new(message, errors, successfully_sent)`. */
  datatype SendErrors = SendErrors(successfullySent: nat, originalMessage: Message, errors: seq<ReportedSendError>)
  {
    /** `get_message`. */
    function GetMessage(): Message { originalMessage }
  }

  // ---------------------------------------------------------------------------
  // The report message.

  const ReportTitlePrefix := "Failed to send notification to destination "

  const ReportTextStart := "Rnotify failed to send a message "
  const ReportTextId := " to destination id '"
  const ReportTextError := "'. Error: '"
  const ReportTextEnd := "' A notification has been sent here because this is configured as a root logger."

  /** The body of a report: the failed message's `Debug` form, the destination id and the error. */
  function ReportText(id: string, failed: Message, error: DynError, debug: DebugFormat): string
  {
    ReportTextStart + debug.message(failed) + ReportTextId + id
      + ReportTextError + error.display
      + ReportTextEnd
  }

  /** The report's body names the destination that failed and carries the error's text. */
  lemma ReportTextNames(id: string, failed: Message, error: DynError, debug: DebugFormat)
    ensures Contains(ReportText(id, failed, error, debug), id)
    ensures Contains(ReportText(id, failed, error, debug), error.display)
  {
    var text := ReportText(id, failed, error, debug);
    var before := ReportTextStart + debug.message(failed) + ReportTextId;
    ContainsMiddle(before, id, ReportTextError + error.display + ReportTextEnd);
    assert text == before + id + (ReportTextError + error.display + ReportTextEnd);
    ContainsMiddle(before + id + ReportTextError, error.display, ReportTextEnd);
    assert text == (before + id + ReportTextError) + error.display + ReportTextEnd;
  }

  /**
   * `create_report_message`: a SelfError message titled after the failed
   * destination, with a raw body naming it, no component, the author
   * "<host>/rnotify", and the failed message's timestamp. `hostname` is the
   * result of the host name lookup `Author::parse` performs.
   */
  function ReportMessage(id: string, failed: Message, error: DynError, hostname: Option<string>, debug: DebugFormat): (r: Message)
    ensures r.level == SelfError
    ensures r.title == Some(ReportTitlePrefix + id)
    ensures r.component.None?
    ensures r.timestampMillis == failed.timestampMillis
    ensures r.detail == Raw(ReportText(id, failed, error, debug))
    ensures r.author.parts == [HostPart(hostname), "rnotify"]
  {
    var author := ReportAuthor(hostname);
    var text := ReportText(id, failed, error, debug);
    Message(SelfError, Some(ReportTitlePrefix + id), Raw(text), None, author, failed.timestampMillis)
  }

  /** The author of every report, `Author::parse("rnotify")`: the host name, then "rnotify". */
  function ReportAuthor(hostname: Option<string>): (a: Author)
    ensures a == Authors.Parse("rnotify", hostname)
  {
    SplitNoSeparator("rnotify", '/');
    Author([HostPart(hostname), "rnotify"])
  }

  /** The report for a failed send of the router. */
  function ReportFor(e: SendErrorBorrowed, hostname: Option<string>, debug: DebugFormat): Message
  {
    ReportMessage(e.destinationId, e.message, e.error, hostname, debug)
  }

  // ---------------------------------------------------------------------------
  // `Display for SendErrors`, one string per `writeln!` (each is followed by "\n").

  // The three notices, each written in two pieces so that the verifier can
  // read their first characters.
  const ReportedLine := "This was reported" + " to atleast one destination."
  const NotApplicableLine := "No error receiving destinations" + " were applicable to send this error to."
  const SomeFailedLine := "Some Error receiving destinations" + " failed to be reported to."

  /** The five opening lines. */
  function Header(e: SendErrors, debug: DebugFormat): seq<string>
  {
    ["-----",
     "Summary:",
     "Successfully sent to " + NatToString(e.successfullySent) + " destinations",
     "Failed to send to " + NatToString(|e.errors|) + " destinations",
     "Message: " + debug.message(e.originalMessage)]
  }

  /** One line per Root that refused a report. */
  function FailureLine(f: SendErrorOwned, debug: DebugFormat): string
  {
    "   - " + debug.str(f.destinationId) + ": " + f.error.debug + " ; Tried to send: " + debug.message(f.message)
  }

  function FailureLines(fs: seq<SendErrorOwned>, debug: DebugFormat): (r: seq<string>)
    ensures |r| == |fs|
    ensures forall i :: 0 <= i < |fs| ==> r[i] == FailureLine(fs[i], debug)
  {
    if fs == [] then [] else FailureLines(fs[..|fs| - 1], debug) + [FailureLine(fs[|fs| - 1], debug)]
  }

  /** The first three lines of a block: the rule, the destination and the error. */
  function Intro(err: ReportedSendError, debug: DebugFormat): seq<string>
  {
    ["--",
     "Failed to send a message to destination '" + debug.str(err.FailedDestinationId()) + "'",
     "Due to error: " + err.Error().debug]
  }

  /** The line on whether the error was reported, or that nowhere applied (only when not listing failures). */
  function Notice(reported: bool, listFailures: bool): seq<string>
  {
    if reported then [ReportedLine] else if !listFailures then [NotApplicableLine] else []
  }

  /** The list of Roots that refused the report, with its heading (only when listing failures). */
  function Listing(fs: seq<SendErrorOwned>, debug: DebugFormat, listFailures: bool): seq<string>
  {
    if listFailures then [SomeFailedLine] + FailureLines(fs, debug) else []
  }

  /**
   * The block written for one error. `listFailures` is the flag the source
   * computes as `any_root_fails`: it selects between the "not applicable"
   * line and the list of Roots that refused the report.
   */
  function ErrorBlock(err: ReportedSendError, debug: DebugFormat, listFailures: bool): seq<string>
  {
    Intro(err, debug) + Notice(err.summary.reported, listFailures) + Listing(err.summary.failures, debug, listFailures)
  }

  /** `any_root_fails` as the source computes it: true when the failure list is EMPTY. */
  function AnyRootFailsAsWritten(s: ErrorReportSummary): bool
  {
    s.failures == []
  }

  /** The flag as its name and comment intend: some Root refused the report. */
  function AnyRootFails(s: ErrorReportSummary): bool
  {
    s.failures != []
  }

  function Blocks(errs: seq<ReportedSendError>, debug: DebugFormat, corrected: bool): seq<string>
  {
    if errs == [] then []
    else
      var last := errs[|errs| - 1];
      var flag := if corrected then AnyRootFails(last.summary) else AnyRootFailsAsWritten(last.summary);
      Blocks(errs[..|errs| - 1], debug, corrected) + ErrorBlock(last, debug, flag)
  }

  /** The text `Display` writes, as the source computes it. */
  function DisplayLines(e: SendErrors, debug: DebugFormat): seq<string>
  {
    Header(e, debug) + Blocks(e.errors, debug, false) + ["-----"]
  }

  /** The text with the `any_root_fails` flag the right way round. */
  function DisplayLinesCorrected(e: SendErrors, debug: DebugFormat): seq<string>
  {
    Header(e, debug) + Blocks(e.errors, debug, true) + ["-----"]
  }

  /** `Display::fmt`: writes the header, then one block per error, then the closing rule. */
  method Fmt(e: SendErrors, debug: DebugFormat) returns (out: seq<string>)
    ensures out == DisplayLines(e, debug)
  {
    out := WriteHeader(e, debug);
    var blocks := WriteBlocks(e.errors, debug);
    out := out + blocks;
    out := out + ["-----"];
  }

  /** The summary lines `Display::fmt` writes first. */
  method WriteHeader(e: SendErrors, debug: DebugFormat) returns (out: seq<string>)
    ensures out == Header(e, debug)
  {
    out := [];
    out := out + ["-----"];
    out := out + ["Summary:"];
    out := out + ["Successfully sent to " + NatToString(e.successfullySent) + " destinations"];
    out := out + ["Failed to send to " + NatToString(|e.errors|) + " destinations"];
    out := out + ["Message: " + debug.message(e.originalMessage)];
  }

  /** The loop over the errors of `Display::fmt`: one block each, in stored order. */
  method WriteBlocks(errors: seq<ReportedSendError>, debug: DebugFormat) returns (out: seq<string>)
    ensures out == Blocks(errors, debug, false)
  {
    out := [];
    var k := 0;
    while k < |errors|
      invariant 0 <= k <= |errors|
      invariant out == Blocks(errors[..k], debug, false)
    {
      assert errors[..k + 1][..k] == errors[..k];
      var block := WriteBlock(errors[k], debug);
      out := out + block;
      k := k + 1;
    }
    assert errors[..k] == errors;
  }

  /** The body of the loop over errors in `Display::fmt`, as the source writes it. */
  method WriteBlock(error: ReportedSendError, debug: DebugFormat) returns (block: seq<string>)
    ensures block == ErrorBlock(error, debug, AnyRootFailsAsWritten(error.summary))
  {
    block := ["--"];
    block := block + ["Failed to send a message to destination '" + debug.str(error.FailedDestinationId()) + "'"];
    block := block + ["Due to error: " + error.Error().debug];
    var anyRootFails := error.summary.failures == [];
    if error.summary.reported {
      block := block + [ReportedLine];
    } else if !anyRootFails {
      block := block + [NotApplicableLine];
    }
    assert block == Intro(error, debug) + Notice(error.summary.reported, anyRootFails);
    if anyRootFails {
      // The loop over the report failures: the flag holds only when there are
      // none, so it writes nothing.
      block := block + [SomeFailedLine] + FailureLines(error.summary.failures, debug);
    }
  }

  // ---------------------------------------------------------------------------
  // Properties of the text.

  /** The text opens with the summary lines and closes with the rule, whichever way the flag is computed. */
  lemma DisplayFrame(e: SendErrors, debug: DebugFormat, corrected: bool)
    ensures var lines := Header(e, debug) + Blocks(e.errors, debug, corrected) + ["-----"];
      |lines| >= 6 &&
      lines[0] == "-----" && lines[1] == "Summary:" &&
      lines[2] == "Successfully sent to " + NatToString(e.successfullySent) + " destinations" &&
      lines[3] == "Failed to send to " + NatToString(|e.errors|) + " destinations" &&
      lines[|lines| - 1] == "-----"
  {
  }

  lemma FailureLinesStartWithSpace(fs: seq<SendErrorOwned>, debug: DebugFormat)
    ensures forall l :: l in FailureLines(fs, debug) ==> |l| > 0 && l[0] == ' '
  {
  }

  lemma NoticeInitials()
    ensures ReportedLine[0] == 'T' && NotApplicableLine[0] == 'N' && SomeFailedLine[0] == 'S'
  {
  }

  /** The three notices start with letters no other line of a block starts with. */
  lemma NoticeInBlock(err: ReportedSendError, debug: DebugFormat, listFailures: bool, line: string)
    requires line == ReportedLine || line == NotApplicableLine || line == SomeFailedLine
    ensures line in ErrorBlock(err, debug, listFailures) <==>
      line in Notice(err.summary.reported, listFailures) + (if listFailures then [SomeFailedLine] else [])
  {
    NoticeNotInIntro(err, debug, line);
    NoticeNotInFailures(err.summary.failures, debug, line);
    var b := ErrorBlock(err, debug, listFailures);
    var intro := Intro(err, debug);
    var rest := Notice(err.summary.reported, listFailures) + (if listFailures then [SomeFailedLine] else []);
    var fl := if listFailures then FailureLines(err.summary.failures, debug) else [];
    assert b == intro + rest + fl;
    assert line in b <==> line in intro || line in rest || line in fl;
  }

  lemma NoticeNotInFailures(fs: seq<SendErrorOwned>, debug: DebugFormat, line: string)
    requires line == ReportedLine || line == NotApplicableLine || line == SomeFailedLine
    ensures line !in FailureLines(fs, debug)
  {
    NoticeInitials();
    FailureLinesStartWithSpace(fs, debug);
  }

  lemma NoticeNotInIntro(err: ReportedSendError, debug: DebugFormat, line: string)
    requires line == ReportedLine || line == NotApplicableLine || line == SomeFailedLine
    ensures line !in Intro(err, debug)
  {
    NoticeInitials();
    var intro := Intro(err, debug);
    assert intro[0][0] == '-' && intro[1][0] == 'F' && intro[2][0] == 'D';
  }

  /**
   * Each block starts with "--", the id and the error, and carries the
   * "reported to atleast one destination" line exactly when the error was
   * reported.
   */
  lemma BlockContents(err: ReportedSendError, debug: DebugFormat, listFailures: bool)
    ensures var b := ErrorBlock(err, debug, listFailures);
      |b| >= 3 && b[0] == "--" &&
      b[1] == "Failed to send a message to destination '" + debug.str(err.FailedDestinationId()) + "'" &&
      b[2] == "Due to error: " + err.Error().debug &&
      (ReportedLine in b <==> err.summary.reported)
  {
    NoticeInBlock(err, debug, listFailures, ReportedLine);
  }

  /**
   * With the flag the right way round, an unreported error whose reports some
   * Root refused lists those Roots, one line each, and an unreported error with
   * no refusals says that no Root applied.
   */
  lemma CorrectedBlock(err: ReportedSendError, debug: DebugFormat)
    ensures var b := ErrorBlock(err, debug, AnyRootFails(err.summary));
      (SomeFailedLine in b <==> err.summary.failures != []) &&
      (NotApplicableLine in b <==> !err.summary.reported && err.summary.failures == []) &&
      (err.summary.failures != [] ==>
        b[|b| - |err.summary.failures|..] == FailureLines(err.summary.failures, debug))
  {
    var flag := AnyRootFails(err.summary);
    NoticeInBlock(err, debug, flag, SomeFailedLine);
    NoticeInBlock(err, debug, flag, NotApplicableLine);
    var b := ErrorBlock(err, debug, flag);
    var fs := err.summary.failures;
    if fs != [] {
      var pre := Intro(err, debug) + Notice(err.summary.reported, flag) + [SomeFailedLine];
      assert b == pre + FailureLines(fs, debug);
      assert b[|b| - |fs|..] == FailureLines(fs, debug);
    }
  }

  /**
   * As written, the flag is inverted: an error whose report every Root refused
   * is described as having had no applicable Root, and the refusals are not
   * listed.
   */
  lemma AsWrittenHidesRefusals(err: ReportedSendError, debug: DebugFormat)
    requires !err.summary.reported && err.summary.failures != []
    ensures var b := ErrorBlock(err, debug, AnyRootFailsAsWritten(err.summary));
      NotApplicableLine in b && SomeFailedLine !in b &&
      forall f :: f in err.summary.failures ==> FailureLine(f, debug) !in b
  {
    var b := ErrorBlock(err, debug, AnyRootFailsAsWritten(err.summary));
    NoticeInBlock(err, debug, false, SomeFailedLine);
    NoticeInBlock(err, debug, false, NotApplicableLine);
    assert b == Intro(err, debug) + [NotApplicableLine];
    NoticeInitials();
    assert b[0][0] == '-' && b[1][0] == 'F' && b[2][0] == 'D' && b[3][0] == 'N';
    forall f | f in err.summary.failures ensures FailureLine(f, debug) !in b {
      assert FailureLine(f, debug)[0] == ' ';
    }
  }

  /** The same inversion the other way: with no Roots at all, the text claims that some of them failed. */
  lemma AsWrittenClaimsFailures(err: ReportedSendError, debug: DebugFormat)
    requires !err.summary.reported && err.summary.failures == []
    ensures var b := ErrorBlock(err, debug, AnyRootFailsAsWritten(err.summary));
      SomeFailedLine in b && NotApplicableLine !in b
  {
    NoticeInBlock(err, debug, true, SomeFailedLine);
    NoticeInBlock(err, debug, true, NotApplicableLine);
  }
}
