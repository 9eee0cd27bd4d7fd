# rnotify: routing, escalation and message formatting, modelled in Dafny

rnotify sends a notification `Message` to a registry of destinations. Each
destination has a routing behaviour:

- a **Root** destination receives every message that applies to it, and also
  every error report;
- an **Additive** destination receives every message that applies to it;
- a **Drain** destination receives a message only when no non-Root
  destination took it.

`MessageRouter::route` works in four steps:

1. It tries the Roots and Additives.
2. When no non-Root destination succeeded, it tries every applicable Drain.
3. It turns each failed send into a SelfError report message and sends that
   report to every Root.
4. It returns either the number of successful sends or a `SendErrors` value.
   That value lists each failure, whether some Root took its report, and which
   Roots refused it.

Around the router sit the vocabulary and the renderings of a message:

- the vocabulary:
  - levels ordered by priority;
  - hierarchical components;
  - message conditions;
  - authors.
- the formatted body:
  - the `#<title>#` section parser;
  - two detail builders;
  - the message builder.
- the renderings of a message:
  - HTML;
  - Discord;
  - Telegram;
  - the one-line log file format.
- the two `Display` texts of a failed send: the current one and the older,
  index-based one.

The model follows the source file by file, one module each:

| module | file | what it holds |
|---|---|---|
| `Authors` | `src/message/author.rs` | author parsing and display |
| `Components` | `src/message/component.rs` | component parsing and display, `is_child_of` |
| `Messages` | `src/message/mod.rs` | levels, message details, messages |
| `MessageConditions` | `src/destination/message_condition_config.rs` and `src/destination/message_condition.rs` | the condition, modelled once because the two copies are identical |
| `NotificationConfig` | `src/destination/notification_config.rs` | the level-range notification entry |
| `Routing` | `src/destination/routed_destination.rs`, plus `RoutingInfo` from `src/message_router.rs` | routing behaviour and routed destinations |
| `MessageRouting` | `src/message_router.rs` | the router |
| `SendErrorReports` | `src/send_error/` | the report types and their `Display` |
| `LegacySendErrors` | `src/senderror.rs` | the older report and its iterator |
| `FormattedDetail` | `src/message/formatted_detail.rs` | formatted details and the section parser |
| `Html` | `src/util/html.rs` | HTML escaping and rendering |
| `DetailBuilders` | `src/message/detail_builder.rs` | the closure-based detail builder |
| `ConsumingDetailBuilders` | `src/message/message_detail_builder.rs` | the consuming detail builder |
| `MessageBuilders` | `src/message/builder.rs` | the message builder |
| `Discord` | `src/destination/kinds/discord.rs` | Discord markup and webhook message |
| `Telegram` | `src/destination/kinds/telegram.rs` | Telegram markup and message text |
| `FileDestination` | `src/destination/kinds/file.rs` | the log line |

`Wrappers` (`Option`) and `Strings` hold the shared helpers. `Strings` has
`split`, `join` and the behaviour of Rust's `str::lines`: split on '\n', drop
one '\r' before each break, drop a final empty piece.

The code takes each core file's own form:

- Objects whose methods update fields are classes with `modifies` clauses:
  - the router's registry;
  - the three mutable builders;
  - the legacy iterator.
- Loops become methods with invariants, each proved equal to a specification
  function. Then the properties are proved about that function. The loops are:
  - the passes and the escalation of `route`;
  - the `Display` writers;
  - the parser;
  - the HTML, Telegram and Discord renderers.
- Value-level code becomes datatypes, functions and lemmas.

The router takes a send oracle `send(i, m)` as a parameter. It returns a
ghost trace of every call it makes, in order. The trace is what the
properties of the passes and of escalation speak about.

Three points where the code and its documentation or intent part ways are
modelled as the code is written. Each also has a corrected definition with
its intended property proved (see "Findings"):

- **`Component::is_child_of`** compares only the first |parent|-1 parts
  (src/message/component.rs:14-15).
  - `Components.ChildIsNotAlwaysPrefix` proves the consequence, and so does
    `MessageConditions.SiblingMatches`: "database/uptime" is a child of
    "database/backup".
  - The doc-tests at src/destination/message_condition.rs:51 and
    src/destination/message_condition_config.rs:37 assert the opposite.
    `MessageConditions.OfComponentIntended` proves them for the prefix test
    `Components.IsPrefixOf`.
  - The parent must be non-empty, because the subtraction underflows on an
    empty parent. That is the `|parent.parts| > 0` precondition, carried to
    conditions as `CanMatch`.
- **Discord `Monospace`** builds a fenced string for empty or multi-line text
  and then discards it (src/destination/kinds/discord.rs:94-96). Monospace is
  therefore always one pair of backticks (`Discord.MonospaceNeverFenced`).
  `Discord.ApplyStyleIntended` returns the fence instead.
- **`any_root_fails`** in `Display for SendErrors` is inverted
  (src/send_error/mod.rs:68). See "Findings".

`Style` has four variants: `Bold`, `Italics`, `Monospace` and `Code(lang)`.
src/message/formatted_detail.rs:63-67 declares only the first three.
`Code { lang }` is used at src/util/html.rs:45 and
src/destination/kinds/discord.rs:99. Telegram's `apply_style`
(src/destination/kinds/telegram.rs:120-126) has no `Code` arm. Its model
therefore requires styles without `Code` (`NoCode`).

## Model

| member | source | states |
|---|---|---|
| Authors.Parse | src/message/author.rs:9-21 | the parts are the host name (or "?" when the lookup failed) followed by the non-empty '/'-pieces of the input, in order; every part after the first is non-empty and slash-free; there is one part more than there are non-empty pieces |
| Authors.ToStringSplitsBack | src/message/author.rs:24-28 | for a non-empty, slash-free host name, splitting the displayed author on '/' and dropping empty pieces gives back exactly the parts |
| Components.Parse | src/message/component.rs:19-25 | parsing yields a well-formed component (every part non-empty and slash-free); its parts are the same strings as the non-empty '/'-pieces of the input, and there are no more of them than pieces (order and repetition are pinned by `ParseOfJoin` and `ParseToString`) |
| Components.ParseOfJoin | src/message/component.rs:19-25 | parsing slash-free pieces joined by "/" gives exactly the non-empty pieces |
| Components.ParseToString | src/message/component.rs:27-44 | serialising (joining with "/") and deserialising a well-formed component gives it back |
| Components.ParseRoundTrip | src/message/component.rs:19-44 | parse, display, parse gives the same component as one parse |
| Components.TrailingSlashIgnored | src/message/component.rs:19-25 | "root/sub/" parses to the same parts as "root/sub" |
| Components.EmptyPiecesDropped | src/message/component.rs:22 | repeated and leading slashes produce no empty parts |
| Components.IsChildOfReflexive | src/message/component.rs:10-16 | every non-empty component is a child of itself |
| Components.IsChildOfShorterChild | src/message/component.rs:11-13 | a parent with more parts than the child never has it as a child |
| Components.IsChildOfIgnoresLastPart | src/message/component.rs:14-15 | the result does not depend on the parent's last part |
| Components.PrefixIsChild | src/message/component.rs:10-16 | a component that extends the parent's parts is its child |
| Components.ChildIsNotAlwaysPrefix | src/message/component.rs:14-15 | the converse fails: database/uptime is a child of database/backup, and web of db, though neither parent is a prefix |
| Components.IntendedChildOfIsHierarchy | src/message/component.rs:10-16 | the intended prefix relation is reflexive, antisymmetric and transitive |
| Components.IntendedChildOfExamples | src/message/component.rs:50-64 | the intended relation passes the module's test and rejects database/uptime under database/backup |
| Components.SinglePartParentAcceptsAll | src/message/component.rs:14-15 | a one-part parent has every non-empty component as a child |
| Components.ChildOfExamples | src/message/component.rs:50-64 | root/sub/block is a child of root and of root/sub, and scraperpi is not a child of scraperpi/services |
| Components.ExampleParses | src/message/component.rs:19-25 | "database/uptime" parses to the parts database, uptime |
| Messages.Priority | src/message/mod.rs:107-115 | Info has priority 1, SelfInfo 2, Warn 3, Error 4 and SelfError 5 |
| Messages.Cmp | src/message/mod.rs:126-136 | the comparison is Less or Greater exactly as the priorities compare, and Equal exactly when the levels are equal |
| Messages.LevelName | src/message/mod.rs:92-98 | a level's `Debug` name is its variant name: "Info", "Warn", "Error", "SelfInfo", "SelfError" |
| Messages.PriorityInjective | src/message/mod.rs:107-115 | different levels have different priorities |
| Messages.LevelChain | src/message/mod.rs:107-136 | Info < SelfInfo < Warn < Error < SelfError |
| Messages.LeTotalOrder | src/message/mod.rs:126-136 | `<=` on levels is reflexive, antisymmetric, transitive and total |
| Messages.MinMaxBound | src/message/mod.rs:117-123 | `min()` is at or below every level and `max()` at or above it |
| Messages.DefaultIsMin | src/message/mod.rs:100-104 | the default level is `min()`, Info |
| Messages.DefaultDetail | src/message/mod.rs:84-88 | the default detail is unformatted with empty raw text |
| Messages.ParsedBodyKeepsRaw | src/message/mod.rs:72-81 | `raw()` of a parsed formatted detail is the parsed text, and `has_formatting` holds for it |
| MessageConditions.Default | src/destination/message_condition_config.rs:133-141 | no component filter, minimum `Level::min()`, maximum `Level::max()` |
| MessageConditions.OfComponent | src/destination/message_condition_config.rs:102-107 | the default with only the component filter set |
| MessageConditions.OfMin | src/destination/message_condition_config.rs:109-114 | the default with only the minimum level changed |
| MessageConditions.OfMax | src/destination/message_condition_config.rs:116-121 | the default with only the maximum level changed |
| MessageConditions.MatchesWithoutComponent | src/destination/message_condition_config.rs:123-130 | without a component filter, a message matches exactly when min ≤ its level ≤ max |
| MessageConditions.MissingComponentNeverMatches | src/destination/message_condition_config.rs:124-127 | with a component filter, a message without a component never matches |
| MessageConditions.MatchesWithComponent | src/destination/message_condition.rs:121-128 | with a filter and a component, a match is exactly child-of the filter and level in range |
| MessageConditions.DefaultMatchesAll | src/destination/message_condition.rs:131-140 | the default condition matches every message |
| MessageConditions.OfMinWarn | src/destination/message_condition_config.rs:47-61 | `of_min(Warn)` rejects Info and accepts Warn and Error |
| MessageConditions.OfMaxWarn | src/destination/message_condition_config.rs:72-86 | `of_max(Warn)` accepts Info and Warn and rejects Error |
| MessageConditions.OfComponentExamples | src/destination/message_condition.rs:46-52 | the database/backup filter matches itself, table1 and table2, and rejects fish_and_chip_shop/fries |
| MessageConditions.SiblingMatches | src/destination/message_condition.rs:51 | as the code is written, the database/backup filter matches database/uptime |
| MessageConditions.IntendedIsStricter | src/destination/message_condition.rs:121-128 | the intended test accepts only what the coded one accepts, and both agree without a component filter |
| MessageConditions.OfComponentIntended | src/destination/message_condition.rs:46-52 | the intended test satisfies every case of the documentation, the rejection of database/uptime included |
| MessageConditions.EntryDelegates | src/destination/message_condition.rs:153-160 | an entry matches exactly when its condition does, and `get_notify` returns the stored target |
| NotificationConfig.MatchesIsLevelRange | src/destination/notification_config.rs:16-18 | an entry matches exactly when min ≤ level ≤ max |
| NotificationConfig.ComponentIgnored | src/destination/notification_config.rs:7-18 | changing the entry's component never changes whether it matches |
| NotificationConfig.DefaultBoundsMatchAll | src/destination/notification_config.rs:8-18 | with the default bounds every message matches |
| NotificationConfig.GetNotifyStored | src/destination/notification_config.rs:20-22 | `get_notify` returns the stored value |
| Routing.BehaviourTable | src/destination/routed_destination.rs:57-80 | Root and Additive always get messages and Drain does not; only Root always receives errors; the default is Additive |
| Routing.Of | src/message_router.rs:136-141 | the given behaviour, with no condition |
| Routing.RootInfo | src/message_router.rs:143-145 | Root, with no condition |
| Routing.AppliesToCases | src/message_router.rs:151-156 | with no condition every message applies, otherwise exactly the matching ones; the default condition applies to all |
| Routing.DestinationDefaults | src/destination/routed_destination.rs:21-35 | `is_root` holds exactly for Root behaviour; `should_receive` is `applies_to`; the id and routing info are those given at construction |
| MessageRouting.Targets | src/message_router.rs:68-83 | the indices a pass visits are all inside the registry |
| MessageRouting.TargetsExact | src/message_router.rs:68-83 | a pass visits exactly the destinations of its behaviour that the message applies to, in registry order |
| MessageRouting.Roots | src/message_router.rs:89-92 | the Root indices all lie inside the registry |
| MessageRouting.RootsExact | src/message_router.rs:89-92 | the collected Roots are exactly the Root destinations, in registry order |
| MessageRouting.Rejections | src/message_router.rs:52-66 | every recorded rejection is an attempted index whose send failed |
| MessageRouting.SendTrace | src/message_router.rs:68-83 | one send of the original message per attempted index, in order |
| MessageRouting.Attempted | src/message_router.rs:68-83 | every attempted index is inside the registry |
| MessageRouting.Reported | src/message_router.rs:94-112 | one reported error per failure |
| MessageRouting.ReportsFor | src/send_error/mod.rs:18-27 | one report message per failure |
| MessageRouting.ReportsForEach | src/send_error/mod.rs:18-27 | the k-th report is the report of the k-th failure, and it has level SelfError |
| MessageRouting.MessageRouter.Empty | src/message_router.rs:16-20 | a router with no destinations |
| MessageRouting.MessageRouter.FromDestinations | src/message_router.rs:22-33 | a router holding the given destinations, in order |
| MessageRouting.MessageRouter.AddDestination | src/message_router.rs:35-37 | the destination is appended at the end and the others are kept |
| MessageRouting.MessageRouter.Route | src/message_router.rs:39-116 | the result and the full call trace are exactly those of the routing specification, which the lemmas below characterise; it can be called whenever the conditions the lazy filters consult can be evaluated (`Routable`) |
| MessageRouting.RouteOfUnfolds | src/message_router.rs:85-115 | `Ok` with the success count when no attempt failed, otherwise `Err` with the count, the message and the reported errors; the trace is the attempts followed by the report calls |
| MessageRouting.RunPass | src/message_router.rs:68-83 | one pass attempts exactly its targets; the non-Root success flag, the success count and the error list then describe every attempt so far |
| MessageRouting.Visit | src/message_router.rs:68-73 | one step of a pass: the destination is attempted iff it is a target, and the three counters stay exact |
| MessageRouting.SendToDest | src/message_router.rs:52-66 | after one attempt the flag, count and errors describe the attempts including this one |
| MessageRouting.Escalate | src/message_router.rs:94-112 | the reported errors and the report calls are exactly those of the escalation specification |
| MessageRouting.ReportError | src/message_router.rs:94-111 | handling one more failure extends the reported list and the report trace by that failure |
| MessageRouting.CollectRoots | src/message_router.rs:89-92 | the loop collects exactly the Root indices |
| MessageRouting.ReportToRoots | src/message_router.rs:96-111 | the summary is the specification's summary, and every Root receives the report once, in order |
| MessageRouting.NonRootDeliveredMeans | src/message_router.rs:57-63 | the flag holds exactly when some attempted non-Root destination accepted the message |
| MessageRouting.AttemptedExactly | src/message_router.rs:68-83 | a destination is attempted exactly when the primary pass takes it, or when it is an applicable Drain and no non-Root destination accepted the message in the primary pass |
| MessageRouting.DrainsOnlyAsFallback | src/message_router.rs:75-83 | the non-Root flag holds exactly when some applicable Additive destination of the first pass accepted the message; a Drain is attempted exactly when the flag is unset and it applies |
| MessageRouting.DrainConditionUnconsulted | src/message_router.rs:68-83 | an Additive destination that accepts the message, next to a Drain whose condition cannot be evaluated, routes to Ok(1) without consulting the Drain |
| MessageRouting.PrimaryAlwaysTried | src/message_router.rs:68-73 | a Root or Additive destination is attempted exactly when it should receive the message |
| MessageRouting.AttemptedOnce | src/message_router.rs:68-83 | no destination is attempted twice |
| MessageRouting.DeliveredPlusRejected | src/message_router.rs:52-66 | successes plus failures equal the number of attempts |
| MessageRouting.ErrorsAreRejections | src/message_router.rs:46-50 | each stored error carries the failing destination's id, its error and the original message, in attempt order |
| MessageRouting.RouteResultCases | src/message_router.rs:85-115 | Ok exactly when nothing failed, with the count of all attempts; otherwise Err with the original message, successes plus failures equal to the attempts, and one entry per failure in order |
| MessageRouting.ReportedPairs | src/message_router.rs:94-112 | the k-th reported error pairs the k-th failure with the summary of sending its report to all Roots |
| MessageRouting.SummaryMeans | src/message_router.rs:96-111 | reported holds exactly when some Root accepted; the failures list exactly the refusing Roots, in order, with their id, error and the report |
| MessageRouting.NoRootsNoReports | src/message_router.rs:94-111 | with no Root the summary is (false, []) |
| MessageRouting.ReportCallCount | src/message_router.rs:94-109 | the escalation makes one call per failure per Root |
| MessageRouting.ReportsGoToRoots | src/message_router.rs:99-100 | every escalation call goes to a Root and carries a SelfError report, whatever the Root's condition |
| MessageRouting.TraceShape | src/message_router.rs:39-116 | the trace is the attempts in order, then failures × Roots report calls and nothing else; Ok sends no report |
| SendErrorReports.DefaultSummary | src/send_error/reported.rs:40-46 | not reported, no failures |
| SendErrorReports.ReportedDelegates | src/send_error/reported.rs:14-38 | a reported error answers error, id and message from the wrapped error, and keeps its summary |
| SendErrorReports.ReportTextNames | src/send_error/mod.rs:21-22 | the report body contains the failed destination id and the error's text |
| SendErrorReports.ReportMessage | src/send_error/mod.rs:18-27 | level SelfError, title "Failed to send notification to destination " + id, Raw body, no component, author host/rnotify, the failed message's timestamp |
| SendErrorReports.ReportAuthor | src/send_error/mod.rs:24 | the report's author is `Author::parse("rnotify")` |
| SendErrorReports.FailureLines | src/send_error/mod.rs:81-83 | one line per refusing Root, in order |
| SendErrorReports.Fmt | src/send_error/mod.rs:55-88 | writes exactly the text specified by `DisplayLines` (flag as written) |
| SendErrorReports.WriteHeader | src/send_error/mod.rs:57-61 | the five summary lines |
| SendErrorReports.WriteBlocks | src/send_error/mod.rs:63-85 | one block per error, in stored order |
| SendErrorReports.WriteBlock | src/send_error/mod.rs:64-84 | the block of one error with the flag as the source computes it |
| SendErrorReports.DisplayFrame | src/send_error/mod.rs:57-60 | the text opens with "-----", "Summary:", the success count and the failure count, and closes with "-----" |
| SendErrorReports.FailureLinesStartWithSpace | src/send_error/mod.rs:82 | every failure line starts with a space, so it differs from every notice line |
| SendErrorReports.NoticeInBlock | src/send_error/mod.rs:64-84 | a notice line is in a block exactly when the notice logic writes it |
| SendErrorReports.NoticeNotInFailures | src/send_error/mod.rs:82 | no failure line equals a notice |
| SendErrorReports.NoticeNotInIntro | src/send_error/mod.rs:64-66 | none of the first three lines of a block is a notice |
| SendErrorReports.BlockContents | src/send_error/mod.rs:63-72 | each block starts with "--", the destination and the error, and has the "reported to atleast one destination" line exactly when the error was reported |
| SendErrorReports.CorrectedBlock | src/send_error/mod.rs:68-84 | with the flag as intended, the failure heading appears exactly when some Root refused; "no applicable destination" appears exactly when unreported with no refusals; the block ends with the refusals |
| SendErrorReports.AsWrittenHidesRefusals | src/send_error/mod.rs:68-84 | as written, an unreported error with refusals says no destination applied and lists no refusal |
| SendErrorReports.AsWrittenClaimsFailures | src/send_error/mod.rs:68-79 | as written, an unreported error with no Roots at all claims that some Roots failed |
| LegacySendErrors.New | src/senderror.rs:17-34 | one record per input tuple, in order, holding its destination, index, error and failed map unchanged; the roots and message are kept |
| LegacySendErrors.FailedIndices | src/senderror.rs:100-103 | every failed index is a root index that is a key of the map |
| LegacySendErrors.SucceededIndices | src/senderror.rs:104-106 | every succeeded index is a root index that is not a key |
| LegacySendErrors.ItemAt | src/senderror.rs:94-116 | the item keeps the error, destination and config index, and its successful and failed roots together number the roots |
| LegacySendErrors.IndicesPartition | src/senderror.rs:100-107 | succeeded and failed indices together number the roots |
| LegacySendErrors.FailedIndicesExact | src/senderror.rs:101-103 | a root index is failed exactly when it is a key of the map |
| LegacySendErrors.SucceededIndicesExact | src/senderror.rs:104-106 | a root index succeeded exactly when it is not a key |
| LegacySendErrors.IndicesInOrder | src/senderror.rs:100-107 | both lists keep root index order |
| LegacySendErrors.PartitionRoots | src/senderror.rs:97-107 | the loop builds exactly the successful and failed root lists |
| LegacySendErrors.DestinationSendErrorIterator.IntoIter | src/senderror.rs:125-130 | the cursor starts at 0 over the given errors |
| LegacySendErrors.DestinationSendErrorIterator.Next | src/senderror.rs:94-118 | yields the item for the current error and advances, or yields nothing and stays once past the end |
| LegacySendErrors.FailedRootsExact | src/senderror.rs:100-103 | root j is among the failed roots exactly when j is a key, paired with the map's error |
| LegacySendErrors.RootIndexLines | src/senderror.rs:52-54 | one reference line per root |
| LegacySendErrors.Fmt | src/senderror.rs:43-75 | writes exactly the text specified by `DisplayLines` |
| LegacySendErrors.WriteHeader | src/senderror.rs:44-47 | the four summary lines |
| LegacySendErrors.WriteRootSection | src/senderror.rs:48-58 | the root section, or the all-reported line |
| LegacySendErrors.WriteBlocks | src/senderror.rs:59-73 | one block per error, in stored order |
| LegacySendErrors.WriteBlock | src/senderror.rs:60-72 | the block of one error, with its failed roots in the map's iteration order, given an order that lists every key once |
| LegacySendErrors.WriteFailedRoots | src/senderror.rs:69-71 | the loop over the failed roots writes one line per key, in the order given |
| LegacySendErrors.FailedIndexLines | src/senderror.rs:69-71 | line t names the t-th key and that root's error |
| LegacySendErrors.EnumerationSize | src/senderror.rs:69-71 | an iteration order of the map lists as many keys as the map holds |
| LegacySendErrors.FailedLinesCover | src/senderror.rs:69-71 | there is one line per failed root, and every failed root has a line carrying its own error |
| LegacySendErrors.FailedRootsListed | src/senderror.rs:60-72 | with failed roots, the block is five lines ending in "Failed to report this error to the following destinations:", then one line per failed root, each failed root with its error |
| LegacySendErrors.SectionShownIff | src/senderror.rs:48-55 | the "Some errors failed" section appears exactly when some error's destination is a root or has failed roots, and then lists every root |
| LegacySendErrors.CorrectlyReportedIff | src/senderror.rs:64-66 | the "correctly reported" line appears exactly when the error's failed map is empty |
| LegacySendErrors.BlocksInOrder | src/senderror.rs:59-73 | the blocks of the first k errors are a prefix of all blocks |
| FormattedDetail.Plain | src/message/formatted_detail.rs:46-51 | the string with no style |
| FormattedDetail.Styled | src/message/detail_builder.rs:7-10 | the string with exactly the one style |
| FormattedDetail.HeaderTitle | src/message/formatted_detail.rs:89-91 | a header line is "#<" + title + ">#", and the title is four characters shorter |
| FormattedDetail.LineParts | src/message/formatted_detail.rs:93 | one unstyled part per body line, in order |
| FormattedDetail.Flush | src/message/formatted_detail.rs:75-85 | closes an open title into a Section, or pending text into a Text, or adds nothing; title and text are reset |
| FormattedDetail.PushSection | src/message/formatted_detail.rs:75-85 | the in-place `push_section` has exactly the effect of `Flush` |
| FormattedDetail.ParseRawToFormatted | src/message/formatted_detail.rs:69-98 | the raw text is the input, and the components are the reference grouping of its lines |
| FormattedDetail.LastHeader | src/message/formatted_detail.rs:87-95 | finds the last header line, with no header after it, or reports that there is none |
| FormattedDetail.RunIsGrouping | src/message/formatted_detail.rs:87-95 | after any prefix of lines the parser holds the reference components before the last header, that header's title, and the body lines after it |
| FormattedDetail.FlushIsReference | src/message/formatted_detail.rs:96 | the final flush yields the reference grouping |
| FormattedDetail.FormattedOfIsReference | src/message/formatted_detail.rs:69-98 | the parsed detail keeps the raw input and has the reference components |
| FormattedDetail.HeaderFree | src/message/formatted_detail.rs:87-95 | without headers there are no titles and every line is a body line |
| FormattedDetail.HeaderFreeTail | src/message/formatted_detail.rs:87-95 | the titles and body lines split at the last header |
| FormattedDetail.ReferenceSectionTitles | src/message/formatted_detail.rs:87-96 | the Section titles are the header titles, in order |
| FormattedDetail.ReferenceBodyLines | src/message/formatted_detail.rs:93 | all parts together are one unstyled part per non-header line, in order |
| FormattedDetail.ReferenceShape | src/message/formatted_detail.rs:75-96 | only the first component can be a Text, no Text is empty, and a leading Text exists exactly when the first line is not a header |
| FormattedDetail.LeadingText | src/message/formatted_detail.rs:75-96 | the leading Text holds exactly the lines before the first header |
| FormattedDetail.NoHeaderAtMostOneText | src/message/formatted_detail.rs:87-97 | input without headers gives no component when empty, else exactly one Text of all lines |
| FormattedDetail.EmptyInput | src/message/formatted_detail.rs:87-97 | the empty string parses to no components |
| FormattedDetail.EmptySection | src/message/formatted_detail.rs:76-84 | a header with nothing under it still yields an empty Section |
| Html.EscapeIsPerChar | src/util/html.rs:31-35 | the three chained replacements equal escaping character by character, so entities made for '&' are not escaped again |
| Html.EscapedHasNoAngles | src/util/html.rs:31-35 | escaped text contains no '<' or '>' |
| Html.EscapedLength | src/util/html.rs:31-35 | the length grows by 4 per '&' and 3 per '<' or '>' |
| Html.UnescapeEscape | src/util/html.rs:31-35 | unescaping the three entities recovers the input |
| Html.ParseFormatted | src/util/html.rs:37-61 | the loop writes exactly the parts' rendering |
| Html.WriteStartTags | src/util/html.rs:40-48 | opening tags in style order |
| Html.WriteEndTags | src/util/html.rs:50-58 | closing tags in the same, unreversed order |
| Html.FormattedToHtml | src/util/html.rs:13-29 | the loop writes exactly the components' rendering |
| Html.ComponentsHtmlAppend | src/util/html.rs:15-28 | components render one after another |
| Html.PartsHtmlAppend | src/util/html.rs:39-59 | parts render one after another |
| Html.TagsDoNotNest | src/util/html.rs:50-58 | Bold then Italics renders as "<b><i>x</b></i>" |
| Html.MonospaceLikeCode | src/util/html.rs:44-45 | Monospace and Code render alike |
| Html.PlainTextUnchanged | src/util/html.rs:31-35 | text without '&', '<' or '>' is not changed by escaping |
| Html.OneStylePart | src/util/html.rs:39-59 | a plain part renders as its text; a one-style part renders as start tag, text, end tag |
| Html.SectionThenText | src/util/html.rs:17-24 | a Section renders as "<div><h2>" title "</h2><p>" parts "</p></div>", and a Text as "<p>" parts "</p>" |
| Html.HtmlExample | src/util/html.rs:69-87 | the test's section and text block render to the string the test asserts |
| DetailBuilders.TextBlockBuilder.constructor | src/message/detail_builder.rs:65-68 | an empty text block |
| DetailBuilders.TextBlockBuilder.Append | src/message/detail_builder.rs:80-85 | the string is pushed at the end |
| DetailBuilders.TextBlockBuilder.AppendPlain | src/message/detail_builder.rs:12-15 | a style-less string is pushed at the end |
| DetailBuilders.TextBlockBuilder.AppendStyled | src/message/detail_builder.rs:7-10 | a string with exactly that style is pushed at the end |
| DetailBuilders.TextBlockBuilder.Build | src/message/detail_builder.rs:71-73 | a Text holding the appended strings |
| DetailBuilders.SectionBuilder.constructor | src/message/detail_builder.rs:43-46 | an empty section with the given name |
| DetailBuilders.SectionBuilder.Append | src/message/detail_builder.rs:98-103 | the string is pushed at the end |
| DetailBuilders.SectionBuilder.AppendPlain | src/message/detail_builder.rs:12-15 | a style-less string is pushed at the end |
| DetailBuilders.SectionBuilder.AppendStyled | src/message/detail_builder.rs:7-10 | a string with exactly that style is pushed at the end |
| DetailBuilders.SectionBuilder.Build | src/message/detail_builder.rs:92-96 | a Section with the name and the appended strings |
| DetailBuilders.MessageDetailBuilder.New | src/message/detail_builder.rs:24-26 | no components, raw "Raw not available" |
| DetailBuilders.MessageDetailBuilder.WithRaw | src/message/detail_builder.rs:28-33 | no components, the given raw |
| DetailBuilders.MessageDetailBuilder.SetRawText | src/message/detail_builder.rs:35-38 | only the raw text is replaced |
| DetailBuilders.MessageDetailBuilder.AddSectionOf | src/message/detail_builder.rs:40-50 | appends exactly one Section of the closure's strings, in call order, and keeps the rest |
| DetailBuilders.MessageDetailBuilder.AddTextBlockOf | src/message/detail_builder.rs:52-58 | appends exactly one Text of the closure's strings and keeps the rest |
| DetailBuilders.MessageDetailBuilder.Apply | src/message/detail_builder.rs:35-58 | a sequence of calls appends their components in order and leaves the last raw text set |
| DetailBuilders.MessageDetailBuilder.Build | src/message/detail_builder.rs:60-62 | Formatted, with the builder's raw and components |
| DetailBuilders.ComponentsAppend | src/message/detail_builder.rs:40-58 | the components of two call sequences are those of each, in order |
| DetailBuilders.ComponentsCount | src/message/detail_builder.rs:40-58 | each section or text block call adds exactly one component |
| DetailBuilders.RawUntouched | src/message/detail_builder.rs:35-58 | without `raw` calls the raw text stays and every call adds a component |
| DetailBuilders.SetRawAddsNothing | src/message/detail_builder.rs:35-38 | a `raw` call adds no component |
| DetailBuilders.DetailBuilderExample | src/message/detail_builder.rs:111-132 | the test's text block then Monospace section builds the detail the test expects |
| ConsumingDetailBuilders.New | src/message/message_detail_builder.rs:10-12 | no components, raw "Raw not available" |
| ConsumingDetailBuilders.WithRaw | src/message/message_detail_builder.rs:14-19 | no components, the given raw |
| ConsumingDetailBuilders.SectionBuilder.constructor | src/message/message_detail_builder.rs:24-27 | an empty section with the given name |
| ConsumingDetailBuilders.SectionBuilder.Append | src/message/message_detail_builder.rs:49-52 | the string is pushed at the end |
| ConsumingDetailBuilders.SectionBuilder.AppendStyled | src/message/message_detail_builder.rs:54-57 | a string with exactly that style is pushed at the end |
| ConsumingDetailBuilders.SectionBuilder.AppendPlain | src/message/message_detail_builder.rs:59-62 | a style-less string is pushed at the end |
| ConsumingDetailBuilders.SectionBuilder.Build | src/message/message_detail_builder.rs:64-66 | a Section with the name and the appended strings |
| ConsumingDetailBuilders.AddSection | src/message/message_detail_builder.rs:21-31 | the builder with one Section of the closure's strings added |
| ConsumingDetailBuilders.Build | src/message/message_detail_builder.rs:38-40 | Formatted, with the builder's raw and components |
| ConsumingDetailBuilders.ChainAppends | src/message/message_detail_builder.rs:21-36 | a chain of `section` and `text` calls keeps the raw text and the earlier components, and adds one component per call in order; `text(parts)` adds exactly `Text(parts)` |
| ConsumingDetailBuilders.BuildAfterChain | src/message/message_detail_builder.rs:10-40 | a chain from `new` builds the placeholder raw and exactly one component per call |
| ConsumingDetailBuilders.ConsumingBuilderExample | src/message/message_detail_builder.rs:75-90 | the test's one Monospace section builds the detail the test expects |
| MessageBuilders.MessageBuilder.New | src/message/builder.rs:20-31 | level Info, the default body, no title, component or timestamp, and the base author |
| MessageBuilders.MessageBuilder.Body | src/message/builder.rs:35-41 | the body is replaced by what a fresh detail builder builds from the closure's calls, and nothing else changes |
| MessageBuilders.MessageBuilder.SetLevel | src/message/builder.rs:44-47 | only the level changes |
| MessageBuilders.MessageBuilder.SetTitle | src/message/builder.rs:51-54 | only the title changes |
| MessageBuilders.MessageBuilder.SetComponent | src/message/builder.rs:58-61 | only the component changes |
| MessageBuilders.MessageBuilder.SetTimestamp | src/message/builder.rs:76-79 | only the timestamp changes |
| MessageBuilders.MessageBuilder.BuildClone | src/message/builder.rs:84-108 | level, title, body, component and author are copied; the timestamp is the one set, else the clock's reading |
| MessageBuilders.BuildTwice | src/message/builder.rs:99-108 | with a timestamp set, two builds give equal messages, whatever the clock says |
| MessageBuilders.BuilderExample | src/message/builder.rs:20-108 | a new builder given level, title and timestamp builds exactly that message, with the default body and no component |
| Discord.ToDiscordFormat | src/destination/kinds/discord.rs:81-87 | the loop applies the styles left to right |
| Discord.ApplyIsWrapping | src/destination/kinds/discord.rs:89-101 | each style wraps the text in its markers: ** **, _ _, backticks, or a fence with the language |
| Discord.FormatIsWrapping | src/destination/kinds/discord.rs:81-87 | the formatted text is the input between the accumulated markers, the last style outermost |
| Discord.MonospaceNeverFenced | src/destination/kinds/discord.rs:93-98 | Monospace is always one pair of backticks, even for empty or multi-line text |
| Discord.AsWrittenMonospaceUnfenced | src/destination/kinds/discord.rs:93-98 | as written, "" and "a\nb" get single backticks where the intended style fences them |
| Discord.IntendedMonospaceFences | src/destination/kinds/discord.rs:93-98 | the intended style puts empty or multi-line text between "```\n" and "\n```" and keeps every other case |
| Discord.LastStyleOutermost | src/destination/kinds/discord.rs:83-85 | Bold then Italics gives "_**s**_" |
| Discord.ColorFromLevel | src/destination/kinds/discord.rs:118-125 | every colour fits in 24 bits |
| Discord.ColoursDistinct | src/destination/kinds/discord.rs:118-125 | different levels get different colours |
| Discord.NotifyReceivers | src/destination/kinds/discord.rs:30-33 | every receiver is the notify target of an entry that matches the message, and there are no more receivers than entries |
| Discord.ReceiversAppend | src/destination/kinds/discord.rs:30-33 | the receivers of two entry lists are those of each, in order |
| Discord.ReceiversOfOne | src/destination/kinds/discord.rs:30-33 | one entry contributes its target exactly when it matches |
| Discord.ContentIffSomeMatch | src/destination/kinds/discord.rs:35-38 | the content is set exactly when some entry matches |
| Discord.EmbedTitle | src/destination/kinds/discord.rs:41 | the message title, or "Rnotify Notification" |
| Discord.CollectParts | src/destination/kinds/discord.rs:62-66 | the concatenated rendering of the parts |
| Discord.FillBody | src/destination/kinds/discord.rs:56-72 | the loop gives the last Text as description and one field per Section |
| Discord.ToDiscordMessage | src/destination/kinds/discord.rs:27-78 | the message equals the specification's; content exactly when some entry matches; the title as `EmbedTitle` |
| Discord.FieldsAreSections | src/destination/kinds/discord.rs:61-64 | at most one field per component, one per component when all are Sections, none when all are Texts |
| Discord.DescriptionIffText | src/destination/kinds/discord.rs:65-68 | a formatted description exists exactly when some component is a Text |
| Telegram.ApplyStyle | src/destination/kinds/telegram.rs:120-126 | the text between two copies of its style's marker: *, _ or ` |
| Telegram.ToTgFormat | src/destination/kinds/telegram.rs:112-118 | the loop applies the styles in order |
| Telegram.ReverseAppend | src/destination/kinds/telegram.rs:112-118 | reversal turns concatenation around |
| Telegram.FormatIsMirrored | src/destination/kinds/telegram.rs:112-118 | the text sits between the markers of the styles, last style outermost, and their mirror image |
| Telegram.PushParts | src/destination/kinds/telegram.rs:64-71 | the parts' renderings are appended in order |
| Telegram.PushComponent | src/destination/kinds/telegram.rs:61-73 | a Section appends "<b><u>title</u></b>\n" and its parts; a Text appends its parts |
| Telegram.PushComponents | src/destination/kinds/telegram.rs:59-75 | the components' renderings are appended in order |
| Telegram.PushHead | src/destination/kinds/telegram.rs:45-55 | the level name, then the title (bold when formatted), then a line break |
| Telegram.PushTail | src/destination/kinds/telegram.rs:79-93 | "\n-----\n", the timestamp (in <pre> when formatted), and "\n@ author" when there is an author |
| Telegram.ToTgMessage | src/destination/kinds/telegram.rs:42-96 | the message equals the specification's |
| Telegram.ParseModeIffFormatted | src/destination/kinds/telegram.rs:43-94 | parse mode is HTML exactly when the detail is formatted, and absent exactly when it is raw |
| Telegram.StartsWithLevel | src/destination/kinds/telegram.rs:46 | the text starts with the level name |
| Telegram.EndsWithAuthor | src/destination/kinds/telegram.rs:90-93 | with an author, the text ends with "\n@ " and the author |
| Telegram.ComponentsTextAppend | src/destination/kinds/telegram.rs:60-74 | components render one after another |
| FileDestination.FormatMessage | src/destination/kinds/file.rs:50-63 | the line is timestamp " - " level ": ", then "[component] ", then "title - ", then the quoted folded body, then " @ " author |
| FileDestination.InlineHasNoBreak | src/destination/kinds/file.rs:66-69 | the folded body has no line break |
| FileDestination.InlineOneLine | src/destination/kinds/file.rs:66-69 | text without a line break is not changed |
| FileDestination.InlineTwoLines | src/destination/kinds/file.rs:66-69 | two lines are joined by a backslash and an 'n' |
| FileDestination.InlineTwoLinesCrLf | src/destination/kinds/file.rs:66-69 | a "\r\n" break is also replaced by a backslash and an 'n', and the '\r' is dropped |
| FileDestination.ComponentShownIff | src/destination/kinds/file.rs:54-56 | "[component] " is written exactly when there is a component |
| FileDestination.TitleShownIff | src/destination/kinds/file.rs:57-59 | "title - " is written only with a title |
| FileDestination.OneLinePerMessage | src/destination/kinds/file.rs:50-63 | with break-free timestamp, component, title and author, the line has no break whatever the body |

## Left out

- Network I/O:
  - Webhook, HTTP and curl posting, the Telegram bot URL and JSON serialisation are not modelled.
  - A destination's `send` is the oracle parameter `send(i, m)`, so it answers the same way for the same destination and message.
- Concurrency and panics:
  - `route` needs the conditions its lazy filters consult to be evaluable (`Routable`), since `is_child_of` would underflow on an empty parent. Those are the conditions of the Root and Additive destinations, and those of the Drains when no non-Root destination accepted the message in the first pass. Conditions the filters never reach are unconstrained.
  - No other panic is modelled.
- The clock, the host name and timestamp rendering are parameters:
  - `now` in `MessageBuilders.MessageBuilder.BuildClone`;
  - `hostname` in `Authors.Parse` and the report message;
  - the rendered `timestamp` string in the Telegram, Discord and file formats.
  - The chrono RFC 3339 rendering is not modelled.
- The `Debug` renderings (`{:?}`) of messages, strings, errors and destination configurations are opaque parameters (`DebugFormat`, `DynError.debug`, `DestinationConfig.debug`).
- The older `SendErrors` stores its failed roots in a `HashMap`:
  - the order its `Display` visits them in is the parameter `order`, which must list every key of each error's map exactly once and nothing else (`IteratesAll`), as `HashMap` iteration does;
  - the iterator looks keys up by index and so does not depend on that order.
- `Author::base`, `Author::extend` and the `MessageBuilder::author` setter are not part of this model (`Author::base` and `Author::extend` are not in the source files modelled):
  - the builder's base author is the constructor's parameter;
  - `build` and `build_clone` are one method, `BuildClone`, since the consumed builder is not observable.
- Telegram reads the author as an optional value (src/destination/kinds/telegram.rs:90), unlike the `Message` of src/message/mod.rs, so `Telegram.ToTgMessage` takes the author as an `Option` parameter.
- Telegram.ApplyStyle: requires a style other than `Code`, since the source has no arm for it.
- Discord.ColorFromLevel: requires a level other than SelfInfo, since the source has no arm for it; its contract states the 24-bit range and, through `ColoursDistinct`, that the four colours differ, not the four constants themselves.
- Discord's embed footer, colour string and component author are modelled; the package name and version are parameters.
- Closures passed to `section`, `text_block` and `body` are modelled by the list of calls they make.
- `RoutedDestination::send` forwarding to the wrapped destination is folded into the oracle.
- `MessageRouter::from_config` takes the already-built destinations; reading and parsing the configuration file is not modelled.
- `i64` timestamps and `usize` counts are unbounded integers; overflow is not modelled.
- `Display for SendErrors` (src/send_error/mod.rs:78-84): the loop over report failures runs only when the list is empty, under the inverted flag. It is modelled as the list it would write, without a loop.
- `MessageCondition::new` (src/destination/message_condition_config.rs:94-100) is the datatype's own constructor.
- The `u32` of `get_priority` and the colour map is irrelevant: every value fits.
- `Message::new` and its getters (src/message/mod.rs:26-62) are the `Message` datatype's constructor and fields.

## Findings

| source | as written | input that shows it | evidently intended | confidence | as-written member | corrected member |
|---|---|---|---|---|---|---|
| src/send_error/mod.rs:68 | `any_root_fails` is true when the report failure list is empty | an error not reported because its one Root refused the report: the text says no destination was applicable and lists no refusal; with no Roots at all it says some Roots failed | the flag is true when some Root refused the report, so the refusals are listed | high (not executed) | SendErrorReports.AsWrittenHidesRefusals | SendErrorReports.CorrectedBlock |
| src/message/component.rs:14-15 | `is_child_of` compares only all but the last of the parent's parts, and underflows on a parent with no parts | the filter "database/backup" and a message from "database/uptime": the code matches it, the doc-test at src/destination/message_condition.rs:51 asserts it does not | the parent's parts are a prefix of the child's (`Components.IsPrefixOf`) | high (not executed) | Components.ChildIsNotAlwaysPrefix | MessageConditions.OfComponentIntended |
| src/destination/kinds/discord.rs:94-96 | the fenced block for empty or multi-line Monospace text is built and discarded | the text "a\nb" styled Monospace gives "`a\nb`" | the fenced block is returned (`Discord.ApplyStyleIntended`) | high (not executed) | Discord.AsWrittenMonospaceUnfenced | Discord.IntendedMonospaceFences |
