/**
 * The router (src/message_router.rs): one message goes to every applicable
 * Root and Additive destination, to the applicable Drains when no non-Root
 * destination took it, and every failure is reported once to every Root.
 *
 * A destination's `send` is an oracle `send(i, message)` over the index `i`
 * of the destination in the registry; the router's calls to it are recorded
 * in a ghost trace of attempts.
 */
module MessageRouting {
  import opened Wrappers
  import opened Messages
  import opened MessageConditions
  import opened Routing
  import opened SendErrorReports
  import opened Strings
  import Components

  /** The result of one `send`: `Ok(())` or `Err(error)`. */
  datatype SendOutcome = Delivered | Rejected(error: DynError)

  /** One call to `send`: the destination's index and the message it was given. */
  datatype Attempt = Attempt(dest: nat, message: Message)

  /** `Result<usize, SendErrors>`. */
  datatype RouteResult = Ok(successful: nat) | Err(errors: SendErrors)


  predicate Increasing(s: seq<nat>)
  {
    forall a, b :: 0 <= a < b < |s| ==> s[a] < s[b]
  }

  predicate WithinRegistry(ds: seq<RoutedDestination>, s: seq<nat>)
  {
    forall k :: 0 <= k < |s| ==> s[k] < |ds|
  }

  // ---------------------------------------------------------------------------
  // Which destinations each pass visits.

  datatype Pass = PrimaryPass | DrainPass

  /** The first pass takes Root and Additive destinations, the second only Drains. */
  predicate InPass(b: MessageRoutingBehaviour, p: Pass)
  {
    match p
    case PrimaryPass => AlwaysSendMessages(b)
    case DrainPass => b == Drain
  }

  /**
   * Pass `p` can consult `should_receive` on `m` without a panic: every
   * destination the pass's behaviour filter lets through has a condition that
   * can be evaluated. The filters are lazy, so other destinations' conditions
   * are never consulted by the pass.
   */
  predicate PassEvaluable(ds: seq<RoutedDestination>, m: Message, p: Pass)
  {
    forall i :: 0 <= i < |ds| && InPass(ds[i].RoutingType(), p) ==> CanApply(ds[i].info, m)
  }

  /** Destination `i` is visited by pass `p`: its behaviour fits the pass and its routing info applies. */
  predicate Eligible(ds: seq<RoutedDestination>, m: Message, p: Pass, i: nat)
    requires PassEvaluable(ds, m, p) && i < |ds|
  {
    InPass(ds[i].RoutingType(), p) && ds[i].ShouldReceive(m)
  }

  /** The destinations among the first `n` that pass `p` visits, in registry order. */
  function Targets(ds: seq<RoutedDestination>, m: Message, p: Pass, n: nat): (r: seq<nat>)
    requires PassEvaluable(ds, m, p) && n <= |ds|
    ensures forall k :: 0 <= k < |r| ==> r[k] < n
  {
    if n == 0 then []
    else Targets(ds, m, p, n - 1) + (if Eligible(ds, m, p, n - 1) then [n - 1] else [])
  }

  /** Pass `p` visits exactly the eligible destinations, each once, in registry order. */
  lemma {:induction false} TargetsExact(ds: seq<RoutedDestination>, m: Message, p: Pass, n: nat)
    requires PassEvaluable(ds, m, p) && n <= |ds|
    ensures forall k :: 0 <= k < |Targets(ds, m, p, n)| ==> Eligible(ds, m, p, Targets(ds, m, p, n)[k])
    ensures forall i: nat :: i < n && Eligible(ds, m, p, i) ==> i in Targets(ds, m, p, n)
    ensures Increasing(Targets(ds, m, p, n))
  {
    TargetsEligible(ds, m, p, n);
    TargetsComplete(ds, m, p, n);
    TargetsIncreasing(ds, m, p, n);
  }

  lemma {:induction false} TargetsEligible(ds: seq<RoutedDestination>, m: Message, p: Pass, n: nat)
    requires PassEvaluable(ds, m, p) && n <= |ds|
    ensures forall k :: 0 <= k < |Targets(ds, m, p, n)| ==> Eligible(ds, m, p, Targets(ds, m, p, n)[k])
  {
    if n > 0 {
      TargetsEligible(ds, m, p, n - 1);
      var before := Targets(ds, m, p, n - 1);
      var t := Targets(ds, m, p, n);
      forall k | 0 <= k < |t|
        ensures Eligible(ds, m, p, t[k])
      {
        if k < |before| {
          assert t[k] == before[k];
        }
      }
    }
  }

  lemma {:induction false} TargetsComplete(ds: seq<RoutedDestination>, m: Message, p: Pass, n: nat)
    requires PassEvaluable(ds, m, p) && n <= |ds|
    ensures forall i: nat :: i < n && Eligible(ds, m, p, i) ==> i in Targets(ds, m, p, n)
  {
    if n > 0 {
      TargetsComplete(ds, m, p, n - 1);
      var before := Targets(ds, m, p, n - 1);
      var t := Targets(ds, m, p, n);
      assert t[..|before|] == before;
      forall i: nat | i < n && Eligible(ds, m, p, i)
        ensures i in t
      {
        if i < n - 1 {
          var k :| 0 <= k < |before| && before[k] == i;
          assert t[k] == i;
        } else {
          assert t[|t| - 1] == i;
        }
      }
    }
  }

  lemma {:induction false} TargetsIncreasing(ds: seq<RoutedDestination>, m: Message, p: Pass, n: nat)
    requires PassEvaluable(ds, m, p) && n <= |ds|
    ensures Increasing(Targets(ds, m, p, n))
  {
    if n > 0 {
      TargetsIncreasing(ds, m, p, n - 1);
      var before := Targets(ds, m, p, n - 1);
      var t := Targets(ds, m, p, n);
      forall a, b | 0 <= a < b < |t|
        ensures t[a] < t[b]
      {
        assert t[a] == before[a];
        if b < |before| {
          assert t[b] == before[b];
        }
      }
    }
  }

  /** The Root destinations among the first `n`, in registry order; conditions play no part. */
  function Roots(ds: seq<RoutedDestination>, n: nat): (r: seq<nat>)
    requires n <= |ds|
    ensures forall k :: 0 <= k < |r| ==> r[k] < n
  {
    if n == 0 then []
    else Roots(ds, n - 1) + (if ds[n - 1].IsRoot() then [n - 1] else [])
  }

  /** The escalation visits exactly the Roots, each once, in registry order. */
  lemma {:induction false} RootsExact(ds: seq<RoutedDestination>, n: nat)
    requires n <= |ds|
    ensures forall k :: 0 <= k < |Roots(ds, n)| ==> ds[Roots(ds, n)[k]].IsRoot()
    ensures forall i: nat :: i < n && ds[i].IsRoot() ==> i in Roots(ds, n)
    ensures Increasing(Roots(ds, n))
  {
    if n > 0 {
      RootsExact(ds, n - 1);
    }
  }

  // ---------------------------------------------------------------------------
  // What a sequence of attempts with the original message produces.

  /** How many of the attempts were accepted (`successful`). */
  function DeliveredCount(send: (nat, Message) -> SendOutcome, m: Message, idx: seq<nat>): nat
  {
    if idx == [] then 0
    else DeliveredCount(send, m, idx[..|idx| - 1]) + (if send(idx[|idx| - 1], m).Delivered? then 1 else 0)
  }

  /** The attempted destinations that refused the message, in attempt order. */
  function Rejections(send: (nat, Message) -> SendOutcome, m: Message, idx: seq<nat>): (r: seq<nat>)
    ensures forall k :: 0 <= k < |r| ==> r[k] in idx && send(r[k], m).Rejected?
  {
    if idx == [] then []
    else Rejections(send, m, idx[..|idx| - 1]) + (if send(idx[|idx| - 1], m).Rejected? then [idx[|idx| - 1]] else [])
  }

  /** Some non-Root destination accepted the message (`sent_to_non_root_dest`). */
  predicate NonRootDelivered(ds: seq<RoutedDestination>, send: (nat, Message) -> SendOutcome, m: Message, idx: seq<nat>)
    requires WithinRegistry(ds, idx)
  {
    if idx == [] then false
    else
      var i := idx[|idx| - 1];
      NonRootDelivered(ds, send, m, idx[..|idx| - 1]) || (!ds[i].IsRoot() && send(i, m).Delivered?)
  }

  /** The `SendErrorBorrowed` of each refusal, in attempt order (`errors`). */
  function Errors(ds: seq<RoutedDestination>, send: (nat, Message) -> SendOutcome, m: Message, idx: seq<nat>): seq<SendErrorBorrowed>
    requires WithinRegistry(ds, idx)
  {
    if idx == [] then []
    else
      var i := idx[|idx| - 1];
      Errors(ds, send, m, idx[..|idx| - 1])
        + (match send(i, m) case Delivered => [] case Rejected(err) => [SendErrorBorrowed(err, ds[i].id, m)])
  }

  /** The calls `send(i, m)` for the indices `idx`, in order. */
  function SendTrace(m: Message, idx: seq<nat>): (t: seq<Attempt>)
    ensures |t| == |idx|
    ensures forall k :: 0 <= k < |idx| ==> t[k] == Attempt(idx[k], m)
  {
    seq(|idx|, k requires 0 <= k < |idx| => Attempt(idx[k], m))
  }

  /**
   * `route` runs without a panic: the conditions of the Root and Additive
   * destinations can be evaluated on `m`, and so can those of the Drains
   * whenever the drain pass runs, that is when no non-Root destination of the
   * first pass accepted the message.
   */
  predicate Routable(ds: seq<RoutedDestination>, m: Message, send: (nat, Message) -> SendOutcome)
  {
    PassEvaluable(ds, m, PrimaryPass) &&
    (!NonRootDelivered(ds, send, m, Targets(ds, m, PrimaryPass, |ds|)) ==> PassEvaluable(ds, m, DrainPass))
  }

  /** Every destination the two passes try: the primary pass, then the Drains if no non-Root destination took the message. */
  function Attempted(ds: seq<RoutedDestination>, m: Message, send: (nat, Message) -> SendOutcome): (r: seq<nat>)
    requires Routable(ds, m, send)
    ensures WithinRegistry(ds, r)
  {
    var primary := Targets(ds, m, PrimaryPass, |ds|);
    if NonRootDelivered(ds, send, m, primary) then primary
    else primary + Targets(ds, m, DrainPass, |ds|)
  }

  // ---------------------------------------------------------------------------
  // Escalation.

  /**
   * What sending `report` to the Roots `roots` gives: reported when some Root
   * accepted it, and one `SendErrorOwned` per Root that refused it, in order.
   */
  function Summary(ds: seq<RoutedDestination>, send: (nat, Message) -> SendOutcome, report: Message, roots: seq<nat>): ErrorReportSummary
    requires WithinRegistry(ds, roots)
  {
    if roots == [] then ErrorReportSummary(false, [])
    else
      var s := Summary(ds, send, report, roots[..|roots| - 1]);
      var j := roots[|roots| - 1];
      match send(j, report)
      case Delivered => s.(reported := true)
      case Rejected(err) => s.(failures := s.failures + [SendErrorOwned(err, ds[j].id, report)])
  }

  /** The calls `send(j, report)` for every Root `j`, in order. */
  function ReportTrace(report: Message, roots: seq<nat>): seq<Attempt>
  {
    SendTrace(report, roots)
  }

  /** Each error paired with the summary of sending its report to every Root, in order. */
  function Reported(ds: seq<RoutedDestination>, send: (nat, Message) -> SendOutcome, errs: seq<SendErrorBorrowed>,
                    hostname: Option<string>, debug: DebugFormat): (r: seq<ReportedSendError>)
    ensures |r| == |errs|
  {
    MapSeq(e => Escalated(ds, send, e, hostname, debug), errs)
  }

  /** An error paired with the summary of sending its report to every Root. */
  function Escalated(ds: seq<RoutedDestination>, send: (nat, Message) -> SendOutcome, e: SendErrorBorrowed,
                     hostname: Option<string>, debug: DebugFormat): ReportedSendError
  {
    ReportedSendError(e, Summary(ds, send, ReportFor(e, hostname, debug), Roots(ds, |ds|)))
  }

  /** The report `create_report_message` builds for each error, in order. */
  function ReportsFor(errs: seq<SendErrorBorrowed>, hostname: Option<string>, debug: DebugFormat): (r: seq<Message>)
    ensures |r| == |errs|
  {
    MapSeq(e => ReportFor(e, hostname, debug), errs)
  }

  /** Report `k` is the report of error `k`, a `SelfError` message. */
  lemma ReportsForEach(errs: seq<SendErrorBorrowed>, hostname: Option<string>, debug: DebugFormat)
    ensures forall k :: 0 <= k < |errs| ==>
      ReportsFor(errs, hostname, debug)[k] == ReportFor(errs[k], hostname, debug) && ReportsFor(errs, hostname, debug)[k].level == SelfError
  {
    MapSeqEach(e => ReportFor(e, hostname, debug), errs);
  }

  /** The report calls: for each report in order, one call per Root. */
  function ReportTraces(roots: seq<nat>, reports: seq<Message>): seq<Attempt>
  {
    if reports == [] then []
    else ReportTraces(roots, reports[..|reports| - 1]) + ReportTrace(reports[|reports| - 1], roots)
  }

  /** The result `route` computes for message `m` over the registry `ds`. */
  function RouteOf(ds: seq<RoutedDestination>, m: Message, send: (nat, Message) -> SendOutcome,
                   hostname: Option<string>, debug: DebugFormat): RouteResult
    requires Routable(ds, m, send)
  {
    var attempted := Attempted(ds, m, send);
    var errs := Errors(ds, send, m, attempted);
    var successful := DeliveredCount(send, m, attempted);
    if errs == [] then Ok(successful)
    else Err(SendErrors(successful, m, Reported(ds, send, errs, hostname, debug)))
  }

  /** Every call `route` makes to a destination's `send`, in order. */
  function TraceOf(ds: seq<RoutedDestination>, m: Message, send: (nat, Message) -> SendOutcome,
                   hostname: Option<string>, debug: DebugFormat): seq<Attempt>
    requires Routable(ds, m, send)
  {
    var attempted := Attempted(ds, m, send);
    SendTrace(m, attempted) + ReportTraces(Roots(ds, |ds|), ReportsFor(Errors(ds, send, m, attempted), hostname, debug))
  }

  /** `RouteOf` and `TraceOf` in terms of the attempts, their errors and their count. */
  lemma RouteOfUnfolds(ds: seq<RoutedDestination>, m: Message, send: (nat, Message) -> SendOutcome,
                       hostname: Option<string>, debug: DebugFormat)
    requires Routable(ds, m, send)
    ensures var a := Attempted(ds, m, send);
      var errs := Errors(ds, send, m, a);
      RouteOf(ds, m, send, hostname, debug) ==
        (if errs == [] then Ok(DeliveredCount(send, m, a))
         else Err(SendErrors(DeliveredCount(send, m, a), m, Reported(ds, send, errs, hostname, debug)))) &&
      TraceOf(ds, m, send, hostname, debug) ==
        SendTrace(m, a) + ReportTraces(Roots(ds, |ds|), ReportsFor(errs, hostname, debug))
  {
  }

  // ---------------------------------------------------------------------------
  // The router.

  class MessageRouter {
    var destinations: seq<RoutedDestination>

    /** `MessageRouter::empty()` (also `Default`). */
    constructor Empty()
      ensures destinations == []
    {
      destinations := [];
    }

    /** `from_config`, given the destinations the configuration holds. */
    constructor FromDestinations(ds: seq<RoutedDestination>)
      ensures destinations == ds
    {
      destinations := ds;
    }

    /** `add_destination`: the new destination goes last. */
    method AddDestination(d: RoutedDestination)
      modifies this
      ensures destinations == old(destinations) + [d]
    {
      destinations := destinations + [d];
    }

    /**
     * `route`. `hostname` is what the host name lookup of the reports'
     * `Author::parse` returns, `debug` the `Debug` renderings the report text
     * embeds, `send` the destinations' `send`.
     */
    method Route(m: Message, hostname: Option<string>, debug: DebugFormat, send: (nat, Message) -> SendOutcome)
      returns (result: RouteResult, ghost trace: seq<Attempt>)
      requires Routable(destinations, m, send)
      ensures result == RouteOf(destinations, m, send, hostname, debug)
      ensures trace == TraceOf(destinations, m, send, hostname, debug)
    {
      var ds := destinations;
      var sentToNonRootDest, successful, errors;
      ghost var primary;
      sentToNonRootDest, successful, errors, primary := RunPass(ds, m, send, PrimaryPass, false, 0, [], []);
      assert primary == Targets(ds, m, PrimaryPass, |ds|);
      ghost var done := primary;
      if !sentToNonRootDest {
        sentToNonRootDest, successful, errors, done := RunPass(ds, m, send, DrainPass, sentToNonRootDest, successful, errors, primary);
      }
      assert done == Attempted(ds, m, send);
      RouteOfUnfolds(ds, m, send, hostname, debug);
      trace := SendTrace(m, done);

      if errors == [] {
        result := Ok(successful);
        return;
      }
      var reported;
      ghost var reportTrace;
      reported, reportTrace := Escalate(ds, errors, hostname, debug, send);
      trace := trace + reportTrace;
      result := Err(SendErrors(successful, m, reported));
    }
  }

  /**
   * One loop of `route` over the registry: the destinations pass `p` takes
   * that the message applies to go through `send_to_dest`, in order. `done`
   * is what earlier passes attempted.
   */
  method RunPass(ds: seq<RoutedDestination>, m: Message, send: (nat, Message) -> SendOutcome, p: Pass,
                 sentToNonRootDest: bool, successful: nat, errors: seq<SendErrorBorrowed>, ghost done: seq<nat>)
    returns (sentToNonRootDest': bool, successful': nat, errors': seq<SendErrorBorrowed>, ghost done': seq<nat>)
    requires PassEvaluable(ds, m, p) && WithinRegistry(ds, done)
    requires sentToNonRootDest == NonRootDelivered(ds, send, m, done)
    requires successful == DeliveredCount(send, m, done)
    requires errors == Errors(ds, send, m, done)
    ensures done' == done + Targets(ds, m, p, |ds|)
    ensures WithinRegistry(ds, done')
    ensures sentToNonRootDest' == NonRootDelivered(ds, send, m, done')
    ensures successful' == DeliveredCount(send, m, done')
    ensures errors' == Errors(ds, send, m, done')
  {
    sentToNonRootDest', successful', errors', done' := sentToNonRootDest, successful, errors, done;
    var i := 0;
    while i < |ds|
      invariant 0 <= i <= |ds|
      invariant done' == done + Targets(ds, m, p, i)
      invariant WithinRegistry(ds, done')
      invariant sentToNonRootDest' == NonRootDelivered(ds, send, m, done')
      invariant successful' == DeliveredCount(send, m, done')
      invariant errors' == Errors(ds, send, m, done')
    {
      sentToNonRootDest', successful', errors', done' := Visit(ds, m, send, p, i, sentToNonRootDest', successful', errors', done, done');
      i := i + 1;
    }
  }

  /** One iteration of a pass: destination `i` gets the message when the pass takes it and the message applies to it. */
  method Visit(ds: seq<RoutedDestination>, m: Message, send: (nat, Message) -> SendOutcome, p: Pass, i: nat,
               sentToNonRootDest: bool, successful: nat, errors: seq<SendErrorBorrowed>,
               ghost before: seq<nat>, ghost done: seq<nat>)
    returns (sentToNonRootDest': bool, successful': nat, errors': seq<SendErrorBorrowed>, ghost done': seq<nat>)
    requires PassEvaluable(ds, m, p) && i < |ds|
    requires done == before + Targets(ds, m, p, i) && WithinRegistry(ds, done)
    requires sentToNonRootDest == NonRootDelivered(ds, send, m, done)
    requires successful == DeliveredCount(send, m, done)
    requires errors == Errors(ds, send, m, done)
    ensures done' == before + Targets(ds, m, p, i + 1) && WithinRegistry(ds, done')
    ensures sentToNonRootDest' == NonRootDelivered(ds, send, m, done')
    ensures successful' == DeliveredCount(send, m, done')
    ensures errors' == Errors(ds, send, m, done')
  {
    if InPass(ds[i].RoutingType(), p) && ds[i].ShouldReceive(m) {
      sentToNonRootDest', successful', errors' := SendToDest(ds, i, m, send, sentToNonRootDest, successful, errors, done);
      done' := done + [i];
    } else {
      sentToNonRootDest', successful', errors', done' := sentToNonRootDest, successful, errors, done;
    }
  }

  /**
   * The escalation of `route`: the Roots are collected in registry order,
   * then each error's report goes to each of them.
   */
  method Escalate(ds: seq<RoutedDestination>, errors: seq<SendErrorBorrowed>, hostname: Option<string>,
                  debug: DebugFormat, send: (nat, Message) -> SendOutcome)
    returns (reported: seq<ReportedSendError>, ghost trace: seq<Attempt>)
    ensures reported == Reported(ds, send, errors, hostname, debug)
    ensures trace == ReportTraces(Roots(ds, |ds|), ReportsFor(errors, hostname, debug))
  {
    var roots := CollectRoots(ds);
    reported := [];
    trace := [];
    var k := 0;
    while k < |errors|
      invariant 0 <= k <= |errors|
      invariant reported == Reported(ds, send, errors[..k], hostname, debug)
      invariant trace == ReportTraces(roots, ReportsFor(errors[..k], hostname, debug))
    {
      reported, trace := ReportError(ds, roots, errors, k, hostname, debug, send, reported, trace);
      k := k + 1;
    }
    assert errors[..k] == errors;
  }

  /** `send_to_dest`: one attempt with the original message, updating the flag, the counter and the errors. */
  method SendToDest(ds: seq<RoutedDestination>, i: nat, m: Message, send: (nat, Message) -> SendOutcome,
                    sentToNonRootDest: bool, successful: nat, errors: seq<SendErrorBorrowed>, ghost done: seq<nat>)
    returns (sentToNonRootDest': bool, successful': nat, errors': seq<SendErrorBorrowed>)
    requires i < |ds| && WithinRegistry(ds, done)
    requires sentToNonRootDest == NonRootDelivered(ds, send, m, done)
    requires successful == DeliveredCount(send, m, done)
    requires errors == Errors(ds, send, m, done)
    ensures sentToNonRootDest' == NonRootDelivered(ds, send, m, done + [i])
    ensures successful' == DeliveredCount(send, m, done + [i])
    ensures errors' == Errors(ds, send, m, done + [i])
  {
    assert (done + [i])[..|done|] == done;
    sentToNonRootDest', successful', errors' := sentToNonRootDest, successful, errors;
    match send(i, m) {
      case Delivered =>
        if !ds[i].IsRoot() {
          sentToNonRootDest' := true;
        }
        successful' := successful' + 1;
      case Rejected(err) =>
        errors' := errors' + [SendErrorBorrowed(err, ds[i].id, m)];
    }
  }

  /** One iteration of the escalation: error `k`'s report goes to every Root and its summary is kept. */
  method ReportError(ds: seq<RoutedDestination>, roots: seq<nat>, errors: seq<SendErrorBorrowed>, k: nat,
                     hostname: Option<string>, debug: DebugFormat, send: (nat, Message) -> SendOutcome,
                     reported: seq<ReportedSendError>, ghost trace: seq<Attempt>)
    returns (reported': seq<ReportedSendError>, ghost trace': seq<Attempt>)
    requires roots == Roots(ds, |ds|) && k < |errors|
    requires reported == Reported(ds, send, errors[..k], hostname, debug)
    requires trace == ReportTraces(roots, ReportsFor(errors[..k], hostname, debug))
    ensures reported' == Reported(ds, send, errors[..k + 1], hostname, debug)
    ensures trace' == ReportTraces(roots, ReportsFor(errors[..k + 1], hostname, debug))
  {
    var error := errors[k];
    var report := ReportFor(error, hostname, debug);
    var summary;
    summary, trace' := ReportToRoots(ds, roots, report, send, trace);
    assert errors[..k + 1][..k] == errors[..k] && errors[..k + 1][k] == error;
    ghost var before := ReportsFor(errors[..k], hostname, debug);
    assert ReportsFor(errors[..k + 1], hostname, debug) == before + [report];
    assert (before + [report])[..k] == before;
    reported' := reported + [ReportedSendError(error, summary)];
  }

  /** The Roots of the registry, in registry order. */
  method CollectRoots(ds: seq<RoutedDestination>) returns (roots: seq<nat>)
    ensures roots == Roots(ds, |ds|)
  {
    roots := [];
    var i := 0;
    while i < |ds|
      invariant 0 <= i <= |ds|
      invariant roots == Roots(ds, i)
    {
      if ds[i].IsRoot() {
        roots := roots + [i];
      }
      i := i + 1;
    }
  }

  /** The loop over the Roots for one report: any acceptance marks it reported, each refusal is kept. */
  method ReportToRoots(ds: seq<RoutedDestination>, roots: seq<nat>, report: Message, send: (nat, Message) -> SendOutcome,
                       ghost trace: seq<Attempt>)
    returns (summary: ErrorReportSummary, ghost trace': seq<Attempt>)
    requires WithinRegistry(ds, roots)
    ensures summary == Summary(ds, send, report, roots)
    ensures trace' == trace + ReportTrace(report, roots)
  {
    var anyReportSuccess := false;
    var reportFails: seq<SendErrorOwned> := [];
    trace' := trace;
    var r := 0;
    while r < |roots|
      invariant 0 <= r <= |roots|
      invariant ErrorReportSummary(anyReportSuccess, reportFails) == Summary(ds, send, report, roots[..r])
      invariant trace' == trace + ReportTrace(report, roots[..r])
    {
      var j := roots[r];
      assert roots[..r + 1][..r] == roots[..r];
      trace' := trace' + [Attempt(j, report)];
      match send(j, report) {
        case Delivered =>
          anyReportSuccess := true;
        case Rejected(err) =>
          reportFails := reportFails + [SendErrorOwned(err, ds[j].id, report)];
      }
      r := r + 1;
    }
    assert roots[..r] == roots;
    summary := ErrorReportSummary(anyReportSuccess, reportFails);
  }

  // ---------------------------------------------------------------------------
  // Properties of routing.

  predicate Distinct(s: seq<nat>)
  {
    forall a, b :: 0 <= a < b < |s| ==> s[a] != s[b]
  }

  /** `sent_to_non_root_dest` holds exactly when some attempted non-Root destination accepted the message. */
  lemma {:induction false} NonRootDeliveredMeans(ds: seq<RoutedDestination>, send: (nat, Message) -> SendOutcome, m: Message, idx: seq<nat>)
    requires WithinRegistry(ds, idx)
    ensures NonRootDelivered(ds, send, m, idx) <==>
      exists k :: 0 <= k < |idx| && !ds[idx[k]].IsRoot() && send(idx[k], m).Delivered?
  {
    if idx != [] {
      var n := |idx| - 1;
      NonRootDeliveredMeans(ds, send, m, idx[..n]);
      if NonRootDelivered(ds, send, m, idx[..n]) {
        var k :| 0 <= k < n && !ds[idx[..n][k]].IsRoot() && send(idx[..n][k], m).Delivered?;
        assert idx[k] == idx[..n][k];
      }
      if exists k :: 0 <= k < |idx| && !ds[idx[k]].IsRoot() && send(idx[k], m).Delivered? {
        var k :| 0 <= k < |idx| && !ds[idx[k]].IsRoot() && send(idx[k], m).Delivered?;
        if k < n {
          assert idx[..n][k] == idx[k];
        }
      }
    }
  }

  /**
   * The destinations `route` tries with the message: every Root or Additive
   * destination the message applies to, and every Drain it applies to exactly
   * when no non-Root destination of the first pass accepted it.
   */
  lemma AttemptedExactly(ds: seq<RoutedDestination>, m: Message, send: (nat, Message) -> SendOutcome)
    requires Routable(ds, m, send)
    ensures var primary := Targets(ds, m, PrimaryPass, |ds|);
      forall i: nat :: i < |ds| ==>
        (i in Attempted(ds, m, send) <==>
          Eligible(ds, m, PrimaryPass, i) || (!NonRootDelivered(ds, send, m, primary) && Eligible(ds, m, DrainPass, i)))
  {
    TargetsExact(ds, m, PrimaryPass, |ds|);
    if !NonRootDelivered(ds, send, m, Targets(ds, m, PrimaryPass, |ds|)) {
      TargetsExact(ds, m, DrainPass, |ds|);
    }
  }

  /**
   * A Drain is tried only when no Root or Additive destination took the
   * message, and then exactly when it should receive it; its condition is
   * consulted only in that case...
   */
  lemma DrainsOnlyAsFallback(ds: seq<RoutedDestination>, m: Message, send: (nat, Message) -> SendOutcome, i: nat)
    requires Routable(ds, m, send) && i < |ds| && ds[i].RoutingType() == Drain
    ensures var primary := Targets(ds, m, PrimaryPass, |ds|);
      NonRootDelivered(ds, send, m, primary) <==>
        exists j: nat :: j < |ds| && Eligible(ds, m, PrimaryPass, j) && !ds[j].IsRoot() && send(j, m).Delivered?
    ensures i in Attempted(ds, m, send) <==>
      !NonRootDelivered(ds, send, m, Targets(ds, m, PrimaryPass, |ds|)) && ds[i].ShouldReceive(m)
  {
    var primary := Targets(ds, m, PrimaryPass, |ds|);
    AttemptedExactly(ds, m, send);
    TargetsExact(ds, m, PrimaryPass, |ds|);
    NonRootDeliveredMeans(ds, send, m, primary);
    if exists j: nat :: j < |ds| && Eligible(ds, m, PrimaryPass, j) && !ds[j].IsRoot() && send(j, m).Delivered? {
      var j: nat :| j < |ds| && Eligible(ds, m, PrimaryPass, j) && !ds[j].IsRoot() && send(j, m).Delivered?;
      assert j in primary;
    }
  }

  /** ... and a Root or Additive destination is tried exactly when the message applies to it. */
  lemma PrimaryAlwaysTried(ds: seq<RoutedDestination>, m: Message, send: (nat, Message) -> SendOutcome, i: nat)
    requires Routable(ds, m, send) && i < |ds| && ds[i].RoutingType() != Drain
    ensures i in Attempted(ds, m, send) <==> ds[i].ShouldReceive(m)
  {
    AttemptedExactly(ds, m, send);
  }

  /** No destination receives the message twice, and each pass keeps registry order. */
  lemma AttemptedOnce(ds: seq<RoutedDestination>, m: Message, send: (nat, Message) -> SendOutcome)
    requires Routable(ds, m, send)
    ensures Distinct(Attempted(ds, m, send))
  {
    var primary := Targets(ds, m, PrimaryPass, |ds|);
    TargetsExact(ds, m, PrimaryPass, |ds|);
    var a := Attempted(ds, m, send);
    if !NonRootDelivered(ds, send, m, primary) {
      var drains := Targets(ds, m, DrainPass, |ds|);
      TargetsExact(ds, m, DrainPass, |ds|);
      forall x, y | 0 <= x < y < |a|
        ensures a[x] != a[y]
      {
        if y >= |primary| {
          assert a[y] == drains[y - |primary|];
          if x < |primary| {
            assert a[x] == primary[x];
            assert ds[a[x]].RoutingType() != Drain;
          } else {
            assert a[x] == drains[x - |primary|];
          }
        }
      }
    }
  }

  /**
   * The drain pass's filters are never consulted when the first pass reached
   * a non-Root destination: an Additive destination without a condition that
   * accepts the message, next to a Drain whose condition has an empty
   * component (one `is_child_of` cannot evaluate), routes to `Ok(1)`.
   */
  lemma DrainConditionUnconsulted(m: Message, send: (nat, Message) -> SendOutcome,
                                  hostname: Option<string>, debug: DebugFormat)
    requires m.component.Some? && send(0, m).Delivered?
    ensures var ds := [RoutedDestination("a", RoutingInfo(Additive, None)),
                       RoutedDestination("d", RoutingInfo(Drain, Some(OfComponent(Components.Component([])))))];
      !PassEvaluable(ds, m, DrainPass) &&
      Routable(ds, m, send) &&
      Attempted(ds, m, send) == [0] &&
      RouteOf(ds, m, send, hostname, debug) == Ok(1)
  {
    var ds := [RoutedDestination("a", RoutingInfo(Additive, None)),
               RoutedDestination("d", RoutingInfo(Drain, Some(OfComponent(Components.Component([])))))];
    assert !CanApply(ds[1].info, m);
    assert Eligible(ds, m, PrimaryPass, 0) && !Eligible(ds, m, PrimaryPass, 1);
    assert Targets(ds, m, PrimaryPass, 0) == [];
    assert Targets(ds, m, PrimaryPass, 2) == [0];
    assert [0][..0] == [];
    assert NonRootDelivered(ds, send, m, [0]);
    assert Attempted(ds, m, send) == [0];
    assert Errors(ds, send, m, [0]) == [];
    assert DeliveredCount(send, m, [0]) == 1;
  }

  /** Every attempt ends one way or the other: accepted plus refused is the number of attempts. */
  lemma {:induction false} DeliveredPlusRejected(send: (nat, Message) -> SendOutcome, m: Message, idx: seq<nat>)
    ensures DeliveredCount(send, m, idx) + |Rejections(send, m, idx)| == |idx|
  {
    if idx != [] {
      DeliveredPlusRejected(send, m, idx[..|idx| - 1]);
    }
  }

  /** Each refusal becomes one `SendErrorBorrowed` carrying its error, its destination's id and the message. */
  lemma {:induction false} ErrorsAreRejections(ds: seq<RoutedDestination>, send: (nat, Message) -> SendOutcome, m: Message, idx: seq<nat>)
    requires WithinRegistry(ds, idx)
    ensures var e := Errors(ds, send, m, idx);
      var r := Rejections(send, m, idx);
      |e| == |r| &&
      forall t :: 0 <= t < |r| ==> r[t] < |ds| && e[t] == SendErrorBorrowed(send(r[t], m).error, ds[r[t]].id, m)
  {
    if idx != [] {
      ErrorsAreRejections(ds, send, m, idx[..|idx| - 1]);
    }
  }

  /**
   * The result of `route`: `Ok` with the number of attempts exactly when no
   * destination refused the message; otherwise `Err` with the original
   * message, the count of acceptances and one reported error per refusal.
   */
  lemma RouteResultCases(ds: seq<RoutedDestination>, m: Message, send: (nat, Message) -> SendOutcome,
                         hostname: Option<string>, debug: DebugFormat)
    requires Routable(ds, m, send)
    ensures var a := Attempted(ds, m, send);
      var rej := Rejections(send, m, a);
      var r := RouteOf(ds, m, send, hostname, debug);
      (r.Ok? <==> rej == []) &&
      (r.Ok? ==> r.successful == |a|) &&
      (r.Err? ==>
        r.errors.originalMessage == m &&
        r.errors.successfullySent + |r.errors.errors| == |a| &&
        |r.errors.errors| == |rej| &&
        forall t :: 0 <= t < |rej| ==>
          r.errors.errors[t].sendErr == SendErrorBorrowed(send(rej[t], m).error, ds[rej[t]].id, m))
  {
    var a := Attempted(ds, m, send);
    DeliveredPlusRejected(send, m, a);
    ErrorsAreRejections(ds, send, m, a);
    ReportedPairs(ds, send, Errors(ds, send, m, a), hostname, debug);
  }

  /** Error `k` of the result is paired with the summary of its own report. */
  lemma ReportedPairs(ds: seq<RoutedDestination>, send: (nat, Message) -> SendOutcome, errs: seq<SendErrorBorrowed>,
                      hostname: Option<string>, debug: DebugFormat)
    ensures var r := Reported(ds, send, errs, hostname, debug);
      forall k :: 0 <= k < |errs| ==>
        r[k] == ReportedSendError(errs[k], Summary(ds, send, ReportFor(errs[k], hostname, debug), Roots(ds, |ds|)))
  {
    MapSeqEach(e => Escalated(ds, send, e, hostname, debug), errs);
  }

  /**
   * What an error's summary records: reported exactly when some Root accepted
   * the report, and one failure per Root that refused it, in Root order,
   * carrying that Root's id and the report.
   */
  lemma {:induction false} SummaryMeans(ds: seq<RoutedDestination>, send: (nat, Message) -> SendOutcome, report: Message, roots: seq<nat>)
    requires WithinRegistry(ds, roots)
    ensures var s := Summary(ds, send, report, roots);
      var rej := Rejections(send, report, roots);
      (s.reported <==> exists k :: 0 <= k < |roots| && send(roots[k], report).Delivered?) &&
      |s.failures| == |rej| &&
      forall t :: 0 <= t < |rej| ==> rej[t] < |ds| && s.failures[t] == SendErrorOwned(send(rej[t], report).error, ds[rej[t]].id, report)
  {
    if roots != [] {
      var n := |roots| - 1;
      SummaryMeans(ds, send, report, roots[..n]);
      if exists k :: 0 <= k < n && send(roots[..n][k], report).Delivered? {
        var k :| 0 <= k < n && send(roots[..n][k], report).Delivered?;
        assert roots[k] == roots[..n][k];
      }
      if exists k :: 0 <= k < |roots| && send(roots[k], report).Delivered? {
        var k :| 0 <= k < |roots| && send(roots[k], report).Delivered?;
        if k < n {
          assert roots[..n][k] == roots[k];
        }
      }
    }
  }

  /** With no Root registered, every error is marked unreported with no failures. */
  lemma NoRootsNoReports(ds: seq<RoutedDestination>, send: (nat, Message) -> SendOutcome, report: Message)
    requires forall i :: 0 <= i < |ds| ==> !ds[i].IsRoot()
    ensures Summary(ds, send, report, Roots(ds, |ds|)) == ErrorReportSummary(false, [])
  {
    NoRootsFound(ds, |ds|);
  }

  lemma {:induction false} NoRootsFound(ds: seq<RoutedDestination>, n: nat)
    requires n <= |ds|
    requires forall i :: 0 <= i < n ==> !ds[i].IsRoot()
    ensures Roots(ds, n) == []
  {
    if n > 0 {
      NoRootsFound(ds, n - 1);
    }
  }

  /** One report call per report and Root. */
  lemma {:induction false} ReportCallCount(roots: seq<nat>, reports: seq<Message>)
    ensures |ReportTraces(roots, reports)| == |reports| * |roots|
  {
    if reports != [] {
      var n := |reports| - 1;
      ReportCallCount(roots, reports[..n]);
      assert |ReportTraces(roots, reports)| == n * |roots| + |roots|;
      assert (n + 1) * |roots| == n * |roots| + |roots|;
    }
  }

  /** A call to a Root of the registry with a `SelfError` report. */
  predicate ReportCall(ds: seq<RoutedDestination>, a: Attempt)
  {
    a.dest < |ds| && ds[a.dest].IsRoot() && a.message.level == SelfError
  }

  /** Given Roots and `SelfError` reports, every report call goes to a Root with a `SelfError` report. */
  lemma {:induction false} ReportsGoToRoots(ds: seq<RoutedDestination>, roots: seq<nat>, reports: seq<Message>)
    requires forall j :: 0 <= j < |roots| ==> roots[j] < |ds| && ds[roots[j]].IsRoot()
    requires forall k :: 0 <= k < |reports| ==> reports[k].level == SelfError
    ensures forall k :: 0 <= k < |ReportTraces(roots, reports)| ==> ReportCall(ds, ReportTraces(roots, reports)[k])
  {
    if reports != [] {
      var n := |reports| - 1;
      ReportsGoToRoots(ds, roots, reports[..n]);
      var prefix := ReportTraces(roots, reports[..n]);
      var last := ReportTrace(reports[n], roots);
      assert forall j :: 0 <= j < |last| ==> last[j] == Attempt(roots[j], reports[n]) && ReportCall(ds, last[j]);
      var t: seq<Attempt> := prefix + last;
      forall k | 0 <= k < |t|
        ensures ReportCall(ds, t[k])
      {
        if k >= |prefix| {
          assert t[k] == last[k - |prefix|];
        } else {
          assert t[k] == prefix[k];
        }
      }
    }
  }

  /**
   * The whole trace of `route`: first the message to each attempted
   * destination, then one report per refusal and Root, to Roots only, and
   * none at all when every destination accepted the message.
   */
  lemma TraceShape(ds: seq<RoutedDestination>, m: Message, send: (nat, Message) -> SendOutcome,
                   hostname: Option<string>, debug: DebugFormat)
    requires Routable(ds, m, send)
    ensures var a := Attempted(ds, m, send);
      var t := TraceOf(ds, m, send, hostname, debug);
      |t| == |a| + |Rejections(send, m, a)| * |Roots(ds, |ds|)| &&
      (forall k :: 0 <= k < |a| ==> t[k] == Attempt(a[k], m)) &&
      (forall k :: |a| <= k < |t| ==> ReportCall(ds, t[k])) &&
      (RouteOf(ds, m, send, hostname, debug).Ok? ==> |t| == |a|)
  {
    var a := Attempted(ds, m, send);
    var errs := Errors(ds, send, m, a);
    var roots := Roots(ds, |ds|);
    var reports := ReportsFor(errs, hostname, debug);
    ReportsForEach(errs, hostname, debug);
    RootsExact(ds, |ds|);
    ReportsGoToRoots(ds, roots, reports);
    ReportCallCount(roots, reports);
    ErrorsAreRejections(ds, send, m, a);
    var rt := ReportTraces(roots, reports);
    assert TraceOf(ds, m, send, hostname, debug) == SendTrace(m, a) + rt;
    SendsThenReports(ds, m, a, rt);
  }

  lemma SendsThenReports(ds: seq<RoutedDestination>, m: Message, a: seq<nat>, rt: seq<Attempt>)
    requires forall k :: 0 <= k < |rt| ==> ReportCall(ds, rt[k])
    ensures var t := SendTrace(m, a) + rt;
      (forall k :: 0 <= k < |a| ==> t[k] == Attempt(a[k], m)) &&
      (forall k :: |a| <= k < |t| ==> ReportCall(ds, t[k]))
  {
    var t := SendTrace(m, a) + rt;
    forall k | |a| <= k < |t|
      ensures ReportCall(ds, t[k])
    {
      assert t[k] == rt[k - |a|];
    }
  }
}
