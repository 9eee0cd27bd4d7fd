/**
 * The older, index-based send report (src/senderror.rs): the errors of one
 * send with, for each, the map from root destination index to the error that
 * root gave when the failure was reported to it.
 */
module LegacySendErrors {
  import opened Wrappers
  import opened Strings
  import opened Messages
  import SE = SendErrorReports

  /** A destination's configuration: whether it is a root, and its `Debug` form. */
  datatype DestinationConfig = DestinationConfig(root: bool, debug: string)
  {
    predicate IsRoot() { root }
  }

  /** One error as `new` receives it: destination, config file index, error, failed root indices. */
  type ErrorTuple = (DestinationConfig, nat, SE.DynError, map<nat, SE.DynError>)

  /** `DestinationSendErrorInternal`. */
  datatype Internal = Internal(err: SE.DynError, dest: DestinationConfig, configFileIndex: nat,
                               failedRootIndices: map<nat, SE.DynError>)

  datatype SendErrors = SendErrors(rootDestinations: seq<DestinationConfig>, originalMessage: Message,
                                   errors: seq<Internal>)
  {
    /** `get_message`. */
    function GetMessage(): Message { originalMessage }
  }

  /** `SendErrors::new`: one record per tuple, in order, from which the tuple can be read back. */
  function New(roots: seq<DestinationConfig>, m: Message, errs: seq<ErrorTuple>): (r: SendErrors)
    ensures r.rootDestinations == roots && r.GetMessage() == m && |r.errors| == |errs|
    ensures forall k :: 0 <= k < |errs| ==>
      (r.errors[k].dest, r.errors[k].configFileIndex, r.errors[k].err, r.errors[k].failedRootIndices) == errs[k]
  {
    SendErrors(roots, m, seq(|errs|, k requires 0 <= k < |errs| => Internal(errs[k].2, errs[k].0, errs[k].1, errs[k].3)))
  }

  // ---------------------------------------------------------------------------
  // The iterator and its partition of the roots.

  /** `DestinationSendError`: what the iterator yields for one error. */
  datatype DestinationSendError = DestinationSendError(
    err: SE.DynError,
    dest: DestinationConfig,
    configFileIndex: nat,
    successfulRoots: seq<DestinationConfig>,
    failedRoots: seq<(DestinationConfig, SE.DynError)>)

  predicate Increasing(s: seq<nat>)
  {
    forall a, b :: 0 <= a < b < |s| ==> s[a] < s[b]
  }

  /** The root indices below `n` that are keys of `failed`, in index order. */
  function FailedIndices(failed: map<nat, SE.DynError>, n: nat): (r: seq<nat>)
    ensures forall t :: 0 <= t < |r| ==> r[t] < n && r[t] in failed
  {
    if n == 0 then [] else FailedIndices(failed, n - 1) + (if n - 1 in failed then [n - 1] else [])
  }

  /** The root indices below `n` that are not keys of `failed`, in index order. */
  function SucceededIndices(failed: map<nat, SE.DynError>, n: nat): (r: seq<nat>)
    ensures forall t :: 0 <= t < |r| ==> r[t] < n && r[t] !in failed
  {
    if n == 0 then [] else SucceededIndices(failed, n - 1) + (if n - 1 in failed then [] else [n - 1])
  }

  /** The roots that took the report, in root order. */
  function SuccessfulRoots(roots: seq<DestinationConfig>, failed: map<nat, SE.DynError>, n: nat): seq<DestinationConfig>
    requires n <= |roots|
  {
    var idx := SucceededIndices(failed, n);
    seq(|idx|, t requires 0 <= t < |idx| => roots[idx[t]])
  }

  /** The roots that refused the report, each with its error, in root order. */
  function FailedRoots(roots: seq<DestinationConfig>, failed: map<nat, SE.DynError>, n: nat): seq<(DestinationConfig, SE.DynError)>
    requires n <= |roots|
  {
    var idx := FailedIndices(failed, n);
    seq(|idx|, t requires 0 <= t < |idx| => (roots[idx[t]], failed[idx[t]]))
  }

  /** The item for error `k`: its error, destination and index unchanged, and the partition of the roots. */
  function ItemAt(obj: SendErrors, k: nat): (item: DestinationSendError)
    requires k < |obj.errors|
    ensures item.err == obj.errors[k].err && item.dest == obj.errors[k].dest
    ensures item.configFileIndex == obj.errors[k].configFileIndex
    ensures |item.successfulRoots| + |item.failedRoots| == |obj.rootDestinations|
  {
    var internal := obj.errors[k];
    var roots := obj.rootDestinations;
    IndicesPartition(internal.failedRootIndices, |roots|);
    DestinationSendError(internal.err, internal.dest, internal.configFileIndex,
      SuccessfulRoots(roots, internal.failedRootIndices, |roots|),
      FailedRoots(roots, internal.failedRootIndices, |roots|))
  }

  /** Every root index lands in exactly one of the two lists... */
  lemma {:induction false} IndicesPartition(failed: map<nat, SE.DynError>, n: nat)
    ensures |SucceededIndices(failed, n)| + |FailedIndices(failed, n)| == n
  {
    if n > 0 {
      IndicesPartition(failed, n - 1);
    }
  }

  /** ... the failed one exactly when it is a key of the map ... */
  lemma {:induction false} FailedIndicesExact(failed: map<nat, SE.DynError>, n: nat)
    ensures forall j: nat :: j < n ==> (j in FailedIndices(failed, n) <==> j in failed)
  {
    if n > 0 {
      FailedIndicesExact(failed, n - 1);
    }
  }

  /** ... the successful one exactly when it is not ... */
  lemma {:induction false} SucceededIndicesExact(failed: map<nat, SE.DynError>, n: nat)
    ensures forall j: nat :: j < n ==> (j in SucceededIndices(failed, n) <==> j !in failed)
  {
    if n > 0 {
      SucceededIndicesExact(failed, n - 1);
    }
  }

  /** ... and both lists keep root index order. */
  lemma {:induction false} IndicesInOrder(failed: map<nat, SE.DynError>, n: nat)
    ensures Increasing(FailedIndices(failed, n)) && Increasing(SucceededIndices(failed, n))
  {
    if n > 0 {
      IndicesInOrder(failed, n - 1);
    }
  }

  /** The loop of `next` over the roots: a root whose index is a key of the map fails, the others succeed. */
  method PartitionRoots(roots: seq<DestinationConfig>, failed: map<nat, SE.DynError>)
    returns (suc: seq<DestinationConfig>, fail: seq<(DestinationConfig, SE.DynError)>)
    ensures suc == SuccessfulRoots(roots, failed, |roots|)
    ensures fail == FailedRoots(roots, failed, |roots|)
  {
    suc, fail := [], [];
    var i := 0;
    while i < |roots|
      invariant 0 <= i <= |roots|
      invariant suc == SuccessfulRoots(roots, failed, i)
      invariant fail == FailedRoots(roots, failed, i)
    {
      if i in failed {
        fail := fail + [(roots[i], failed[i])];
      } else {
        suc := suc + [roots[i]];
      }
      i := i + 1;
    }
  }

  /** `DestinationSendErrorIterator`: a cursor over the errors of one `SendErrors`. */
  class DestinationSendErrorIterator {
    var i: nat
    const obj: SendErrors

    /** `into_iter`: the cursor starts at the first error. */
    constructor IntoIter(obj: SendErrors)
      ensures this.obj == obj && i == 0
    {
      this.obj := obj;
      i := 0;
    }

    /** `next`: the item of the current error, advancing the cursor, or `None` past the end. */
    method Next() returns (item: Option<DestinationSendError>)
      modifies this
      ensures old(i) < |obj.errors| ==> i == old(i) + 1 && item == Some(ItemAt(obj, old(i)))
      ensures old(i) >= |obj.errors| ==> i == old(i) && item.None?
    {
      if i < |obj.errors| {
        var internal := obj.errors[i];
        i := i + 1;
        var suc, fail := PartitionRoots(obj.rootDestinations, internal.failedRootIndices);
        item := Some(DestinationSendError(internal.err, internal.dest, internal.configFileIndex, suc, fail));
      } else {
        item := None;
      }
    }
  }

  /** Root `j` is among the failed roots of an item exactly when `j` is a key of its map, with that key's error. */
  lemma FailedRootsExact(obj: SendErrors, k: nat, j: nat)
    requires k < |obj.errors| && j < |obj.rootDestinations|
    ensures var failed := obj.errors[k].failedRootIndices;
      var idx := FailedIndices(failed, |obj.rootDestinations|);
      (j in failed <==> j in idx) &&
      (j in failed ==>
        exists t :: 0 <= t < |idx| && idx[t] == j && ItemAt(obj, k).failedRoots[t] == (obj.rootDestinations[j], failed[j]))
  {
    var failed := obj.errors[k].failedRootIndices;
    FailedIndicesExact(failed, |obj.rootDestinations|);
    var idx := FailedIndices(failed, |obj.rootDestinations|);
    if j in failed {
      var t :| 0 <= t < |idx| && idx[t] == j;
      assert ItemAt(obj, k).failedRoots[t] == (obj.rootDestinations[j], failed[j]);
    }
  }

  // ---------------------------------------------------------------------------
  // `Display for SendErrors`, one string per `writeln!`.

  // Two of the fixed lines, each written in two pieces so that their first
  // characters can be read by the verifier.
  const SomeFailedLine := "Some errors failed to be reported" + " to root destinations."
  const AllReportedLine := "All errors were successfully reported" + " all root destinations"
  const CorrectlyReportedLine := "This was correctly reported" + " to all root destinations"
  const FailedToReportLine := "Failed to report this error" + " to the following destinations:"

  /** Whether some error's destination is a root or some error has failed roots (`any_root_fails`). */
  predicate AnyRootFails(errors: seq<Internal>)
  {
    exists k :: 0 <= k < |errors| && (errors[k].dest.IsRoot() || |errors[k].failedRootIndices| != 0)
  }

  function Header(e: SendErrors, debug: SE.DebugFormat): seq<string>
  {
    ["-----",
     "Summary:",
     "Failed to send to " + NatToString(|e.errors|) + " destinations",
     "Message: " + debug.message(e.originalMessage)]
  }

  /** The index reference: one line per root destination, in order. */
  function RootIndexLines(roots: seq<DestinationConfig>, n: nat): (r: seq<string>)
    requires n <= |roots|
    ensures |r| == n
  {
    if n == 0 then [] else RootIndexLines(roots, n - 1) + ["- " + NatToString(n - 1) + ": " + roots[n - 1].debug]
  }

  function RootSection(e: SendErrors): seq<string>
  {
    if AnyRootFails(e.errors) then
      [SomeFailedLine, "Root destination index reference:"] + RootIndexLines(e.rootDestinations, |e.rootDestinations|)
    else [AllReportedLine]
  }

  /**
   * `keys` is an iteration order of the map `failed`: every key exactly once,
   * and nothing else. The order itself is the `HashMap`'s and is left open.
   */
  predicate Enumerates(keys: seq<nat>, failed: map<nat, SE.DynError>)
  {
    (forall a, b :: 0 <= a < b < |keys| ==> keys[a] != keys[b]) &&
    (forall k :: k in keys ==> k in failed) &&
    (forall k :: k in failed ==> k in keys)
  }

  /** `order` iterates the failed-root map of every error in `errors`. */
  predicate IteratesAll(errors: seq<Internal>, order: map<nat, SE.DynError> -> seq<nat>)
  {
    forall k :: 0 <= k < |errors| ==> Enumerates(order(errors[k].failedRootIndices), errors[k].failedRootIndices)
  }

  /** The line for failed root `k`. */
  function IndexLine(k: nat, err: SE.DynError): string
  {
    "- index " + NatToString(k) + ", due to error: " + err.display
  }

  /** The failed roots of one error, in the order `keys` gives (the map's iteration order). */
  function FailedIndexLines(failed: map<nat, SE.DynError>, keys: seq<nat>): (r: seq<string>)
    requires forall t :: 0 <= t < |keys| ==> keys[t] in failed
    ensures |r| == |keys|
    ensures forall t :: 0 <= t < |keys| ==> r[t] == IndexLine(keys[t], failed[keys[t]])
  {
    if keys == [] then []
    else
      var n := |keys| - 1;
      var front := FailedIndexLines(failed, keys[..n]);
      var r := front + [IndexLine(keys[n], failed[keys[n]])];
      assert forall t :: 0 <= t < n ==> r[t] == front[t] && keys[..n][t] == keys[t];
      r
  }

  /** The four lines every error's block opens with. */
  function BlockOpening(err: Internal): seq<string>
  {
    ["--",
     "Failed to send a message to " + err.dest.debug,
     "... which is index " + NatToString(err.configFileIndex) + " in the config",
     "Due to error: " + err.err.debug]
  }

  /** The lines of one error. `order` is the map's iteration order. */
  function ErrorBlock(err: Internal, order: map<nat, SE.DynError> -> seq<nat>): seq<string>
    requires Enumerates(order(err.failedRootIndices), err.failedRootIndices)
  {
    BlockOpening(err)
      + (if |err.failedRootIndices| == 0 then [CorrectlyReportedLine]
         else [FailedToReportLine] + FailedIndexLines(err.failedRootIndices, order(err.failedRootIndices)))
  }

  function Blocks(errors: seq<Internal>, order: map<nat, SE.DynError> -> seq<nat>): seq<string>
    requires IteratesAll(errors, order)
  {
    if errors == [] then []
    else
      var n := |errors| - 1;
      assert forall k :: 0 <= k < n ==> errors[..n][k] == errors[k];
      Blocks(errors[..n], order) + ErrorBlock(errors[n], order)
  }

  /** Everything `fmt` writes. */
  function DisplayLines(e: SendErrors, debug: SE.DebugFormat, order: map<nat, SE.DynError> -> seq<nat>): seq<string>
    requires IteratesAll(e.errors, order)
  {
    Header(e, debug) + RootSection(e) + Blocks(e.errors, order) + ["-----"]
  }

  /** `fmt`. */
  method Fmt(e: SendErrors, debug: SE.DebugFormat, order: map<nat, SE.DynError> -> seq<nat>) returns (out: seq<string>)
    requires IteratesAll(e.errors, order)
    ensures out == DisplayLines(e, debug, order)
  {
    out := WriteHeader(e, debug);
    var section := WriteRootSection(e);
    out := out + section;
    var blocks := WriteBlocks(e.errors, order);
    out := out + blocks;
    out := out + ["-----"];
  }

  /** The summary lines `fmt` writes first. */
  method WriteHeader(e: SendErrors, debug: SE.DebugFormat) returns (out: seq<string>)
    ensures out == Header(e, debug)
  {
    out := ["-----", "Summary:"];
    out := out + ["Failed to send to " + NatToString(|e.errors|) + " destinations"];
    out := out + ["Message: " + debug.message(e.originalMessage)];
  }

  /** The loop over the errors of `fmt`: one block each, in stored order. */
  method WriteBlocks(errors: seq<Internal>, order: map<nat, SE.DynError> -> seq<nat>) returns (out: seq<string>)
    requires IteratesAll(errors, order)
    ensures out == Blocks(errors, order)
  {
    out := [];
    var k := 0;
    while k < |errors|
      invariant 0 <= k <= |errors|
      invariant IteratesAll(errors[..k], order)
      invariant out == Blocks(errors[..k], order)
    {
      assert errors[..k + 1][..k] == errors[..k];
      assert forall j :: 0 <= j <= k ==> errors[..k + 1][j] == errors[j];
      var block := WriteBlock(errors[k], order);
      out := out + block;
      k := k + 1;
    }
    assert errors[..k] == errors;
  }

  /** The notice on the roots, with the index reference when some report failed. */
  method WriteRootSection(e: SendErrors) returns (out: seq<string>)
    ensures out == RootSection(e)
  {
    var anyRootFails := exists k :: 0 <= k < |e.errors| && (e.errors[k].dest.IsRoot() || |e.errors[k].failedRootIndices| != 0);
    if anyRootFails {
      out := [SomeFailedLine, "Root destination index reference:"];
      var i := 0;
      while i < |e.rootDestinations|
        invariant 0 <= i <= |e.rootDestinations|
        invariant out == [SomeFailedLine, "Root destination index reference:"] + RootIndexLines(e.rootDestinations, i)
      {
        out := out + ["- " + NatToString(i) + ": " + e.rootDestinations[i].debug];
        i := i + 1;
      }
    } else {
      out := [AllReportedLine];
    }
  }

  /** The lines of one error, with the loop over its failed roots. */
  method WriteBlock(err: Internal, order: map<nat, SE.DynError> -> seq<nat>) returns (block: seq<string>)
    requires Enumerates(order(err.failedRootIndices), err.failedRootIndices)
    ensures block == ErrorBlock(err, order)
  {
    block := ["--", "Failed to send a message to " + err.dest.debug];
    block := block + ["... which is index " + NatToString(err.configFileIndex) + " in the config"];
    block := block + ["Due to error: " + err.err.debug];
    if |err.failedRootIndices| == 0 {
      block := block + [CorrectlyReportedLine];
    } else {
      block := block + [FailedToReportLine];
      var keys := order(err.failedRootIndices);
      assert forall t :: 0 <= t < |keys| ==> keys[t] in keys;
      var lines := WriteFailedRoots(err.failedRootIndices, keys);
      block := block + lines;
    }
  }

  /** `for (i, err) in &error.failed_root_indices`: one line per key, in the order `keys` gives. */
  method WriteFailedRoots(failed: map<nat, SE.DynError>, keys: seq<nat>) returns (lines: seq<string>)
    requires forall t :: 0 <= t < |keys| ==> keys[t] in failed
    ensures lines == FailedIndexLines(failed, keys)
  {
    lines := [];
    var t := 0;
    while t < |keys|
      invariant 0 <= t <= |keys|
      invariant lines == FailedIndexLines(failed, keys[..t])
    {
      assert keys[..t + 1][..t] == keys[..t];
      var key := keys[t];
      lines := lines + ["- index " + NatToString(key) + ", due to error: " + failed[key].display];
      t := t + 1;
    }
    assert keys[..t] == keys;
  }

  // ---------------------------------------------------------------------------
  // Properties of the display.

  lemma LineInitials()
    ensures SomeFailedLine[0] == 'S' && AllReportedLine[0] == 'A'
    ensures CorrectlyReportedLine[0] == 'T' && FailedToReportLine[0] == 'F'
  {
  }

  /**
   * The fifth line is the "Some errors failed" notice exactly when some
   * error's destination is a root or some error has failed roots, and the
   * root index reference follows it only then.
   */
  lemma SectionShownIff(e: SendErrors, debug: SE.DebugFormat, order: map<nat, SE.DynError> -> seq<nat>)
    requires IteratesAll(e.errors, order)
    ensures var out := DisplayLines(e, debug, order);
      |out| > 4 && (out[4] == SomeFailedLine <==> AnyRootFails(e.errors))
    ensures AnyRootFails(e.errors) ==> |RootSection(e)| == 2 + |e.rootDestinations|
  {
    LineInitials();
    var out := DisplayLines(e, debug, order);
    assert out[4] == RootSection(e)[0];
  }

  /** Each error's fifth line says it was correctly reported exactly when its map of failed roots is empty. */
  lemma CorrectlyReportedIff(err: Internal, order: map<nat, SE.DynError> -> seq<nat>)
    requires Enumerates(order(err.failedRootIndices), err.failedRootIndices)
    ensures var b := ErrorBlock(err, order);
      |b| > 4 && (b[4] == CorrectlyReportedLine <==> |err.failedRootIndices| == 0)
  {
    LineInitials();
  }

  /** An iteration order for every map of `errors` is one for every map of a prefix. */
  lemma IteratesPrefix(errors: seq<Internal>, order: map<nat, SE.DynError> -> seq<nat>, k: nat)
    requires k <= |errors| && IteratesAll(errors, order)
    ensures IteratesAll(errors[..k], order)
  {
    forall j | 0 <= j < k
      ensures Enumerates(order(errors[..k][j].failedRootIndices), errors[..k][j].failedRootIndices)
    {
      assert errors[..k][j] == errors[j];
    }
  }

  /** The blocks come in the order of the errors: the blocks of the first `k` errors open the listing. */
  lemma {:induction false} BlocksInOrder(errors: seq<Internal>, order: map<nat, SE.DynError> -> seq<nat>, k: nat)
    requires k <= |errors| && IteratesAll(errors, order)
    ensures IteratesAll(errors[..k], order)
    ensures Blocks(errors[..k], order) <= Blocks(errors, order)
  {
    IteratesPrefix(errors, order, k);
    if k < |errors| {
      var n := |errors| - 1;
      IteratesPrefix(errors, order, n);
      assert errors[..n][..k] == errors[..k];
      BlocksInOrder(errors[..n], order, k);
    } else {
      assert errors[..k] == errors;
    }
  }

  /** The keys listed in `keys`, as a set. */
  function KeySet(keys: seq<nat>): (r: set<nat>)
    ensures forall k :: k in r <==> k in keys
  {
    if keys == [] then {} else KeySet(keys[..|keys| - 1]) + {keys[|keys| - 1]}
  }

  /** A sequence without repetitions has as many distinct elements as it has elements. */
  lemma {:induction false} DistinctCount(keys: seq<nat>)
    requires forall a, b :: 0 <= a < b < |keys| ==> keys[a] != keys[b]
    ensures |KeySet(keys)| == |keys|
  {
    if keys != [] {
      var n := |keys| - 1;
      var front := keys[..n];
      assert forall a, b :: 0 <= a < b < n ==> front[a] != front[b];
      DistinctCount(front);
      assert keys[n] !in KeySet(front);
    }
  }

  /** An iteration order lists as many keys as the map holds. */
  lemma EnumerationSize(keys: seq<nat>, failed: map<nat, SE.DynError>)
    requires Enumerates(keys, failed)
    ensures |keys| == |failed|
  {
    DistinctCount(keys);
    assert KeySet(keys) == failed.Keys;
  }

  /** The lines of an iteration order: one per key of the map, each with that key's error. */
  lemma FailedLinesCover(failed: map<nat, SE.DynError>, keys: seq<nat>)
    requires Enumerates(keys, failed)
    ensures var lines := FailedIndexLines(failed, keys);
      |lines| == |failed| &&
      forall k :: k in failed ==> exists t :: 0 <= t < |keys| && keys[t] == k && lines[t] == IndexLine(k, failed[k])
  {
    EnumerationSize(keys, failed);
    var lines := FailedIndexLines(failed, keys);
    forall k | k in failed
      ensures exists t :: 0 <= t < |keys| && keys[t] == k && lines[t] == IndexLine(k, failed[k])
    {
      var t :| 0 <= t < |keys| && keys[t] == k;
      assert lines[t] == IndexLine(k, failed[k]);
    }
  }

  /**
   * With failed roots, the block lists, after the "Failed to report" line,
   * one line per failed root with the error that root gave, each root once
   * (the order being the map's).
   */
  lemma FailedRootsListed(err: Internal, order: map<nat, SE.DynError> -> seq<nat>)
    requires Enumerates(order(err.failedRootIndices), err.failedRootIndices)
    requires |err.failedRootIndices| > 0
    ensures var b := ErrorBlock(err, order);
      var failed := err.failedRootIndices;
      |b| == 5 + |failed| && b[4] == FailedToReportLine &&
      forall k :: k in failed ==> exists t :: 5 <= t < |b| && b[t] == IndexLine(k, failed[k])
  {
    var keys := order(err.failedRootIndices);
    var failed := err.failedRootIndices;
    var b := ErrorBlock(err, order);
    var lines := FailedIndexLines(failed, keys);
    assert b == BlockOpening(err) + [FailedToReportLine] + lines;
    FailedLinesCover(failed, keys);
    forall k | k in failed
      ensures exists t :: 5 <= t < |b| && b[t] == IndexLine(k, failed[k])
    {
      var i :| 0 <= i < |keys| && keys[i] == k && lines[i] == IndexLine(k, failed[k]);
      assert b[i + 5] == lines[i];
    }
  }
}
