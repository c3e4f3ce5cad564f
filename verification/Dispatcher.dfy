/** The build drivers: retries of one image, and the loop that collects the futures of
    all images in whatever order they complete. */
module Dispatcher {
  import opened Options

  datatype Status = BuiltStatus | SkippedRemoteExists | FailedStatus

  datatype BuildOutput = BuildOutput(baseImage: string, tags: seq<string>, error: Option<string>, status: Status)

  /** `if result.error`: an empty message is no error. */
  predicate HasError(r: BuildOutput) { r.error.Some? && r.error.value != "" }

  predicate IsFailure(r: BuildOutput) { HasError(r) || r.tags == [] }

  // ----- Retries -----

  /** What one attempt does: return a result, or raise with a (non-empty) message. */
  datatype Attempt = Result(output: BuildOutput) | Threw(message: string)

  /** What a task leaves in its future. */
  datatype Outcome = Returned(output: BuildOutput) | Raised(message: string)

  function OutputOf(base: string, a: Attempt): BuildOutput {
    match a
    case Result(output) => output
    case Threw(message) => BuildOutput(base, [], Some(message), BuiltStatus)
  }

  /** The `repr` of the exception that stands after the loop. */
  const UNREACHABLE := "RuntimeError('Unreachable')"

  /** The output of an attempt that returned; for one that raised, an output without tags
      that has the message as its error. */
  ghost predicate IsOutputOf(output: BuildOutput, base: string, a: Attempt) {
    match a
    case Result(returned) => output == returned
    case Threw(message) => output.baseImage == base && output.tags == [] && output.error == Some(message) && output.status.BuiltStatus?
  }

  /** The attempt raised with a message, or returned an error that is not empty. */
  ghost predicate Fails(a: Attempt) {
    match a
    case Result(returned) => returned.error.Some? && returned.error.value != ""
    case Threw(message) => message != ""
  }

  /** The retry loop of the build and assembly helpers.  It returns the first attempt
      without error, or the last one; the statement after the loop is never reached. */
  method BuildWithRetries(base: string, maxRetries: int, attempt: nat -> Attempt) returns (outcome: Outcome, tried: nat)
    ensures maxRetries < 1 ==> outcome == Raised("RuntimeError('Unreachable')") && tried == 0
    ensures maxRetries >= 1 ==>
              1 <= tried <= maxRetries &&
              outcome.Returned? && IsOutputOf(outcome.output, base, attempt(tried - 1)) &&
              (forall i: nat :: i < tried - 1 ==> Fails(attempt(i))) &&
              (Fails(attempt(tried - 1)) ==> tried == maxRetries)
  {
    if maxRetries < 1 {
      return Raised(UNREACHABLE), 0;
    }
    for i := 0 to maxRetries
      invariant i < maxRetries
      invariant forall j: nat :: j < i ==> Fails(attempt(j))
    {
      var result := OutputOf(base, attempt(i));
      if HasError(result) {
        if i == maxRetries - 1 {
          return Returned(result), i + 1;
        }
        continue;
      }
      return Returned(result), i + 1;
    }
    assert false;
  }

  // ----- Collecting the futures -----

  /** The manifest record of a completed future. */
  function RecordOf(base: string, o: Outcome): BuildOutput {
    match o
    case Returned(output) => output
    case Raised(message) => BuildOutput(base, [], Some(message), BuiltStatus)
  }

  /** The image was built, or found: its future returned an output with tags and no error. */
  ghost predicate Succeeded(o: Outcome) {
    o.Returned? && !(o.output.error.Some? && o.output.error.value != "") && o.output.tags != []
  }

  /** A future that returned leaves its output in the manifest, one that raised a record of
      its image without tags and with the message as error. */
  ghost predicate IsRecordOf(r: BuildOutput, base: string, o: Outcome) {
    match o
    case Returned(output) => r == output
    case Raised(message) => r.baseImage == base && r.tags == [] && r.error == Some(message) && r.status.BuiltStatus?
  }

  /** A success that is not reported as skipped. */
  ghost predicate IsBuilt(o: Outcome, threeWay: bool) {
    Succeeded(o) && !(threeWay && o.output.status.SkippedRemoteExists?)
  }

  datatype Counts = Counts(built: nat, skipped: nat, failures: nat)

  /** Only the commit0 driver tells skipped images apart (`threeWay`). */
  function CountOne(r: BuildOutput, threeWay: bool): Counts {
    if IsFailure(r) then Counts(0, 0, 1)
    else if threeWay && r.status == SkippedRemoteExists then Counts(0, 1, 0)
    else Counts(1, 0, 0)
  }

  function Plus(a: Counts, b: Counts): Counts {
    Counts(a.built + b.built, a.skipped + b.skipped, a.failures + b.failures)
  }

  function CountAll(records: seq<BuildOutput>, threeWay: bool): Counts {
    if records == [] then Counts(0, 0, 0) else Plus(CountOne(records[0], threeWay), CountAll(records[1..], threeWay))
  }

  /** The records in the order of submission. */
  function Records(bases: seq<string>, outcomes: seq<Outcome>): seq<BuildOutput>
    requires |bases| == |outcomes|
  {
    seq(|bases|, i requires 0 <= i < |bases| => RecordOf(bases[i], outcomes[i]))
  }

  function Pick<T>(items: seq<T>, order: seq<nat>): seq<T>
    requires forall k :: 0 <= k < |order| ==> order[k] < |items|
  {
    seq(|order|, k requires 0 <= k < |order| => items[order[k]])
  }

  predicate InSomeRound(rounds: seq<set<nat>>, f: nat) {
    exists r :: 0 <= r < |rounds| && f in rounds[r]
  }

  function UpTo(n: nat): seq<nat> { seq(n, i requires 0 <= i < n => i) }

  /** Each of the n futures once. */
  ghost predicate IsCompletionOrder(order: seq<nat>, n: nat) { multiset(order) == multiset(UpTo(n)) }

  lemma {:induction false} OrderBounds(order: seq<nat>, n: nat)
    requires IsCompletionOrder(order, n)
    ensures |order| == n
    ensures forall k :: 0 <= k < |order| ==> order[k] < n
    ensures forall f: nat :: f < n ==> f in order
  {
    assert |multiset(order)| == |order| && |multiset(UpTo(n))| == n;
    forall k | 0 <= k < |order| ensures order[k] < n { assert order[k] in multiset(UpTo(n)); }
    forall f: nat | f < n ensures f in order {
      assert UpTo(n)[f] == f;
      assert f in multiset(order);
    }
  }

  /** The generator over completed futures.  `rounds` are the successive answers of
      `wait`: any sets, including empty ones when the heartbeat timer fires first, in
      which every future appears at last.  It yields each future exactly once. */
  method YieldCompletedFutures(n: nat, rounds: seq<set<nat>>) returns (order: seq<nat>)
    requires forall f: nat :: f in UpTo(n) ==> InSomeRound(rounds, f)
    ensures IsCompletionOrder(order, n)
  {
    var pending: set<nat> := set f: nat | f in UpTo(n);
    order := [];
    var round := 0;
    while pending != {}
      invariant 0 <= round <= |rounds|
      invariant forall f: nat :: f in pending ==> f in UpTo(n) && !InSomeRound(rounds[..round], f)
      invariant Collected(order, pending, n)
      decreases |rounds| - round
    {
      SomeRoundLeft(rounds, n, pending, round);
      var done := pending * rounds[round];
      NextRound(rounds, round);
      pending := pending - done;
      assert pending + done == pending + pending * rounds[round] + done;
      round := round + 1;
      while done != {}
        invariant pending !! done && forall f: nat :: f in done ==> f in UpTo(n)
        invariant Collected(order, pending + done, n)
        decreases done
      {
        var f :| f in done;
        CollectOne(order, pending + done, f, n);
        assert pending + done - {f} == pending + (done - {f});
        order, done := order + [f], done - {f};
      }
      assert pending + done == pending;
    }
    AllCollected(order, n);
  }

  /** The driver's loop over the futures in completion order.  Whatever the order, the
      manifest gets one record for each future, the counters are those of the records in
      submission order, and the exit code tells whether any record is a failure. */
  method CollectFutures(bases: seq<string>, outcomes: seq<Outcome>, threeWay: bool, order: seq<nat>)
    returns (manifest: seq<BuildOutput>, counts: Counts, inProgress: set<string>, exitCode: int)
    requires |bases| == |outcomes| && IsCompletionOrder(order, |bases|)
    ensures multiset(manifest) == multiset(Records(bases, outcomes))
    ensures counts == CountAll(Records(bases, outcomes), threeWay)
    ensures counts.built + counts.skipped + counts.failures == |bases|
    ensures inProgress == {}
    ensures |manifest| == |order| == |bases| && forall k :: 0 <= k < |order| ==> order[k] < |bases|
    ensures forall k :: 0 <= k < |order| ==> IsRecordOf(manifest[k], bases[order[k]], outcomes[order[k]])
    ensures exitCode == 0 || exitCode == 1
    ensures exitCode == 0 <==> forall i :: 0 <= i < |outcomes| ==> Succeeded(outcomes[i])
    ensures Tallied(counts, outcomes, |outcomes|, threeWay)
  {
    inProgress := set b | b in bases;
    var built: nat, skipped: nat, failures: nat := 0, 0, 0;
    manifest := [];
    ghost var records := Records(bases, outcomes);
    OrderBounds(order, |bases|);
    for k := 0 to |order|
      invariant manifest == Pick(records, order[..k])
      invariant Counts(built, skipped, failures) == CountAll(manifest, threeWay)
      invariant forall b :: b in inProgress ==> b in bases
      invariant forall j :: 0 <= j < k ==> bases[order[j]] !in inProgress
    {
      var f := order[k];
      var result := RecordOf(bases[f], outcomes[f]);
      CountAppend(manifest, result, threeWay);
      assert order[..k + 1] == order[..k] + [f];
      assert Pick(records, order[..k + 1]) == manifest + [result];
      manifest := manifest + [result];
      if HasError(result) || result.tags == [] {
        failures := failures + 1;
      } else if threeWay && result.status == SkippedRemoteExists {
        skipped := skipped + 1;
      } else {
        built := built + 1;
      }
      inProgress := inProgress - {bases[f]};
    }
    assert order[..|order|] == order;
    NothingInProgress(bases, order, inProgress);
    counts := Counts(built, skipped, failures);
    ManifestPermutes(records, order, threeWay);
    CountsOfOutcomes(bases, outcomes, records, threeWay);
    FailuresCount(records, threeWay);
    NoneFailed(outcomes);
    forall k | 0 <= k < |order| ensures IsRecordOf(manifest[k], bases[order[k]], outcomes[order[k]]) {
      RecordInOrder(bases, outcomes, order, k);
    }
    exitCode := if failures > 0 then 1 else 0;
  }

  /** The futures that failed, and those that were built, among the first n. */
  ghost function FailedUpTo(outcomes: seq<Outcome>, n: nat): set<int>
    requires n <= |outcomes|
  {
    set i | 0 <= i < n && !Succeeded(outcomes[i])
  }

  ghost function BuiltUpTo(outcomes: seq<Outcome>, n: nat, threeWay: bool): set<int>
    requires n <= |outcomes|
  {
    set i | 0 <= i < n && IsBuilt(outcomes[i], threeWay)
  }

  lemma {:induction false} CountOneOutcome(base: string, o: Outcome, threeWay: bool)
    ensures var c := CountOne(RecordOf(base, o), threeWay);
            c.failures == (if Succeeded(o) then 0 else 1) && c.built == (if IsBuilt(o, threeWay) then 1 else 0)
  {
  }

  ghost predicate Tallied(c: Counts, outcomes: seq<Outcome>, n: nat, threeWay: bool)
    requires n <= |outcomes|
  {
    c.failures == |FailedUpTo(outcomes, n)| && c.built == |BuiltUpTo(outcomes, n, threeWay)|
  }

  lemma {:induction false} TallyNext(c: Counts, base: string, outcomes: seq<Outcome>, n: nat, threeWay: bool)
    requires n < |outcomes| && Tallied(c, outcomes, n, threeWay)
    ensures Tallied(Plus(c, CountOne(RecordOf(base, outcomes[n]), threeWay)), outcomes, n + 1, threeWay)
  {
    CountOneOutcome(base, outcomes[n], threeWay);
    NextFailed(outcomes, n);
    NextBuilt(outcomes, n, threeWay);
  }

  lemma {:induction false} CountOutcomes(bases: seq<string>, outcomes: seq<Outcome>, records: seq<BuildOutput>, threeWay: bool, n: nat)
    requires |bases| == |outcomes| == |records| && n <= |outcomes|
    requires forall i :: 0 <= i < |records| ==> records[i] == RecordOf(bases[i], outcomes[i])
    ensures Tallied(CountAll(records[..n], threeWay), outcomes, n, threeWay)
  {
    if n > 0 {
      CountOutcomes(bases, outcomes, records, threeWay, n - 1);
      assert records[..n] == records[..n - 1] + [records[n - 1]];
      CountAppend(records[..n - 1], records[n - 1], threeWay);
      TallyNext(CountAll(records[..n - 1], threeWay), bases[n - 1], outcomes, n - 1, threeWay);
    } else {
      assert FailedUpTo(outcomes, 0) == {} && BuiltUpTo(outcomes, 0, threeWay) == {};
    }
  }

  lemma {:induction false} NextFailed(outcomes: seq<Outcome>, n: nat)
    requires n < |outcomes|
    ensures |FailedUpTo(outcomes, n + 1)| == |FailedUpTo(outcomes, n)| + if Succeeded(outcomes[n]) then 0 else 1
  {
    var more := if Succeeded(outcomes[n]) then {} else {n};
    assert FailedUpTo(outcomes, n + 1) == FailedUpTo(outcomes, n) + more;
    assert n !in FailedUpTo(outcomes, n);
  }

  lemma {:induction false} NextBuilt(outcomes: seq<Outcome>, n: nat, threeWay: bool)
    requires n < |outcomes|
    ensures |BuiltUpTo(outcomes, n + 1, threeWay)| == |BuiltUpTo(outcomes, n, threeWay)| + if IsBuilt(outcomes[n], threeWay) then 1 else 0
  {
    var more := if IsBuilt(outcomes[n], threeWay) then {n} else {};
    assert BuiltUpTo(outcomes, n + 1, threeWay) == BuiltUpTo(outcomes, n, threeWay) + more;
    assert n !in BuiltUpTo(outcomes, n, threeWay);
  }

  lemma {:induction false} NoneFailed(outcomes: seq<Outcome>)
    ensures |FailedUpTo(outcomes, |outcomes|)| == 0 <==> forall i :: 0 <= i < |outcomes| ==> Succeeded(outcomes[i])
  {
    var failed := FailedUpTo(outcomes, |outcomes|);
    if i :| 0 <= i < |outcomes| && !Succeeded(outcomes[i]) {
      assert i in failed;
      assert |failed - {i}| == |failed| - 1;
    }
    if |failed| > 0 { var i :| i in failed; }
  }

  /** The manifest in completion order. */
  lemma {:induction false} ManifestPermutes(records: seq<BuildOutput>, order: seq<nat>, threeWay: bool)
    requires IsCompletionOrder(order, |records|)
    ensures |order| == |records| && forall k :: 0 <= k < |order| ==> order[k] < |records|
    ensures multiset(Pick(records, order)) == multiset(records) && CountAll(Pick(records, order), threeWay) == CountAll(records, threeWay)
  {
    OrderBounds(order, |records|);
    PickAll(records, order);
    CountPermutes(Pick(records, order), records, threeWay);
  }

  lemma {:induction false} CountsOfOutcomes(bases: seq<string>, outcomes: seq<Outcome>, records: seq<BuildOutput>, threeWay: bool)
    requires |bases| == |outcomes| == |records|
    requires forall i :: 0 <= i < |records| ==> records[i] == RecordOf(bases[i], outcomes[i])
    ensures Tallied(CountAll(records, threeWay), outcomes, |outcomes|, threeWay)
  {
    assert records[..|outcomes|] == records;
    CountOutcomes(bases, outcomes, records, threeWay, |outcomes|);
  }

  lemma {:induction false} RecordInOrder(bases: seq<string>, outcomes: seq<Outcome>, order: seq<nat>, k: nat)
    requires |bases| == |outcomes| && k < |order| && forall j :: 0 <= j < |order| ==> order[j] < |bases|
    ensures IsRecordOf(Pick(Records(bases, outcomes), order)[k], bases[order[k]], outcomes[order[k]])
  {
  }

  lemma {:induction false} NothingInProgress(bases: seq<string>, order: seq<nat>, inProgress: set<string>)
    requires IsCompletionOrder(order, |bases|) && forall j :: 0 <= j < |order| ==> order[j] < |bases|
    requires forall b :: b in inProgress ==> b in bases
    requires forall j :: 0 <= j < |order| ==> bases[order[j]] !in inProgress
    ensures inProgress == {}
  {
    OrderBounds(order, |bases|);
    forall b | b in bases ensures b !in inProgress {
      var f :| 0 <= f < |bases| && bases[f] == b;
      assert f in order;
      var j :| 0 <= j < |order| && order[j] == f;
    }
  }

  /** The futures collected so far are distinct and are those no longer pending. */
  ghost predicate Collected(order: seq<nat>, pending: set<nat>, n: nat) {
    (forall k :: 0 <= k < |order| ==> order[k] < n && order[k] !in pending) &&
    (forall j, k :: 0 <= j < k < |order| ==> order[j] != order[k]) &&
    (forall f: nat :: f in UpTo(n) && f !in pending ==> f in order)
  }

  lemma {:induction false} CollectOne(order: seq<nat>, pending: set<nat>, f: nat, n: nat)
    requires Collected(order, pending, n) && f in pending && f in UpTo(n)
    ensures Collected(order + [f], pending - {f}, n)
  {
  }

  lemma {:induction false} SomeRoundLeft(rounds: seq<set<nat>>, n: nat, pending: set<nat>, round: nat)
    requires forall f: nat :: f in UpTo(n) ==> InSomeRound(rounds, f)
    requires pending != {} && round <= |rounds|
    requires forall f: nat :: f in pending ==> f in UpTo(n) && !InSomeRound(rounds[..round], f)
    ensures round < |rounds|
  {
    var f :| f in pending;
    assert rounds[..|rounds|] == rounds;
  }

  lemma {:induction false} NextRound(rounds: seq<set<nat>>, round: nat)
    requires round < |rounds|
    ensures forall f: nat :: InSomeRound(rounds[..round + 1], f) <==> InSomeRound(rounds[..round], f) || f in rounds[round]
  {
    var longer := rounds[..round + 1];
    forall f: nat | InSomeRound(rounds[..round], f) || f in rounds[round]
      ensures InSomeRound(longer, f)
    {
      if f in rounds[round] {
        assert longer[round] == rounds[round];
      } else {
        var r :| 0 <= r < round && f in rounds[..round][r];
        assert longer[r] == rounds[r];
      }
    }
    forall f: nat | InSomeRound(longer, f)
      ensures InSomeRound(rounds[..round], f) || f in rounds[round]
    {
      var r :| 0 <= r < round + 1 && f in longer[r];
      if r < round { assert rounds[..round][r] == longer[r]; }
    }
  }

  lemma {:induction false} AllCollected(order: seq<nat>, n: nat)
    requires Collected(order, {}, n)
    ensures IsCompletionOrder(order, n)
  {
    forall f: nat | f < n ensures f in UpTo(n) { UpToHas(n, f); }
    forall f: nat ensures multiset(order)[f] == multiset(UpTo(n))[f] {
      if f in UpTo(n) {
        DistinctOnce(order, f);
        DistinctOnce(UpTo(n), f);
      }
    }
  }

  lemma {:induction false} UpToHas(n: nat, f: nat)
    requires f < n
    ensures f in UpTo(n)
  {
    assert UpTo(n)[f] == f;
  }

  lemma {:induction false} DistinctOnce(s: seq<nat>, x: nat)
    requires x in s && forall j, k :: 0 <= j < k < |s| ==> s[j] != s[k]
    ensures multiset(s)[x] == 1
  {
    var i :| 0 <= i < |s| && s[i] == x;
    assert s == s[..i] + [x] + s[i + 1..];
    assert x !in s[..i] && x !in s[i + 1..];
  }

  lemma {:induction false} PickAppend<T>(items: seq<T>, a: seq<nat>, b: seq<nat>)
    requires forall k :: 0 <= k < |a + b| ==> (a + b)[k] < |items|
    ensures forall k :: 0 <= k < |a| ==> a[k] < |items|
    ensures forall k :: 0 <= k < |b| ==> b[k] < |items|
    ensures Pick(items, a + b) == Pick(items, a) + Pick(items, b)
  {
    assert forall k :: 0 <= k < |a| ==> (a + b)[k] == a[k];
    assert forall k :: 0 <= k < |b| ==> (a + b)[|a| + k] == b[k];
  }

  lemma {:induction false} RemoveOne<T>(a: seq<T>, b: seq<T>, i: nat)
    requires a != [] && i < |b| && b[i] == a[0] && multiset(a) == multiset(b)
    ensures multiset(a[1..]) == multiset(b[..i] + b[i + 1..])
  {
    TakeOut(a, 0);
    TakeOut(b, i);
    assert a[..0] + a[1..] == a[1..];
    assert multiset(a) - multiset{a[0]} == multiset(b) - multiset{a[0]};
  }

  lemma {:induction false} TakeOut<T>(s: seq<T>, i: nat)
    requires i < |s|
    ensures multiset(s) - multiset{s[i]} == multiset(s[..i] + s[i + 1..])
  {
    assert s == s[..i] + [s[i]] + s[i + 1..];
  }

  lemma {:induction false} MoveToFront<T>(x: seq<T>, y: seq<T>, z: seq<T>)
    ensures multiset(x + (y + z)) == multiset(y) + multiset(x + z)
  {
  }

  lemma {:induction false} PickMoved<T>(items: seq<T>, before: seq<nat>, x: nat, after: seq<nat>)
    requires x < |items| && forall k :: 0 <= k < |before + after| ==> (before + after)[k] < |items|
    requires forall k :: 0 <= k < |before + ([x] + after)| ==> (before + ([x] + after))[k] < |items|
    ensures multiset(Pick(items, before + ([x] + after))) == multiset(Pick(items, [x])) + multiset(Pick(items, before + after))
  {
    PickAppend(items, before, [x] + after);
    PickAppend(items, before, after);
    PickAppend(items, [x], after);
    MoveToFront(Pick(items, before), Pick(items, [x]), Pick(items, after));
  }

  lemma {:induction false} PickPermutes<T>(items: seq<T>, a: seq<nat>, b: seq<nat>)
    requires multiset(a) == multiset(b)
    requires forall k :: 0 <= k < |a| ==> a[k] < |items|
    ensures forall k :: 0 <= k < |b| ==> b[k] < |items|
    ensures multiset(Pick(items, a)) == multiset(Pick(items, b))
    decreases |a|
  {
    forall k | 0 <= k < |b| ensures b[k] < |items| {
      assert b[k] in multiset(a);
    }
    if a == [] {
      assert |multiset(b)| == 0;
      assert b == [];
    } else {
      assert a[0] in multiset(b);
      var i :| 0 <= i < |b| && b[i] == a[0];
      var rest := b[..i] + b[i + 1..];
      RemoveOne(a, b, i);
      assert a == [a[0]] + a[1..] && b == b[..i] + ([a[0]] + b[i + 1..]);
      PickPermutes(items, a[1..], rest);
      PickAppend(items, [a[0]], a[1..]);
      PickMoved(items, b[..i], a[0], b[i + 1..]);
    }
  }

  lemma {:induction false} PickAll<T>(items: seq<T>, order: seq<nat>)
    requires multiset(order) == multiset(UpTo(|items|))
    requires forall k :: 0 <= k < |order| ==> order[k] < |items|
    ensures multiset(Pick(items, order)) == multiset(items)
  {
    PickPermutes(items, order, UpTo(|items|));
    assert Pick(items, UpTo(|items|)) == items;
  }

  lemma {:induction false} CountAppend(records: seq<BuildOutput>, r: BuildOutput, threeWay: bool)
    ensures CountAll(records + [r], threeWay) == Plus(CountAll(records, threeWay), CountOne(r, threeWay))
  {
    if records == [] {
      assert records + [r] == [r] && [r][1..] == [];
    } else {
      assert (records + [r])[1..] == records[1..] + [r];
      CountAppend(records[1..], r, threeWay);
    }
  }

  lemma {:induction false} CountRemove(records: seq<BuildOutput>, i: nat, threeWay: bool)
    requires i < |records|
    ensures CountAll(records, threeWay)
            == Plus(CountOne(records[i], threeWay), CountAll(records[..i] + records[i + 1..], threeWay))
  {
    var rest := records[..i] + records[i + 1..];
    if i == 0 {
      assert rest == records[1..];
    } else {
      assert rest[0] == records[0];
      assert rest[1..] == records[1..][..i - 1] + records[1..][i..];
      CountRemove(records[1..], i - 1, threeWay);
    }
  }

  /** The counters do not depend on the order in which the records arrive. */
  lemma {:induction false} CountPermutes(a: seq<BuildOutput>, b: seq<BuildOutput>, threeWay: bool)
    requires multiset(a) == multiset(b)
    ensures CountAll(a, threeWay) == CountAll(b, threeWay)
    decreases |a|
  {
    if a == [] {
      assert |multiset(b)| == 0;
    } else {
      assert a[0] in multiset(b);
      var i :| 0 <= i < |b| && b[i] == a[0];
      RemoveOne(a, b, i);
      CountRemove(b, i, threeWay);
      CountPermutes(a[1..], b[..i] + b[i + 1..], threeWay);
    }
  }

  /** The three counters add up to the number of images, and the failures are the
      records with an error or without tags. */
  lemma {:induction false} FailuresCount(records: seq<BuildOutput>, threeWay: bool)
    ensures var c := CountAll(records, threeWay);
            c.built + c.skipped + c.failures == |records| && (c.failures == 0 <==> NoFailure(records))
  {
    if records != [] {
      FailuresCount(records[1..], threeWay);
      NoFailureStep(records);
    }
  }

  ghost predicate NoFailure(records: seq<BuildOutput>) { forall r :: r in records ==> !IsFailure(r) }

  lemma {:induction false} NoFailureStep(records: seq<BuildOutput>)
    requires records != []
    ensures NoFailure(records) <==> !IsFailure(records[0]) && NoFailure(records[1..])
  {
    assert forall r :: r in records <==> r == records[0] || r in records[1..];
  }
}
