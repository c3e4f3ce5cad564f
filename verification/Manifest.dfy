/** The summary of a build manifest: counters, sums and lists over its records. */
module Manifest {
  import opened Options
  import opened Sequences

  /** A field of a record as the JSON reader delivers it; a text may read as an integer. */
  datatype Value = Absent | BoolValue(b: bool) | IntValue(i: int) | FloatValue(r: real) | TextValue(asInt: Option<int>) | OtherValue

  datatype Record = Record(baseImage: Option<string>, status: Option<string>, error: Option<string>, tags: seq<string>,
                           attemptCount: Option<int>, duration: Option<real>, skipReason: Option<string>,
                           startedAt: Option<int>, finishedAt: Option<int>,
                           floats: map<string, real>, others: map<string, Value>)

  datatype SlowBuild = SlowBuild(baseImage: string, duration: real, attemptCount: int, status: string)

  datatype FailedBuild = FailedBuild(baseImage: string, error: string, attemptCount: int)

  datatype Summary = Summary(total: nat, successful: int, built: nat, skipped: nat, failed: nat, retried: nat,
                             startedAt: Option<int>, finishedAt: Option<int>, wallClock: Option<int>,
                             cumulativeDuration: real, floatSums: map<string, real>, intSums: map<string, int>,
                             average: Option<real>, median: Option<real>, maxBuild: Option<real>,
                             statusCounts: map<string, nat>, skipReasons: map<string, nat>,
                             slowest: seq<SlowBuild>, failures: seq<FailedBuild>)

  /** `value or default` on an optional text. */
  function TextOr(s: Option<string>, default_: string): string {
    if s.Some? && s.value != "" then s.value else default_
  }

  predicate HasText(s: Option<string>) { s.Some? && s.value != "" }

  // ----- One record -----

  function RecordStatus(r: Record): string {
    if HasText(r.status) then r.status.value
    else if HasText(r.error) || r.tags == [] then "failed"
    else "built"
  }

  function AttemptCount(r: Record): int {
    if r.attemptCount.Some? && r.attemptCount.value != 0 then r.attemptCount.value else 1
  }

  const SKIPPED := "skipped"
  const SKIPPED_PREFIX := "skipped_"

  predicate IsSkipped(status: string) { SKIPPED <= status }

  function SkipReason(r: Record): string {
    var status := RecordStatus(r);
    TextOr(r.skipReason, if SKIPPED_PREFIX <= status then status[|SKIPPED_PREFIX|..] else status)
  }

  function BaseImageOf(r: Record): string { if r.baseImage.Some? then r.baseImage.value else "unknown" }

  predicate IsTimedBuild(r: Record) { RecordStatus(r) == "built" && r.duration.Some? }

  function SlowOf(r: Record): SlowBuild
    requires r.duration.Some?
  {
    SlowBuild(BaseImageOf(r), r.duration.value, AttemptCount(r), RecordStatus(r))
  }

  function FailureOf(r: Record): FailedBuild {
    FailedBuild(BaseImageOf(r), TextOr(r.error, "No tags generated"), AttemptCount(r))
  }

  // ----- Counting -----

  function CountIf(records: seq<Record>, p: Record -> bool): nat {
    if records == [] then 0 else (if p(records[0]) then 1 else 0) + CountIf(records[1..], p)
  }

  function HasStatus(status: string): Record -> bool { r => RecordStatus(r) == status }

  function StatusIn(statuses: set<string>): Record -> bool { r => RecordStatus(r) in statuses }

  predicate IsRetried(r: Record) { AttemptCount(r) > 1 }

  predicate IsSkippedRecord(r: Record) { IsSkipped(RecordStatus(r)) }

  function SkippedFor(reason: string): Record -> bool { r => IsSkippedRecord(r) && SkipReason(r) == reason }

  lemma {:induction false} CountSum(a: seq<Record>, b: seq<Record>, p: Record -> bool)
    ensures CountIf(a + b, p) == CountIf(a, p) + CountIf(b, p)
  {
    if a == [] {
      assert a + b == b;
    } else {
      assert (a + b)[1..] == a[1..] + b;
      CountSum(a[1..], b, p);
    }
  }

  lemma {:induction false} CountNext(records: seq<Record>, i: nat, p: Record -> bool)
    requires i < |records|
    ensures CountIf(records[..i + 1], p) == CountIf(records[..i], p) + if p(records[i]) then 1 else 0
  {
    assert records[..i + 1] == records[..i] + [records[i]];
    CountSum(records[..i], [records[i]], p);
    assert [records[i]][1..] == [];
  }

  lemma {:induction false} CountIsPositive(records: seq<Record>, p: Record -> bool)
    ensures CountIf(records, p) > 0 <==> exists i :: 0 <= i < |records| && p(records[i])
  {
    if records != [] {
      CountIsPositive(records[1..], p);
      assert forall i :: 1 <= i < |records| ==> records[i] == records[1..][i - 1];
      if exists i :: 0 <= i < |records| && p(records[i]) {
        var i :| 0 <= i < |records| && p(records[i]);
        assert i > 0 ==> p(records[1..][i - 1]);
      }
    }
  }

  /** A counter over the records: exactly the occurring keys, each with its count. */
  ghost predicate IsCounter(m: map<string, nat>, records: seq<Record>, p: string -> Record -> bool) {
    forall k :: (k in m <==> CountIf(records, p(k)) > 0) && (k in m ==> m[k] == CountIf(records, p(k)))
  }

  /** `counter.get(k, 0)` */
  function CountFor(m: map<string, nat>, k: string): nat { if k in m then m[k] else 0 }

  function Bump(m: map<string, nat>, k: string): map<string, nat> { m[k := if k in m then m[k] + 1 else 1] }

  // ----- Sums -----

  function SumFloatField(records: seq<Record>, field: Record -> Option<real>): real {
    if records == [] then 0.0
    else (if field(records[0]).Some? then field(records[0]).value else 0.0) + SumFloatField(records[1..], field)
  }

  function Named(name: string): Record -> Option<real> {
    (r: Record) => if name in r.floats then Some(r.floats[name]) else None
  }

  function Duration(r: Record): Option<real> { r.duration }

  /** `int(x)` on a float drops the fraction. */
  function Truncate(r: real): int { if r >= 0.0 then r.Floor else -((-r).Floor) }

  function IntOf(v: Value): int {
    match v
    case BoolValue(b) => if b then 1 else 0
    case IntValue(i) => i
    case FloatValue(r) => Truncate(r)
    case TextValue(Some(i)) => i
    case _ => 0
  }

  function FieldOf(r: Record, name: string): Value { if name in r.others then r.others[name] else Absent }

  function SumIntField(records: seq<Record>, name: string): int {
    if records == [] then 0 else IntOf(FieldOf(records[0], name)) + SumIntField(records[1..], name)
  }

  lemma {:induction false} FloatSum(a: seq<Record>, b: seq<Record>, field: Record -> Option<real>)
    ensures SumFloatField(a + b, field) == SumFloatField(a, field) + SumFloatField(b, field)
  {
    if a == [] {
      assert a + b == b;
    } else {
      assert (a + b)[1..] == a[1..] + b;
      FloatSum(a[1..], b, field);
    }
  }

  lemma {:induction false} IntSum(a: seq<Record>, b: seq<Record>, name: string)
    ensures SumIntField(a + b, name) == SumIntField(a, name) + SumIntField(b, name)
  {
    if a == [] {
      assert a + b == b;
    } else {
      assert (a + b)[1..] == a[1..] + b;
      IntSum(a[1..], b, name);
    }
  }

  method ComputeFloatSum(records: seq<Record>, name: string) returns (total: real)
    ensures total == SumFloatField(records, Named(name))
  {
    total := 0.0;
    for i := 0 to |records|
      invariant total == SumFloatField(records[..i], Named(name))
    {
      assert records[..i + 1] == records[..i] + [records[i]];
      FloatSum(records[..i], [records[i]], Named(name));
      if name in records[i].floats {
        total := total + records[i].floats[name];
      }
    }
    assert records[..|records|] == records;
  }

  method ComputeIntSum(records: seq<Record>, name: string) returns (total: int)
    ensures total == SumIntField(records, name)
  {
    total := 0;
    for i := 0 to |records|
      invariant total == SumIntField(records[..i], name)
    {
      assert records[..i + 1] == records[..i] + [records[i]];
      IntSum(records[..i], [records[i]], name);
      match FieldOf(records[i], name)
      case BoolValue(b) => total := total + if b then 1 else 0;
      case IntValue(n) => total := total + n;
      case FloatValue(r) => total := total + Truncate(r);
      case TextValue(asInt) =>
        if asInt.None? {
          continue;
        }
        total := total + asInt.value;
      case _ =>
    }
    assert records[..|records|] == records;
  }

  /** The fields that are summed besides the duration. */
  const FLOAT_FIELDS := [
    "remote_check_seconds", "build_seconds", "post_build_seconds", "sdk_build_context_seconds",
    "sdk_buildx_wall_clock_seconds", "sdk_cleanup_seconds", "sdk_cache_import_seconds", "sdk_cache_export_seconds",
    "sdk_image_export_seconds", "sdk_push_layers_seconds", "sdk_export_manifest_seconds"
  ]

  const INT_FIELDS := ["sdk_cache_import_miss_count", "sdk_cached_step_count"]

  ghost predicate AreFloatSums(sums: map<string, real>, names: seq<string>, records: seq<Record>) {
    forall name :: name in names ==> name in sums && sums[name] == SumFloatField(records, Named(name))
  }

  ghost predicate AreIntSums(sums: map<string, int>, names: seq<string>, records: seq<Record>) {
    forall name :: name in names ==> name in sums && sums[name] == SumIntField(records, name)
  }

  method FloatSums(records: seq<Record>, names: seq<string>) returns (sums: map<string, real>)
    ensures AreFloatSums(sums, names, records)
  {
    sums := map[];
    for i := 0 to |names|
      invariant AreFloatSums(sums, names[..i], records)
    {
      var total := ComputeFloatSum(records, names[i]);
      sums := sums[names[i] := total];
      assert names[..i + 1] == names[..i] + [names[i]];
    }
    assert names[..|names|] == names;
  }

  method IntSums(records: seq<Record>, names: seq<string>) returns (sums: map<string, int>)
    ensures AreIntSums(sums, names, records)
  {
    sums := map[];
    for i := 0 to |names|
      invariant AreIntSums(sums, names[..i], records)
    {
      var total := ComputeIntSum(records, names[i]);
      sums := sums[names[i] := total];
      assert names[..i + 1] == names[..i] + [names[i]];
    }
    assert names[..|names|] == names;
  }

  // ----- Times -----

  /** Instants, as integers, of the records that have one. */
  function Times(records: seq<Record>, field: Record -> Option<int>): seq<int> {
    if records == [] then [] else TimeOf(field(records[0])) + Times(records[1..], field)
  }

  function TimeOf(t: Option<int>): seq<int> { if t.Some? then [t.value] else [] }

  function StartedAt(r: Record): Option<int> { r.startedAt }

  function FinishedAt(r: Record): Option<int> { r.finishedAt }

  lemma {:induction false} TimesSum(a: seq<Record>, b: seq<Record>, field: Record -> Option<int>)
    ensures Times(a + b, field) == Times(a, field) + Times(b, field)
  {
    if a == [] {
      assert a + b == b;
    } else {
      assert (a + b)[1..] == a[1..] + b;
      TimesSum(a[1..], b, field);
      Assoc(TimeOf(field(a[0])), Times(a[1..], field), Times(b, field));
    }
  }

  ghost predicate IsEarliest(m: Option<int>, times: seq<int>) {
    (m.None? <==> times == []) && (m.Some? ==> m.value in times && forall t :: t in times ==> m.value <= t)
  }

  ghost predicate IsLatest(m: Option<int>, times: seq<int>) {
    (m.None? <==> times == []) && (m.Some? ==> m.value in times && forall t :: t in times ==> t <= m.value)
  }

  method Earliest(times: seq<int>) returns (m: Option<int>)
    ensures IsEarliest(m, times)
  {
    m := None;
    for i := 0 to |times|
      invariant IsEarliest(m, times[..i])
    {
      assert times[..i + 1] == times[..i] + [times[i]];
      if m.None? || times[i] < m.value {
        m := Some(times[i]);
      }
    }
    assert times[..|times|] == times;
  }

  method Latest(times: seq<int>) returns (m: Option<int>)
    ensures IsLatest(m, times)
  {
    m := None;
    for i := 0 to |times|
      invariant IsLatest(m, times[..i])
    {
      assert times[..i + 1] == times[..i] + [times[i]];
      if m.None? || times[i] > m.value {
        m := Some(times[i]);
      }
    }
    assert times[..|times|] == times;
  }

  function WallClock(start: Option<int>, finish: Option<int>): Option<int> {
    if start.Some? && finish.Some? then Some(finish.value - start.value) else None
  }

  // ----- Lists -----

  function TimedBuilds(records: seq<Record>): seq<SlowBuild> {
    if records == [] then []
    else (if IsTimedBuild(records[0]) then [SlowOf(records[0])] else []) + TimedBuilds(records[1..])
  }

  function Failures(records: seq<Record>): seq<FailedBuild> {
    if records == [] then []
    else (if RecordStatus(records[0]) == "failed" then [FailureOf(records[0])] else []) + Failures(records[1..])
  }

  lemma {:induction false} TimedSum(a: seq<Record>, b: seq<Record>)
    ensures TimedBuilds(a + b) == TimedBuilds(a) + TimedBuilds(b)
  {
    if a == [] {
      assert a + b == b;
    } else {
      assert (a + b)[1..] == a[1..] + b;
      TimedSum(a[1..], b);
      Assoc(if IsTimedBuild(a[0]) then [SlowOf(a[0])] else [], TimedBuilds(a[1..]), TimedBuilds(b));
    }
  }

  lemma {:induction false} FailuresSum(a: seq<Record>, b: seq<Record>)
    ensures Failures(a + b) == Failures(a) + Failures(b)
  {
    if a == [] {
      assert a + b == b;
    } else {
      assert (a + b)[1..] == a[1..] + b;
      FailuresSum(a[1..], b);
      Assoc(if RecordStatus(a[0]) == "failed" then [FailureOf(a[0])] else [], Failures(a[1..]), Failures(b));
    }
  }

  lemma {:induction false} FailuresAreCounted(records: seq<Record>)
    ensures |Failures(records)| == CountIf(records, HasStatus("failed"))
  {
    if records != [] {
      FailuresAreCounted(records[1..]);
    }
  }

  // ----- The slowest builds -----

  /** The descending sort that keeps equal durations in their order. */
  function Insert(b: SlowBuild, s: seq<SlowBuild>): seq<SlowBuild> {
    if s == [] || s[0].duration <= b.duration then [b] + s else [s[0]] + Insert(b, s[1..])
  }

  function SortDescending(s: seq<SlowBuild>): seq<SlowBuild> {
    if s == [] then [] else Insert(s[0], SortDescending(s[1..]))
  }

  /** `s[:n]`; a negative n counts from the end. */
  function Take<T>(s: seq<T>, n: int): seq<T> { s[..Bound(|s|, n)] }

  ghost predicate Descending(s: seq<SlowBuild>) {
    forall i, j :: 0 <= i < j < |s| ==> s[i].duration >= s[j].duration
  }

  function Only(b: SlowBuild, d: real): seq<SlowBuild> { if b.duration == d then [b] else [] }

  function WithDuration(s: seq<SlowBuild>, d: real): seq<SlowBuild> {
    if s == [] then [] else Only(s[0], d) + WithDuration(s[1..], d)
  }

  lemma {:induction false} InsertPermutes(b: SlowBuild, s: seq<SlowBuild>)
    ensures multiset(Insert(b, s)) == multiset{b} + multiset(s)
  {
    if !(s == [] || s[0].duration <= b.duration) {
      InsertPermutes(b, s[1..]);
      assert s == [s[0]] + s[1..];
    }
  }

  lemma {:induction false} InsertDescends(b: SlowBuild, s: seq<SlowBuild>)
    requires Descending(s)
    ensures Descending(Insert(b, s))
  {
    if !(s == [] || s[0].duration <= b.duration) {
      var rest := Insert(b, s[1..]);
      InsertDescends(b, s[1..]);
      InsertPermutes(b, s[1..]);
      forall j | 0 <= j < |rest| ensures s[0].duration >= rest[j].duration {
        assert rest[j] in multiset(rest);
        assert rest[j] == b || rest[j] in s[1..];
      }
      DescendsCons(s[0], rest);
    }
  }

  lemma {:induction false} DescendsCons(b: SlowBuild, s: seq<SlowBuild>)
    requires Descending(s) && forall j :: 0 <= j < |s| ==> b.duration >= s[j].duration
    ensures Descending([b] + s)
  {
  }

  lemma {:induction false} WithCons(b: SlowBuild, s: seq<SlowBuild>, d: real)
    ensures WithDuration([b] + s, d) == Only(b, d) + WithDuration(s, d)
  {
    assert ([b] + s)[1..] == s;
  }

  lemma {:induction false} InsertIsStable(b: SlowBuild, s: seq<SlowBuild>, d: real)
    ensures WithDuration(Insert(b, s), d) == Only(b, d) + WithDuration(s, d)
  {
    if s == [] || s[0].duration <= b.duration {
      WithCons(b, s, d);
    } else {
      InsertIsStable(b, s[1..], d);
      WithCons(s[0], Insert(b, s[1..]), d);
      Swap(Only(s[0], d), Only(b, d), WithDuration(s[1..], d));
    }
  }

  lemma {:induction false} SortSorts(s: seq<SlowBuild>)
    ensures Descending(SortDescending(s)) && multiset(SortDescending(s)) == multiset(s)
  {
    if s != [] {
      SortSorts(s[1..]);
      var rest := SortDescending(s[1..]);
      InsertPermutes(s[0], rest);
      InsertDescends(s[0], rest);
      assert s == [s[0]] + s[1..];
    }
  }

  /** The sort is a permutation, descending and stable. */
  lemma {:induction false} SortIsStable(s: seq<SlowBuild>, d: real)
    ensures Descending(SortDescending(s)) && multiset(SortDescending(s)) == multiset(s)
    ensures WithDuration(SortDescending(s), d) == WithDuration(s, d)
  {
    SortSorts(s);
    if s != [] {
      SortIsStable(s[1..], d);
      InsertIsStable(s[0], SortDescending(s[1..]), d);
    }
  }

  // ----- Mean and median -----

  function SumDurations(builds: seq<SlowBuild>): real {
    if builds == [] then 0.0 else builds[0].duration + SumDurations(builds[1..])
  }

  /** The middle of the sorted durations, or half way between the two in the middle. */
  function MiddleOf(sorted: seq<SlowBuild>): real
    requires sorted != []
  {
    (sorted[(|sorted| - 1) / 2].duration + sorted[|sorted| / 2].duration) / 2.0
  }

  function Average(builds: seq<SlowBuild>): Option<real> {
    if builds == [] then None else Some(SumDurations(builds) / (|builds| as real))
  }

  function Median(builds: seq<SlowBuild>): Option<real> {
    SortedLength(builds);
    if builds == [] then None else Some(MiddleOf(SortDescending(builds)))
  }

  lemma {:induction false} SortedLength(builds: seq<SlowBuild>)
    ensures |SortDescending(builds)| == |builds|
  {
    SortSorts(builds);
    assert |multiset(SortDescending(builds))| == |multiset(builds)|;
  }

  /** Half of the sorted durations are no less than the median, and half are no more. */
  lemma {:induction false} MedianSplits(builds: seq<SlowBuild>)
    requires builds != []
    ensures |SortDescending(builds)| == |builds| && Median(builds).Some?
    ensures forall i :: 0 <= i <= (|builds| - 1) / 2 ==> SortDescending(builds)[i].duration >= Median(builds).value
    ensures forall i :: |builds| / 2 <= i < |builds| ==> SortDescending(builds)[i].duration <= Median(builds).value
  {
    SortSorts(builds);
    SortedLength(builds);
    MiddleSplits(SortDescending(builds));
  }

  lemma {:induction false} MiddleSplits(sorted: seq<SlowBuild>)
    requires sorted != [] && Descending(sorted)
    ensures forall i :: 0 <= i <= (|sorted| - 1) / 2 ==> sorted[i].duration >= MiddleOf(sorted)
    ensures forall i :: |sorted| / 2 <= i < |sorted| ==> sorted[i].duration <= MiddleOf(sorted)
  {
    var low, high := sorted[(|sorted| - 1) / 2].duration, sorted[|sorted| / 2].duration;
    assert low >= MiddleOf(sorted) >= high;
  }

  // ----- The summary -----

  lemma {:induction false} CounterBumps(m: map<string, nat>, records: seq<Record>, i: nat, p: string -> Record -> bool, key: string)
    requires i < |records| && IsCounter(m, records[..i], p)
    requires forall k :: p(k)(records[i]) <==> k == key
    ensures IsCounter(Bump(m, key), records[..i + 1], p)
  {
    forall k ensures CountIf(records[..i + 1], p(k)) == CountIf(records[..i], p(k)) + if k == key then 1 else 0 {
      CountNext(records, i, p(k));
    }
  }

  lemma {:induction false} CounterStays(m: map<string, nat>, records: seq<Record>, i: nat, p: string -> Record -> bool)
    requires i < |records| && IsCounter(m, records[..i], p)
    requires forall k :: !p(k)(records[i])
    ensures IsCounter(m, records[..i + 1], p)
  {
    forall k ensures CountIf(records[..i + 1], p(k)) == CountIf(records[..i], p(k)) {
      CountNext(records, i, p(k));
    }
  }

  /** The statuses that are counted as skipped, summed over the counter's keys. */
  method SumSkipped(statusCounts: map<string, nat>, ghost records: seq<Record>) returns (skipped: nat)
    requires IsCounter(statusCounts, records, HasStatus)
    ensures skipped == CountIf(records, IsSkippedRecord)
  {
    skipped := 0;
    var todo, done: set<string> := statusCounts.Keys, {};
    CountNone(records);
    while todo != {}
      invariant todo !! done && todo + done == statusCounts.Keys
      invariant skipped == CountIf(records, SkippedIn(done))
      decreases todo
    {
      var status :| status in todo;
      CountOneMore(records, done, status);
      if IsSkipped(status) {
        skipped := skipped + statusCounts[status];
      }
      todo, done := todo - {status}, done + {status};
    }
    CountSame(records, SkippedIn(done), IsSkippedRecord, statusCounts);
  }

  function SkippedIn(statuses: set<string>): Record -> bool { r => RecordStatus(r) in statuses && IsSkippedRecord(r) }

  lemma {:induction false} CountNone(records: seq<Record>)
    ensures CountIf(records, SkippedIn({})) == 0 && CountIf(records, StatusIn({})) == 0
  {
    if records != [] {
      CountNone(records[1..]);
    }
  }

  lemma {:induction false} CountOneMore(records: seq<Record>, done: set<string>, status: string)
    requires status !in done
    ensures CountIf(records, SkippedIn(done + {status})) ==
            CountIf(records, SkippedIn(done)) + if IsSkipped(status) then CountIf(records, HasStatus(status)) else 0
    ensures CountIf(records, StatusIn(done + {status})) == CountIf(records, StatusIn(done)) + CountIf(records, HasStatus(status))
  {
    if records != [] {
      CountOneMore(records[1..], done, status);
    }
  }

  lemma {:induction false} StatusIsCounted(records: seq<Record>, m: map<string, nat>)
    requires IsCounter(m, records, HasStatus)
    ensures forall i :: 0 <= i < |records| ==> RecordStatus(records[i]) in m
  {
    forall i | 0 <= i < |records| ensures RecordStatus(records[i]) in m {
      CountIsPositive(records, HasStatus(RecordStatus(records[i])));
      assert HasStatus(RecordStatus(records[i]))(records[i]);
    }
  }

  lemma {:induction false} CountEqual(records: seq<Record>, p: Record -> bool, q: Record -> bool)
    requires forall i :: 0 <= i < |records| ==> p(records[i]) == q(records[i])
    ensures CountIf(records, p) == CountIf(records, q)
  {
    if records != [] {
      CountEqual(records[1..], p, q);
    }
  }

  lemma {:induction false} CountSame(records: seq<Record>, p: Record -> bool, q: Record -> bool, m: map<string, nat>)
    requires IsCounter(m, records, HasStatus)
    requires p == SkippedIn(m.Keys) && forall r :: q(r) == IsSkippedRecord(r)
    ensures CountIf(records, p) == CountIf(records, q)
  {
    StatusIsCounted(records, m);
    CountEqual(records, p, q);
  }

  ghost predicate CountsMatch(s: Summary, records: seq<Record>) {
    s.total == |records| &&
    s.failed == CountIf(records, HasStatus("failed")) && s.successful == s.total - s.failed &&
    s.built == CountIf(records, HasStatus("built")) &&
    s.skipped == CountIf(records, IsSkippedRecord) &&
    CountersMatch(s.statusCounts, s.skipReasons, s.retried, records)
  }

  ghost predicate CountersMatch(statusCounts: map<string, nat>, skipReasons: map<string, nat>, retried: nat, records: seq<Record>) {
    IsCounter(statusCounts, records, HasStatus) && IsCounter(skipReasons, records, SkippedFor) &&
    retried == CountIf(records, IsRetried)
  }

  ghost predicate TimesMatch(s: Summary, records: seq<Record>) {
    IsEarliest(s.startedAt, Times(records, StartedAt)) && IsLatest(s.finishedAt, Times(records, FinishedAt)) &&
    s.wallClock == WallClock(s.startedAt, s.finishedAt) &&
    s.cumulativeDuration == SumFloatField(records, Duration) &&
    AreFloatSums(s.floatSums, FLOAT_FIELDS, records) && AreIntSums(s.intSums, INT_FIELDS, records)
  }

  ghost predicate BuildsMatch(s: Summary, records: seq<Record>, topN: int) {
    s.failures == Failures(records) &&
    s.slowest == Take(SortDescending(TimedBuilds(records)), topN) &&
    s.average == Average(TimedBuilds(records)) && s.median == Median(TimedBuilds(records)) &&
    IsMaximum(s.maxBuild, TimedBuilds(records))
  }

  ghost predicate IsSummary(s: Summary, records: seq<Record>, topN: int) {
    CountsMatch(s, records) && TimesMatch(s, records) && BuildsMatch(s, records, topN)
  }

  ghost predicate IsMaximum(m: Option<real>, builds: seq<SlowBuild>) {
    (m.None? <==> builds == []) &&
    (m.Some? ==> (forall b :: b in builds ==> b.duration <= m.value) && exists b :: b in builds && b.duration == m.value)
  }

  method MaxDuration(builds: seq<SlowBuild>) returns (m: Option<real>)
    ensures IsMaximum(m, builds)
  {
    m := None;
    for i := 0 to |builds|
      invariant IsMaximum(m, builds[..i])
    {
      assert builds[..i + 1] == builds[..i] + [builds[i]];
      assert builds[i] in builds[..i + 1];
      if m.None? || builds[i].duration > m.value {
        m := Some(builds[i].duration);
      }
    }
    assert builds[..|builds|] == builds;
  }

  lemma {:induction false} NextRecord(records: seq<Record>, i: nat)
    requires i < |records|
    ensures var r := records[i];
            TimedBuilds(records[..i + 1]) == TimedBuilds(records[..i]) + (if IsTimedBuild(r) then [SlowOf(r)] else []) &&
            Failures(records[..i + 1]) == Failures(records[..i]) + (if RecordStatus(r) == "failed" then [FailureOf(r)] else []) &&
            SumFloatField(records[..i + 1], Duration) ==
              SumFloatField(records[..i], Duration) + (if r.duration.Some? then r.duration.value else 0.0)
  {
    var r := records[i];
    assert records[..i + 1] == records[..i] + [r];
    TimedSum(records[..i], [r]);
    FailuresSum(records[..i], [r]);
    FloatSum(records[..i], [r], Duration);
  }

  lemma {:induction false} NextTimes(records: seq<Record>, i: nat, field: Record -> Option<int>)
    requires i < |records|
    ensures Times(records[..i + 1], field) == Times(records[..i], field) + TimeOf(field(records[i]))
  {
    var r := records[i];
    assert records[..i + 1] == records[..i] + [r];
    TimesSum(records[..i], [r], field);
    assert [r][1..] == [];
  }

  /** The counters of the loop. */
  method CountRecord(records: seq<Record>, i: nat, statusCounts: map<string, nat>, skipReasons: map<string, nat>, retried: nat)
    returns (statusCounts': map<string, nat>, skipReasons': map<string, nat>, retried': nat)
    requires i < |records| && CountersMatch(statusCounts, skipReasons, retried, records[..i])
    ensures CountersMatch(statusCounts', skipReasons', retried', records[..i + 1])
  {
    var record := records[i];
    var status := RecordStatus(record);
    statusCounts', skipReasons', retried' := Bump(statusCounts, status), skipReasons, retried;
    CounterBumps(statusCounts, records, i, HasStatus, status);
    CountNext(records, i, IsRetried);
    if AttemptCount(record) > 1 {
      retried' := retried' + 1;
    }
    if IsSkipped(status) {
      CounterBumps(skipReasons, records, i, SkippedFor, SkipReason(record));
      skipReasons' := Bump(skipReasons', SkipReason(record));
    } else {
      CounterStays(skipReasons, records, i, SkippedFor);
    }
  }

  method SummarizeBuildRecords(records: seq<Record>, topN: int) returns (s: Summary)
    ensures IsSummary(s, records, topN)
  {
    var statusCounts: map<string, nat>, skipReasons: map<string, nat>, retried: nat := map[], map[], 0;
    var started: seq<int>, finished: seq<int> := [], [];
    var candidates: seq<SlowBuild>, failures: seq<FailedBuild>, duration := [], [], 0.0;
    for i := 0 to |records|
      invariant CountersMatch(statusCounts, skipReasons, retried, records[..i])
      invariant started == Times(records[..i], StartedAt) && finished == Times(records[..i], FinishedAt)
      invariant candidates == TimedBuilds(records[..i]) && failures == Failures(records[..i])
      invariant duration == SumFloatField(records[..i], Duration)
    {
      var record := records[i];
      statusCounts, skipReasons, retried := CountRecord(records, i, statusCounts, skipReasons, retried);
      NextTimes(records, i, StartedAt);
      NextTimes(records, i, FinishedAt);
      NextRecord(records, i);
      if record.startedAt.Some? {
        started := started + [record.startedAt.value];
      }
      if record.finishedAt.Some? {
        finished := finished + [record.finishedAt.value];
      }
      if record.duration.Some? {
        duration := duration + record.duration.value;
      }
      if RecordStatus(record) == "built" && record.duration.Some? {
        candidates := candidates + [SlowOf(record)];
      }
      if RecordStatus(record) == "failed" {
        failures := failures + [FailureOf(record)];
      }
    }
    assert records[..|records|] == records;
    s := Finish(records, topN, statusCounts, skipReasons, retried, started, finished, candidates, failures, duration);
  }

  /** What is computed from the lists and counters after the loop. */
  method Finish(records: seq<Record>, topN: int, statusCounts: map<string, nat>, skipReasons: map<string, nat>, retried: nat,
                started: seq<int>, finished: seq<int>, candidates: seq<SlowBuild>, failures: seq<FailedBuild>, duration: real)
    returns (s: Summary)
    requires CountersMatch(statusCounts, skipReasons, retried, records)
    requires started == Times(records, StartedAt) && finished == Times(records, FinishedAt)
    requires candidates == TimedBuilds(records) && failures == Failures(records)
    requires duration == SumFloatField(records, Duration)
    ensures IsSummary(s, records, topN)
  {
    var total := |records|;
    var failed := CountFor(statusCounts, "failed");
    var skipped := SumSkipped(statusCounts, records);
    var built := CountFor(statusCounts, "built");
    var maxBuild := MaxDuration(candidates);
    var startedAt := Earliest(started);
    var finishedAt := Latest(finished);
    var floatSums := FloatSums(records, FLOAT_FIELDS);
    var intSums := IntSums(records, INT_FIELDS);
    s := Summary(total, total - failed, built, skipped, failed, retried, startedAt, finishedAt,
                 WallClock(startedAt, finishedAt), duration, floatSums, intSums, Average(candidates),
                 Median(candidates), maxBuild, statusCounts, skipReasons,
                 Take(SortDescending(candidates), topN), failures);
    CountOf(statusCounts, records, "failed");
    CountOf(statusCounts, records, "built");
    assert CountsMatch(s, records);
    assert TimesMatch(s, records) && BuildsMatch(s, records, topN);
  }

  lemma {:induction false} CountOf(m: map<string, nat>, records: seq<Record>, status: string)
    requires IsCounter(m, records, HasStatus)
    ensures CountFor(m, status) == CountIf(records, HasStatus(status)) <= |records|
  {
    CountAtMost(records, HasStatus(status));
  }

  lemma {:induction false} CountAtMost(records: seq<Record>, p: Record -> bool)
    ensures CountIf(records, p) <= |records|
  {
    if records != [] {
      CountAtMost(records[1..], p);
    }
  }

  // ----- What a summary says -----

  function Max(a: Option<real>, b: Option<real>): Option<real> {
    if a.None? then b else if b.None? then a else if a.value >= b.value then a else b
  }

  /** Summarising two manifests one after the other adds up their summaries. */
  lemma {:induction false} SummaryIsHomomorphism(a: seq<Record>, b: seq<Record>, n: int, sa: Summary, sb: Summary, s: Summary)
    requires IsSummary(sa, a, n) && IsSummary(sb, b, n) && IsSummary(s, a + b, n)
    ensures s.total == sa.total + sb.total && s.successful == sa.successful + sb.successful
    ensures s.built == sa.built + sb.built && s.skipped == sa.skipped + sb.skipped && s.failed == sa.failed + sb.failed
    ensures s.retried == sa.retried + sb.retried && s.cumulativeDuration == sa.cumulativeDuration + sb.cumulativeDuration
    ensures s.failures == sa.failures + sb.failures && s.maxBuild == Max(sa.maxBuild, sb.maxBuild)
    ensures forall k :: CountFor(s.statusCounts, k) == CountFor(sa.statusCounts, k) + CountFor(sb.statusCounts, k)
    ensures forall k :: CountFor(s.skipReasons, k) == CountFor(sa.skipReasons, k) + CountFor(sb.skipReasons, k)
  {
    CountsAdd(a, b, sa, sb, s);
    CountersAdd(a, b, sa.statusCounts, sb.statusCounts, s.statusCounts, HasStatus);
    CountersAdd(a, b, sa.skipReasons, sb.skipReasons, s.skipReasons, SkippedFor);
    FloatSum(a, b, Duration);
    FailuresSum(a, b);
    TimedSum(a, b);
    MaximumOfSum(sa.maxBuild, sb.maxBuild, s.maxBuild, TimedBuilds(a), TimedBuilds(b));
  }

  lemma {:induction false} CountsAdd(a: seq<Record>, b: seq<Record>, sa: Summary, sb: Summary, s: Summary)
    requires CountsMatch(sa, a) && CountsMatch(sb, b) && CountsMatch(s, a + b)
    ensures s.total == sa.total + sb.total && s.successful == sa.successful + sb.successful
    ensures s.built == sa.built + sb.built && s.skipped == sa.skipped + sb.skipped && s.failed == sa.failed + sb.failed
    ensures s.retried == sa.retried + sb.retried
  {
    CountSum(a, b, HasStatus("failed"));
    CountSum(a, b, HasStatus("built"));
    CountSum(a, b, IsSkippedRecord);
    CountSum(a, b, IsRetried);
  }

  lemma {:induction false} CountersAdd(a: seq<Record>, b: seq<Record>, ma: map<string, nat>, mb: map<string, nat>, m: map<string, nat>,
                                       p: string -> Record -> bool)
    requires IsCounter(ma, a, p) && IsCounter(mb, b, p) && IsCounter(m, a + b, p)
    ensures forall k :: CountFor(m, k) == CountFor(ma, k) + CountFor(mb, k)
  {
    forall k ensures CountFor(m, k) == CountFor(ma, k) + CountFor(mb, k) { CountSum(a, b, p(k)); }
  }

  lemma {:induction false} MaximumOfSum(ma: Option<real>, mb: Option<real>, m: Option<real>, a: seq<SlowBuild>, b: seq<SlowBuild>)
    requires IsMaximum(ma, a) && IsMaximum(mb, b) && IsMaximum(m, a + b)
    ensures m == Max(ma, mb)
  {
    assert forall x :: x in a + b <==> x in a || x in b;
    if a == [] { assert a + b == b; }
    if b == [] { assert a + b == a; }
  }

  function Earlier(a: Option<int>, b: Option<int>): Option<int> {
    if a.None? then b else if b.None? then a else if a.value <= b.value then a else b
  }

  function Later(a: Option<int>, b: Option<int>): Option<int> {
    if a.None? then b else if b.None? then a else if a.value >= b.value then a else b
  }

  lemma {:induction false} EarliestOfSum(ma: Option<int>, mb: Option<int>, m: Option<int>, a: seq<int>, b: seq<int>)
    requires IsEarliest(ma, a) && IsEarliest(mb, b) && IsEarliest(m, a + b)
    ensures m == Earlier(ma, mb)
  {
    assert forall x :: x in a + b <==> x in a || x in b;
    if a == [] { assert a + b == b; }
    if b == [] { assert a + b == a; }
  }

  lemma {:induction false} LatestOfSum(ma: Option<int>, mb: Option<int>, m: Option<int>, a: seq<int>, b: seq<int>)
    requires IsLatest(ma, a) && IsLatest(mb, b) && IsLatest(m, a + b)
    ensures m == Later(ma, mb)
  {
    assert forall x :: x in a + b <==> x in a || x in b;
    if a == [] { assert a + b == b; }
    if b == [] { assert a + b == a; }
  }

  /** Times and field sums of two manifests one after the other. */
  lemma {:induction false} TimesAreHomomorphic(a: seq<Record>, b: seq<Record>, n: int, sa: Summary, sb: Summary, s: Summary)
    requires IsSummary(sa, a, n) && IsSummary(sb, b, n) && IsSummary(s, a + b, n)
    ensures s.startedAt == Earlier(sa.startedAt, sb.startedAt) && s.finishedAt == Later(sa.finishedAt, sb.finishedAt)
    ensures forall name :: name in FLOAT_FIELDS ==>
              name in s.floatSums && name in sa.floatSums && name in sb.floatSums &&
              s.floatSums[name] == sa.floatSums[name] + sb.floatSums[name]
    ensures forall name :: name in INT_FIELDS ==>
              name in s.intSums && name in sa.intSums && name in sb.intSums &&
              s.intSums[name] == sa.intSums[name] + sb.intSums[name]
  {
    TimesSum(a, b, StartedAt);
    TimesSum(a, b, FinishedAt);
    EarliestOfSum(sa.startedAt, sb.startedAt, s.startedAt, Times(a, StartedAt), Times(b, StartedAt));
    LatestOfSum(sa.finishedAt, sb.finishedAt, s.finishedAt, Times(a, FinishedAt), Times(b, FinishedAt));
    FloatSumsAdd(FLOAT_FIELDS, a, b, sa.floatSums, sb.floatSums, s.floatSums);
    IntSumsAdd(INT_FIELDS, a, b, sa.intSums, sb.intSums, s.intSums);
  }

  lemma {:induction false} FloatSumsAdd(names: seq<string>, a: seq<Record>, b: seq<Record>,
                                        ma: map<string, real>, mb: map<string, real>, m: map<string, real>)
    requires AreFloatSums(ma, names, a) && AreFloatSums(mb, names, b) && AreFloatSums(m, names, a + b)
    ensures forall name :: name in names ==> name in m && name in ma && name in mb && m[name] == ma[name] + mb[name]
  {
    forall name | name in names ensures m[name] == ma[name] + mb[name] { FloatSum(a, b, Named(name)); }
  }

  lemma {:induction false} IntSumsAdd(names: seq<string>, a: seq<Record>, b: seq<Record>,
                                      ma: map<string, int>, mb: map<string, int>, m: map<string, int>)
    requires AreIntSums(ma, names, a) && AreIntSums(mb, names, b) && AreIntSums(m, names, a + b)
    ensures forall name :: name in names ==> name in m && name in ma && name in mb && m[name] == ma[name] + mb[name]
  {
    forall name | name in names ensures m[name] == ma[name] + mb[name] { IntSum(a, b, name); }
  }

  ghost function SumValues(m: map<string, nat>): nat {
    if m == map[] then 0 else m[AnyKey(m)] + SumValues(m - {AnyKey(m)})
  }

  ghost function AnyKey(m: map<string, nat>): string
    requires m != map[]
    ensures AnyKey(m) in m
  {
    var k :| k in m;
    k
  }

  lemma {:induction false} SumIsCount(m: map<string, nat>, records: seq<Record>)
    requires forall k :: k in m ==> m[k] == CountIf(records, HasStatus(k))
    ensures SumValues(m) == CountIf(records, StatusIn(m.Keys))
  {
    if m == map[] {
      CountNone(records);
      assert m.Keys == {};
    } else {
      var k := AnyKey(m);
      var rest := m - {k};
      SumIsCount(rest, records);
      CountOneMore(records, rest.Keys, k);
      assert rest.Keys + {k} == m.Keys;
    }
  }

  lemma {:induction false} CountAll(records: seq<Record>, p: Record -> bool)
    requires forall i :: 0 <= i < |records| ==> p(records[i])
    ensures CountIf(records, p) == |records|
  {
    if records != [] {
      CountAll(records[1..], p);
    }
  }

  /** The status counts partition the records, and there is one failed build per failure. */
  lemma {:induction false} CountsPartition(records: seq<Record>, n: int, s: Summary)
    requires IsSummary(s, records, n)
    ensures SumValues(s.statusCounts) == s.total
    ensures s.successful + s.failed == s.total && |s.failures| == s.failed
    ensures s.built + s.skipped + s.failed <= s.total
  {
    SumIsCount(s.statusCounts, records);
    StatusIsCounted(records, s.statusCounts);
    CountAll(records, StatusIn(s.statusCounts.Keys));
    FailuresAreCounted(records);
    ThreeKinds(records);
  }

  lemma {:induction false} ThreeKinds(records: seq<Record>)
    ensures CountIf(records, HasStatus("built")) + CountIf(records, IsSkippedRecord) + CountIf(records, HasStatus("failed")) <= |records|
  {
    if records != [] {
      ThreeKinds(records[1..]);
    }
  }

  // ----- The summary in terms of the fields -----

  /** A status of None or the empty text is no status. */
  predicate NoStatus(r: Record) { r.status == None || r.status == Some("") }

  predicate Failed(r: Record) {
    r.status == Some("failed") || (NoStatus(r) && ((r.error.Some? && r.error.value != "") || r.tags == []))
  }

  predicate Built(r: Record) {
    r.status == Some("built") || (NoStatus(r) && (r.error == None || r.error == Some("")) && r.tags != [])
  }

  predicate Skipped(r: Record) { r.status.Some? && "skipped" <= r.status.value }

  /** The reason given, or else the status without `skipped_`. */
  predicate HasReason(r: Record, reason: string) {
    if r.skipReason.Some? && r.skipReason.value != "" then r.skipReason.value == reason
    else r.status == Some("skipped_" + reason) || (r.status == Some(reason) && !("skipped_" <= reason))
  }

  predicate Retried(r: Record) { r.attemptCount.Some? && r.attemptCount.value > 1 }

  function WithStatus(status: string): Record -> bool { (r: Record) => r.status == Some(status) }

  function SkippedBecause(reason: string): Record -> bool { r => Skipped(r) && HasReason(r, reason) }

  /** How many records have a property. */
  ghost function Number(records: seq<Record>, p: Record -> bool): nat { |Places(records, p)| }

  ghost function Places(records: seq<Record>, p: Record -> bool): set<int> { set i | 0 <= i < |records| && p(records[i]) }

  lemma {:induction false} NumberIsCount(records: seq<Record>, p: Record -> bool, q: Record -> bool)
    requires forall r :: p(r) == q(r)
    ensures Number(records, p) == CountIf(records, q)
  {
    if records == [] {
      assert Places(records, p) == {};
    } else {
      var n := |records| - 1;
      var more := if p(records[n]) then {n} else {};
      NumberIsCount(records[..n], p, q);
      CountNext(records, n, q);
      assert records[..n + 1] == records;
      assert Places(records, p) == Places(records[..n], p) + more;
      assert n !in Places(records[..n], p);
    }
  }

  lemma {:induction false} StatusOf(r: Record)
    ensures RecordStatus(r) == "failed" <==> Failed(r)
    ensures RecordStatus(r) == "built" <==> Built(r)
    ensures "skipped" <= RecordStatus(r) <==> Skipped(r)
    ensures forall k :: k != "failed" && k != "built" ==> (RecordStatus(r) == k <==> r.status == Some(k) && k != "")
  {
    assert !("skipped" <= "failed") && !("skipped" <= "built");
  }

  lemma {:induction false} ReasonOf(r: Record, reason: string)
    requires Skipped(r)
    ensures SkipReason(r) == reason <==> HasReason(r, reason)
  {
    var status, prefix := r.status.value, "skipped_";
    assert RecordStatus(r) == status;
    if prefix <= status {
      assert status == prefix + status[|prefix|..];
      if status == prefix + reason { assert status[|prefix|..] == reason; }
    }
  }

  /** What the counters count. */
  lemma {:induction false} CountersByFields(records: seq<Record>, n: int, s: Summary)
    requires IsSummary(s, records, n)
    ensures s.total == |records|
    ensures s.failed == Number(records, Failed) && s.built == Number(records, Built)
    ensures s.skipped == Number(records, Skipped) && s.retried == Number(records, Retried)
    ensures CountFor(s.statusCounts, "failed") == s.failed && CountFor(s.statusCounts, "built") == s.built
    ensures forall k :: k != "failed" && k != "built" && k != "" ==>
              CountFor(s.statusCounts, k) == Number(records, WithStatus(k))
    ensures forall reason :: CountFor(s.skipReasons, reason) == Number(records, SkippedBecause(reason))
  {
    forall r ensures HasStatus("failed")(r) == Failed(r) && HasStatus("built")(r) == Built(r) && IsSkippedRecord(r) == Skipped(r) {
      StatusOf(r);
    }
    NumberIsCount(records, Failed, HasStatus("failed"));
    NumberIsCount(records, Built, HasStatus("built"));
    NumberIsCount(records, Skipped, IsSkippedRecord);
    NumberIsCount(records, Retried, IsRetried);
    forall k | k != "failed" && k != "built" && k != ""
      ensures CountFor(s.statusCounts, k) == Number(records, WithStatus(k))
    {
      forall r ensures HasStatus(k)(r) == (r.status == Some(k)) { StatusOf(r); }
      NumberIsCount(records, WithStatus(k), HasStatus(k));
    }
    forall reason ensures CountFor(s.skipReasons, reason) == Number(records, SkippedBecause(reason)) {
      forall r ensures SkippedFor(reason)(r) == (Skipped(r) && HasReason(r, reason)) {
        StatusOf(r);
        if Skipped(r) { ReasonOf(r, reason); }
      }
      NumberIsCount(records, SkippedBecause(reason), SkippedFor(reason));
    }
  }

  /** What one record adds to the two lists; by `FailuresSum` and `TimedSum` they are made up
      of these. */
  lemma {:induction false} ListsByFields(r: Record)
    ensures Failures([r]) ==
            if Failed(r) then [FailedBuild(if r.baseImage.Some? then r.baseImage.value else "unknown",
                                           if r.error.Some? && r.error.value != "" then r.error.value else "No tags generated",
                                           if r.attemptCount.Some? && r.attemptCount.value != 0 then r.attemptCount.value else 1)]
            else []
    ensures TimedBuilds([r]) ==
            if Built(r) && r.duration.Some? then
              [SlowBuild(if r.baseImage.Some? then r.baseImage.value else "unknown", r.duration.value,
                         if r.attemptCount.Some? && r.attemptCount.value != 0 then r.attemptCount.value else 1, "built")]
            else []
  {
    StatusOf(r);
    assert [r][1..] == [];
  }

  /** Dropping the fraction. */
  ghost predicate IsWholePart(t: int, x: real) {
    if x >= 0.0 then t as real <= x < (t + 1) as real else (t - 1) as real < x <= t as real
  }

  /** What one record adds to the sums; by `FloatSum` and `IntSum` they are made up of these. */
  lemma {:induction false} SumsByFields(r: Record, name: string)
    ensures SumFloatField([r], Duration) == if r.duration.Some? then r.duration.value else 0.0
    ensures SumFloatField([r], Named(name)) == if name in r.floats then r.floats[name] else 0.0
    ensures name !in r.others ==> SumIntField([r], name) == 0
    ensures name in r.others ==>
              match r.others[name]
              case BoolValue(b) => SumIntField([r], name) == if b then 1 else 0
              case IntValue(i) => SumIntField([r], name) == i
              case FloatValue(x) => IsWholePart(SumIntField([r], name), x)
              case TextValue(asInt) => SumIntField([r], name) == if asInt.Some? then asInt.value else 0
              case _ => SumIntField([r], name) == 0
  {
    assert [r][1..] == [];
  }

  lemma {:induction false} TimeOfRecord(records: seq<Record>, field: Record -> Option<int>, t: int)
    ensures t in Times(records, field) <==> exists r :: r in records && field(r) == Some(t)
  {
    if records != [] {
      TimeOfRecord(records[1..], field, t);
      if r :| r in records && field(r) == Some(t) {
        assert r == records[0] || r in records[1..];
      }
    }
  }

  lemma {:induction false} FirstStart(records: seq<Record>, m: Option<int>)
    requires IsEarliest(m, Times(records, StartedAt))
    ensures m.Some? ==> exists r :: r in records && r.startedAt == m
    ensures forall r :: r in records && r.startedAt.Some? ==> m.Some? && m.value <= r.startedAt.value
  {
    if m.Some? {
      TimeOfRecord(records, StartedAt, m.value);
      var r :| r in records && StartedAt(r) == Some(m.value);
    }
    forall r | r in records && r.startedAt.Some? ensures m.Some? && m.value <= r.startedAt.value {
      assert StartedAt(r) == Some(r.startedAt.value);
      TimeOfRecord(records, StartedAt, r.startedAt.value);
    }
  }

  lemma {:induction false} LastFinish(records: seq<Record>, m: Option<int>)
    requires IsLatest(m, Times(records, FinishedAt))
    ensures m.Some? ==> exists r :: r in records && r.finishedAt == m
    ensures forall r :: r in records && r.finishedAt.Some? ==> m.Some? && r.finishedAt.value <= m.value
  {
    if m.Some? {
      TimeOfRecord(records, FinishedAt, m.value);
      var r :| r in records && FinishedAt(r) == Some(m.value);
    }
    forall r | r in records && r.finishedAt.Some? ensures m.Some? && r.finishedAt.value <= m.value {
      assert FinishedAt(r) == Some(r.finishedAt.value);
      TimeOfRecord(records, FinishedAt, r.finishedAt.value);
    }
  }

  /** The start of the first build and the end of the last, and the time in between. */
  lemma {:induction false} TimesByFields(records: seq<Record>, n: int, s: Summary)
    requires IsSummary(s, records, n)
    ensures s.startedAt.Some? ==> exists r :: r in records && r.startedAt == s.startedAt
    ensures forall r :: r in records && r.startedAt.Some? ==> s.startedAt.Some? && s.startedAt.value <= r.startedAt.value
    ensures s.finishedAt.Some? ==> exists r :: r in records && r.finishedAt == s.finishedAt
    ensures forall r :: r in records && r.finishedAt.Some? ==> s.finishedAt.Some? && r.finishedAt.value <= s.finishedAt.value
    ensures s.wallClock == if s.startedAt.Some? && s.finishedAt.Some? then Some(s.finishedAt.value - s.startedAt.value) else None
  {
    FirstStart(records, s.startedAt);
    LastFinish(records, s.finishedAt);
  }

  /** The average of some builds times their number is the sum of their durations. */
  lemma {:induction false} AverageOf(builds: seq<SlowBuild>)
    requires builds != []
    ensures Average(builds).Some? && Average(builds).value * |builds| as real == SumDurations(builds)
  {
    DivideBack(SumDurations(builds), |builds| as real, Average(builds).value);
  }

  lemma {:induction false} DivideBack(x: real, y: real, q: real)
    requires y > 0.0 && q == x / y
    ensures q * y == x
  {
  }

  /** The fields that are summed. */
  lemma {:induction false} SummedFields(records: seq<Record>, n: int, s: Summary, name: string)
    requires IsSummary(s, records, n)
    ensures name in {"remote_check_seconds", "build_seconds", "post_build_seconds", "sdk_build_context_seconds",
                     "sdk_buildx_wall_clock_seconds", "sdk_cleanup_seconds", "sdk_cache_import_seconds",
                     "sdk_cache_export_seconds", "sdk_image_export_seconds", "sdk_push_layers_seconds",
                     "sdk_export_manifest_seconds"} ==>
              name in s.floatSums && s.floatSums[name] == SumFloatField(records, Named(name))
    ensures name == "sdk_cache_import_miss_count" || name == "sdk_cached_step_count" ==>
              name in s.intSums && s.intSums[name] == SumIntField(records, name)
  {
  }

  lemma {:induction false} SplitSorted(builds: seq<SlowBuild>, sorted: seq<SlowBuild>, k: nat)
    requires Descending(sorted) && multiset(sorted) == multiset(builds) && k <= |sorted|
    ensures multiset(sorted[..k]) + multiset(sorted[k..]) == multiset(builds)
    ensures forall b, c :: b in sorted[..k] && c in sorted[k..] ==> b.duration >= c.duration
  {
    assert sorted == sorted[..k] + sorted[k..];
  }

  lemma {:induction false} FirstIsMaximum(builds: seq<SlowBuild>, sorted: seq<SlowBuild>, m: Option<real>)
    requires Descending(sorted) && multiset(sorted) == multiset(builds) && IsMaximum(m, builds) && sorted != []
    ensures m == Some(sorted[0].duration)
  {
    assert sorted[0] in multiset(sorted);
    assert sorted[0] in builds;
    var top :| top in builds && top.duration == m.value;
    assert top in multiset(sorted);
  }

  lemma {:induction false} SameLength(a: seq<SlowBuild>, b: seq<SlowBuild>)
    requires multiset(a) == multiset(b)
    ensures |a| == |b|
  {
    assert |multiset(a)| == |a| && |multiset(b)| == |b|;
  }

  /** The slowest list is descending; listed and omitted builds together are the timed
      builds; no omitted build is slower than a listed one. */
  lemma {:induction false} SlowestAreSlowest(records: seq<Record>, n: int, s: Summary) returns (omitted: seq<SlowBuild>)
    requires IsSummary(s, records, n)
    ensures multiset(s.slowest) + multiset(omitted) == multiset(TimedBuilds(records))
    ensures Descending(s.slowest)
    ensures forall b, c :: b in s.slowest && c in omitted ==> b.duration >= c.duration
    ensures n >= 0 ==> |s.slowest| == if n <= |TimedBuilds(records)| then n else |TimedBuilds(records)|
    ensures s.slowest != [] ==> s.maxBuild == Some(s.slowest[0].duration)
  {
    var builds := TimedBuilds(records);
    var sorted := SortDescending(builds);
    SortSorts(builds);
    SameLength(sorted, builds);
    var k := |s.slowest|;
    assert s.slowest == sorted[..k];
    omitted := sorted[k..];
    SplitSorted(builds, sorted, k);
    if s.slowest != [] {
      FirstIsMaximum(builds, sorted, s.maxBuild);
    }
  }

  // ----- The slowest builds of parts -----

  /** Two descending lists as one, the first before the second among equals. */
  function Merge(x: seq<SlowBuild>, y: seq<SlowBuild>): seq<SlowBuild>
    decreases |x| + |y|
  {
    if x == [] then y
    else if y == [] then x
    else if x[0].duration >= y[0].duration then [x[0]] + Merge(x[1..], y)
    else [y[0]] + Merge(x, y[1..])
  }

  lemma {:induction false} InsertMerge(b: SlowBuild, x: seq<SlowBuild>, y: seq<SlowBuild>)
    ensures Insert(b, Merge(x, y)) == Merge(Insert(b, x), y)
    decreases |x| + |y|
  {
    if x == [] {
      InsertIsMerge(b, y);
      assert Insert(b, x) == [b];
    } else if y != [] {
      if x[0].duration >= y[0].duration {
        if x[0].duration <= b.duration {
          assert ([b] + x)[1..] == x;
        } else {
          InsertMerge(b, x[1..], y);
          assert ([x[0]] + Insert(b, x[1..]))[1..] == Insert(b, x[1..]);
          assert ([x[0]] + Merge(x[1..], y))[1..] == Merge(x[1..], y);
        }
      } else {
        assert ([y[0]] + Merge(x, y[1..]))[1..] == Merge(x, y[1..]);
        if y[0].duration <= b.duration {
          assert ([b] + x)[1..] == x;
        } else {
          InsertMerge(b, x, y[1..]);
        }
      }
    }
  }

  lemma {:induction false} InsertIsMerge(b: SlowBuild, y: seq<SlowBuild>)
    ensures Insert(b, y) == Merge([b], y)
  {
    if y != [] {
      assert [b][1..] == [];
      if y[0].duration > b.duration {
        InsertIsMerge(b, y[1..]);
      }
    }
  }

  lemma {:induction false} SortOfSum(a: seq<SlowBuild>, b: seq<SlowBuild>)
    ensures SortDescending(a + b) == Merge(SortDescending(a), SortDescending(b))
  {
    if a == [] {
      assert a + b == b;
    } else {
      assert (a + b)[1..] == a[1..] + b;
      SortOfSum(a[1..], b);
      InsertMerge(a[0], SortDescending(a[1..]), SortDescending(b));
    }
  }

  lemma {:induction false} SortedStays(s: seq<SlowBuild>)
    requires Descending(s)
    ensures SortDescending(s) == s
  {
    if s != [] {
      SortedStays(s[1..]);
      assert s == [s[0]] + s[1..];
    }
  }

  lemma {:induction false} MergeTakes(x: seq<SlowBuild>, y: seq<SlowBuild>, kx: nat, ky: nat)
    requires x != [] && y != [] && kx > 0 && ky > 0
    ensures Merge(Take(x, kx), Take(y, ky)) ==
            if x[0].duration >= y[0].duration then [x[0]] + Merge(Take(x[1..], kx - 1), Take(y, ky))
            else [y[0]] + Merge(Take(x, kx), Take(y[1..], ky - 1))
  {
    TakeRest(x, kx);
    TakeRest(y, ky);
  }

  lemma {:induction false} TopOfMerge(x: seq<SlowBuild>, y: seq<SlowBuild>, n: nat, kx: nat, ky: nat)
    requires n <= kx && n <= ky
    ensures Take(Merge(x, y), n) == Take(Merge(Take(x, kx), Take(y, ky)), n)
    decreases |x| + |y|
  {
    if n == 0 {
      assert Take(Merge(x, y), 0) == [] == Take(Merge(Take(x, kx), Take(y, ky)), 0);
    } else if x == [] || y == [] {
      TopOfOne(x, y, n, kx, ky);
    } else if x[0].duration >= y[0].duration {
      TopOfMerge(x[1..], y, n - 1, kx - 1, ky);
      MergeTakes(x, y, kx, ky);
      SameFirst(x[0], Merge(x[1..], y), Merge(Take(x[1..], kx - 1), Take(y, ky)), n);
    } else {
      TopOfMerge(x, y[1..], n - 1, kx, ky - 1);
      MergeTakes(x, y, kx, ky);
      SameFirst(y[0], Merge(x, y[1..]), Merge(Take(x, kx), Take(y[1..], ky - 1)), n);
    }
  }

  lemma {:induction false} SameFirst<T>(first: T, s: seq<T>, t: seq<T>, n: nat)
    requires n > 0 && Take(s, n - 1) == Take(t, n - 1)
    ensures Take([first] + s, n) == Take([first] + t, n)
  {
    TakeCons(first, s, n);
    TakeCons(first, t, n);
  }

  lemma {:induction false} TopOfOne(x: seq<SlowBuild>, y: seq<SlowBuild>, n: nat, kx: nat, ky: nat)
    requires n <= kx && n <= ky && (x == [] || y == [])
    ensures Take(Merge(x, y), n) == Take(Merge(Take(x, kx), Take(y, ky)), n)
  {
  }

  lemma {:induction false} TakeRest<T>(s: seq<T>, n: nat)
    requires s != [] && n > 0
    ensures Take(s, n) != [] && Take(s, n)[0] == s[0] && Take(s, n)[1..] == Take(s[1..], n - 1)
  {
  }

  lemma {:induction false} TakeCons<T>(x: T, s: seq<T>, n: nat)
    requires n > 0
    ensures Take([x] + s, n) == [x] + Take(s, n - 1)
  {
  }

  lemma {:induction false} TopIsSorted(s: seq<SlowBuild>, n: nat)
    ensures SortDescending(Take(SortDescending(s), n)) == Take(SortDescending(s), n)
  {
    SortSorts(s);
    SortedStays(Take(SortDescending(s), n));
  }

  lemma {:induction false} TopOfSum(a: seq<SlowBuild>, b: seq<SlowBuild>, n: nat)
    ensures Take(SortDescending(a + b), n) ==
            Take(SortDescending(Take(SortDescending(a), n) + Take(SortDescending(b), n)), n)
  {
    var x, y := SortDescending(a), SortDescending(b);
    SortOfSum(a, b);
    SortOfSum(Take(x, n), Take(y, n));
    TopIsSorted(a, n);
    TopIsSorted(b, n);
    TopOfMerge(x, y, n, n, n);
  }

  /** The slowest builds of two manifests together are the slowest of their two lists. */
  lemma {:induction false} SlowestOfParts(a: seq<Record>, b: seq<Record>, n: nat, sa: Summary, sb: Summary, s: Summary)
    requires IsSummary(sa, a, n) && IsSummary(sb, b, n) && IsSummary(s, a + b, n)
    ensures s.slowest == Take(SortDescending(sa.slowest + sb.slowest), n)
  {
    TimedSum(a, b);
    TopOfSum(TimedBuilds(a), TimedBuilds(b), n);
  }
}
