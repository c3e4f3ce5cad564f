/** The BuildKit reset throttle: a file with at most three time stamps against the
    whole history of resets. */
module ResetThrottle {

  datatype Kind = Restart | Partial | Full

  function Strength(k: Kind): nat {
    match k case Restart => 0 case Partial => 1 case Full => 2
  }

  /** The contents of the state file. */
  type Slots = map<Kind, real>

  function Max(a: real, b: real): real { if a < b then b else a }

  function Slot(state: Slots, k: Kind): real { if k in state then state[k] else 0.0 }

  /** Latest slot of a kind at least as strong; 0 if there is none.  For a restart that
      is the maximum of all values, which need not be 0 or more. */
  function LastResetForKind(k: Kind, state: Slots): real {
    match k
    case Full => Slot(state, Full)
    case Partial => Max(Slot(state, Partial), Slot(state, Full))
    case Restart =>
      MaxOf(Values(state))
  }

  function Values(state: Slots): seq<real> {
    (if Restart in state then [state[Restart]] else []) + (if Partial in state then [state[Partial]] else [])
    + (if Full in state then [state[Full]] else [])
  }

  /** `max(values, default=0.0)` */
  function MaxOf(values: seq<real>): real {
    if values == [] then 0.0
    else if |values| == 1 then values[0]
    else Max(values[0], MaxOf(values[1..]))
  }

  predicate ShouldThrottle(k: Kind, state: Slots, now: real, throttleSec: int) {
    throttleSec > 0 &&
    var last := LastResetForKind(k, state);
    last > 0.0 && now - last < throttleSec as real
  }

  // ----- One reset request -----

  /** A request under the lock: the clock reading, whether the state file could be read
      (an unreadable one counts as empty), and whether it could be written. */
  datatype Request = Request(kind: Kind, now: real, readable: bool, writable: bool)

  datatype Reset = Reset(kind: Kind, time: real)

  function Seen(state: Slots, r: Request): Slots { if r.readable then state else map[] }

  // ----- The history as reference -----

  predicate AtLeast(e: Reset, k: Kind) { Strength(e.kind) >= Strength(k) }

  /** Some reset at least as strong happened less than the throttle time ago. */
  ghost predicate TooSoon(r: Request, history: seq<Reset>, throttleSec: int) {
    throttleSec > 0 &&
    exists e :: e in history && AtLeast(e, r.kind) && r.now - e.time < throttleSec as real
  }

  /** Each slot holds a recorded reset of its kind, the latest one when the throttle is
      on; all times are positive. */
  ghost predicate Summarises(state: Slots, history: seq<Reset>, throttleSec: int) {
    (forall e :: e in history ==> e.time > 0.0 && e.kind in state) &&
    (forall k :: k in state ==> Reset(k, state[k]) in history) &&
    (throttleSec > 0 ==> forall e :: e in history ==> e.time <= state[e.kind])
  }

  lemma {:induction false} MaxOfIsMaximum(values: seq<real>)
    ensures values != [] ==> MaxOf(values) in values
    ensures forall v :: v in values ==> v <= MaxOf(values)
  {
    if |values| > 1 {
      MaxOfIsMaximum(values[1..]);
      assert values == [values[0]] + values[1..];
    }
  }

  lemma {:induction false} ValuesOf(state: Slots, v: real)
    ensures v in Values(state) <==> exists k :: k in state && state[k] == v
  {
    if k :| k in state && state[k] == v {
      match k {
        case Restart => assert v in Values(state);
        case Partial => assert v in Values(state);
        case Full => assert v in Values(state);
      }
    }
  }

  lemma {:induction false} LastIsASlot(k: Kind, state: Slots)
    ensures LastResetForKind(k, state) > 0.0 ==>
              exists j :: j in state && Strength(j) >= Strength(k) && state[j] == LastResetForKind(k, state)
    ensures forall j :: j in state && Strength(j) >= Strength(k) ==> state[j] <= LastResetForKind(k, state)
  {
    var last := LastResetForKind(k, state);
    if k == Restart {
      MaxOfIsMaximum(Values(state));
      ValuesOf(state, last);
      forall j | j in state ensures state[j] in Values(state) { ValuesOf(state, state[j]); }
    } else if Full in state && state[Full] == last {
      assert Strength(Full) >= Strength(k);
    }
  }

  /** The three slots and the whole recorded history give the same decision. */
  lemma {:induction false} ThrottleIsHistory(r: Request, state: Slots, history: seq<Reset>, throttleSec: int)
    requires Summarises(state, history, throttleSec)
    ensures ShouldThrottle(r.kind, state, r.now, throttleSec) <==> TooSoon(r, history, throttleSec)
  {
    LastIsASlot(r.kind, state);
    if ShouldThrottle(r.kind, state, r.now, throttleSec) {
      var j :| j in state && Strength(j) >= Strength(r.kind) && state[j] == LastResetForKind(r.kind, state);
      assert AtLeast(Reset(j, state[j]), r.kind);
    }
    if TooSoon(r, history, throttleSec) {
      var e :| e in history && AtLeast(e, r.kind) && r.now - e.time < throttleSec as real;
      assert e.time <= state[e.kind] <= LastResetForKind(r.kind, state);
    }
  }

  /** A reset that was not throttled is later than its slot, so overwriting the slot
      keeps the summary. */
  lemma {:induction false} RecordKeepsSummary(r: Request, state: Slots, history: seq<Reset>, throttleSec: int)
    requires Summarises(state, history, throttleSec) && r.now > 0.0
    requires !ShouldThrottle(r.kind, state, r.now, throttleSec)
    ensures Summarises(state[r.kind := r.now], history + [Reset(r.kind, r.now)], throttleSec)
  {
    LastIsASlot(r.kind, state);
    if throttleSec > 0 && r.kind in state {
      assert state[r.kind] <= r.now;
    }
  }

  // ----- Runs -----

  /** The state file and the two histories. */
  datatype Log = Log(executed: seq<Reset>, recorded: seq<Reset>, state: Slots)

  const EMPTY_LOG := Log([], [], map[])

  function LogStep(l: Log, r: Request, throttleSec: int): Log {
    var seen, history := Seen(l.state, r), if r.readable then l.recorded else [];
    if ShouldThrottle(r.kind, seen, r.now, throttleSec) then l
    else
      var reset := Reset(r.kind, r.now);
      if r.writable then Log(l.executed + [reset], history + [reset], seen[r.kind := r.now])
      else l.(executed := l.executed + [reset])
  }

  function Run(l: Log, requests: seq<Request>, throttleSec: int): Log
    decreases |requests|
  {
    if requests == [] then l else Run(LogStep(l, requests[0], throttleSec), requests[1..], throttleSec)
  }

  /** Of two resets, the earlier at least as strong, the later one is a full throttle
      time after it. */
  ghost predicate Spaced(history: seq<Reset>, throttleSec: int) {
    forall i, j :: 0 <= i < j < |history| && AtLeast(history[i], history[j].kind) ==>
      history[j].time - history[i].time >= throttleSec as real
  }

  ghost predicate LogInvariant(l: Log, throttleSec: int) {
    Summarises(l.state, l.recorded, throttleSec) && Spaced(l.recorded, throttleSec)
  }

  lemma {:induction false} StepKeepsInvariant(l: Log, r: Request, throttleSec: int)
    requires LogInvariant(l, throttleSec) && r.now > 0.0 && throttleSec > 0
    ensures LogInvariant(LogStep(l, r, throttleSec), throttleSec)
    ensures l.executed == l.recorded && r.readable && r.writable ==>
              LogStep(l, r, throttleSec).executed == LogStep(l, r, throttleSec).recorded
  {
    var seen, history := Seen(l.state, r), if r.readable then l.recorded else [];
    assert Summarises(seen, history, throttleSec);
    if !ShouldThrottle(r.kind, seen, r.now, throttleSec) {
      RecordKeepsSummary(r, seen, history, throttleSec);
      ThrottleIsHistory(r, seen, history, throttleSec);
      var longer := history + [Reset(r.kind, r.now)];
      forall i, j | 0 <= i < j < |longer| && AtLeast(longer[i], longer[j].kind)
        ensures longer[j].time - longer[i].time >= throttleSec as real
      {
        assert longer[i] == history[i] && history[i] in history;
      }
    }
  }

  /** Over every run of requests with a positive clock, in whatever order the clock
      readings come and whichever accesses to the state file fail: the decision is
      always that of the recorded history, and the recorded resets are spaced. */
  lemma {:induction false} RunKeepsInvariant(l: Log, requests: seq<Request>, throttleSec: int)
    requires throttleSec > 0 && LogInvariant(l, throttleSec)
    requires forall r :: r in requests ==> r.now > 0.0
    ensures LogInvariant(Run(l, requests, throttleSec), throttleSec)
    ensures l.executed == l.recorded && (forall r :: r in requests ==> r.readable && r.writable) ==>
              Run(l, requests, throttleSec).executed == Run(l, requests, throttleSec).recorded
    decreases |requests|
  {
    if requests != [] {
      StepKeepsInvariant(l, requests[0], throttleSec);
      RunKeepsInvariant(LogStep(l, requests[0], throttleSec), requests[1..], throttleSec);
    }
  }

  /** If the state file never fails, any two resets carried out, the earlier at least as
      strong, are a full throttle time apart. */
  lemma {:induction false} ExecutedResetsAreSpaced(requests: seq<Request>, throttleSec: int)
    requires throttleSec > 0
    requires forall r :: r in requests ==> r.now > 0.0 && r.readable && r.writable
    ensures Spaced(Run(EMPTY_LOG, requests, throttleSec).executed, throttleSec)
  {
    RunKeepsInvariant(EMPTY_LOG, requests, throttleSec);
  }

  /** Refused requests are exactly those that come too soon after the history. */
  lemma {:induction false} RefusedIsTooSoon(requests: seq<Request>, r: Request, throttleSec: int)
    requires throttleSec > 0
    requires forall q :: q in requests ==> q.now > 0.0 && q.readable && q.writable
    requires r.now > 0.0 && r.readable
    ensures var l := Run(EMPTY_LOG, requests, throttleSec);
            LogStep(l, r, throttleSec).executed == l.executed <==> TooSoon(r, l.executed, throttleSec)
  {
    RunKeepsInvariant(EMPTY_LOG, requests, throttleSec);
    var l := Run(EMPTY_LOG, requests, throttleSec);
    ThrottleIsHistory(r, l.state, l.recorded, throttleSec);
    assert |l.executed + [Reset(r.kind, r.now)]| != |l.executed|;
  }

  /** One failed write is enough to lose the spacing. */
  lemma {:induction false} FailedWriteLosesSpacing()
    ensures var requests := [Request(Full, 100.0, true, false), Request(Full, 101.0, true, true)];
            Run(EMPTY_LOG, requests, 300).executed == [Reset(Full, 100.0), Reset(Full, 101.0)]
  {
    var r0, r1 := Request(Full, 100.0, true, false), Request(Full, 101.0, true, true);
    var l1 := LogStep(EMPTY_LOG, r0, 300);
    assert [r0, r1][1..] == [r1] && [r1][1..] == [];
    assert l1 == Log([Reset(Full, 100.0)], [], map[]);
    assert LogStep(l1, r1, 300).executed == [Reset(Full, 100.0), Reset(Full, 101.0)];
  }

  // ----- Which faults are harmless -----

  /** A run with the given faults: one flag of each kind per request, and a positive clock. */
  ghost predicate HasFaults(requests: seq<Request>, rd: seq<bool>, wr: seq<bool>) {
    |requests| == |rd| == |wr| &&
    forall i :: 0 <= i < |requests| ==> requests[i].readable == rd[i] && requests[i].writable == wr[i] && requests[i].now > 0.0
  }

  /** Only the first read and the last write may fail: nothing is there to be read before
      the first request, and nothing reads what the last one writes. */
  predicate Harmless(rd: seq<bool>, wr: seq<bool>) {
    (forall i :: 0 < i < |rd| ==> rd[i]) && (forall i :: 0 <= i < |wr| - 1 ==> wr[i])
  }

  ghost predicate AlwaysSpaced(rd: seq<bool>, wr: seq<bool>, throttleSec: int) {
    forall requests :: HasFaults(requests, rd, wr) ==> Spaced(Run(EMPTY_LOG, requests, throttleSec).executed, throttleSec)
  }

  lemma {:induction false} RunAppend(l: Log, requests: seq<Request>, r: Request, throttleSec: int)
    ensures Run(l, requests + [r], throttleSec) == LogStep(Run(l, requests, throttleSec), r, throttleSec)
    decreases |requests|
  {
    if requests == [] {
      assert [] + [r] == [r] && [r][1..] == [];
    } else {
      assert (requests + [r])[1..] == requests[1..] + [r];
      RunAppend(LogStep(l, requests[0], throttleSec), requests[1..], r, throttleSec);
    }
  }

  lemma {:induction false} RunPrefix(requests: seq<Request>, i: nat, throttleSec: int)
    requires i < |requests|
    ensures Run(EMPTY_LOG, requests[..i + 1], throttleSec) ==
            LogStep(Run(EMPTY_LOG, requests[..i], throttleSec), requests[i], throttleSec)
  {
    assert requests[..i + 1] == requests[..i] + [requests[i]];
    RunAppend(EMPTY_LOG, requests[..i], requests[i], throttleSec);
  }

  /** Before the last request, harmless faults leave every executed reset on record. */
  lemma {:induction false} HarmlessKeepsRecord(requests: seq<Request>, rd: seq<bool>, wr: seq<bool>, throttleSec: int, n: nat)
    requires throttleSec > 0 && HasFaults(requests, rd, wr) && Harmless(rd, wr)
    requires n < |requests|
    ensures var l := Run(EMPTY_LOG, requests[..n], throttleSec);
            LogInvariant(l, throttleSec) && l.executed == l.recorded
  {
    if n > 0 {
      HarmlessKeepsRecord(requests, rd, wr, throttleSec, n - 1);
      RunPrefix(requests, n - 1, throttleSec);
      var l, r := Run(EMPTY_LOG, requests[..n - 1], throttleSec), requests[n - 1];
      assert wr[n - 1];
      StepKeepsInvariant(l, r, throttleSec);
      if n == 1 {
        assert l == EMPTY_LOG;
      } else {
        assert rd[n - 1];
      }
    }
  }

  lemma {:induction false} HarmlessIsSpaced(requests: seq<Request>, rd: seq<bool>, wr: seq<bool>, throttleSec: int)
    requires throttleSec > 0 && HasFaults(requests, rd, wr) && Harmless(rd, wr)
    ensures Spaced(Run(EMPTY_LOG, requests, throttleSec).executed, throttleSec)
  {
    if requests != [] {
      var n := |requests| - 1;
      HarmlessKeepsRecord(requests, rd, wr, throttleSec, n);
      RunPrefix(requests, n, throttleSec);
      assert requests[..n + 1] == requests;
      var l, r := Run(EMPTY_LOG, requests[..n], throttleSec), requests[n];
      var w := r.(readable := true, writable := true);
      StepKeepsInvariant(l, w, throttleSec);
      if n == 0 {
        assert l == EMPTY_LOG;
      } else {
        assert rd[n];
      }
      assert LogStep(l, r, throttleSec).executed == LogStep(l, w, throttleSec).recorded;
    }
  }

  lemma {:induction false} ExecutedGrows(requests: seq<Request>, i: nat, j: nat, throttleSec: int)
    requires i <= j <= |requests|
    ensures Run(EMPTY_LOG, requests[..i], throttleSec).executed <= Run(EMPTY_LOG, requests[..j], throttleSec).executed
  {
    if i < j {
      ExecutedGrows(requests, i, j - 1, throttleSec);
      RunPrefix(requests, j - 1, throttleSec);
    }
  }

  /** Full resets at intervals of the throttle time, except that request i comes after half
      of it. */
  function Hasty(rd: seq<bool>, wr: seq<bool>, throttleSec: int, i: nat): seq<Request>
    requires |rd| == |wr|
  {
    seq(|rd|, k requires 0 <= k < |rd| => Request(Full, HastyTime(throttleSec, i, k), rd[k], wr[k]))
  }

  function HastyTime(throttleSec: int, i: nat, k: nat): real {
    var t := throttleSec as real;
    if k < i then k as real * t + t else (k as real * t) + t / 2.0
  }

  lemma {:induction false} HastyTimes(throttleSec: int, i: nat, j: nat, k: nat)
    requires throttleSec > 0 && j < k
    ensures HastyTime(throttleSec, i, j) > 0.0
    ensures k < i ==> HastyTime(throttleSec, i, k) - HastyTime(throttleSec, i, j) >= throttleSec as real
    ensures k == i && j == i - 1 ==> 0.0 < HastyTime(throttleSec, i, k) - HastyTime(throttleSec, i, j) < throttleSec as real
    ensures k == i && j < i - 1 ==> HastyTime(throttleSec, i, k) - HastyTime(throttleSec, i, j) >= throttleSec as real
  {
    var t := throttleSec as real;
    Multiples(j as real, (k - 1) as real, t);
    assert k as real * t == (k - 1) as real * t + t;
    if k == i && j < i - 1 {
      Multiples(j as real, (k - 2) as real, t);
      assert (k - 1) as real * t == (k - 2) as real * t + t;
    }
  }

  lemma {:induction false} Multiples(a: real, b: real, t: real)
    requires 0.0 <= a <= b && t > 0.0
    ensures 0.0 <= a * t <= b * t
  {
    assert b * t - a * t == (b - a) * t;
  }

  /** A request that comes late enough after every reset on record is carried out. */
  lemma {:induction false} LateIsExecuted(l: Log, r: Request, throttleSec: int)
    requires LogInvariant(l, throttleSec)
    requires r.readable ==> forall e :: e in l.recorded ==> r.now - e.time >= throttleSec as real
    ensures LogStep(l, r, throttleSec).executed == l.executed + [Reset(r.kind, r.now)]
    ensures forall e :: e in LogStep(l, r, throttleSec).recorded ==> e in l.recorded || (r.writable && e == Reset(r.kind, r.now))
  {
    var history := if r.readable then l.recorded else [];
    assert Summarises(Seen(l.state, r), history, throttleSec);
    ThrottleIsHistory(r, Seen(l.state, r), history, throttleSec);
  }

  /** On record are only resets of the hasty run before n whose write succeeded. */
  ghost predicate OnRecord(l: Log, wr: seq<bool>, throttleSec: int, i: nat, n: nat) {
    forall e :: e in l.recorded ==> exists k :: 0 <= k < n && k < |wr| && wr[k] && e == Reset(Full, HastyTime(throttleSec, i, k))
  }

  ghost predicate AllExecuted(l: Log, throttleSec: int, i: nat, n: nat) {
    |l.executed| == n && forall k :: 0 <= k < n ==> l.executed[k] == Reset(Full, HastyTime(throttleSec, i, k))
  }

  lemma {:induction false} RecordIsLate(l: Log, wr: seq<bool>, throttleSec: int, i: nat, n: nat)
    requires throttleSec > 0 && OnRecord(l, wr, throttleSec, i, n) && n <= i
    requires n < i || n == 0 || (n <= |wr| && !wr[n - 1])
    ensures forall e :: e in l.recorded ==> HastyTime(throttleSec, i, n) - e.time >= throttleSec as real
  {
    forall e | e in l.recorded ensures HastyTime(throttleSec, i, n) - e.time >= throttleSec as real {
      var k :| 0 <= k < n && k < |wr| && wr[k] && e == Reset(Full, HastyTime(throttleSec, i, k));
      HastyTimes(throttleSec, i, k, n);
    }
  }

  lemma {:induction false} RecordGrows(l: Log, l': Log, wr: seq<bool>, throttleSec: int, i: nat, n: nat)
    requires OnRecord(l, wr, throttleSec, i, n) && n < |wr|
    requires forall e :: e in l'.recorded ==> e in l.recorded || (wr[n] && e == Reset(Full, HastyTime(throttleSec, i, n)))
    ensures OnRecord(l', wr, throttleSec, i, n + 1)
  {
    forall e | e in l'.recorded
      ensures exists k :: 0 <= k < n + 1 && k < |wr| && wr[k] && e == Reset(Full, HastyTime(throttleSec, i, k))
    {
      if e in l.recorded {
        var k :| 0 <= k < n && k < |wr| && wr[k] && e == Reset(Full, HastyTime(throttleSec, i, k));
      }
    }
  }

  /** Up to request i all resets of the hasty run are carried out. */
  lemma {:induction false} HastyRuns(rd: seq<bool>, wr: seq<bool>, throttleSec: int, i: nat, n: nat)
    requires |rd| == |wr| && throttleSec > 0 && n <= i < |rd|
    ensures var l := Run(EMPTY_LOG, Hasty(rd, wr, throttleSec, i)[..n], throttleSec);
            LogInvariant(l, throttleSec) && AllExecuted(l, throttleSec, i, n) && OnRecord(l, wr, throttleSec, i, n)
  {
    var requests := Hasty(rd, wr, throttleSec, i);
    if n > 0 {
      HastyRuns(rd, wr, throttleSec, i, n - 1);
      RunPrefix(requests, n - 1, throttleSec);
      HastyStep(Run(EMPTY_LOG, requests[..n - 1], throttleSec), requests[n - 1], wr, throttleSec, i, n - 1);
    }
  }

  lemma {:induction false} HastyStep(l: Log, r: Request, wr: seq<bool>, throttleSec: int, i: nat, n: nat)
    requires throttleSec > 0 && n < i && n < |wr|
    requires r.kind == Full && r.now == HastyTime(throttleSec, i, n) && r.writable == wr[n]
    requires LogInvariant(l, throttleSec) && AllExecuted(l, throttleSec, i, n) && OnRecord(l, wr, throttleSec, i, n)
    ensures var l' := LogStep(l, r, throttleSec);
            LogInvariant(l', throttleSec) && AllExecuted(l', throttleSec, i, n + 1) && OnRecord(l', wr, throttleSec, i, n + 1)
  {
    HastyTimes(throttleSec, i, n, n + 1);
    StepKeepsInvariant(l, r, throttleSec);
    RecordIsLate(l, wr, throttleSec, i, n);
    LateIsExecuted(l, r, throttleSec);
    RecordGrows(l, LogStep(l, r, throttleSec), wr, throttleSec, i, n);
  }

  /** Any other fault loses the spacing: a write that fails before the last request, or a
      read that fails after the first. */
  lemma {:induction false} FaultLosesSpacing(rd: seq<bool>, wr: seq<bool>, throttleSec: int, i: nat)
    requires |rd| == |wr| && throttleSec > 0 && 0 < i < |rd| && !(rd[i] && wr[i - 1])
    ensures HasFaults(Hasty(rd, wr, throttleSec, i), rd, wr)
    ensures !Spaced(Run(EMPTY_LOG, Hasty(rd, wr, throttleSec, i), throttleSec).executed, throttleSec)
  {
    var requests := Hasty(rd, wr, throttleSec, i);
    forall k | 0 <= k < |rd| ensures requests[k].now > 0.0 { HastyTimes(throttleSec, i, k, k + 1); }
    HastyRuns(rd, wr, throttleSec, i, i);
    RunPrefix(requests, i, throttleSec);
    var l, r := Run(EMPTY_LOG, requests[..i], throttleSec), requests[i];
    if r.readable {
      RecordIsLate(l, wr, throttleSec, i, i);
    }
    LateIsExecuted(l, r, throttleSec);
    HastyTimes(throttleSec, i, i - 1, i);
    ExecutedGrows(requests, i + 1, |requests|, throttleSec);
    assert requests[..|requests|] == requests;
    var executed := Run(EMPTY_LOG, requests, throttleSec).executed;
    assert executed[i - 1] == l.executed[i - 1] && executed[i] == Reset(Full, r.now);
  }

  /** For any pattern of failed reads and writes, all runs with these faults keep the resets
      spaced if and only if only the first read and the last write may fail. */
  lemma {:induction false} SpacedIffHarmless(rd: seq<bool>, wr: seq<bool>, throttleSec: int)
    requires |rd| == |wr| && throttleSec > 0
    ensures AlwaysSpaced(rd, wr, throttleSec) <==> Harmless(rd, wr)
  {
    if Harmless(rd, wr) {
      forall requests | HasFaults(requests, rd, wr)
        ensures Spaced(Run(EMPTY_LOG, requests, throttleSec).executed, throttleSec)
      {
        HarmlessIsSpaced(requests, rd, wr, throttleSec);
      }
    } else if i :| 0 < i < |rd| && !rd[i] {
      FaultLosesSpacing(rd, wr, throttleSec, i);
    } else {
      var k :| 0 <= k < |wr| - 1 && !wr[k];
      FaultLosesSpacing(rd, wr, throttleSec, k + 1);
    }
  }

  class BuildKit {
    var state: Slots
    const throttleSec: int
    ghost var executed: seq<Reset>  // every reset carried out
    ghost var recorded: seq<Reset>  // those the state file accounts for

    ghost predicate Valid()
      reads this
    {
      Summarises(state, recorded, throttleSec)
    }

    constructor (throttleSec: int)
      ensures Valid() && this.throttleSec == throttleSec
      ensures state == map[] && executed == [] && recorded == []
    {
      this.throttleSec := throttleSec;
      state, executed, recorded := map[], [], [];
    }

    /** With resets enabled.  The state file agrees with the recorded history before and
        after, and the request is refused exactly when that history holds a reset at
        least as strong less than the throttle time ago. */
    method ResetBuildkit(r: Request) returns (done: bool)
      requires Valid() && r.now > 0.0
      modifies this
      ensures Valid()
      ensures done <==> !TooSoon(r, if r.readable then old(recorded) else [], throttleSec)
      ensures Log(executed, recorded, state) == LogStep(Log(old(executed), old(recorded), old(state)), r, throttleSec)
    {
      var seen := if r.readable then state else map[];
      ghost var history := if r.readable then recorded else [];
      ThrottleIsHistory(r, seen, history, throttleSec);
      if ShouldThrottle(r.kind, seen, r.now, throttleSec) {
        return false;
      }
      if r.writable {
        RecordKeepsSummary(r, seen, history, throttleSec);
        state := seen[r.kind := r.now];
        recorded := history + [Reset(r.kind, r.now)];
      }
      executed := executed + [Reset(r.kind, r.now)];
      return true;
    }

    /** Builds ask for a partial reset after the first failure and a full one after
        later failures, but not after the last. */
    method MaybeReset(attempt: nat, maxRetries: int, now: real, readable: bool, writable: bool)
      requires Valid() && now > 0.0
      modifies this
      ensures Valid()
      ensures var r := Request(if attempt == 0 then Partial else Full, now, readable, writable);
              Log(executed, recorded, state) ==
              if attempt >= maxRetries - 1 then Log(old(executed), old(recorded), old(state))
              else LogStep(Log(old(executed), old(recorded), old(state)), r, throttleSec)
    {
      if attempt >= maxRetries - 1 {
        return;
      }
      var done;
      if attempt == 0 {
        done := ResetBuildkit(Request(Partial, now, readable, writable));
      } else {
        done := ResetBuildkit(Request(Full, now, readable, writable));
      }
    }
  }
}
