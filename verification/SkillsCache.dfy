/** Evaluations with skills edit the Dockerfiles of the cached snapshot itself: when the
    cache still holds a complete copy after them. */
module SkillsCache {
  import opened Options
  import opened Sequences
  import opened Text
  import opened SkillsInject
  import opened TaskCache

  /** An evaluation with skills that reverts at its end, or one that ends before that: by a
      kill, or by an error at a later path, after it has edited the given ones. */
  datatype Evaluation = Evaluation(paths: seq<string>, reverted: bool)

  function After(t: Tree, e: Evaluation): Tree {
    if e.reverted then RevertAll(InjectAll(t, e.paths), Reverts(t, e.paths)) else InjectAll(t, e.paths)
  }

  function AfterAll(t: Tree, runs: seq<Evaluation>): Tree
    decreases |runs|
  {
    if runs == [] then t else AfterAll(After(t, runs[0]), runs[1..])
  }

  /** No file to edit, or none with a carriage return if the edits are reverted. */
  ghost predicate Harmless(t: Tree, e: Evaluation) {
    forall p :: p in e.paths && Touched(t, p) ==> e.reverted && !Has(t[p], '\r')
  }

  predicate Marked(raw: string) { Contains(ReadText(raw), MARK) }

  /** The file has got the block, or has lost its carriage returns. */
  predicate Damaged(t: Tree, t': Tree, p: string) {
    p in t && p in t' && ((!Marked(t[p]) && Marked(t'[p])) || (Has(t[p], '\r') && !Has(t'[p], '\r')))
  }

  lemma {:induction false} AfterAt(t: Tree, e: Evaluation, p: string)
    ensures p in After(t, e) <==> p in t
    ensures p in t ==>
              After(t, e)[p] ==
              if !(p in e.paths && Touched(t, p)) then t[p]
              else if e.reverted then ReadText(t[p])
              else Inject(ReadText(t[p]))
  {
    if e.reverted {
      RevertRestores(t, e.paths, p);
    } else {
      InjectAllAt(t, e.paths, p);
    }
  }

  lemma {:induction false} InjectedText(raw: string)
    ensures !Has(ReadText(raw), '\r') && !Has(Inject(ReadText(raw)), '\r') && Marked(Inject(ReadText(raw)))
  {
    ReadTextKeeps(raw);
    InjectedIsMarked(ReadText(raw));
    ReadTextKeeps(Inject(ReadText(raw)));
  }

  /** No later evaluation undoes the damage. */
  lemma {:induction false} DamageStays(t: Tree, t': Tree, e: Evaluation, p: string)
    requires Damaged(t, t', p)
    ensures Damaged(t, After(t', e), p)
  {
    AfterAt(t', e, p);
    InjectedText(t'[p]);
  }

  lemma {:induction false} DamageStaysAll(t: Tree, t': Tree, runs: seq<Evaluation>, p: string)
    requires Damaged(t, t', p)
    ensures Damaged(t, AfterAll(t', runs), p)
    decreases |runs|
  {
    if runs != [] {
      DamageStays(t, t', runs[0], p);
      DamageStaysAll(t, After(t', runs[0]), runs[1..], p);
    }
  }

  lemma {:induction false} HarmfulDamages(t: Tree, e: Evaluation) returns (p: string)
    requires !Harmless(t, e)
    ensures Damaged(t, After(t, e), p)
  {
    p :| p in e.paths && Touched(t, p) && !(e.reverted && !Has(t[p], '\r'));
    AfterAt(t, e, p);
    InjectedText(t[p]);
  }

  lemma {:induction false} HarmlessKeeps(t: Tree, e: Evaluation)
    requires Harmless(t, e)
    ensures After(t, e) == t
  {
    forall p ensures p in After(t, e) <==> p in t
      ensures p in t ==> After(t, e)[p] == t[p]
    {
      AfterAt(t, e, p);
      if p in t {
        ReadTextKeeps(t[p]);
      }
    }
  }

  /** After any sequence of evaluations the tree is what it was if and only if each of them
      is harmless for it. */
  lemma {:induction false} TreeIsKept(t: Tree, runs: seq<Evaluation>)
    ensures AfterAll(t, runs) == t <==> forall i :: 0 <= i < |runs| ==> Harmless(t, runs[i])
    decreases |runs|
  {
    if runs != [] {
      if Harmless(t, runs[0]) {
        HarmlessKeeps(t, runs[0]);
        TreeIsKept(t, runs[1..]);
        assert forall i :: 1 <= i < |runs| ==> runs[i] == runs[1..][i - 1];
      } else {
        var p := HarmfulDamages(t, runs[0]);
        DamageStaysAll(t, After(t, runs[0]), runs[1..], p);
      }
    }
  }

  lemma {:induction false} SameFiles(t: Tree, runs: seq<Evaluation>, p: string)
    ensures p in AfterAll(t, runs) <==> p in t
    decreases |runs|
  {
    if runs != [] {
      AfterAt(t, runs[0], p);
      SameFiles(After(t, runs[0]), runs[1..], p);
    }
  }

  /** A call that resolves the recorded commit, or nothing, returns a tree that has the
      files of its snapshot as it is, whatever is in them. */
  lemma {:induction false} EditedTreeIsReturned(snapshot: string -> Tree, commit: string, tree: Tree, head: Option<string>,
                                                result: Result, after: Disk)
    requires commit != "" && tree.Keys == snapshot(commit).Keys && snapshot(commit) != map[]
    requires head == Some(commit) || head == None
    requires Step(snapshot, head, Disk(Some(tree), Names(commit)), result, after)
    ensures result.Returned? && after == Disk(Some(tree), Names(commit))
  {
    var p :| p in snapshot(commit);
    assert p in tree;
  }

  /** So after some evaluations with skills the cache of the current commit is a complete
      copy, and the next call returns one, if and only if all of them were harmless. */
  lemma {:induction false} CacheAfterEvaluations(snapshot: string -> Tree, commit: string, runs: seq<Evaluation>) returns (tree: Tree)
    requires commit != "" && snapshot(commit) != map[]
    ensures tree == AfterAll(snapshot(commit), runs)
    ensures tree == snapshot(commit) <==> forall i :: 0 <= i < |runs| ==> Harmless(snapshot(commit), runs[i])
    ensures forall head, result, after ::
              (head == Some(commit) || head == None) && Step(snapshot, head, Disk(Some(tree), Names(commit)), result, after) ==>
                result.Returned? && after == Disk(Some(tree), Names(commit))
  {
    tree := AfterAll(snapshot(commit), runs);
    TreeIsKept(snapshot(commit), runs);
    forall p ensures p in tree <==> p in snapshot(commit) { SameFiles(snapshot(commit), runs, p); }
    assert tree.Keys == snapshot(commit).Keys;
    forall head, result, after |
      (head == Some(commit) || head == None) && Step(snapshot, head, Disk(Some(tree), Names(commit)), result, after)
      ensures result.Returned? && after == Disk(Some(tree), Names(commit))
    {
      EditedTreeIsReturned(snapshot, commit, tree, head, result, after);
    }
  }

  // ----- Evaluations among the calls of a history -----

  datatype Event = Call(head: Option<string>) | Evaluate(run: Evaluation)

  /** An evaluation resolves no commit. */
  function HeadOf(e: Event): Option<string> { if e.Call? then e.head else None }

  function HeadsOf(events: seq<Event>): seq<Option<string>> {
    seq(|events|, i requires 0 <= i < |events| => HeadOf(events[i]))
  }

  /** Resolved commits have names. */
  ghost predicate Named(events: seq<Event>) {
    forall i :: 0 <= i < |events| && HeadOf(events[i]).Some? ==> HeadOf(events[i]).value != ""
  }

  function Evaluated(s: Disk, run: Evaluation): Disk {
    if s.tasks.Some? then s.(tasks := Some(After(s.tasks.value, run))) else s
  }

  ghost predicate EventStep(snapshot: string -> Tree, e: Event, s: Disk, result: Result, s': Disk) {
    match e
    case Call(head) => Step(snapshot, head, s, result, s')
    case Evaluate(run) => s' == Evaluated(s, run)
  }

  ghost predicate IsRun(snapshot: string -> Tree, events: seq<Event>, results: seq<Result>, states: seq<Disk>) {
    |results| == |events| && |states| == |events| + 1 && states[0] == Disk(None, NoFile) &&
    forall i :: 0 <= i < |events| ==> EventStep(snapshot, events[i], states[i], results[i], states[i + 1])
  }

  /** Every online call that returns leaves a complete copy, in every run with these events. */
  ghost predicate RunsAreComplete(snapshot: string -> Tree, events: seq<Event>) {
    forall results, states :: IsRun(snapshot, events, results, states) ==> OnlineCopies(snapshot, events, results, states)
  }

  ghost predicate OnlineCopies(snapshot: string -> Tree, events: seq<Event>, results: seq<Result>, states: seq<Disk>)
    requires |results| == |events| && |states| == |events| + 1
  {
    forall i :: 0 <= i < |events| && HeadOf(events[i]).Some? && results[i].Returned? ==>
      states[i + 1].tasks == Some(snapshot(HeadOf(events[i]).value))
  }

  /** The evaluation comes after call p and before call q, which resolve the same commit. */
  ghost predicate Between(events: seq<Event>, p: int, i: int, q: int) {
    0 <= p < i < q < |events| && HeadOf(events[p]).Some? && events[i].Evaluate? && HeadOf(events[q]) == HeadOf(events[p])
  }

  ghost predicate HarmlessBetween(snapshot: string -> Tree, events: seq<Event>) {
    forall p, i, q :: Between(events, p, i, q) ==> Harmless(snapshot(HeadOf(events[p]).value), events[i].run)
  }

  /** Before an evaluation of a commit that comes back, the tasks are a copy, and stay one. */
  lemma {:induction false} CopyIsKept(snapshot: string -> Tree, events: seq<Event>, n: nat, commit: string, t: Tree)
    requires n < |events| && events[n].Evaluate? && HarmlessBetween(snapshot, events)
    requires Resolved(HeadsOf(events), n, commit) && ComesBack(HeadsOf(events), n + 1, commit)
    requires t == snapshot(commit)
    ensures After(t, events[n].run) == t
  {
    var heads := HeadsOf(events);
    var p :| 0 <= p < n && heads[p] == Some(commit);
    var q :| n + 1 <= q < |heads| && heads[q] == Some(commit);
    assert Between(events, p, n, q);
    HarmlessKeeps(t, events[n].run);
  }

  lemma {:induction false} NotLeft(heads: seq<Option<string>>, n: nat, commit: string)
    requires NeverReturns(heads) && n <= |heads| && ComesBack(heads, n, commit)
    ensures !HasLeft(heads, n, commit)
  {
    var q :| n <= q < |heads| && heads[q] == Some(commit);
    if p, i :| LeftAt(heads, n, commit, p, i) {
      assert false;
    }
  }

  lemma {:induction false} EvaluationKeepsInv(snapshot: string -> Tree, events: seq<Event>, n: nat, s: Disk)
    requires n < |events| && events[n].Evaluate? && NeverReturns(HeadsOf(events)) && HarmlessBetween(snapshot, events)
    requires Inv(snapshot, HeadsOf(events), n, s)
    ensures Inv(snapshot, HeadsOf(events), n + 1, Evaluated(s, events[n].run))
  {
    var heads := HeadsOf(events);
    if s.meta.Names? {
      var commit := s.meta.commit;
      Weaker(heads, n, commit);
      if s.tasks.Some? && ComesBack(heads, n + 1, commit) {
        NotLeft(heads, n, commit);
        CopyIsKept(snapshot, events, n, commit, s.tasks.value);
      }
    }
  }

  lemma {:induction false} EventKeepsInv(snapshot: string -> Tree, events: seq<Event>, n: nat, s: Disk, result: Result, s': Disk)
    requires n < |events| && Named(events) && NeverReturns(HeadsOf(events)) && HarmlessBetween(snapshot, events)
    requires Inv(snapshot, HeadsOf(events), n, s) && EventStep(snapshot, events[n], s, result, s')
    ensures Inv(snapshot, HeadsOf(events), n + 1, s')
    ensures HeadOf(events[n]).Some? && result.Returned? ==> s'.tasks == Some(snapshot(HeadOf(events[n]).value))
  {
    if events[n].Evaluate? {
      EvaluationKeepsInv(snapshot, events, n, s);
    } else {
      NothingExposed(HeadsOf(events));
      StepKeepsInv(snapshot, HeadsOf(events), n, s, result, s');
    }
  }

  lemma {:induction false} RunKeepsInv(snapshot: string -> Tree, events: seq<Event>, results: seq<Result>, states: seq<Disk>, n: nat)
    requires IsRun(snapshot, events, results, states) && n <= |events|
    requires Named(events) && NeverReturns(HeadsOf(events)) && HarmlessBetween(snapshot, events)
    ensures Inv(snapshot, HeadsOf(events), n, states[n])
  {
    if n > 0 {
      RunKeepsInv(snapshot, events, results, states, n - 1);
      EventKeepsInv(snapshot, events, n - 1, states[n - 1], results[n - 1], states[n]);
    }
  }

  lemma {:induction false} HarmlessRunsAreComplete(snapshot: string -> Tree, events: seq<Event>, results: seq<Result>, states: seq<Disk>)
    requires IsRun(snapshot, events, results, states)
    requires Named(events) && NeverReturns(HeadsOf(events)) && HarmlessBetween(snapshot, events)
    ensures OnlineCopies(snapshot, events, results, states)
  {
    forall i | 0 <= i < |events| && HeadOf(events[i]).Some? && results[i].Returned?
      ensures states[i + 1].tasks == Some(snapshot(HeadOf(events[i]).value))
    {
      RunKeepsInv(snapshot, events, results, states, i);
      EventKeepsInv(snapshot, events, i, states[i], results[i], states[i + 1]);
    }
  }

  // ----- Runs that end with an edited or partial tree -----

  function Runs(events: seq<Event>): seq<Evaluation> {
    if events == [] then []
    else (if events[0].Evaluate? then [events[0].run] else []) + Runs(events[1..])
  }

  /** The tree that call p copied, before event n: evaluations edit it, and a stop in call j
      removes one file. */
  function Walk(first: Tree, events: seq<Event>, leaf: string, p: nat, j: nat, n: nat): Tree
    requires p < n <= |events|
    decreases n
  {
    if n == p + 1 then first
    else
      var t := Walk(first, events, leaf, p, j, n - 1);
      if n - 1 == j then t - {leaf}
      else if events[n - 1].Evaluate? then After(t, events[n - 1].run)
      else t
  }

  function WalkDisk(first: Tree, a: string, events: seq<Event>, leaf: string, p: nat, j: nat, n: nat): Disk
    requires n <= |events|
  {
    if n <= p then Disk(None, NoFile) else Disk(Some(Walk(first, events, leaf, p, j, n)), Names(a))
  }

  function WalkResult(first: Tree, a: string, events: seq<Event>, leaf: string, p: nat, j: nat, n: nat): Result
    requires n < |events|
  {
    if n == p || events[n].Evaluate? then Returned
    else if n == j then Stopped
    else Idle(events[n].head, WalkDisk(first, a, events, leaf, p, j, n))
  }

  lemma {:induction false} WalkFiles(first: Tree, events: seq<Event>, leaf: string, p: nat, j: nat, n: nat)
    requires p < n <= |events| && p < j
    ensures Walk(first, events, leaf, p, j, n).Keys == if n <= j then first.Keys else first.Keys - {leaf}
    decreases n
  {
    if n > p + 1 {
      WalkFiles(first, events, leaf, p, j, n - 1);
      var t := Walk(first, events, leaf, p, j, n - 1);
      if n - 1 != j && events[n - 1].Evaluate? {
        forall x ensures x in After(t, events[n - 1].run) <==> x in t { AfterAt(t, events[n - 1].run, x); }
        assert After(t, events[n - 1].run).Keys == t.Keys;
      }
    }
  }

  lemma {:induction false} WalkStep(snapshot: string -> Tree, events: seq<Event>, leaf: string, p: nat, j: nat, n: nat)
    requires p < j && p < |events| && n < |events| && HeadOf(events[p]).Some?
    requires j < |events| ==> HeadOf(events[j]).Some? && HeadOf(events[j]) != HeadOf(events[p])
    requires Named(events)
    requires forall k :: k in snapshot(HeadOf(events[p]).value) ==> !Below(k, leaf)
    ensures var a := HeadOf(events[p]).value;
            var first := snapshot(a);
            EventStep(snapshot, events[n], WalkDisk(first, a, events, leaf, p, j, n), WalkResult(first, a, events, leaf, p, j, n),
                      WalkDisk(first, a, events, leaf, p, j, n + 1))
  {
    var a := HeadOf(events[p]).value;
    var first := snapshot(a);
    var s := WalkDisk(first, a, events, leaf, p, j, n);
    if n == j {
      WalkFiles(first, events, leaf, p, j, n);
      var t := s.tasks.value;
      assert IsPart(t - {leaf}, t);
    } else if n != p && events[n].Call? {
      IdleStep(snapshot, events[n].head, s);
    }
  }

  lemma {:induction false} WalkIsRun(snapshot: string -> Tree, events: seq<Event>, leaf: string, p: nat, j: nat, q: nat)
    returns (results: seq<Result>, states: seq<Disk>)
    requires p < j && p < q < |events| && q != j && HeadOf(events[p]).Some? && HeadOf(events[q]) == HeadOf(events[p])
    requires j < |events| ==> HeadOf(events[j]).Some? && HeadOf(events[j]) != HeadOf(events[p])
    requires Named(events)
    requires forall k :: k in snapshot(HeadOf(events[p]).value) ==> !Below(k, leaf)
    requires snapshot(HeadOf(events[p]).value).Keys - {leaf} != {}
    ensures IsRun(snapshot, events, results, states) && results[q].Returned?
    ensures states[q + 1].tasks == Some(Walk(snapshot(HeadOf(events[p]).value), events, leaf, p, j, q))
  {
    var a, n := HeadOf(events[p]).value, |events|;
    var first := snapshot(a);
    states := seq(n + 1, k requires 0 <= k <= n => WalkDisk(first, a, events, leaf, p, j, k));
    results := seq(n, k requires 0 <= k < n => WalkResult(first, a, events, leaf, p, j, k));
    forall k | 0 <= k < n ensures EventStep(snapshot, events[k], states[k], results[k], states[k + 1]) {
      WalkStep(snapshot, events, leaf, p, j, k);
    }
    WalkFiles(first, events, leaf, p, j, q);
    var k :| k in first.Keys - {leaf};
    assert k in Walk(first, events, leaf, p, j, q);
  }

  lemma {:induction false} AfterAllSum(t: Tree, runs: seq<Evaluation>, last: seq<Evaluation>)
    ensures AfterAll(t, runs + last) == AfterAll(AfterAll(t, runs), last)
    decreases |runs|
  {
    if runs == [] {
      assert runs + last == last;
    } else {
      assert (runs + last)[1..] == runs[1..] + last;
      AfterAllSum(After(t, runs[0]), runs[1..], last);
    }
  }

  lemma {:induction false} RunsSum(a: seq<Event>, b: seq<Event>)
    ensures Runs(a + b) == Runs(a) + Runs(b)
  {
    if a == [] {
      assert a + b == b;
    } else {
      assert (a + b)[1..] == a[1..] + b;
      RunsSum(a[1..], b);
      Assoc(if a[0].Evaluate? then [a[0].run] else [], Runs(a[1..]), Runs(b));
    }
  }

  /** Without a stop the tree is the copy after the evaluations so far. */
  lemma {:induction false} WalkIsAfterAll(first: Tree, events: seq<Event>, leaf: string, p: nat, n: nat)
    requires p < n <= |events|
    ensures Walk(first, events, leaf, p, |events|, n) == AfterAll(first, Runs(events[p + 1..n]))
    decreases n
  {
    if n == p + 1 {
      assert events[p + 1..n] == [];
    } else {
      WalkIsAfterAll(first, events, leaf, p, n - 1);
      var before, last := events[p + 1..n - 1], [events[n - 1]];
      assert events[p + 1..n] == before + last && last[1..] == [];
      RunsSum(before, last);
      AfterAllSum(first, Runs(before), Runs(last));
      assert Runs(last) == if events[n - 1].Evaluate? then [events[n - 1].run] else [];
    }
  }

  lemma {:induction false} RunsAt(events: seq<Event>, i: nat) returns (k: nat)
    requires i < |events| && events[i].Evaluate?
    ensures k < |Runs(events)| && Runs(events)[k] == events[i].run
  {
    if i == 0 {
      k := 0;
    } else {
      var k' := RunsAt(events[1..], i - 1);
      k := if events[0].Evaluate? then k' + 1 else k';
    }
  }

  lemma {:induction false} HarmfulWalk(first: Tree, events: seq<Event>, leaf: string, p: nat, i: nat, q: nat)
    requires p < i < q <= |events| && events[i].Evaluate? && !Harmless(first, events[i].run)
    ensures Walk(first, events, leaf, p, |events|, q) != first
  {
    WalkIsAfterAll(first, events, leaf, p, q);
    var between := events[p + 1..q];
    assert between[i - p - 1] == events[i];
    HarmfulRuns(first, between, i - p - 1, events[i].run);
  }

  lemma {:induction false} HarmfulRuns(first: Tree, events: seq<Event>, i: nat, run: Evaluation)
    requires i < |events| && events[i] == Evaluate(run) && !Harmless(first, run)
    ensures AfterAll(first, Runs(events)) != first
  {
    var k := RunsAt(events, i);
    TreeIsKept(first, Runs(events));
  }

  lemma {:induction false} HarmfulBreaks(snapshot: string -> Tree, events: seq<Event>, p: nat, i: nat, q: nat)
    returns (results: seq<Result>, states: seq<Disk>)
    requires Between(events, p, i, q) && !Harmless(snapshot(HeadOf(events[p]).value), events[i].run)
    requires Named(events)
    ensures IsRun(snapshot, events, results, states) && !OnlineCopies(snapshot, events, results, states)
  {
    var first := snapshot(HeadOf(events[p]).value);
    var leaf := UnusedName(first);
    assert first.Keys - {leaf} == first.Keys;
    results, states := WalkIsRun(snapshot, events, leaf, p, |events|, q);
    HarmfulWalk(first, events, leaf, p, i, q);
  }

  /** A name that is not in the tree and has nothing below it there. */
  lemma {:induction false} UnusedName(t: Tree) returns (leaf: string)
    requires t != map[]
    ensures leaf !in t && forall k :: k in t ==> !Below(k, leaf)
  {
    var longest := Longest(t.Keys);
    leaf := longest + "/";
  }

  lemma {:induction false} ReturnBreaks(snapshot: string -> Tree, events: seq<Event>, p: nat, j: nat, q: nat)
    returns (results: seq<Result>, states: seq<Disk>)
    requires p < j < q < |events| && HeadOf(events[p]).Some? && HeadOf(events[j]).Some?
    requires HeadOf(events[q]) == HeadOf(events[p]) && HeadOf(events[j]) != HeadOf(events[p])
    requires |snapshot(HeadOf(events[p]).value)| > 1
    requires Named(events)
    ensures IsRun(snapshot, events, results, states) && !OnlineCopies(snapshot, events, results, states)
  {
    var first := snapshot(HeadOf(events[p]).value);
    var leaf := Longest(first.Keys);
    assert first.Keys == (first.Keys - {leaf}) + {leaf};
    results, states := WalkIsRun(snapshot, events, leaf, p, j, q);
    WalkFiles(first, events, leaf, p, j, q);
  }

  lemma {:induction false} Return(events: seq<Event>) returns (p: nat, j: nat, q: nat)
    requires !NeverReturns(HeadsOf(events))
    ensures p < j < q < |events| && HeadOf(events[p]).Some? && HeadOf(events[j]).Some?
    ensures HeadOf(events[q]) == HeadOf(events[p]) && HeadOf(events[j]) != HeadOf(events[p])
  {
    var heads := HeadsOf(events);
    p, j, q :| 0 <= p < j < q < |heads| && heads[p].Some? && heads[j].Some? && heads[p] == heads[q] && heads[j] != heads[p];
  }

  lemma {:induction false} IncompleteRun(snapshot: string -> Tree, events: seq<Event>) returns (results: seq<Result>, states: seq<Disk>)
    requires Named(events) && !(NeverReturns(HeadsOf(events)) && HarmlessBetween(snapshot, events))
    requires forall e :: e in events && HeadOf(e).Some? ==> |snapshot(HeadOf(e).value)| > 1
    ensures IsRun(snapshot, events, results, states) && !OnlineCopies(snapshot, events, results, states)
  {
    if !NeverReturns(HeadsOf(events)) {
      var p, j, q := Return(events);
      assert events[p] in events;
      results, states := ReturnBreaks(snapshot, events, p, j, q);
    } else {
      var p, i, q :| Between(events, p, i, q) && !Harmless(snapshot(HeadOf(events[p]).value), events[i].run);
      results, states := HarmfulBreaks(snapshot, events, p, i, q);
    }
  }

  /** With crashes and evaluations anywhere, every online call that returns leaves a complete
      copy if and only if upstream never returns to a commit it has left and every evaluation
      between two calls that resolve the same commit is harmless for its snapshot. */
  lemma {:induction false} CompleteIffHarmless(snapshot: string -> Tree, events: seq<Event>)
    requires Named(events)
    requires forall e :: e in events && HeadOf(e).Some? ==> |snapshot(HeadOf(e).value)| > 1
    ensures RunsAreComplete(snapshot, events) <==> NeverReturns(HeadsOf(events)) && HarmlessBetween(snapshot, events)
  {
    if NeverReturns(HeadsOf(events)) && HarmlessBetween(snapshot, events) {
      forall results, states | IsRun(snapshot, events, results, states)
        ensures OnlineCopies(snapshot, events, results, states)
      {
        HarmlessRunsAreComplete(snapshot, events, results, states);
      }
    } else {
      var results, states := IncompleteRun(snapshot, events);
    }
  }
}
