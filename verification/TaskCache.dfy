/** The local snapshot of the upstream tasks: a directory and a metadata file, replaced
    step by step, with a stop possible between any two steps. */
module TaskCache {
  import opened Options

  /** The files and directories of a tree with their contents; a directory has none. */
  type Tree = map<string, string>

  /** The metadata file; opening it for writing leaves it unreadable until it is written. */
  datatype Meta = NoFile | Unreadable | Names(commit: string)

  datatype Disk = Disk(tasks: Option<Tree>, meta: Meta)

  datatype Result = Returned | Stopped

  function LoadCachedCommit(meta: Meta): Option<string> {
    if meta.Names? && meta.commit != "" then Some(meta.commit) else None
  }

  predicate HasCachedTasks(tasks: Option<Tree>) { tasks.Some? && tasks.value != map[] }

  predicate Below(entry: string, dir: string) { dir + "/" <= entry }

  /** Nothing without the directories it is in. */
  ghost predicate Rooted(t: Tree, full: Tree) {
    forall k, d :: k in t && d in full && Below(k, d) ==> d in t
  }

  ghost predicate IsPart(t: Tree, full: Tree) {
    Rooted(t, full) && forall k :: k in t ==> k in full && t[k] == full[k]
  }

  /** What a copy leaves that has been stopped, or has gone on after errors: some files
      are missing or cut short. */
  ghost predicate IsCutPart(t: Tree, source: Tree) {
    Rooted(t, source) && forall k :: k in t ==> k in source && t[k] <= source[k]
  }

  /** Neither leaves a file without the directories above it. */
  lemma {:induction false} PartsHaveDirectories(t: Tree, full: Tree, k: string, d: string)
    requires (IsPart(t, full) || IsCutPart(t, full)) && k in t && d in full && d + "/" <= k
    ensures d in t
  {
  }

  /** Where a refresh can stop: before it touches the disk, while it removes the old
      tasks, while it copies the new ones, or while it writes the metadata. */
  ghost predicate StopsAt(source: Tree, before: Disk, after: Disk) {
    || after == before
    || (after.meta == before.meta && before.tasks.Some? && after.tasks.Some? && IsPart(after.tasks.value, before.tasks.value))
    || (after.meta == before.meta && (after.tasks.None? || IsCutPart(after.tasks.value, source)))
    || (after.tasks == Some(source) && (after.meta == before.meta || after.meta == Unreadable))
  }

  /** One call; `head` is the upstream commit, or None if it cannot be resolved. */
  ghost predicate Step(snapshot: string -> Tree, head: Option<string>, before: Disk, result: Result, after: Disk) {
    match head
    case None =>
      after == before &&
      (result.Returned? <==> HasCachedTasks(before.tasks) && LoadCachedCommit(before.meta).Some?)
    case Some(commit) =>
      if HasCachedTasks(before.tasks) && LoadCachedCommit(before.meta) == head then
        result.Returned? && after == before
      else if result.Returned? then
        after == Disk(Some(snapshot(commit)), Names(commit))
      else
        StopsAt(snapshot(commit), before, after)
  }

  lemma {:induction false} Longest(keys: set<string>) returns (x: string)
    requires keys != {}
    ensures x in keys && forall y :: y in keys ==> |y| <= |x|
  {
    x :| x in keys;
    if keys != {x} {
      var y := Longest(keys - {x});
      x := if |x| < |y| then y else x;
    }
  }

  lemma {:induction false} Shortest(keys: set<string>) returns (x: string)
    requires keys != {}
    ensures x in keys && forall y :: y in keys ==> |x| <= |y|
  {
    x :| x in keys;
    if keys != {x} {
      var y := Shortest(keys - {x});
      x := if |y| < |x| then y else x;
    }
  }

  class Cache {
    var tasks: Option<Tree>
    var meta: Meta

    ghost function State(): Disk
      reads this
    {
      Disk(tasks, meta)
    }

    constructor ()
      ensures State() == Disk(None, NoFile)
    {
      tasks := None;
      meta := NoFile;
    }

    /** Children go before their directory; the first error ends it. */
    method RemoveTasks() returns (ok: bool)
      modifies this`tasks
      ensures ok ==> tasks == None
      ensures !ok ==> old(tasks).Some? && tasks.Some? && IsPart(tasks.value, old(tasks).value)
    {
      if tasks.None? {
        return true;
      }
      var left := tasks.value;
      while left != map[]
        invariant tasks == Some(left) && IsPart(left, old(tasks).value)
        decreases left.Keys
      {
        var stop: bool := *;
        if stop {
          return false;
        }
        ghost var leaf := Longest(left.Keys);
        var entry :| entry in left && forall k :: k in left ==> !Below(k, entry);
        var smaller := left - {entry};
        assert entry !in smaller.Keys && smaller.Keys < left.Keys;
        left := smaller;
        tasks := Some(left);
      }
      var stop: bool := *;
      if stop {
        return false;
      }
      tasks := None;
      return true;
    }

    /** Directories go before their children.  An error at one entry does not keep the copy
        from going on with the others; a stop ends it. */
    method CopyTasks(source: Tree) returns (ok: bool)
      requires tasks.None?
      modifies this`tasks
      ensures ok ==> tasks == Some(source)
      ensures !ok ==> tasks.None? || IsCutPart(tasks.value, source)
    {
      var stop: bool := *;
      if stop {
        return false;
      }
      var done: Tree, todo: set<string> := map[], source.Keys;
      ok := true;
      tasks := Some(done);
      while todo != {}
        invariant tasks == Some(done) && IsCutPart(done, source)
        invariant todo <= source.Keys - done.Keys
        invariant forall k, d :: k in todo && d in source && Below(k, d) ==> d in todo || d in done
        invariant ok ==> done.Keys == source.Keys - todo && forall k :: k in done ==> done[k] == source[k]
        decreases todo
      {
        ghost var top := Shortest(todo);
        var entry :| entry in todo && forall d :: d in todo ==> !Below(entry, d);
        var failed: bool, begun: bool, written: nat := *, *, *;
        stop := *;
        todo := todo - {entry};
        if !failed && !stop {
          done := done[entry := source[entry]];
        } else if begun && written <= |source[entry]| {
          ok := false;
          done := done[entry := source[entry][..written]];
        } else {
          ok := false;
          todo := set k | k in todo && !Below(k, entry);
        }
        tasks := Some(done);
        if stop {
          return false;
        }
      }
      if ok {
        assert done == source;
      }
    }

    method WriteMetadata(commit: string) returns (ok: bool)
      modifies this`meta
      ensures ok ==> meta == Names(commit)
      ensures !ok ==> meta == old(meta) || meta == Unreadable
    {
      var stop: bool := *;
      if stop {
        return false;
      }
      meta := Unreadable;
      stop := *;
      if stop {
        return false;
      }
      meta := Names(commit);
      return true;
    }

    /** The clone may fail, or be of another commit than the one resolved. */
    method Download(snapshot: string -> Tree, commit: string) returns (ok: bool)
      modifies this
      ensures ok ==> State() == Disk(Some(snapshot(commit)), Names(commit))
      ensures !ok ==> StopsAt(snapshot(commit), old(State()), State())
    {
      var cloned: bool := *;
      if !cloned {
        return false;
      }
      ok := RemoveTasks();
      if !ok {
        return false;
      }
      ok := CopyTasks(snapshot(commit));
      if !ok {
        return false;
      }
      ok := WriteMetadata(commit);
    }

    method EnsureTasks(snapshot: string -> Tree, head: Option<string>) returns (result: Result)
      requires head.Some? ==> head.value != ""
      modifies this
      ensures Step(snapshot, head, old(State()), result, State())
    {
      var cached := LoadCachedCommit(meta);
      var hasTasks := HasCachedTasks(tasks);
      if head.None? {
        return if hasTasks && cached.Some? then Returned else Stopped;
      }
      if hasTasks && cached == head {
        return Returned;
      }
      var ok := Download(snapshot, head.value);
      return if ok then Returned else Stopped;
    }
  }

  // ----- Histories of calls -----

  /** Calls one after the other on a disk that starts empty: `states[i]` is the disk before
      call i.  A stop ends a call at any of its steps. */
  ghost predicate IsHistory(snapshot: string -> Tree, heads: seq<Option<string>>, results: seq<Result>, states: seq<Disk>) {
    |results| == |heads| && |states| == |heads| + 1 && states[0] == Disk(None, NoFile) &&
    (forall i :: 0 <= i < |heads| && heads[i].Some? ==> heads[i].value != "") &&
    forall i :: 0 <= i < |heads| ==> Step(snapshot, heads[i], states[i], results[i], states[i + 1])
  }

  /** Upstream does not go back to a commit it has left. */
  ghost predicate NeverReturns(heads: seq<Option<string>>) {
    forall i, j, k :: 0 <= i < j < k < |heads| && heads[i].Some? && heads[j].Some? && heads[i] == heads[k] ==> heads[j] == heads[i]
  }

  ghost predicate Resolved(heads: seq<Option<string>>, n: nat, commit: string) {
    exists i :: 0 <= i < n && i < |heads| && heads[i] == Some(commit)
  }

  ghost predicate ComesBack(heads: seq<Option<string>>, n: nat, commit: string) {
    exists k :: n <= k < |heads| && heads[k] == Some(commit)
  }

  /** Call p resolves the commit, a later call i before call n another one. */
  ghost predicate LeftAt(heads: seq<Option<string>>, n: nat, commit: string, p: int, i: int) {
    0 <= p < i < n <= |heads| && heads[p] == Some(commit) && heads[i].Some? && heads[i] != heads[p]
  }

  ghost predicate HasLeft(heads: seq<Option<string>>, n: nat, commit: string) {
    exists p, i :: LeftAt(heads, n, commit, p, i)
  }

  /** Call j is a refresh that matters: the commit of call p has been left by then, and call q
      comes back to it. */
  ghost predicate Exposed(heads: seq<Option<string>>, p: int, i: int, j: int, q: int) {
    0 <= p < i <= j < q < |heads| && heads[p].Some? && heads[i].Some? && heads[i] != heads[p] && heads[j].Some? && heads[q] == heads[p]
  }

  /** No stop of a refresh from the first tree to the second leaves anything that could be
      taken for the first: no more than one entry, an empty one, is ever there. */
  predicate Safe(first: Tree, second: Tree) {
    |first| <= 1 && (second == map[] || (second == first && forall k :: k in first ==> first[k] == ""))
  }

  ghost predicate ExposedIsSafe(snapshot: string -> Tree, heads: seq<Option<string>>) {
    forall p, i, j, q :: Exposed(heads, p, i, j, q) ==> Safe(snapshot(heads[p].value), snapshot(heads[j].value))
  }

  ghost predicate CopyOrNothing(tasks: Option<Tree>, source: Tree) {
    tasks == Some(source) || !HasCachedTasks(tasks)
  }

  /** The tasks are a complete copy, or there is nothing to copy and nothing is there. */
  ghost predicate IsCopy(tasks: Option<Tree>, source: Tree) {
    tasks == Some(source) || (source == map[] && !HasCachedTasks(tasks))
  }

  /** The recorded commit has been upstream.  If it will be upstream again there is a copy of
      it, or nothing at all once it has been left. */
  ghost predicate Inv(snapshot: string -> Tree, heads: seq<Option<string>>, n: nat, s: Disk)
    requires n <= |heads|
  {
    s.meta.Names? ==>
      var commit := s.meta.commit;
      Resolved(heads, n, commit) &&
      (ComesBack(heads, n, commit) ==>
         CopyOrNothing(s.tasks, snapshot(commit)) && (HasLeft(heads, n, commit) || IsCopy(s.tasks, snapshot(commit))))
  }

  lemma {:induction false} SmallPart(t: Tree, full: Tree)
    requires |full| <= 1 && t.Keys <= full.Keys && t != map[]
    ensures t.Keys == full.Keys
  {
    var rest := full.Keys - t.Keys;
    assert full.Keys == t.Keys + rest;
    assert |full.Keys| == |t.Keys| + |rest|;
    var k :| k in t;
    assert |t.Keys - {k}| == |t.Keys| - 1;
  }

  lemma {:induction false} SafeStop(first: Tree, second: Tree, before: Disk, after: Disk)
    requires Safe(first, second) && CopyOrNothing(before.tasks, first) && StopsAt(second, before, after)
    requires after.meta == before.meta
    ensures CopyOrNothing(after.tasks, first)
  {
    if after.tasks.Some? && after.tasks.value != map[] && after != before {
      var t := after.tasks.value;
      if before.tasks.Some? && IsPart(t, before.tasks.value) {
        var k :| k in t;
        assert before.tasks == Some(first);
        SmallPart(t, first);
      } else {
        assert t.Keys <= second.Keys;
        var k :| k in t;
        SmallPart(t, first);
      }
      assert t == first;
    }
  }

  lemma {:induction false} Weaker(heads: seq<Option<string>>, n: nat, commit: string)
    requires n < |heads|
    ensures ComesBack(heads, n + 1, commit) ==> ComesBack(heads, n, commit)
    ensures Resolved(heads, n, commit) ==> Resolved(heads, n + 1, commit)
    ensures HasLeft(heads, n, commit) ==> HasLeft(heads, n + 1, commit)
    ensures heads[n] == Some(commit) ==> Resolved(heads, n + 1, commit) && ComesBack(heads, n, commit)
    ensures heads[n].Some? && heads[n] != Some(commit) && Resolved(heads, n, commit) ==> HasLeft(heads, n + 1, commit)
  {
    if k :| n + 1 <= k < |heads| && heads[k] == Some(commit) { assert heads[k] == Some(commit); }
    if p :| 0 <= p < n && heads[p] == Some(commit) {
      assert heads[p] == Some(commit);
      if heads[n].Some? && heads[n] != Some(commit) { assert LeftAt(heads, n + 1, commit, p, n); }
    }
    if p, i :| LeftAt(heads, n, commit, p, i) { assert LeftAt(heads, n + 1, commit, p, i); }
  }

  /** A refresh that stops, when the recorded commit has been left and will come back. */
  lemma {:induction false} StopKeepsCopy(snapshot: string -> Tree, heads: seq<Option<string>>, n: nat, commit: string, s: Disk, s': Disk)
    requires n < |heads| && ExposedIsSafe(snapshot, heads) && heads[n].Some?
    requires HasLeft(heads, n + 1, commit) && ComesBack(heads, n + 1, commit)
    requires CopyOrNothing(s.tasks, snapshot(commit)) && StopsAt(snapshot(heads[n].value), s, s') && s'.meta == s.meta
    ensures CopyOrNothing(s'.tasks, snapshot(commit))
  {
    var p, i :| LeftAt(heads, n + 1, commit, p, i);
    var q :| n + 1 <= q < |heads| && heads[q] == Some(commit);
    assert Exposed(heads, p, i, n, q);
    SafeStop(snapshot(commit), snapshot(heads[n].value), s, s');
  }

  lemma {:induction false} StepKeepsInv(snapshot: string -> Tree, heads: seq<Option<string>>, n: nat, s: Disk, result: Result, s': Disk)
    requires n < |heads| && ExposedIsSafe(snapshot, heads) && (heads[n].Some? ==> heads[n].value != "")
    requires Inv(snapshot, heads, n, s) && Step(snapshot, heads[n], s, result, s')
    ensures Inv(snapshot, heads, n + 1, s')
    ensures heads[n].Some? && result.Returned? ==> s'.tasks == Some(snapshot(heads[n].value))
  {
    if heads[n].Some? { Weaker(heads, n, heads[n].value); }
    if s'.meta.Names? { Weaker(heads, n, s'.meta.commit); }
    if s'.meta.Names? && s' != s && !result.Returned? && ComesBack(heads, n + 1, s'.meta.commit) {
      var commit := s'.meta.commit;
      if HasLeft(heads, n + 1, commit) {
        StopKeepsCopy(snapshot, heads, n, commit, s, s');
      } else {
        assert heads[n] == Some(commit) && snapshot(commit) == map[];
      }
    }
  }

  lemma {:induction false} HistoryKeepsInv(snapshot: string -> Tree, heads: seq<Option<string>>, results: seq<Result>, states: seq<Disk>, n: nat)
    requires IsHistory(snapshot, heads, results, states) && ExposedIsSafe(snapshot, heads) && n <= |heads|
    ensures Inv(snapshot, heads, n, states[n])
  {
    if n > 0 {
      HistoryKeepsInv(snapshot, heads, results, states, n - 1);
      StepKeepsInv(snapshot, heads, n - 1, states[n - 1], results[n - 1], states[n]);
    }
  }

  /** Every online call that returns leaves a complete copy of the commit it resolved. */
  ghost predicate OnlineIsComplete(snapshot: string -> Tree, heads: seq<Option<string>>, results: seq<Result>, states: seq<Disk>)
    requires |results| == |heads| && |states| == |heads| + 1
  {
    forall i :: 0 <= i < |heads| && heads[i].Some? && results[i].Returned? ==> states[i + 1].tasks == Some(snapshot(heads[i].value))
  }

  lemma {:induction false} SafeIsComplete(snapshot: string -> Tree, heads: seq<Option<string>>, results: seq<Result>, states: seq<Disk>)
    requires IsHistory(snapshot, heads, results, states) && ExposedIsSafe(snapshot, heads)
    ensures OnlineIsComplete(snapshot, heads, results, states)
  {
    forall i | 0 <= i < |heads| && heads[i].Some? && results[i].Returned?
      ensures states[i + 1].tasks == Some(snapshot(heads[i].value))
    {
      HistoryKeepsInv(snapshot, heads, results, states, i);
      StepKeepsInv(snapshot, heads, i, states[i], results[i], states[i + 1]);
    }
  }

  lemma {:induction false} NothingExposed(heads: seq<Option<string>>)
    requires NeverReturns(heads)
    ensures forall p, i, j, q :: !Exposed(heads, p, i, j, q)
  {
  }

  /** However often and wherever calls stop. */
  lemma {:induction false} OnlineCallsAreComplete(snapshot: string -> Tree, heads: seq<Option<string>>, results: seq<Result>, states: seq<Disk>)
    requires IsHistory(snapshot, heads, results, states) && NeverReturns(heads)
    ensures OnlineIsComplete(snapshot, heads, results, states)
  {
    NothingExposed(heads);
    SafeIsComplete(snapshot, heads, results, states);
  }

  // ----- Offline calls -----

  /** No call stops after it has begun to change the disk. */
  ghost predicate NoCrash(results: seq<Result>, states: seq<Disk>)
    requires |states| == |results| + 1
  {
    forall i :: 0 <= i < |results| && results[i].Stopped? ==> states[i + 1] == states[i]
  }

  lemma {:induction false} RecordedIsComplete(snapshot: string -> Tree, heads: seq<Option<string>>, results: seq<Result>, states: seq<Disk>, n: nat)
    requires IsHistory(snapshot, heads, results, states) && NoCrash(results, states) && n <= |heads|
    ensures states[n] == states[0] ||
            (states[n].meta.Names? && Resolved(heads, n, states[n].meta.commit) && states[n].tasks == Some(snapshot(states[n].meta.commit)))
  {
    if n > 0 {
      RecordedIsComplete(snapshot, heads, results, states, n - 1);
      var s, s' := states[n - 1], states[n];
      assert Step(snapshot, heads[n - 1], s, results[n - 1], s');
      if s != states[0] && s' == s {
        var i :| 0 <= i < n - 1 && heads[i] == Some(s.meta.commit);
      }
    }
  }

  /** Without crashes an offline call returns a complete copy of the recorded commit,
      which was upstream before; upstream may even go back and forth. */
  lemma {:induction false} OfflineCallsAreComplete(snapshot: string -> Tree, heads: seq<Option<string>>, results: seq<Result>, states: seq<Disk>, n: nat)
    requires IsHistory(snapshot, heads, results, states) && NoCrash(results, states)
    requires n < |heads| && heads[n].None? && results[n].Returned?
    ensures states[n + 1].meta.Names? && Resolved(heads, n, states[n + 1].meta.commit)
    ensures states[n + 1].tasks == Some(snapshot(states[n + 1].meta.commit))
  {
    RecordedIsComplete(snapshot, heads, results, states, n);
    assert Step(snapshot, heads[n], states[n], results[n], states[n + 1]);
  }

  /** Without a commit on record nothing is returned as the cached copy. */
  lemma {:induction false} UnrecordedIsNotReturned(snapshot: string -> Tree, s: Disk, result: Result, after: Disk)
    requires s.meta == NoFile || s.meta == Unreadable || s.meta == Names("")
    requires Step(snapshot, None, s, result, after)
    ensures result.Stopped? && after == s
  {
  }

  // ----- What a crash can do -----

  /** A call that does not get past the clone. */
  function Idle(head: Option<string>, s: Disk): Result {
    if !HasCachedTasks(s.tasks) || LoadCachedCommit(s.meta).None? then Stopped
    else if head.None? || head == LoadCachedCommit(s.meta) then Returned
    else Stopped
  }

  lemma {:induction false} IdleStep(snapshot: string -> Tree, head: Option<string>, s: Disk)
    requires head.Some? ==> head.value != ""
    ensures Step(snapshot, head, s, Idle(head, s), s)
  {
  }

  /** What a stopped refresh from the first tree to the second can leave, at once or when an
      earlier stop has already removed the first. */
  ghost predicate LeftBy(first: Tree, second: Tree, removed: bool, t: Tree) {
    IsCutPart(t, second) || (!removed && IsPart(t, first))
  }

  /** The disk before call n: complete after call p, without tasks after call i if i < j, and
      with the tree t after call j. */
  function Wreck(first: Tree, a: string, t: Tree, p: nat, i: nat, j: nat, n: nat): Disk {
    if n <= p then Disk(None, NoFile)
    else if n <= i then Disk(Some(first), Names(a))
    else if n <= j then Disk(None, Names(a))
    else Disk(Some(t), Names(a))
  }

  lemma {:induction false} WreckStep(snapshot: string -> Tree, heads: seq<Option<string>>, t: Tree, p: nat, i: nat, j: nat, n: nat)
    requires p < i <= j < |heads| && n < |heads| && heads[p].Some? && heads[i].Some? && heads[j].Some? && heads[i] != heads[p]
    requires forall k :: 0 <= k < |heads| && heads[k].Some? ==> heads[k].value != ""
    requires LeftBy(snapshot(heads[p].value), snapshot(heads[j].value), i < j, t)
    ensures var a := heads[p].value;
            var s, s' := Wreck(snapshot(a), a, t, p, i, j, n), Wreck(snapshot(a), a, t, p, i, j, n + 1);
            Step(snapshot, heads[n], s, if n == p then Returned else Idle(heads[n], s), s')
  {
    var a := heads[p].value;
    var s, s' := Wreck(snapshot(a), a, t, p, i, j, n), Wreck(snapshot(a), a, t, p, i, j, n + 1);
    if n == i || n == j {
      assert StopsAt(snapshot(heads[n].value), s, s');
    } else if n != p {
      IdleStep(snapshot, heads[n], s);
    }
  }

  /** If call p resolves a commit and call i another one, a crash in call j that leaves
      anything else than a copy makes a later call q return it: any q that resolves the
      first commit again, or nothing. */
  lemma {:induction false} CrashBreaks(snapshot: string -> Tree, heads: seq<Option<string>>, t: Tree, p: nat, i: nat, j: nat, q: nat)
    returns (results: seq<Result>, states: seq<Disk>)
    requires p < i <= j < q < |heads| && heads[p].Some? && heads[i].Some? && heads[j].Some? && heads[i] != heads[p]
    requires forall k :: 0 <= k < |heads| && heads[k].Some? ==> heads[k].value != ""
    requires LeftBy(snapshot(heads[p].value), snapshot(heads[j].value), i < j, t)
    requires t != map[] && t != snapshot(heads[p].value) && (heads[q] == heads[p] || heads[q].None?)
    ensures IsHistory(snapshot, heads, results, states) && results[q].Returned?
    ensures states[q + 1] == Disk(Some(t), Names(heads[p].value))
  {
    var a, n := heads[p].value, |heads|;
    var first := snapshot(a);
    states := seq(n + 1, k requires 0 <= k <= n => Wreck(first, a, t, p, i, j, k));
    results := seq(n, k requires 0 <= k < n => if k == p then Returned else Idle(heads[k], Wreck(first, a, t, p, i, j, k)));
    forall k | 0 <= k < n ensures Step(snapshot, heads[k], states[k], results[k], states[k + 1]) {
      WreckStep(snapshot, heads, t, p, i, j, k);
    }
  }

  /** A tree of more than one entry without one that has nothing below it. */
  lemma {:induction false} RemoveOne(full: Tree) returns (t: Tree)
    requires |full| > 1
    ensures t != map[] && t != full && IsPart(t, full) && IsCutPart(t, full)
  {
    var leaf := Longest(full.Keys);
    t := full - {leaf};
    assert leaf !in t;
    assert full.Keys == t.Keys + {leaf};
  }

  lemma {:induction false} CutOne(full: Tree, k: string) returns (t: Tree)
    requires |full| <= 1 && k in full && full[k] != ""
    ensures t != map[] && t != full && IsCutPart(t, full)
  {
    t := map[k := ""];
    assert k in t;
    SmallPart(t, full);
  }

  lemma {:induction false} UnsafeStop(first: Tree, second: Tree) returns (t: Tree)
    requires !Safe(first, second)
    ensures t != map[] && t != first && LeftBy(first, second, false, t)
    ensures first == second ==> LeftBy(first, second, true, t)
  {
    if second != map[] && second != first {
      t := second;
      assert IsCutPart(t, second);
    } else if |first| > 1 {
      t := RemoveOne(first);
    } else {
      var k :| k in first && first[k] != "";
      t := CutOne(first, k);
    }
  }

  lemma {:induction false} UnsafeBreaks(snapshot: string -> Tree, heads: seq<Option<string>>, p: nat, i: nat, j: nat, q: nat)
    returns (results: seq<Result>, states: seq<Disk>)
    requires Exposed(heads, p, i, j, q) && !Safe(snapshot(heads[p].value), snapshot(heads[j].value))
    requires forall k :: 0 <= k < |heads| && heads[k].Some? ==> heads[k].value != ""
    ensures IsHistory(snapshot, heads, results, states) && !OnlineIsComplete(snapshot, heads, results, states)
  {
    var first, second := snapshot(heads[p].value), snapshot(heads[j].value);
    var t := UnsafeStop(first, second);
    var i' := if heads[j] == heads[p] then i else j;
    assert i' < j ==> first == second;
    results, states := CrashBreaks(snapshot, heads, t, p, i', j, q);
    assert heads[q].Some? && results[q].Returned? && states[q + 1].tasks != Some(first);
  }

  ghost predicate AlwaysComplete(snapshot: string -> Tree, heads: seq<Option<string>>) {
    forall results, states :: IsHistory(snapshot, heads, results, states) ==> OnlineIsComplete(snapshot, heads, results, states)
  }

  /** So, with crashes possible, online calls are complete in every history of some resolved
      commits if and only if no refresh after the first change of a commit that comes back
      can leave anything. */
  lemma {:induction false} CompleteIffSafe(snapshot: string -> Tree, heads: seq<Option<string>>)
    requires forall i :: 0 <= i < |heads| && heads[i].Some? ==> heads[i].value != ""
    ensures ExposedIsSafe(snapshot, heads) <==> AlwaysComplete(snapshot, heads)
  {
    if ExposedIsSafe(snapshot, heads) {
      forall results, states | IsHistory(snapshot, heads, results, states)
        ensures OnlineIsComplete(snapshot, heads, results, states)
      {
        SafeIsComplete(snapshot, heads, results, states);
      }
    } else {
      var p, i, j, q :| Exposed(heads, p, i, j, q) && !Safe(snapshot(heads[p].value), snapshot(heads[j].value));
      var results, states := UnsafeBreaks(snapshot, heads, p, i, j, q);
    }
  }

  /** For snapshots of more than one entry this means that upstream never returns to a commit
      it has left. */
  lemma {:induction false} CompleteIffNeverReturns(snapshot: string -> Tree, heads: seq<Option<string>>)
    requires forall i :: 0 <= i < |heads| && heads[i].Some? ==> heads[i].value != "" && |snapshot(heads[i].value)| > 1
    ensures NeverReturns(heads) <==> AlwaysComplete(snapshot, heads)
  {
    CompleteIffSafe(snapshot, heads);
    if NeverReturns(heads) {
      NothingExposed(heads);
    } else {
      var p, j, q :| 0 <= p < j < q < |heads| && heads[p].Some? && heads[j].Some? && heads[p] == heads[q] && heads[j] != heads[p];
      assert Exposed(heads, p, j, j, q);
    }
  }

  /** Snapshots of one and the same empty file survive every crash and every return. */
  lemma {:induction false} OneEmptyFileIsSafe(snapshot: string -> Tree, heads: seq<Option<string>>, file: string)
    requires forall i :: 0 <= i < |heads| && heads[i].Some? ==> heads[i].value != "" && snapshot(heads[i].value) == map[file := ""]
    ensures AlwaysComplete(snapshot, heads)
  {
    CompleteIffSafe(snapshot, heads);
  }
}
