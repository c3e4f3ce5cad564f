/** The batch builder of the evaluation images: base images, then batches of environment
    images, each retried as a whole and pushed as soon as it is built. */
module EnvBatches {
  import opened Options
  import opened Sequences

  datatype Spec = Spec(baseKey: string, envKey: string)

  datatype Config = Config(maxRetries: int, batchSize: int, prefix: Option<string>, force: bool)
  {
    /** `if image_prefix` */
    predicate Pushes() { prefix.Some? && prefix.value != "" }

    /** Whether the registry is asked for existing images: not if the prefix is all slashes. */
    predicate Checks() { !force && Pushes() && RStrip(prefix.value) != "" }

    function TargetOf(key: string): string { if prefix.Some? then Target(prefix.value, key) else key }

    function ChunkSize(): nat { if batchSize < 1 then 1 else batchSize }

    function MaxTries(): nat { if maxRetries < 0 then 1 else maxRetries + 1 }
  }

  /** `prefix.rstrip("/")` */
  function RStrip(s: string): string {
    if s != "" && s[|s| - 1] == '/' then RStrip(s[..|s| - 1]) else s
  }

  function Target(prefix: string, key: string): string { RStrip(prefix) + "/" + key }

  function Targets(cfg: Config, keys: set<string>): set<string> { set k | k in keys :: cfg.TargetOf(k) }

  function BaseKeys(specs: seq<Spec>): set<string> { set s | s in specs :: s.baseKey }

  function EnvKeys(specs: seq<Spec>): set<string> { set s | s in specs :: s.envKey }

  // ----- Batches -----

  function Chunked<T>(s: seq<T>, size: nat): seq<seq<T>>
    requires size >= 1
  {
    if s == [] then [] else if |s| <= size then [s] else [s[..size]] + Chunked(s[size..], size)
  }

  /** Nothing is lost, repeated or reordered; no chunk is empty or too long, and only the
      last may be short. */
  lemma {:induction false} ChunksCover<T>(s: seq<T>, size: nat)
    requires size >= 1
    ensures Flatten(Chunked(s, size)) == s
    ensures forall i :: 0 <= i < |Chunked(s, size)| ==> 1 <= |Chunked(s, size)[i]| <= size
    ensures forall i :: 0 <= i < |Chunked(s, size)| - 1 ==> |Chunked(s, size)[i]| == size
    decreases |s|
  {
    if s == [] {
    } else if |s| <= size {
      assert Chunked(s, size)[1..] == [];
    } else {
      var rest := Chunked(s[size..], size);
      ChunksCover(s[size..], size);
      assert Chunked(s, size)[1..] == rest;
      assert Flatten(Chunked(s, size)) == s[..size] + s[size..] == s;
      assert forall i :: 1 <= i < |Chunked(s, size)| ==> Chunked(s, size)[i] == rest[i - 1];
    }
  }

  function ChunkedFrom<T>(s: seq<T>, size: nat, i: nat): seq<seq<T>>
    requires size >= 1
  {
    if i < |s| then Chunked(s[i..], size) else []
  }

  lemma {:induction false} NextChunk<T>(s: seq<T>, size: nat, i: nat)
    requires size >= 1 && i < |s|
    ensures ChunkedFrom(s, size, i) == [Slice(s, i, i + size)] + ChunkedFrom(s, size, i + size)
  {
    if i + size < |s| {
      assert s[i..][..size] == s[i..i + size];
      assert s[i..][size..] == s[i + size..];
    } else {
      assert s[i..|s|] == s[i..];
    }
  }

  /** Slices at 0, size, 2 * size, ... */
  method Chunk<T>(s: seq<T>, size: nat) returns (chunks: seq<seq<T>>)
    requires size >= 1
    ensures chunks == Chunked(s, size)
  {
    chunks := [];
    ghost var rest := Chunked(s, size);
    var i := 0;
    assert s[0..] == s;
    while i < |s|
      invariant 0 <= i
      invariant rest == ChunkedFrom(s, size, i)
      invariant chunks + rest == Chunked(s, size)
    {
      NextChunk(s, size, i);
      var slice := Slice(s, i, i + size);
      MoveHead(chunks, slice, rest, ChunkedFrom(s, size, i + size));
      chunks := chunks + [slice];
      rest := ChunkedFrom(s, size, i + size);
      i := i + size;
    }
  }

  lemma {:induction false} MoveHead<T>(front: seq<T>, x: T, back: seq<T>, tail: seq<T>)
    requires back == [x] + tail
    ensures front + back == (front + [x]) + tail
  {
  }

  lemma {:induction false} FlattenKeys(chunks: seq<seq<Spec>>, s: Spec)
    ensures s in Flatten(chunks) <==> exists i :: 0 <= i < |chunks| && s in chunks[i]
  {
    if chunks != [] {
      FlattenKeys(chunks[1..], s);
      assert s in Flatten(chunks) <==> s in chunks[0] || s in Flatten(chunks[1..]);
      if s in Flatten(chunks[1..]) {
        var i :| 0 <= i < |chunks[1..]| && s in chunks[1..][i];
        assert s in chunks[i + 1];
      }
      if i :| 1 <= i < |chunks| && s in chunks[i] {
        assert s in chunks[1..][i - 1];
      }
    }
  }

  // ----- One call -----

  datatype BuildResult = BuildOk | BuildImageError | OtherError

  datatype BatchEnd = Pushed | GaveUp | Crashed | PushFailed

  /** How often a batch was built, and how that ended. */
  datatype BatchRun = BatchRun(tries: nat, end: BatchEnd)

  /** What a call did: the base images it set out to build and whether it got past them, the
      tags in the registry when it looked for environment images and whether it got past
      that, the specs it found missing and the batches it started. */
  datatype Run = Run(baseBuilt: set<string>, baseOk: bool, seen: set<string>, envOk: bool, missing: seq<Spec>,
                     batches: seq<BatchRun>)

  datatype Outcome =
    | Summary(totalBase: nat, builtBase: nat, skippedBase: int, totalEnv: nat, builtEnv: nat, skippedEnv: int, batchCount: nat)
    | Raised

  predicate Absent(cfg: Config, tags: set<string>, key: string) { cfg.TargetOf(key) !in tags }

  function MissingFrom(cfg: Config, specs: seq<Spec>, tags: set<string>): seq<Spec> {
    if specs == [] then []
    else
      (if cfg.Checks() && !Absent(cfg, tags, specs[0].envKey) then [] else [specs[0]]) +
      MissingFrom(cfg, specs[1..], tags)
  }

  lemma {:induction false} MissingOfSum(cfg: Config, a: seq<Spec>, b: seq<Spec>, tags: set<string>)
    ensures MissingFrom(cfg, a + b, tags) == MissingFrom(cfg, a, tags) + MissingFrom(cfg, b, tags)
  {
    if a == [] {
      assert a + b == b;
    } else {
      assert (a + b)[1..] == a[1..] + b;
      MissingOfSum(cfg, a[1..], b, tags);
    }
  }

  lemma {:induction false} MissingOfNext(cfg: Config, specs: seq<Spec>, tags: set<string>, i: nat)
    requires i < |specs|
    ensures MissingFrom(cfg, specs[..i + 1], tags) ==
            MissingFrom(cfg, specs[..i], tags) +
            if cfg.Checks() && !Absent(cfg, tags, specs[i].envKey) then [] else [specs[i]]
  {
    MissingOfSum(cfg, specs[..i], [specs[i]], tags);
    assert specs[..i + 1] == specs[..i] + [specs[i]];
  }

  /** `up`: the registry answers every request of this call. */
  ghost predicate BaseOk(cfg: Config, specs: seq<Spec>, tags: set<string>, up: bool, toBuild: set<string>) {
    toBuild <= BaseKeys(specs) &&
    (!cfg.Checks() ==> toBuild == BaseKeys(specs)) &&
    (forall s :: s in specs && Absent(cfg, tags, s.baseKey) ==> s.baseKey in toBuild) &&
    (up && cfg.Checks() ==> forall k :: k in toBuild ==> Absent(cfg, tags, k))
  }

  ghost predicate MissingOk(cfg: Config, specs: seq<Spec>, tags: set<string>, up: bool, missing: seq<Spec>) {
    (forall s :: s in missing ==> s in specs) &&
    (forall s :: s in specs && Absent(cfg, tags, s.envKey) ==> s in missing) &&
    (up || !cfg.Checks() ==> missing == MissingFrom(cfg, specs, tags))
  }

  ghost predicate BatchOk(cfg: Config, keys: set<string>, b: BatchRun, after: set<string>) {
    1 <= b.tries <= cfg.MaxTries() &&
    (b.end == GaveUp ==> b.tries == cfg.MaxTries()) &&
    (b.end == Pushed && cfg.Pushes() ==> Targets(cfg, keys) <= after)
  }

  ghost predicate BatchesOk(cfg: Config, missing: seq<Spec>, batches: seq<BatchRun>, after: set<string>) {
    var chunks := Chunked(missing, cfg.ChunkSize());
    |batches| <= |chunks| &&
    (forall i :: 0 <= i < |batches| ==> BatchOk(cfg, EnvKeys(chunks[i]), batches[i], after)) &&
    (forall i :: 0 <= i < |batches| - 1 ==> batches[i].end == Pushed)
  }

  lemma {:induction false} BatchesGrow(cfg: Config, missing: seq<Spec>, batches: seq<BatchRun>, before: set<string>, b: BatchRun, after: set<string>)
    requires BatchesOk(cfg, missing, batches, before) && before <= after
    requires forall i :: 0 <= i < |batches| ==> batches[i].end == Pushed
    requires |batches| < |Chunked(missing, cfg.ChunkSize())|
    requires BatchOk(cfg, EnvKeys(Chunked(missing, cfg.ChunkSize())[|batches|]), b, after)
    ensures BatchesOk(cfg, missing, batches + [b], after)
  {
    var chunks := Chunked(missing, cfg.ChunkSize());
    forall i | 0 <= i < |batches + [b]| ensures BatchOk(cfg, EnvKeys(chunks[i]), (batches + [b])[i], after) {
      if i < |batches| {
        assert BatchOk(cfg, EnvKeys(chunks[i]), batches[i], before);
      }
    }
  }

  /** A call on `specs` that takes the registry from `before` to `after`. */
  ghost predicate Call(cfg: Config, specs: seq<Spec>, up: bool, before: set<string>, run: Run, after: set<string>) {
    before <= run.seen <= before + Targets(cfg, run.baseBuilt) &&
    run.seen <= after <= run.seen + Targets(cfg, EnvKeys(run.missing)) &&
    (!cfg.Pushes() ==> after == before) &&
    BasesDone(cfg, specs, up, before, run) &&
    if run.envOk then
      run.baseOk && MissingOk(cfg, specs, run.seen, up, run.missing) && BatchesOk(cfg, run.missing, run.batches, after)
    else
      !(up && run.baseOk) && run.missing == [] && run.batches == []
  }

  /** The base images of a call.  Unless the registry answers, a check can raise before all
      keys have been looked at. */
  ghost predicate BasesDone(cfg: Config, specs: seq<Spec>, up: bool, before: set<string>, run: Run) {
    run.baseBuilt <= BaseKeys(specs) &&
    (up || run.baseOk ==> BaseOk(cfg, specs, before, up, run.baseBuilt)) &&
    (up && run.baseBuilt == {} ==> run.baseOk) &&
    (run.baseOk && cfg.Pushes() ==> Targets(cfg, run.baseBuilt) <= run.seen)
  }

  /** All batches came to their end. */
  predicate Completes(cfg: Config, run: Run) {
    run.envOk && |run.batches| == |Chunked(run.missing, cfg.ChunkSize())| &&
    forall i :: 0 <= i < |run.batches| ==> run.batches[i].end == Pushed
  }

  datatype Answer = Found | NotFound | TokenError

  class Builder {
    /** The tags in the registry. */
    var tags: set<string>
    const up: bool

    constructor (tags: set<string>, up: bool)
      ensures this.tags == tags && this.up == up
    {
      this.tags := tags;
      this.up := up;
    }

    /** No answer reads as absent; fetching the token for the request can raise. */
    method RemoteImageExists(tag: string) returns (answer: Answer)
      ensures answer == Found ==> tag in tags
      ensures up ==> answer == if tag in tags then Found else NotFound
    {
      var answered: bool, raises: bool := *, *;
      if !up && raises {
        return TokenError;
      }
      answer := if tag in tags && (up || answered) then Found else NotFound;
    }

    /** `docker push` can fail after the image has landed. */
    method TagAndPush(cfg: Config, images: set<string>) returns (ok: bool)
      requires cfg.Pushes()
      modifies this
      ensures old(tags) <= tags <= old(tags) + Targets(cfg, images)
      ensures ok ==> Targets(cfg, images) <= tags
    {
      var rest := images;
      while rest != {}
        invariant rest <= images
        invariant old(tags) <= tags <= old(tags) + Targets(cfg, images)
        invariant Targets(cfg, images - rest) <= tags
        decreases rest
      {
        var image :| image in rest;
        rest := rest - {image};
        var success: bool, landed: bool := *, *;
        if success || landed {
          tags := tags + {cfg.TargetOf(image)};
        }
        if !success {
          return false;
        }
      }
      assert images - rest == images;
      return true;
    }

    method BasesToBuild(cfg: Config, specs: seq<Spec>) returns (toBuild: set<string>, ok: bool)
      ensures toBuild <= BaseKeys(specs) && (up ==> ok)
      ensures ok ==> BaseOk(cfg, specs, tags, up, toBuild)
    {
      toBuild := {};
      for i := 0 to |specs|
        invariant BaseOk(cfg, specs[..i], tags, up, toBuild)
      {
        var key := specs[i].baseKey;
        assert specs[..i + 1] == specs[..i] + [specs[i]];
        if cfg.Checks() {
          var answer := RemoteImageExists(cfg.TargetOf(key));
          if answer == TokenError {
            return toBuild, false;
          }
          var pulled: bool := *;
          if answer == Found && (up || pulled) {
            continue;
          }
        }
        toBuild := toBuild + {key};
      }
      assert specs[..|specs|] == specs;
      ok := true;
    }

    method MissingEnvSpecs(cfg: Config, specs: seq<Spec>) returns (missing: seq<Spec>, ok: bool)
      ensures up ==> ok
      ensures ok ==> MissingOk(cfg, specs, tags, up, missing)
    {
      missing := [];
      for i := 0 to |specs|
        invariant MissingOk(cfg, specs[..i], tags, up, missing)
      {
        MissingOfNext(cfg, specs, tags, i);
        assert specs[..i + 1] == specs[..i] + [specs[i]];
        if cfg.Checks() {
          var answer := RemoteImageExists(cfg.TargetOf(specs[i].envKey));
          if answer == TokenError {
            return missing, false;
          }
          if answer == Found {
            continue;
          }
        }
        missing := missing + [specs[i]];
      }
      assert specs[..|specs|] == specs;
      ok := true;
    }

    /** The retry loop of one batch: only a build error is retried. */
    method BuildBatch(cfg: Config, keys: set<string>) returns (b: BatchRun)
      modifies this
      ensures old(tags) <= tags <= old(tags) + Targets(cfg, keys)
      ensures BatchOk(cfg, keys, b, tags)
      ensures !cfg.Pushes() ==> tags == old(tags)
    {
      var attempt := 0;
      while true
        invariant 0 <= attempt < cfg.MaxTries()
        invariant tags == old(tags)
        decreases cfg.MaxTries() - attempt
      {
        var result: BuildResult := *;
        match result
        case BuildOk =>
          if cfg.Pushes() {
            var ok := TagAndPush(cfg, keys);
            if !ok {
              return BatchRun(attempt + 1, PushFailed);
            }
          }
          return BatchRun(attempt + 1, Pushed);
        case OtherError =>
          return BatchRun(attempt + 1, Crashed);
        case BuildImageError =>
          attempt := attempt + 1;
          if attempt > cfg.maxRetries {
            return BatchRun(attempt, GaveUp);
          }
      }
    }

    method BuildBases(cfg: Config, specs: seq<Spec>) returns (toBuild: set<string>, ok: bool)
      modifies this
      ensures BasesBuilt(cfg, specs, up, old(tags), toBuild, ok, tags)
    {
      toBuild, ok := BasesToBuild(cfg, specs);
      if !ok || toBuild == {} {
        return;
      }
      var built: bool := *;
      if !built {
        return toBuild, false;
      }
      if cfg.Pushes() {
        ok := TagAndPush(cfg, toBuild);
      }
    }

    method BuildBatches(cfg: Config, missing: seq<Spec>) returns (batches: seq<BatchRun>)
      modifies this
      ensures old(tags) <= tags <= old(tags) + Targets(cfg, EnvKeys(missing))
      ensures BatchesOk(cfg, missing, batches, tags)
      ensures !cfg.Pushes() ==> tags == old(tags)
      ensures |batches| == |Chunked(missing, cfg.ChunkSize())| || (batches != [] && batches[|batches| - 1].end != Pushed)
    {
      var chunks := Chunk(missing, cfg.ChunkSize());
      ChunksCover(missing, cfg.ChunkSize());
      batches := [];
      for idx := 0 to |chunks|
        invariant |batches| == idx
        invariant BatchesOk(cfg, missing, batches, tags)
        invariant forall i :: 0 <= i < |batches| ==> batches[i].end == Pushed
        invariant old(tags) <= tags <= old(tags) + Targets(cfg, EnvKeys(missing))
        invariant !cfg.Pushes() ==> tags == old(tags)
      {
        ChunkKeys(cfg, missing, chunks, idx);
        ghost var before := tags;
        var b := BuildBatch(cfg, EnvKeys(chunks[idx]));
        BatchesGrow(cfg, missing, batches, before, b, tags);
        batches := batches + [b];
        if b.end != Pushed {
          return;
        }
      }
    }

    method BuildEnvImages(cfg: Config, specs: seq<Spec>) returns (run: Run, outcome: Outcome)
      modifies this
      ensures Call(cfg, specs, up, old(tags), run, tags)
      ensures outcome.Summary? <==> Completes(cfg, run)
      ensures outcome.Summary? ==> IsSummary(specs, run, outcome)
    {
      var totalBase, totalEnv := |BaseKeys(specs)|, |EnvKeys(specs)|;
      var toBuild, baseOk := BuildBases(cfg, specs);
      var seen := tags;
      if !baseOk {
        AbortedCall(cfg, specs, up, old(tags), toBuild, false, seen);
        return Run(toBuild, false, seen, false, [], []), Raised;
      }
      var missing, envOk := MissingEnvSpecs(cfg, specs);
      if !envOk {
        AbortedCall(cfg, specs, up, old(tags), toBuild, true, seen);
        return Run(toBuild, true, seen, false, [], []), Raised;
      }
      if missing == [] {
        run := Run(toBuild, true, seen, true, [], []);
        FullCall(cfg, specs, up, old(tags), run, tags);
        assert Completes(cfg, run) && EnvKeys([]) == {};
        outcome := Summary(totalBase, |toBuild|, totalBase - |toBuild|, totalEnv, 0, totalEnv, 0);
        return;
      }
      var batches := BuildBatches(cfg, missing);
      run := Run(toBuild, true, seen, true, missing, batches);
      FullCall(cfg, specs, up, old(tags), run, tags);
      if batches != [] && batches[|batches| - 1].end != Pushed {
        assert !Completes(cfg, run);
        return run, Raised;
      }
      assert Completes(cfg, run);
      var builtEnv := |EnvKeys(missing)|;
      outcome := Summary(totalBase, |toBuild|, totalBase - |toBuild|, totalEnv, builtEnv, totalEnv - builtEnv, |batches|);
    }
  }

  /** How `BuildBases` leaves the registry. */
  ghost predicate BasesBuilt(cfg: Config, specs: seq<Spec>, up: bool, before: set<string>, toBuild: set<string>, ok: bool, after: set<string>) {
    toBuild <= BaseKeys(specs) &&
    (up || ok ==> BaseOk(cfg, specs, before, up, toBuild)) &&
    before <= after <= before + Targets(cfg, toBuild) &&
    (ok && cfg.Pushes() ==> Targets(cfg, toBuild) <= after) &&
    (!cfg.Pushes() ==> after == before) && (up && toBuild == {} ==> ok)
  }

  lemma {:induction false} AbortedCall(cfg: Config, specs: seq<Spec>, up: bool, before: set<string>, toBuild: set<string>, ok: bool, after: set<string>)
    requires BasesBuilt(cfg, specs, up, before, toBuild, ok, after) && !(up && ok)
    ensures Call(cfg, specs, up, before, Run(toBuild, ok, after, false, [], []), after)
  {
  }

  lemma {:induction false} FullCall(cfg: Config, specs: seq<Spec>, up: bool, before: set<string>, run: Run, after: set<string>)
    requires run.baseOk && run.envOk && BasesBuilt(cfg, specs, up, before, run.baseBuilt, true, run.seen)
    requires MissingOk(cfg, specs, run.seen, up, run.missing) && BatchesOk(cfg, run.missing, run.batches, after)
    requires run.seen <= after <= run.seen + Targets(cfg, EnvKeys(run.missing))
    requires !cfg.Pushes() ==> after == run.seen
    ensures Call(cfg, specs, up, before, run, after)
  {
  }

  ghost predicate IsSummary(specs: seq<Spec>, run: Run, outcome: Outcome)
    requires outcome.Summary?
  {
    outcome.totalBase == |BaseKeys(specs)| && outcome.builtBase == |run.baseBuilt| &&
    outcome.totalEnv == |EnvKeys(specs)| && outcome.builtEnv == |EnvKeys(run.missing)| &&
    outcome.builtBase + outcome.skippedBase == outcome.totalBase &&
    outcome.builtEnv + outcome.skippedEnv == outcome.totalEnv &&
    outcome.batchCount == |run.batches|
  }

  lemma {:induction false} ChunkKeys(cfg: Config, missing: seq<Spec>, chunks: seq<seq<Spec>>, i: nat)
    requires Flatten(chunks) == missing && i < |chunks|
    ensures Targets(cfg, EnvKeys(chunks[i])) <= Targets(cfg, EnvKeys(missing))
  {
    forall s | s in chunks[i] ensures s in missing { FlattenKeys(chunks, s); }
  }

  // ----- What a call leaves behind, and what a rerun makes of it -----

  function BatchKeys(cfg: Config, run: Run, i: nat): set<string> {
    var chunks := Chunked(run.missing, cfg.ChunkSize());
    if i < |chunks| then EnvKeys(chunks[i]) else {}
  }

  /** The keys of the batches that came to their end. */
  function FinishedKeys(cfg: Config, run: Run): set<string> {
    set i, k | 0 <= i < |run.batches| && run.batches[i].end == Pushed && k in BatchKeys(cfg, run, i) :: k
  }

  ghost predicate Stored(cfg: Config, keys: set<string>, tags: set<string>) { Targets(cfg, keys) <= tags }

  /** However a call ends, the registry has every key of every finished batch. */
  lemma {:induction false} FinishedIsStored(cfg: Config, specs: seq<Spec>, up: bool, before: set<string>, run: Run, after: set<string>)
    requires Call(cfg, specs, up, before, run, after) && cfg.Pushes()
    ensures Stored(cfg, FinishedKeys(cfg, run), after)
  {
    forall k | k in FinishedKeys(cfg, run) ensures cfg.TargetOf(k) in after {
      var i :| 0 <= i < |run.batches| && run.batches[i].end == Pushed && k in BatchKeys(cfg, run, i);
      assert BatchOk(cfg, BatchKeys(cfg, run, i), run.batches[i], after);
    }
  }

  /** A call that completes has stored every key it found missing, and with the ones it
      found present that is every environment key. */
  lemma {:induction false} CompleteStoresAll(cfg: Config, specs: seq<Spec>, up: bool, before: set<string>, run: Run, after: set<string>)
    requires Call(cfg, specs, up, before, run, after) && cfg.Pushes() && Completes(cfg, run)
    ensures FinishedKeys(cfg, run) == EnvKeys(run.missing)
    ensures Stored(cfg, EnvKeys(run.missing), after)
    ensures Stored(cfg, EnvKeys(specs), after) && Stored(cfg, BaseKeys(specs), after)
  {
    var chunks := Chunked(run.missing, cfg.ChunkSize());
    ChunksCover(run.missing, cfg.ChunkSize());
    forall k ensures k in FinishedKeys(cfg, run) <==> k in EnvKeys(run.missing) {
      if k in EnvKeys(run.missing) {
        var s :| s in run.missing && s.envKey == k;
        FlattenKeys(chunks, s);
        var i :| 0 <= i < |chunks| && s in chunks[i];
        assert k in BatchKeys(cfg, run, i);
      }
      if k in FinishedKeys(cfg, run) {
        var i :| 0 <= i < |run.batches| && run.batches[i].end == Pushed && k in BatchKeys(cfg, run, i);
        var s: Spec :| s in chunks[i] && s.envKey == k;
        FlattenKeys(chunks, s);
      }
    }
    FinishedIsStored(cfg, specs, up, before, run, after);
    forall k | k in EnvKeys(specs) ensures cfg.TargetOf(k) in after {
      var s :| s in specs && s.envKey == k;
      if Absent(cfg, run.seen, k) {
        assert s in run.missing && k in EnvKeys(run.missing);
      }
    }
    forall k | k in BaseKeys(specs) ensures cfg.TargetOf(k) in after {
      var s :| s in specs && s.baseKey == k;
      if Absent(cfg, before, k) {
        assert k in run.baseBuilt;
      }
    }
  }

  lemma {:induction false} ChunkCount<T>(s: seq<T>, size: nat)
    requires size >= 1 && s != []
    ensures var n := |Chunked(s, size)|; n >= 1 && (n - 1) * size < |s| <= n * size
    decreases |s|
  {
    if |s| > size {
      ChunkCount(s[size..], size);
      var n := |Chunked(s[size..], size)|;
      assert |Chunked(s, size)| == n + 1;
      assert (n - 1) * size + size == n * size && n * size + size == (n + 1) * size;
    }
  }

  /** A call that completes has built what was missing in as few batches as the batch size
      allows, or one by one if the size is less than one. */
  lemma {:induction false} BatchCount(cfg: Config, specs: seq<Spec>, up: bool, before: set<string>, run: Run, after: set<string>)
    requires Call(cfg, specs, up, before, run, after) && Completes(cfg, run) && run.missing != []
    ensures var n, size := |run.batches|, if cfg.batchSize < 1 then 1 else cfg.batchSize;
            (n - 1) * size < |run.missing| <= n * size
  {
    ChunkCount(run.missing, cfg.ChunkSize());
  }

  /** Without a prefix, or with an empty one, nothing is pushed. */
  lemma {:induction false} NoPrefixNoPush(cfg: Config, specs: seq<Spec>, up: bool, before: set<string>, run: Run, after: set<string>)
    requires Call(cfg, specs, up, before, run, after) && (cfg.prefix == None || cfg.prefix == Some(""))
    ensures after == before
  {
  }

  lemma {:induction false} SlashesGo(p: string, slashes: string)
    requires p != "" && p[|p| - 1] != '/' && forall i :: 0 <= i < |slashes| ==> slashes[i] == '/'
    ensures RStrip(p + slashes) == p
    decreases |slashes|
  {
    if slashes == "" {
      assert p + slashes == p;
    } else {
      assert (p + slashes)[..|p + slashes| - 1] == p + slashes[..|slashes| - 1];
      SlashesGo(p, slashes[..|slashes| - 1]);
    }
  }

  /** A call with any other prefix that completes leaves every key in the registry, after
      the prefix without the slashes at its end and one slash. */
  lemma {:induction false} StoredUnderPrefix(cfg: Config, specs: seq<Spec>, up: bool, before: set<string>, run: Run, after: set<string>,
                                             p: string, slashes: string, s: Spec)
    requires Call(cfg, specs, up, before, run, after) && Completes(cfg, run) && s in specs
    requires p != "" && p[|p| - 1] != '/' && cfg.prefix == Some(p + slashes)
    requires forall i :: 0 <= i < |slashes| ==> slashes[i] == '/'
    ensures p + "/" + s.envKey in after && p + "/" + s.baseKey in after
  {
    SlashesGo(p, slashes);
    CompleteStoresAll(cfg, specs, up, before, run, after);
    assert cfg.TargetOf(s.envKey) in Targets(cfg, EnvKeys(specs));
    assert cfg.TargetOf(s.baseKey) in Targets(cfg, BaseKeys(specs));
  }

  lemma {:induction false} MissingIn(cfg: Config, specs: seq<Spec>, tags: set<string>, s: Spec)
    ensures s in MissingFrom(cfg, specs, tags) <==> s in specs && !(cfg.Checks() && !Absent(cfg, tags, s.envKey))
  {
    if specs != [] {
      MissingIn(cfg, specs[1..], tags, s);
    }
  }

  lemma {:induction false} RStripIsEmpty(s: string)
    ensures RStrip(s) == "" <==> forall i :: 0 <= i < |s| ==> s[i] == '/'
  {
    if s != "" && s[|s| - 1] == '/' {
      RStripIsEmpty(s[..|s| - 1]);
      assert forall i :: 0 <= i < |s| - 1 ==> s[..|s| - 1][i] == s[i];
    }
  }

  /** The call is forced, or its prefix is missing, empty or nothing but slashes. */
  ghost predicate IgnoresStored(cfg: Config) {
    cfg.force || cfg.prefix == None || forall i :: 0 <= i < |cfg.prefix.value| ==> cfg.prefix.value[i] == '/'
  }

  lemma {:induction false} ChecksUnlessIgnored(cfg: Config)
    ensures cfg.Checks() <==> !IgnoresStored(cfg)
  {
    if cfg.prefix.Some? { RStripIsEmpty(cfg.prefix.value); }
  }

  /** With the registry answering, a call builds a key that is already stored if and only
      if it ignores what is stored. */
  lemma {:induction false} StoredIsRebuilt(cfg: Config, specs: seq<Spec>, before: set<string>, run: Run, after: set<string>, key: string)
    requires Call(cfg, specs, true, before, run, after) && run.baseOk
    requires key in EnvKeys(specs) && Stored(cfg, {key}, before)
    ensures key in EnvKeys(run.missing) <==> IgnoresStored(cfg)
  {
    ChecksUnlessIgnored(cfg);
    assert cfg.TargetOf(key) in Targets(cfg, {key});
    var s :| s in specs && s.envKey == key;
    MissingIn(cfg, specs, run.seen, s);
    if key in EnvKeys(run.missing) {
      var s' :| s' in run.missing && s'.envKey == key;
      MissingIn(cfg, specs, run.seen, s');
    }
  }

  lemma {:induction false} NothingMissing(cfg: Config, specs: seq<Spec>, tags: set<string>)
    requires cfg.Checks() && forall s :: s in specs ==> !Absent(cfg, tags, s.envKey)
    ensures MissingFrom(cfg, specs, tags) == []
  {
    if specs != [] {
      NothingMissing(cfg, specs[1..], tags);
    }
  }

  /** A call with its arguments and the registry before and after it. */
  datatype Record = Record(cfg: Config, specs: seq<Spec>, up: bool, before: set<string>, run: Run, after: set<string>)

  ghost predicate Valid(c: Record) { Call(c.cfg, c.specs, c.up, c.before, c.run, c.after) }

  /** Calls one after the other.  Between them the registry may only gain tags. */
  ghost predicate History(calls: seq<Record>) {
    (forall i :: 0 <= i < |calls| ==> Valid(calls[i])) &&
    (forall i :: 0 <= i < |calls| - 1 ==> calls[i].after <= calls[i + 1].before)
  }

  lemma {:induction false} RegistryGrows(calls: seq<Record>, i: nat, j: nat)
    requires History(calls) && i < j < |calls|
    ensures calls[i].after <= calls[j].before
  {
    if i + 1 < j {
      RegistryGrows(calls, i, j - 1);
      assert Valid(calls[j - 1]) && calls[j - 1].after <= calls[j - 1 + 1].before;
    }
  }

  /** Resuming: in a history of aborted and completed calls with one prefix, no call with
      the registry answering builds a key of a batch that an earlier call finished, unless
      it is forced or its prefix strips to nothing. */
  lemma {:induction false} RerunsSkipFinished(calls: seq<Record>, i: nat, j: nat, key: string)
    requires History(calls) && i < j < |calls| && calls[i].cfg.prefix == calls[j].cfg.prefix
    requires calls[i].cfg.Pushes() && calls[j].up && !IgnoresStored(calls[j].cfg)
    requires key in FinishedKeys(calls[i].cfg, calls[i].run)
    ensures key !in EnvKeys(calls[j].run.missing)
  {
    var c, d := calls[i], calls[j];
    assert Valid(c) && Valid(d);
    FinishedIsStored(c.cfg, c.specs, c.up, c.before, c.run, c.after);
    assert c.cfg.TargetOf(key) in Targets(c.cfg, FinishedKeys(c.cfg, c.run));
    RegistryGrows(calls, i, j);
    StoredIsSkipped(d, key);
  }

  lemma {:induction false} StoredIsSkipped(d: Record, key: string)
    requires Valid(d) && d.up && !IgnoresStored(d.cfg) && d.cfg.TargetOf(key) in d.before
    ensures key !in EnvKeys(d.run.missing)
  {
    if key in EnvKeys(d.run.missing) {
      assert d.run.envOk && key in EnvKeys(d.specs);
      assert Targets(d.cfg, {key}) == {d.cfg.TargetOf(key)};
      StoredIsRebuilt(d.cfg, d.specs, d.before, d.run, d.after, key);
    }
  }

  /** After a call that completed, a rerun on the same specs finds nothing to do. */
  lemma {:induction false} RerunAfterComplete(calls: seq<Record>, i: nat, j: nat)
    requires History(calls) && i < j < |calls| && calls[i].cfg.prefix == calls[j].cfg.prefix
    requires calls[i].specs == calls[j].specs && Completes(calls[i].cfg, calls[i].run)
    requires calls[i].cfg.Pushes() && calls[j].up && !IgnoresStored(calls[j].cfg)
    ensures calls[j].run.baseBuilt == {} && calls[j].run.missing == [] && calls[j].run.batches == []
    ensures Completes(calls[j].cfg, calls[j].run) && calls[j].after == calls[j].before
  {
    var c, d := calls[i], calls[j];
    assert Valid(c) && Valid(d);
    ChecksUnlessIgnored(d.cfg);
    CompleteStoresAll(c.cfg, c.specs, c.up, c.before, c.run, c.after);
    RegistryGrows(calls, i, j);
    forall k | k in BaseKeys(c.specs) ensures !Absent(d.cfg, d.before, k) {
      assert c.cfg.TargetOf(k) in Targets(c.cfg, BaseKeys(c.specs));
    }
    assert d.run.baseBuilt == {};
    forall s | s in d.specs ensures !Absent(d.cfg, d.run.seen, s.envKey) {
      assert c.cfg.TargetOf(s.envKey) in Targets(c.cfg, EnvKeys(c.specs));
    }
    NothingMissing(d.cfg, d.specs, d.run.seen);
    assert EnvKeys([]) == {} && Targets(d.cfg, {}) == {};
  }

  lemma {:induction false} KeysAreFewer(keys: set<string>, more: set<string>)
    requires keys <= more
    ensures |keys| <= |more|
  {
    if keys != {} {
      var k :| k in keys;
      KeysAreFewer(keys - {k}, more - {k});
    }
  }

  /** The numbers of a summary are those of a partition: neither part is negative, and
      the built ones are the keys of the finished batches. */
  lemma {:induction false} CountsAreParts(cfg: Config, specs: seq<Spec>, up: bool, before: set<string>, run: Run, after: set<string>)
    requires Call(cfg, specs, up, before, run, after) && Completes(cfg, run)
    ensures |run.baseBuilt| <= |BaseKeys(specs)| && |EnvKeys(run.missing)| <= |EnvKeys(specs)|
  {
    KeysAreFewer(run.baseBuilt, BaseKeys(specs));
    KeysAreFewer(EnvKeys(run.missing), EnvKeys(specs));
  }

  /** A prefix of slashes pushes but never asks what is stored. */
  lemma {:induction false} SlashesNeverCheck(cfg: Config, n: nat)
    requires n > 0 && cfg.prefix == Some(seq(n, _ => '/'))
    ensures cfg.Pushes() && !cfg.Checks()
  {
    RStripOfSlashes(n);
  }

  lemma {:induction false} RStripOfSlashes(n: nat)
    ensures RStrip(seq(n, _ => '/')) == ""
  {
    if n > 0 {
      var s := seq(n, _ => '/');
      assert s[..n - 1] == seq(n - 1, _ => '/');
      RStripOfSlashes(n - 1);
    }
  }
}
