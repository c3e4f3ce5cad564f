/** The three-phase image build with `--push`: builder, base images, final images, as
    steps of concurrent tasks over one registry. */
module Pipeline {
  import opened Options
  import opened ImageTags
  import opened Text

  /** A pushed image: the base it was assembled on, if any, and its wrap layers. */
  datatype Image = Image(base: Option<Ref>, wraps: nat)

  type Registry = map<Ref, Image>

  datatype Config = Config(builder: Ref, baseRepo: string, targetRepo: string, sdk: string, hash: string,
                           target: string, customTags: seq<string>, maxRetries: int, force: bool)
  {
    function Base(i: nat): Ref
      requires i < |customTags|
    {
      BaseRef(baseRepo, hash, customTags[i])
    }

    function Final(i: nat): Ref
      requires i < |customTags|
    {
      FinalRef(targetRepo, sdk, hash, customTags[i], target)
    }

    predicate Wrapped(i: nat)
      requires i < |customTags|
    {
      ShouldWrap(customTags[i])
    }

    /** Distinct instances, and three different repositories. */
    ghost predicate Valid() {
      (forall i, j :: 0 <= i < j < |customTags| ==> customTags[i] != customTags[j]) &&
      builder.repo != baseRepo && builder.repo != targetRepo && baseRepo != targetRepo
    }
  }

  // ----- One base image -----

  datatype BaseTask = BaseTrying(attempt: nat) | BaseDone(ok: bool)

  /** One attempt: does the registry say the tag exists, did the build report success,
      did its push land.  A push can land although the build reports a failure. */
  datatype BuildEvent = BuildEvent(exists_: bool, ok: bool, landed: bool)

  /** The registry may fail to answer for a tag it has, never the other way round. */
  predicate Truthful(r: Registry, ref: Ref, exists_: bool) { exists_ ==> ref in r }

  predicate BaseEnabled(r: Registry, ref: Ref, t: BaseTask, e: BuildEvent) {
    t.BaseTrying? && Truthful(r, ref, e.exists_) && (e.ok ==> e.landed)
  }

  function BaseStep(cfg: Config, r: Registry, ref: Ref, t: BaseTask, e: BuildEvent): (Registry, BaseTask)
    requires t.BaseTrying?
  {
    if cfg.maxRetries < 1 then (r, BaseDone(false))
    else if !cfg.force && e.exists_ then (r, BaseDone(true))
    else
      var r' := if e.landed then r[ref := Image(None, 0)] else r;
      if e.ok then (r', BaseDone(true))
      else if t.attempt >= cfg.maxRetries - 1 then (r', BaseDone(false))
      else (r', BaseTrying(t.attempt + 1))
  }

  // ----- One final image -----

  /** `skipped` remembers that the assembly took the early return for an existing tag. */
  datatype AsmTask = Waiting | Building(attempt: nat) | Pushing(attempt: nat, image: Image)
                   | Wrapping(attempt: nat) | AsmDone(ok: bool, skipped: bool)

  datatype AsmEvent =
    | Check(exists_: bool, raises: bool)
    | Build(ok: bool)
    | Push(ok: bool, landed: bool)
    | Wrap(exists_: bool, ok: bool, landed: bool, raises: bool)

  predicate AsmEnabled(r: Registry, final: Ref, t: AsmTask, e: AsmEvent) {
    match e
    case Check(ex, _) => t.Waiting? && Truthful(r, final, ex)
    case Build(_) => t.Building?
    case Push(ok, landed) => t.Pushing? && (ok ==> landed)
    case Wrap(ex, ok, landed, raises) =>
      t.Wrapping? && Truthful(r, final, ex) && (ok ==> landed && !raises) && (landed ==> ex)
  }

  function Retry(cfg: Config, attempt: nat): AsmTask {
    if attempt >= cfg.maxRetries - 1 then AsmDone(false, false) else Building(attempt + 1)
  }

  /** An attempt builds on the base tag, pushes, and for some repositories puts one more
      layer on the pushed image in place.  Any failure starts the attempt over, except an
      exception: the check before the attempts and the wrap step are not guarded. */
  function AsmStep(cfg: Config, r: Registry, i: nat, t: AsmTask, e: AsmEvent): (Registry, AsmTask)
    requires i < |cfg.customTags| && AsmEnabled(r, cfg.Final(i), t, e)
  {
    var final := cfg.Final(i);
    match e
    case Check(ex, raises) =>
      if !cfg.force && raises then (r, AsmDone(false, false))
      else if !cfg.force && ex then (r, AsmDone(true, true))
      else if cfg.maxRetries < 1 then (r, AsmDone(false, false))
      else (r, Building(0))
    case Build(ok) =>
      (r, if ok then Pushing(t.attempt, Image(Some(cfg.Base(i)), 0)) else Retry(cfg, t.attempt))
    case Push(ok, landed) =>
      var r' := if landed then r[final := t.image] else r;
      (r', if !ok then Retry(cfg, t.attempt) else if cfg.Wrapped(i) then Wrapping(t.attempt) else AsmDone(true, false))
    case Wrap(ex, ok, landed, raises) =>
      var r' := if landed then r[final := r[final].(wraps := r[final].wraps + 1)] else r;
      (r', if raises then AsmDone(false, false) else if ex && ok then AsmDone(true, false) else Retry(cfg, t.attempt))
  }

  /** A wrap that lands puts one layer on what the tag holds, and changes no other tag. */
  lemma {:induction false} WrapAddsALayer(cfg: Config, r: Registry, i: nat, t: AsmTask, ok: bool, raises: bool)
    requires i < |cfg.customTags| && AsmEnabled(r, cfg.Final(i), t, Wrap(true, ok, true, raises))
    ensures var (r', t') := AsmStep(cfg, r, i, t, Wrap(true, ok, true, raises));
            cfg.Final(i) in r && r' == r[cfg.Final(i) := Image(r[cfg.Final(i)].base, r[cfg.Final(i)].wraps + 1)]
  {
  }

  // ----- The whole run -----

  datatype Phase = BuilderPhase | BasePhase | AsmPhase | Finished(exitCode: int)

  datatype State = State(registry: Registry, phase: Phase, bases: seq<BaseTask>, finals: seq<AsmTask>)

  datatype Event =
    | BuilderImage(e: BuildEvent)
    | BaseImage(i: nat, e: BuildEvent)
    | BasesDone
    | FinalImage(i: nat, a: AsmEvent)
    | FinalsDone

  function Start(cfg: Config, registry: Registry): State {
    var n := |cfg.customTags|;
    State(registry, BuilderPhase, seq(n, i => BaseTrying(0)), seq(n, i => Waiting))
  }

  predicate Sized(cfg: Config, s: State) { |s.bases| == |s.finals| == |cfg.customTags| }

  predicate Enabled(cfg: Config, s: State, e: Event)
    requires Sized(cfg, s)
  {
    match e
    case BuilderImage(b) => s.phase.BuilderPhase? && Truthful(s.registry, cfg.builder, b.exists_) && (b.ok ==> b.landed)
    case BaseImage(i, b) => s.phase.BasePhase? && i < |s.bases| && BaseEnabled(s.registry, cfg.Base(i), s.bases[i], b)
    case BasesDone => s.phase.BasePhase? && forall i :: 0 <= i < |s.bases| ==> s.bases[i].BaseDone?
    case FinalImage(i, a) => s.phase.AsmPhase? && i < |s.finals| && AsmEnabled(s.registry, cfg.Final(i), s.finals[i], a)
    case FinalsDone => s.phase.AsmPhase? && forall i :: 0 <= i < |s.finals| ==> s.finals[i].AsmDone?
  }

  function Apply(cfg: Config, s: State, e: Event): (s': State)
    requires Sized(cfg, s) && Enabled(cfg, s, e)
    ensures Sized(cfg, s')
  {
    match e
    case BuilderImage(b) =>
      if !cfg.force && b.exists_ then s.(phase := BasePhase)
      else
        var r := if b.landed then s.registry[cfg.builder := Image(None, 0)] else s.registry;
        s.(registry := r, phase := if b.ok then BasePhase else Finished(1))
    case BaseImage(i, b) =>
      var (r, t) := BaseStep(cfg, s.registry, cfg.Base(i), s.bases[i], b);
      s.(registry := r, bases := s.bases[i := t])
    case BasesDone =>
      s.(phase := if forall i :: 0 <= i < |s.bases| ==> s.bases[i].ok then AsmPhase else Finished(1))
    case FinalImage(i, a) =>
      var (r, t) := AsmStep(cfg, s.registry, i, s.finals[i], a);
      s.(registry := r, finals := s.finals[i := t])
    case FinalsDone =>
      s.(phase := Finished(if forall i :: 0 <= i < |s.finals| ==> s.finals[i].ok then 0 else 1))
  }

  ghost predicate Reaches(cfg: Config, s: State, events: seq<Event>, t: State)
    requires Sized(cfg, s)
    decreases |events|
  {
    if events == [] then s == t
    else Enabled(cfg, s, events[0]) && Reaches(cfg, Apply(cfg, s, events[0]), events[1..], t)
  }

  // ----- What every step keeps -----

  /** What is known of final image i, given the registry r0 at the start. */
  ghost predicate FinalOk(cfg: Config, r0: Registry, r: Registry, i: nat, t: AsmTask)
    requires i < |cfg.customTags|
  {
    var final := cfg.Final(i);
    var plain := Image(Some(cfg.Base(i)), 0);
    match t
    case Waiting => (final in r <==> final in r0) && (final in r0 ==> r[final] == r0[final])
    case Building(_) => true
    case Pushing(_, image) => image == plain
    case Wrapping(_) => cfg.Wrapped(i) && final in r && r[final] == plain
    case AsmDone(ok, skipped) =>
      ok ==>
        final in r &&
        if skipped then !cfg.force && final in r0 && r[final] == r0[final]
        else r[final] == if cfg.Wrapped(i) then plain.(wraps := 1) else plain
  }

  ghost predicate FinalsOk(cfg: Config, r0: Registry, s: State)
    requires Sized(cfg, s)
  {
    forall i :: 0 <= i < |s.finals| ==> FinalOk(cfg, r0, s.registry, i, s.finals[i])
  }

  ghost predicate BasesOk(cfg: Config, s: State)
    requires Sized(cfg, s)
  {
    (forall i :: 0 <= i < |s.bases| && s.bases[i] == BaseDone(true) ==> cfg.Base(i) in s.registry) &&
    (s.phase.AsmPhase? || s.phase == Finished(0) ==> forall i :: 0 <= i < |s.bases| ==> s.bases[i] == BaseDone(true)) &&
    (s.phase.BuilderPhase? || s.phase.BasePhase? ==> forall i :: 0 <= i < |s.finals| ==> s.finals[i].Waiting?) &&
    (s.phase == Finished(0) ==> forall i :: 0 <= i < |s.finals| ==> s.finals[i].AsmDone? && s.finals[i].ok)
  }

  ghost predicate Inv(cfg: Config, r0: Registry, s: State) {
    Sized(cfg, s) && FinalsOk(cfg, r0, s) && BasesOk(cfg, s)
  }

  lemma {:induction false} DistinctRefs(cfg: Config, i: nat, j: nat)
    requires cfg.Valid() && i < |cfg.customTags| && j < |cfg.customTags|
    ensures cfg.Base(i) != cfg.Final(j) && cfg.builder != cfg.Base(i) && cfg.builder != cfg.Final(j)
    ensures i != j ==> cfg.Base(i) != cfg.Base(j) && cfg.Final(i) != cfg.Final(j)
  {
    if i != j {
      assert cfg.customTags[i] != cfg.customTags[j];
      RefsAreInjective(cfg.baseRepo, cfg.sdk, cfg.hash, cfg.target, cfg.customTags[i], cfg.customTags[j]);
      RefsAreInjective(cfg.targetRepo, cfg.sdk, cfg.hash, cfg.target, cfg.customTags[i], cfg.customTags[j]);
    }
  }

  /** Writing a tag that is not final tag i leaves final image i alone. */
  lemma {:induction false} OtherTag(cfg: Config, r0: Registry, r: Registry, r': Registry, i: nat, t: AsmTask)
    requires i < |cfg.customTags| && FinalOk(cfg, r0, r, i, t)
    requires (cfg.Final(i) in r <==> cfg.Final(i) in r') && (cfg.Final(i) in r ==> r[cfg.Final(i)] == r'[cfg.Final(i)])
    ensures FinalOk(cfg, r0, r', i, t)
  {
  }

  /** Registries that differ at most at one tag, which only the second is sure to have. */
  ghost predicate OnlyTouches(r: Registry, r': Registry, ref: Ref) {
    (forall x :: x in r ==> x in r') && (forall x :: x in r' && x != ref ==> x in r && r'[x] == r[x])
  }

  lemma {:induction false} FinalStepKeeps(cfg: Config, r0: Registry, s: State, i: nat, a: AsmEvent)
    requires cfg.Valid() && Inv(cfg, r0, s) && Enabled(cfg, s, FinalImage(i, a))
    ensures var (r, t) := AsmStep(cfg, s.registry, i, s.finals[i], a);
            OnlyTouches(s.registry, r, cfg.Final(i)) && FinalOk(cfg, r0, r, i, t)
  {
  }

  lemma {:induction false} BaseStepKeeps(cfg: Config, s: State, i: nat, b: BuildEvent)
    requires Sized(cfg, s) && Enabled(cfg, s, BaseImage(i, b))
    ensures var (r, t) := BaseStep(cfg, s.registry, cfg.Base(i), s.bases[i], b);
            OnlyTouches(s.registry, r, cfg.Base(i)) && (t == BaseDone(true) ==> cfg.Base(i) in r)
  {
  }

  lemma {:induction false} FinalsUntouched(cfg: Config, r0: Registry, s: State, r: Registry, ref: Ref)
    requires cfg.Valid() && Inv(cfg, r0, s) && OnlyTouches(s.registry, r, ref)
    requires forall i :: 0 <= i < |cfg.customTags| ==> ref != cfg.Final(i)
    ensures forall i :: 0 <= i < |s.finals| ==> FinalOk(cfg, r0, r, i, s.finals[i])
  {
    forall i | 0 <= i < |s.finals| ensures FinalOk(cfg, r0, r, i, s.finals[i]) {
      OtherTag(cfg, r0, s.registry, r, i, s.finals[i]);
    }
  }

  lemma {:induction false} BuilderKeepsInv(cfg: Config, r0: Registry, s: State, b: BuildEvent)
    requires cfg.Valid() && Inv(cfg, r0, s) && Enabled(cfg, s, BuilderImage(b))
    ensures Inv(cfg, r0, Apply(cfg, s, BuilderImage(b)))
  {
    var s' := Apply(cfg, s, BuilderImage(b));
    forall i | 0 <= i < |cfg.customTags| ensures cfg.builder != cfg.Final(i) { DistinctRefs(cfg, i, i); }
    FinalsUntouched(cfg, r0, s, s'.registry, cfg.builder);
  }

  lemma {:induction false} BaseKeepsInv(cfg: Config, r0: Registry, s: State, i: nat, b: BuildEvent)
    requires cfg.Valid() && Inv(cfg, r0, s) && Enabled(cfg, s, BaseImage(i, b))
    ensures Inv(cfg, r0, Apply(cfg, s, BaseImage(i, b)))
  {
    var s' := Apply(cfg, s, BaseImage(i, b));
    BaseStepKeeps(cfg, s, i, b);
    forall j | 0 <= j < |cfg.customTags| ensures cfg.Base(i) != cfg.Final(j) { DistinctRefs(cfg, i, j); }
    FinalsUntouched(cfg, r0, s, s'.registry, cfg.Base(i));
  }

  lemma {:induction false} FinalKeepsInv(cfg: Config, r0: Registry, s: State, i: nat, a: AsmEvent)
    requires cfg.Valid() && Inv(cfg, r0, s) && Enabled(cfg, s, FinalImage(i, a))
    ensures Inv(cfg, r0, Apply(cfg, s, FinalImage(i, a)))
  {
    var s' := Apply(cfg, s, FinalImage(i, a));
    FinalStepKeeps(cfg, r0, s, i, a);
    forall j | 0 <= j < |s.finals| ensures FinalOk(cfg, r0, s'.registry, j, s'.finals[j]) {
      DistinctRefs(cfg, i, j);
      if j != i {
        OtherTag(cfg, r0, s.registry, s'.registry, j, s.finals[j]);
      }
    }
  }

  lemma {:induction false} StepKeepsInv(cfg: Config, r0: Registry, s: State, e: Event)
    requires cfg.Valid() && Inv(cfg, r0, s) && Enabled(cfg, s, e)
    ensures Inv(cfg, r0, Apply(cfg, s, e))
  {
    match e {
      case BuilderImage(b) => BuilderKeepsInv(cfg, r0, s, b);
      case BaseImage(i, b) => BaseKeepsInv(cfg, r0, s, i, b);
      case BasesDone =>
      case FinalImage(i, a) => FinalKeepsInv(cfg, r0, s, i, a);
      case FinalsDone =>
    }
  }

  lemma {:induction false} RunKeepsInv(cfg: Config, r0: Registry, s: State, events: seq<Event>, t: State)
    requires cfg.Valid() && Inv(cfg, r0, s) && Reaches(cfg, s, events, t)
    ensures Inv(cfg, r0, t)
    decreases |events|
  {
    if events != [] {
      StepKeepsInv(cfg, r0, s, events[0]);
      RunKeepsInv(cfg, r0, Apply(cfg, s, events[0]), events[1..], t);
    }
  }

  lemma {:induction false} StartInv(cfg: Config, r0: Registry)
    ensures Inv(cfg, r0, Start(cfg, r0))
  {
  }

  // ----- Safety of the pipeline -----

  /** Whenever an assembly builds, its base tag has been produced by the base phase. */
  lemma {:induction false} AssemblyHasBase(cfg: Config, r0: Registry, events: seq<Event>, s: State, i: nat, ok: bool)
    requires cfg.Valid() && Reaches(cfg, Start(cfg, r0), events, s)
    requires Sized(cfg, s) && Enabled(cfg, s, FinalImage(i, Build(ok)))
    ensures cfg.Base(i) in s.registry
  {
    StartInv(cfg, r0);
    RunKeepsInv(cfg, r0, Start(cfg, r0), events, s);
  }

  /** The assembly of image i ended with the early return for an existing tag. */
  ghost predicate TookExisting(s: State, i: nat)
    requires i < |s.finals|
  {
    s.finals[i].AsmDone? && s.finals[i].skipped
  }

  /** If the run returns 0, then every final tag and every base tag is in the registry.
      An image that was assembled stands on its own base and carries one wrap layer if
      its repository needs it and none otherwise, however many attempts it took; one
      that was taken as it was found is unchanged. */
  lemma {:induction false} PipelineSafety(cfg: Config, r0: Registry, events: seq<Event>, t: State, i: nat)
    requires cfg.Valid() && Reaches(cfg, Start(cfg, r0), events, t) && t.phase == Finished(0)
    requires i < |cfg.customTags|
    ensures Sized(cfg, t) && cfg.Final(i) in t.registry && cfg.Base(i) in t.registry
    ensures !TookExisting(t, i) ==>
              t.registry[cfg.Final(i)] == Image(Some(cfg.Base(i)), if cfg.Wrapped(i) then 1 else 0)
    ensures TookExisting(t, i) ==>
              !cfg.force && cfg.Final(i) in r0 && t.registry[cfg.Final(i)] == r0[cfg.Final(i)]
  {
    StartInv(cfg, r0);
    RunKeepsInv(cfg, r0, Start(cfg, r0), events, t);
    assert FinalOk(cfg, r0, t.registry, i, t.finals[i]) && t.bases[i] == BaseDone(true);
  }

  /** The final image assembled for the official image of an instance carries one wrap layer
      if its repository is sphinx-doc, and none otherwise. */
  lemma {:induction false} OfficialImageLayers(cfg: Config, r0: Registry, events: seq<Event>, t: State, i: nat,
                                               prefix: string, repo: string, rest: string, tag: string)
    requires cfg.Valid() && Reaches(cfg, Start(cfg, r0), events, t) && t.phase == Finished(0)
    requires !Has(repo, '_') && !Has(repo, '/') && !Has(repo, ':') && !Has(rest, '/') && !Has(rest, ':') && !Has(tag, '/')
    requires i < |cfg.customTags|
    requires cfg.customTags[i] == ExtractCustomTag(prefix + "/" + ("sweb.eval.x86_64." + repo + "_" + rest + ":" + tag))
    ensures Sized(cfg, t) && cfg.Final(i) in t.registry
    ensures !TookExisting(t, i) ==> t.registry[cfg.Final(i)].wraps == if repo == "sphinx-doc" then 1 else 0
  {
    PipelineSafety(cfg, r0, events, t, i);
    OfficialIsWrapped(prefix, repo, rest, tag);
  }

  /** After a run that returns 0, a wrapped-repository image carries exactly one wrap
      layer if and only if it was assembled in this run or carried one before. */
  lemma {:induction false} WrappedOnce(cfg: Config, r0: Registry, events: seq<Event>, t: State, i: nat)
    requires cfg.Valid() && Reaches(cfg, Start(cfg, r0), events, t) && t.phase == Finished(0)
    requires i < |cfg.customTags| && cfg.Wrapped(i)
    ensures Sized(cfg, t) && cfg.Final(i) in t.registry
    ensures t.registry[cfg.Final(i)].wraps == 1 <==>
            !TookExisting(t, i) || (cfg.Final(i) in r0 && r0[cfg.Final(i)].wraps == 1)
  {
    PipelineSafety(cfg, r0, events, t, i);
  }

  /** Every tag of a wrapped repository that the registry has carries one wrap layer. */
  ghost predicate TagsWrapped(cfg: Config, r: Registry) {
    forall i :: 0 <= i < |cfg.customTags| && cfg.Wrapped(i) && cfg.Final(i) in r ==> r[cfg.Final(i)].wraps == 1
  }

  /** The registry has every tag of a wrapped repository, with one wrap layer. */
  ghost predicate AllWrapped(cfg: Config, r: Registry) {
    forall i :: 0 <= i < |cfg.customTags| && cfg.Wrapped(i) ==> cfg.Final(i) in r && r[cfg.Final(i)].wraps == 1
  }

  /** So it is safe to start from a registry whose existing wrapped-repository tags are
      already wrapped, or with `--force-build`. */
  lemma {:induction false} AllWrappedOnce(cfg: Config, r0: Registry, events: seq<Event>, t: State)
    requires cfg.Valid() && Reaches(cfg, Start(cfg, r0), events, t) && t.phase == Finished(0)
    requires cfg.force || TagsWrapped(cfg, r0)
    ensures AllWrapped(cfg, t.registry)
  {
    forall i | 0 <= i < |cfg.customTags| && cfg.Wrapped(i)
      ensures cfg.Final(i) in t.registry && t.registry[cfg.Final(i)].wraps == 1
    {
      PipelineSafety(cfg, r0, events, t, i);
    }
  }

  // ----- Forced runs and reruns -----

  ghost predicate BuilderStored(cfg: Config, s: State) {
    s.phase.BasePhase? || s.phase.AsmPhase? || s.phase == Finished(0) ==> cfg.builder in s.registry
  }

  lemma {:induction false} RunKeepsBuilder(cfg: Config, s: State, events: seq<Event>, t: State)
    requires Sized(cfg, s) && Reaches(cfg, s, events, t) && BuilderStored(cfg, s)
    ensures BuilderStored(cfg, t)
    decreases |events|
  {
    if events != [] {
      RunKeepsBuilder(cfg, Apply(cfg, s, events[0]), events[1..], t);
    }
  }

  /** No base image is tried before the builder image is in the registry. */
  lemma {:induction false} BuilderComesFirst(cfg: Config, r0: Registry, events: seq<Event>, t: State)
    requires Reaches(cfg, Start(cfg, r0), events, t) && !t.phase.BuilderPhase? && t.phase != Finished(1)
    ensures t.phase == Finished(0) || t.phase.BasePhase? || t.phase.AsmPhase?
    ensures cfg.builder in t.registry
  {
    RunKeepsBuilder(cfg, Start(cfg, r0), events, t);
    NonZeroExit(cfg, r0, events, t);
  }

  ghost predicate BuilderBuilt(events: seq<Event>) {
    exists k :: 0 <= k < |events| && events[k].BuilderImage? && events[k].e.ok
  }

  ghost predicate BaseBuilt(events: seq<Event>, i: nat) {
    exists k :: 0 <= k < |events| && events[k].BaseImage? && events[k].i == i && events[k].e.ok
  }

  lemma {:induction false} ForcedBuilder(cfg: Config, s: State, events: seq<Event>, t: State)
    requires Sized(cfg, s) && Reaches(cfg, s, events, t) && cfg.force && s.phase.BuilderPhase?
    requires t.phase.BasePhase? || t.phase.AsmPhase? || t.phase == Finished(0)
    ensures BuilderBuilt(events)
  {
    var e := events[0];
    var s' := Apply(cfg, s, e);
    if !e.e.ok {
      StaysFinished(cfg, s', events[1..], t);
      assert false;
    }
  }

  lemma {:induction false} StaysFinished(cfg: Config, s: State, events: seq<Event>, t: State)
    requires Sized(cfg, s) && Reaches(cfg, s, events, t) && s.phase.Finished?
    ensures t == s
  {
  }

  lemma {:induction false} ForcedBase(cfg: Config, s: State, events: seq<Event>, t: State, i: nat)
    requires Sized(cfg, s) && Reaches(cfg, s, events, t) && cfg.force && i < |cfg.customTags|
    requires s.bases[i] != BaseDone(true) && Sized(cfg, t) && t.bases[i] == BaseDone(true)
    ensures BaseBuilt(events, i)
    decreases |events|
  {
    var e, rest := events[0], events[1..];
    var s' := Apply(cfg, s, e);
    if s'.bases[i] == BaseDone(true) {
      assert events[0].e.ok;
    } else {
      ForcedBase(cfg, s', rest, t, i);
      var k :| 0 <= k < |rest| && rest[k].BaseImage? && rest[k].i == i && rest[k].e.ok;
      assert events[k + 1] == rest[k];
    }
  }

  /** A forced run that returns 0 has built the builder image, every base image and every
      final image itself, whatever the registry had. */
  lemma {:induction false} ForcedRunBuildsAll(cfg: Config, r0: Registry, events: seq<Event>, t: State, i: nat)
    requires cfg.Valid() && Reaches(cfg, Start(cfg, r0), events, t) && t.phase == Finished(0) && cfg.force
    requires i < |cfg.customTags|
    ensures BuilderBuilt(events) && BaseBuilt(events, i) && Builds(events, i) >= 1
  {
    PipelineSafety(cfg, r0, events, t, i);
    StartInv(cfg, r0);
    RunKeepsInv(cfg, r0, Start(cfg, r0), events, t);
    ForcedBuilder(cfg, Start(cfg, r0), events, t);
    ForcedBase(cfg, Start(cfg, r0), events, t, i);
    FinalAttempts(cfg, r0, events, t, i);
  }

  /** The registry says that it has what the step asks for. */
  predicate SaysYes(e: Event) {
    match e
    case BuilderImage(b) => b.exists_
    case BaseImage(_, b) => b.exists_
    case FinalImage(_, Check(exists_, raises)) => exists_ && !raises
    case _ => true
  }

  /** Nothing has been built. */
  ghost predicate IsIdle(s: State, r0: Registry) {
    s.registry == r0 && (s.phase.Finished? ==> s.phase.exitCode == 0) &&
    (forall i :: 0 <= i < |s.bases| ==> s.bases[i] == BaseTrying(0) || s.bases[i] == BaseDone(true)) &&
    (forall i :: 0 <= i < |s.finals| ==> s.finals[i] == Waiting || s.finals[i] == AsmDone(true, true))
  }

  lemma {:induction false} IdleStep(cfg: Config, s: State, e: Event, r0: Registry)
    requires Sized(cfg, s) && Enabled(cfg, s, e) && IsIdle(s, r0) && SaysYes(e) && !cfg.force && cfg.maxRetries >= 1
    ensures IsIdle(Apply(cfg, s, e), r0) && !(e.FinalImage? && e.a.Build?)
  {
  }

  lemma {:induction false} IdleRun(cfg: Config, s: State, events: seq<Event>, t: State, r0: Registry, i: nat)
    requires Sized(cfg, s) && Reaches(cfg, s, events, t) && IsIdle(s, r0) && !cfg.force && cfg.maxRetries >= 1
    requires forall e :: e in events ==> SaysYes(e)
    ensures IsIdle(t, r0) && Builds(events, i) == 0
    decreases |events|
  {
    if events != [] {
      assert events[0] in events && forall e :: e in events[1..] ==> e in events;
      IdleStep(cfg, s, events[0], r0);
      IdleRun(cfg, Apply(cfg, s, events[0]), events[1..], t, r0, i);
    }
  }

  /** An unforced run for which the registry says that it has every image builds nothing,
      leaves the registry as it is, and returns 0 if it ends. */
  lemma {:induction false} RerunIsIdle(cfg: Config, r0: Registry, events: seq<Event>, t: State, i: nat)
    requires Reaches(cfg, Start(cfg, r0), events, t) && !cfg.force && cfg.maxRetries >= 1
    requires forall e :: e in events ==> SaysYes(e)
    ensures t.registry == r0 && Builds(events, i) == 0 && (t.phase.Finished? ==> t.phase.exitCode == 0)
  {
    IdleRun(cfg, Start(cfg, r0), events, t, r0, i);
  }

  // ----- Attempts -----

  function Builds(events: seq<Event>, i: nat): nat {
    if events == [] then 0
    else (if events[0].FinalImage? && events[0].i == i && events[0].a.Build? then 1 else 0) + Builds(events[1..], i)
  }

  /** An exception that ends the assembly of image i: of the check for an existing tag,
      which a forced build leaves out, or of the wrap step. */
  predicate RaisesAt(cfg: Config, e: Event, i: nat) {
    e.FinalImage? && e.i == i && ((e.a.Check? && !cfg.force && e.a.raises) || (e.a.Wrap? && e.a.raises))
  }

  predicate Raises(cfg: Config, events: seq<Event>, i: nat) {
    exists k :: 0 <= k < |events| && RaisesAt(cfg, events[k], i)
  }

  function BaseTries(events: seq<Event>, i: nat): nat {
    if events == [] then 0
    else (if events[0].BaseImage? && events[0].i == i then 1 else 0) + BaseTries(events[1..], i)
  }

  function Allowed(cfg: Config): nat { if cfg.maxRetries < 0 then 0 else cfg.maxRetries }

  /** After n builds; `raised` if there was such an exception. */
  ghost predicate Tried(cfg: Config, t: AsmTask, n: nat, raised: bool) {
    match t
    case Waiting => n == 0
    case Building(attempt) => n == attempt < Allowed(cfg)
    case Pushing(attempt, _) => n == attempt + 1 <= Allowed(cfg)
    case Wrapping(attempt) => n == attempt + 1 <= Allowed(cfg)
    case AsmDone(ok, skipped) =>
      n <= Allowed(cfg) && (skipped ==> ok && n == 0) && (ok && !skipped ==> n >= 1) &&
      (!ok && !raised ==> n == Allowed(cfg))
  }

  lemma {:induction false} RunKeepsTried(cfg: Config, s: State, events: seq<Event>, t: State, i: nat, n: nat, raised: bool)
    requires Sized(cfg, s) && Reaches(cfg, s, events, t) && i < |cfg.customTags|
    requires Tried(cfg, s.finals[i], n, raised)
    ensures Sized(cfg, t) && Tried(cfg, t.finals[i], n + Builds(events, i), raised || Raises(cfg, events, i))
    decreases |events|
  {
    if events != [] {
      var e := events[0];
      var s' := Apply(cfg, s, e);
      var mine := e.FinalImage? && e.i == i;
      var n' := if mine && e.a.Build? then n + 1 else n;
      var raised' := raised || RaisesAt(cfg, e, i);
      StepKeepsTried(cfg, s, e, i, n, raised);
      RunKeepsTried(cfg, s', events[1..], t, i, n', raised');
      RaisesCons(cfg, events, i);
    }
  }

  lemma {:induction false} StepKeepsTried(cfg: Config, s: State, e: Event, i: nat, n: nat, raised: bool)
    requires Sized(cfg, s) && Enabled(cfg, s, e) && i < |cfg.customTags| && Tried(cfg, s.finals[i], n, raised)
    ensures var mine := e.FinalImage? && e.i == i;
            Tried(cfg, Apply(cfg, s, e).finals[i], if mine && e.a.Build? then n + 1 else n,
                  raised || RaisesAt(cfg, e, i))
  {
  }

  lemma {:induction false} RaisesCons(cfg: Config, events: seq<Event>, i: nat)
    requires events != []
    ensures Raises(cfg, events, i) <==> RaisesAt(cfg, events[0], i) || Raises(cfg, events[1..], i)
  {
    if k :| 1 <= k < |events| && RaisesAt(cfg, events[k], i) {
      assert events[1..][k - 1] == events[k];
    }
    if k :| 0 <= k < |events[1..]| && RaisesAt(cfg, events[1..][k], i) {
      assert events[k + 1] == events[1..][k];
    }
  }

  /** However the tasks interleave, a final image is built at most `max_retries` times,
      and one that fails has used all of them unless its check or its wrap step raised. */
  lemma {:induction false} FinalAttempts(cfg: Config, r0: Registry, events: seq<Event>, t: State, i: nat)
    requires Reaches(cfg, Start(cfg, r0), events, t) && i < |cfg.customTags|
    ensures Sized(cfg, t) && Builds(events, i) <= Allowed(cfg)
    ensures t.finals[i].AsmDone? && !t.finals[i].ok && !Raises(cfg, events, i) ==> Builds(events, i) == Allowed(cfg)
    ensures t.finals[i].AsmDone? && t.finals[i].ok ==> (t.finals[i].skipped <==> Builds(events, i) == 0)
  {
    RunKeepsTried(cfg, Start(cfg, r0), events, t, i, 0, false);
  }

  lemma {:induction false} DoneStays(cfg: Config, s: State, events: seq<Event>, t: State, i: nat)
    requires Sized(cfg, s) && Reaches(cfg, s, events, t) && i < |cfg.customTags| && s.finals[i].AsmDone?
    ensures Sized(cfg, t) && t.finals[i] == s.finals[i]
    decreases |events|
  {
    if events != [] {
      DoneStays(cfg, Apply(cfg, s, events[0]), events[1..], t, i);
    }
  }

  /** An exception of the check or the wrap step is never retried: the image fails. */
  lemma {:induction false} RaisedFails(cfg: Config, s: State, events: seq<Event>, t: State, i: nat)
    requires Sized(cfg, s) && Reaches(cfg, s, events, t) && i < |cfg.customTags| && Raises(cfg, events, i)
    ensures Sized(cfg, t) && t.finals[i] == AsmDone(false, false)
    decreases |events|
  {
    RaisesCons(cfg, events, i);
    var s' := Apply(cfg, s, events[0]);
    if RaisesAt(cfg, events[0], i) {
      assert s'.finals[i] == AsmDone(false, false);
      DoneStays(cfg, s', events[1..], t, i);
    } else {
      RaisedFails(cfg, s', events[1..], t, i);
    }
  }

  ghost predicate BaseTried(cfg: Config, t: BaseTask, n: nat) {
    match t
    case BaseTrying(attempt) => n == attempt < cfg.maxRetries
    case BaseDone(ok) => 1 <= n <= cfg.maxRetries && (!ok ==> n == cfg.maxRetries)
  }

  lemma {:induction false} RunKeepsBaseTried(cfg: Config, s: State, events: seq<Event>, t: State, i: nat, n: nat)
    requires Sized(cfg, s) && Reaches(cfg, s, events, t) && i < |cfg.customTags| && cfg.maxRetries >= 1
    requires BaseTried(cfg, s.bases[i], n)
    ensures Sized(cfg, t) && BaseTried(cfg, t.bases[i], n + BaseTries(events, i))
    decreases |events|
  {
    if events != [] {
      var e := events[0];
      var s' := Apply(cfg, s, e);
      RunKeepsBaseTried(cfg, s', events[1..], t, i, if e.BaseImage? && e.i == i then n + 1 else n);
    }
  }

  /** The same for base images. */
  lemma {:induction false} BaseAttempts(cfg: Config, r0: Registry, events: seq<Event>, t: State, i: nat)
    requires Reaches(cfg, Start(cfg, r0), events, t) && i < |cfg.customTags| && cfg.maxRetries >= 1
    ensures Sized(cfg, t) && BaseTries(events, i) <= cfg.maxRetries
    ensures t.bases[i] == BaseDone(false) ==> BaseTries(events, i) == cfg.maxRetries
  {
    RunKeepsBaseTried(cfg, Start(cfg, r0), events, t, i, 0);
  }

  /** Without any tries allowed no base image is done well, and none is built. */
  lemma {:induction false} NoTriesNoBases(cfg: Config, s: State, events: seq<Event>, t: State, i: nat)
    requires Sized(cfg, s) && Reaches(cfg, s, events, t) && i < |cfg.customTags| && cfg.maxRetries < 1
    requires s.bases[i] != BaseDone(true) && cfg.Valid()
    ensures Sized(cfg, t) && t.bases[i] != BaseDone(true) && (cfg.Base(i) in t.registry ==> cfg.Base(i) in s.registry)
    decreases |events|
  {
    if events != [] {
      forall j: nat | j < |cfg.customTags| ensures cfg.Base(i) != cfg.Final(j) && cfg.builder != cfg.Base(i) { DistinctRefs(cfg, i, j); }
      NoTriesNoBases(cfg, Apply(cfg, s, events[0]), events[1..], t, i);
    }
  }

  // ----- The exit code -----

  /** Why a run may have ended: the builder image failed, or some base or final image did. */
  ghost predicate SomeFailure(s: State) {
    s.phase.Finished? && s.phase.exitCode != 0 ==>
      s.phase.exitCode == 1 &&
      ((forall i :: 0 <= i < |s.bases| ==> s.bases[i] == BaseTrying(0)) ||
       (exists i :: 0 <= i < |s.bases| && s.bases[i] == BaseDone(false)) ||
       (exists i :: 0 <= i < |s.finals| && s.finals[i].AsmDone? && !s.finals[i].ok))
  }

  ghost predicate Untouched(s: State) {
    s.phase.BuilderPhase? ==> forall i :: 0 <= i < |s.bases| ==> s.bases[i] == BaseTrying(0)
  }

  lemma {:induction false} RunKeepsExit(cfg: Config, s: State, events: seq<Event>, t: State)
    requires Sized(cfg, s) && Reaches(cfg, s, events, t) && SomeFailure(s) && Untouched(s)
    ensures SomeFailure(t)
    decreases |events|
  {
    if events != [] {
      var s' := Apply(cfg, s, events[0]);
      StepKeepsExit(cfg, s, events[0]);
      RunKeepsExit(cfg, s', events[1..], t);
    }
  }

  lemma {:induction false} StepKeepsExit(cfg: Config, s: State, e: Event)
    requires Sized(cfg, s) && Enabled(cfg, s, e) && SomeFailure(s) && Untouched(s)
    ensures SomeFailure(Apply(cfg, s, e)) && Untouched(Apply(cfg, s, e))
  {
    var s' := Apply(cfg, s, e);
    match e {
      case BasesDone =>
        if s'.phase.Finished? {
          var i :| 0 <= i < |s.bases| && !s.bases[i].ok;
          assert s'.bases[i] == BaseDone(false);
        }
      case FinalsDone =>
        if s'.phase == Finished(1) {
          var i :| 0 <= i < |s.finals| && !s.finals[i].ok;
          assert s'.finals[i].AsmDone?;
        }
      case _ =>
    }
  }

  /** A run that ends returns 0, or 1 because of an image that failed: the builder image
      before any base was tried, a base after all its tries, or a final image. */
  lemma {:induction false} NonZeroExit(cfg: Config, r0: Registry, events: seq<Event>, t: State)
    requires Reaches(cfg, Start(cfg, r0), events, t)
    ensures SomeFailure(t)
  {
    RunKeepsExit(cfg, Start(cfg, r0), events, t);
  }

  // ----- The premise is exact -----

  /** Some run leads from s to t. */
  ghost predicate Leads(cfg: Config, s: State, t: State) {
    Sized(cfg, s) && Sized(cfg, t) && exists events :: Reaches(cfg, s, events, t)
  }

  lemma {:induction false} LeadsOneStep(cfg: Config, s: State, e: Event, t: State)
    requires Sized(cfg, s) && Enabled(cfg, s, e) && t == Apply(cfg, s, e)
    ensures Leads(cfg, s, t)
  {
    assert [e][1..] == [];
    assert Reaches(cfg, s, [e], t);
  }

  lemma {:induction false} ReachesJoin(cfg: Config, s: State, a: seq<Event>, u: State, b: seq<Event>, t: State)
    requires Sized(cfg, s) && Reaches(cfg, s, a, u) && Sized(cfg, u) && Reaches(cfg, u, b, t)
    ensures Reaches(cfg, s, a + b, t)
    decreases |a|
  {
    if a == [] {
      assert a + b == b;
    } else {
      assert (a + b)[1..] == a[1..] + b;
      ReachesJoin(cfg, Apply(cfg, s, a[0]), a[1..], u, b, t);
    }
  }

  lemma {:induction false} LeadsOn(cfg: Config, s: State, u: State, t: State)
    requires Leads(cfg, s, u) && Leads(cfg, u, t)
    ensures Leads(cfg, s, t)
  {
    var a :| Reaches(cfg, s, a, u);
    var b :| Reaches(cfg, u, b, t);
    ReachesJoin(cfg, s, a, u, b, t);
  }

  lemma {:induction false} BaseCanBeBuilt(cfg: Config, s: State, k: nat) returns (u: State)
    requires Sized(cfg, s) && s.phase.BasePhase? && k < |s.bases| && cfg.maxRetries >= 1 && s.bases[k] == BaseTrying(0)
    ensures Leads(cfg, s, u) && Sized(cfg, u) && u.phase == s.phase && u.finals == s.finals
    ensures u.bases == s.bases[k := BaseDone(true)] && u.registry.Keys == s.registry.Keys + {cfg.Base(k)}
  {
    var e := BaseImage(k, BuildEvent(false, true, true));
    u := Apply(cfg, s, e);
    LeadsOneStep(cfg, s, e, u);
  }

  /** The base images from the k-th on are built, one after the other. */
  lemma {:induction false} BasesCanBeBuilt(cfg: Config, s: State, k: nat) returns (t: State)
    requires Sized(cfg, s) && s.phase.BasePhase? && k <= |s.bases| && cfg.maxRetries >= 1
    requires forall j :: 0 <= j < |s.bases| ==> s.bases[j] == if j < k then BaseDone(true) else BaseTrying(0)
    ensures Leads(cfg, s, t) && t.phase == AsmPhase && t.finals == s.finals
    ensures forall x :: x in s.registry ==> x in t.registry
    ensures forall j :: 0 <= j < |t.bases| ==> cfg.Base(j) in s.registry || k <= j ==> cfg.Base(j) in t.registry
    ensures forall x :: x in t.registry ==> x in s.registry || exists j :: 0 <= j < |cfg.customTags| && x == cfg.Base(j)
    decreases |s.bases| - k
  {
    if k == |s.bases| {
      t := Apply(cfg, s, BasesDone);
      LeadsOneStep(cfg, s, BasesDone, t);
    } else {
      var u := BaseCanBeBuilt(cfg, s, k);
      t := BasesCanBeBuilt(cfg, u, k + 1);
      LeadsOn(cfg, s, u, t);
    }
  }

  /** The state after the assembly of image k, which wrote at most its own tag. */
  ghost predicate OnlyFinal(cfg: Config, s: State, t: State, k: nat)
    requires k < |cfg.customTags|
  {
    Sized(cfg, s) && Sized(cfg, t) && t.phase == s.phase && t.bases == s.bases &&
    t.finals == s.finals[k := t.finals[k]] && OnlyTouches(s.registry, t.registry, cfg.Final(k))
  }

  function Plain(cfg: Config, k: nat): Image
    requires k < |cfg.customTags|
  {
    Image(Some(cfg.Base(k)), 0)
  }

  lemma {:induction false} AsmLeads(cfg: Config, s: State, k: nat, a: AsmEvent, t: State)
    requires Sized(cfg, s) && k < |s.finals| && Enabled(cfg, s, FinalImage(k, a)) && t == Apply(cfg, s, FinalImage(k, a))
    ensures Leads(cfg, s, t) && OnlyFinal(cfg, s, t, k)
  {
    LeadsOneStep(cfg, s, FinalImage(k, a), t);
    assert t.finals == s.finals[k := t.finals[k]];
  }

  lemma {:induction false} AsmLeadsOn(cfg: Config, s: State, u: State, t: State, k: nat)
    requires k < |cfg.customTags| && Leads(cfg, s, u) && Leads(cfg, u, t) && OnlyFinal(cfg, s, u, k) && OnlyFinal(cfg, u, t, k)
    ensures Leads(cfg, s, t) && OnlyFinal(cfg, s, t, k)
  {
    LeadsOn(cfg, s, u, t);
    assert t.finals == s.finals[k := t.finals[k]];
  }

  /** Build and push succeed. */
  lemma {:induction false} CanPush(cfg: Config, s: State, k: nat) returns (t: State)
    requires Sized(cfg, s) && k < |s.finals| && s.phase.AsmPhase? && s.finals[k].Building?
    ensures Leads(cfg, s, t) && OnlyFinal(cfg, s, t, k)
    ensures t.finals[k] == if cfg.Wrapped(k) then Wrapping(s.finals[k].attempt) else AsmDone(true, false)
    ensures cfg.Final(k) in t.registry && t.registry[cfg.Final(k)] == Plain(cfg, k)
  {
    var u := Apply(cfg, s, FinalImage(k, Build(true)));
    AsmLeads(cfg, s, k, Build(true), u);
    t := Apply(cfg, u, FinalImage(k, Push(true, true)));
    AsmLeads(cfg, u, k, Push(true, true), t);
    AsmLeadsOn(cfg, s, u, t, k);
  }

  /** An image that waits can end well: by the early return if its tag exists and the
      build is not forced. */
  lemma {:induction false} CanSucceed(cfg: Config, s: State, k: nat) returns (t: State)
    requires Sized(cfg, s) && k < |s.finals| && s.phase.AsmPhase? && s.finals[k].Waiting? && cfg.maxRetries >= 1
    ensures Leads(cfg, s, t) && OnlyFinal(cfg, s, t, k)
    ensures t.finals[k] == AsmDone(true, !cfg.force && cfg.Final(k) in s.registry)
  {
    var found := cfg.Final(k) in s.registry;
    t := Apply(cfg, s, FinalImage(k, Check(found, false)));
    AsmLeads(cfg, s, k, Check(found, false), t);
    if cfg.force || !found {
      var pushed := CanPush(cfg, t, k);
      AsmLeadsOn(cfg, s, t, pushed, k);
      t := pushed;
      if cfg.Wrapped(k) {
        var wrapped := Apply(cfg, t, FinalImage(k, Wrap(true, true, true, false)));
        AsmLeads(cfg, t, k, Wrap(true, true, true, false), wrapped);
        AsmLeadsOn(cfg, s, t, wrapped, k);
        t := wrapped;
      }
    }
  }

  /** All images from the k-th on end well, except those that are done already. */
  lemma {:induction false} FinalsCanSucceed(cfg: Config, s: State, k: nat) returns (t: State)
    requires cfg.Valid() && Sized(cfg, s) && s.phase.AsmPhase? && k <= |s.finals| && cfg.maxRetries >= 1
    requires forall j :: 0 <= j < |s.finals| ==> if j < k then s.finals[j].AsmDone? else s.finals[j].Waiting? || s.finals[j].AsmDone?
    ensures Leads(cfg, s, t) && t.phase.AsmPhase? && t.bases == s.bases
    ensures forall j :: 0 <= j < |t.finals| ==> t.finals[j].AsmDone?
    ensures forall j :: 0 <= j < |t.finals| && s.finals[j].AsmDone? ==>
              t.finals[j] == s.finals[j] && SameTag(s.registry, t.registry, cfg.Final(j))
    ensures forall j :: 0 <= j < |t.finals| && s.finals[j].Waiting? ==>
              t.finals[j] == AsmDone(true, !cfg.force && cfg.Final(j) in s.registry)
    ensures forall x :: x in s.registry ==> x in t.registry
    decreases |s.finals| - k
  {
    if k == |s.finals| {
      t := s;
      assert Reaches(cfg, s, [], s);
    } else if s.finals[k].AsmDone? {
      t := FinalsCanSucceed(cfg, s, k + 1);
    } else {
      var u := CanSucceed(cfg, s, k);
      t := FinalsCanSucceed(cfg, u, k + 1);
      LeadsOn(cfg, s, u, t);
      forall j | 0 <= j < |t.finals| && j != k ensures SameTag(s.registry, u.registry, cfg.Final(j)) {
        DistinctRefs(cfg, k, j);
      }
    }
  }

  ghost predicate SameTag(r: Registry, r': Registry, x: Ref) {
    (x in r <==> x in r') && (x in r ==> r'[x] == r[x])
  }

  /** The builder and all base images can be built. */
  lemma {:induction false} CanReachAssembly(cfg: Config, r0: Registry) returns (t: State)
    requires cfg.Valid() && cfg.maxRetries >= 1
    ensures Leads(cfg, Start(cfg, r0), t) && t.phase.AsmPhase? && forall j :: 0 <= j < |t.finals| ==> t.finals[j].Waiting?
    ensures cfg.builder in t.registry && forall j :: 0 <= j < |cfg.customTags| ==> cfg.Base(j) in t.registry
    ensures forall j :: 0 <= j < |cfg.customTags| ==> SameTag(r0, t.registry, cfg.Final(j))
  {
    var s := Start(cfg, r0);
    var e := BuilderImage(BuildEvent(false, true, true));
    var u := Apply(cfg, s, e);
    LeadsOneStep(cfg, s, e, u);
    t := BasesCanBeBuilt(cfg, u, 0);
    LeadsOn(cfg, s, u, t);
    var events :| Reaches(cfg, s, events, t);
    StartInv(cfg, r0);
    RunKeepsInv(cfg, r0, s, events, t);
    forall j | 0 <= j < |cfg.customTags| ensures SameTag(r0, t.registry, cfg.Final(j)) {
      assert FinalOk(cfg, r0, t.registry, j, t.finals[j]);
    }
  }

  /** A run that finds an existing tag takes it as it is and can return 0. */
  lemma {:induction false} ExistingTagSurvives(cfg: Config, r0: Registry, i: nat) returns (events: seq<Event>, t: State)
    requires cfg.Valid() && !cfg.force && cfg.maxRetries >= 1
    requires i < |cfg.customTags| && cfg.Final(i) in r0
    ensures Reaches(cfg, Start(cfg, r0), events, t) && t.phase == Finished(0)
    ensures SameTag(r0, t.registry, cfg.Final(i))
  {
    var s := CanReachAssembly(cfg, r0);
    assert SameTag(r0, s.registry, cfg.Final(i));
    var u := FinalsCanSucceed(cfg, s, 0);
    LeadsOn(cfg, Start(cfg, r0), s, u);
    t := Apply(cfg, u, FinalsDone);
    LeadsOneStep(cfg, u, FinalsDone, t);
    LeadsOn(cfg, Start(cfg, r0), u, t);
    events :| Reaches(cfg, Start(cfg, r0), events, t);
    PipelineSafety(cfg, r0, events, t, i);
  }

  ghost predicate AlwaysWrapped(cfg: Config, r0: Registry) {
    forall events, t :: Reaches(cfg, Start(cfg, r0), events, t) && t.phase == Finished(0) ==> AllWrapped(cfg, t.registry)
  }

  /** Every run that returns 0 leaves all wrapped-repository tags with one layer if and only
      if it is forced or starts from a registry whose tags of this kind have one. */
  lemma {:induction false} WrappedIffTagsWrapped(cfg: Config, r0: Registry)
    requires cfg.Valid() && cfg.maxRetries >= 1
    ensures AlwaysWrapped(cfg, r0) <==> cfg.force || TagsWrapped(cfg, r0)
  {
    if cfg.force || TagsWrapped(cfg, r0) {
      forall events, t | Reaches(cfg, Start(cfg, r0), events, t) && t.phase == Finished(0)
        ensures AllWrapped(cfg, t.registry)
      {
        AllWrappedOnce(cfg, r0, events, t);
      }
    } else {
      var i :| 0 <= i < |cfg.customTags| && cfg.Wrapped(i) && cfg.Final(i) in r0 && r0[cfg.Final(i)].wraps != 1;
      var events, t := ExistingTagSurvives(cfg, r0, i);
      assert !AllWrapped(cfg, t.registry);
    }
  }

  /** The wrap step fails in this attempt and all later ones. */
  lemma {:induction false} WrapCanFail(cfg: Config, s: State, k: nat) returns (t: State)
    requires Sized(cfg, s) && k < |s.finals| && s.phase.AsmPhase? && s.finals[k].Building? && cfg.Wrapped(k)
    ensures Leads(cfg, s, t) && OnlyFinal(cfg, s, t, k) && t.finals[k] == AsmDone(false, false)
    ensures cfg.Final(k) in t.registry && t.registry[cfg.Final(k)] == Plain(cfg, k)
    decreases cfg.maxRetries - s.finals[k].attempt
  {
    var u := CanPush(cfg, s, k);
    t := Apply(cfg, u, FinalImage(k, Wrap(true, false, false, false)));
    AsmLeads(cfg, u, k, Wrap(true, false, false, false), t);
    AsmLeadsOn(cfg, s, u, t, k);
    if t.finals[k].Building? {
      var v := WrapCanFail(cfg, t, k);
      AsmLeadsOn(cfg, s, t, v, k);
      t := v;
    }
  }

  /** Unwrapped tags are what a run leaves behind whose wrap step fails in every attempt,
      for any wrapped-repository image that it assembles and whatever becomes of the others. */
  lemma {:induction false} FailedWrapLeavesTag(cfg: Config, r0: Registry, i: nat) returns (events: seq<Event>, t: State)
    requires cfg.Valid() && cfg.maxRetries >= 1
    requires i < |cfg.customTags| && cfg.Wrapped(i) && (cfg.force || cfg.Final(i) !in r0)
    ensures Reaches(cfg, Start(cfg, r0), events, t) && t.phase == Finished(1)
    ensures cfg.Final(i) in t.registry && t.registry[cfg.Final(i)] == Image(Some(cfg.Base(i)), 0)
  {
    var s := CanReachAssembly(cfg, r0);
    assert SameTag(r0, s.registry, cfg.Final(i));
    var u := Apply(cfg, s, FinalImage(i, Check(false, false)));
    AsmLeads(cfg, s, i, Check(false, false), u);
    var v := WrapCanFail(cfg, u, i);
    AsmLeadsOn(cfg, s, u, v, i);
    var w := FinalsCanSucceed(cfg, v, 0);
    LeadsOn(cfg, s, v, w);
    LeadsOn(cfg, Start(cfg, r0), s, w);
    assert !w.finals[i].ok;
    t := Apply(cfg, w, FinalsDone);
    LeadsOneStep(cfg, w, FinalsDone, t);
    LeadsOn(cfg, Start(cfg, r0), w, t);
    events :| Reaches(cfg, Start(cfg, r0), events, t);
    assert SameTag(v.registry, w.registry, cfg.Final(i));
  }

  /** The two together: such a run, and a second one that takes the tag and returns 0. */
  lemma {:induction false} UnwrappedTagSurvives(cfg: Config, r0: Registry, i: nat)
    returns (first: seq<Event>, between: State, second: seq<Event>, t: State)
    requires cfg.Valid() && !cfg.force && cfg.maxRetries >= 1
    requires i < |cfg.customTags| && cfg.Wrapped(i) && cfg.Final(i) !in r0
    ensures Reaches(cfg, Start(cfg, r0), first, between) && between.phase == Finished(1)
    ensures Reaches(cfg, Start(cfg, between.registry), second, t) && t.phase == Finished(0)
    ensures cfg.Final(i) in t.registry && t.registry[cfg.Final(i)].wraps == 0
  {
    first, between := FailedWrapLeavesTag(cfg, r0, i);
    second, t := ExistingTagSurvives(cfg, between.registry, i);
  }
}
