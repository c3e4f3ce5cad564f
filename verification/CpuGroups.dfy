/** CPU pinning of the swefficiency workers: cutting the CPUs into groups, and the
    queue through which workspaces take and return them. */
module CpuGroups {
  import opened Options
  import opened Sequences

  type Group = seq<int>

  // ----- Cutting the groups -----

  datatype Cut = Groups(groups: seq<Group>) | ValueError

  /** The CPUs left after skipping. */
  function Available(cpus: seq<int>, skip: int): seq<int> { Slice(cpus, skip, |cpus|) }

  function DivideCpus(cpus: seq<int>, workers: int, perWorker: int, skip: int): Cut {
    if workers <= 0 || workers * perWorker + skip > |cpus| then ValueError
    else
      Groups(CutGroups(Available(cpus, skip), perWorker, workers))
  }

  function CutGroups(available: seq<int>, c: int, k: nat): seq<Group> {
    seq(k, i requires 0 <= i < k => Slice(available, i * c, (i + 1) * c))
  }

  lemma {:induction false} SliceExtends(s: seq<int>, lo: nat, hi: nat)
    requires lo <= hi
    ensures s[..Bound(|s|, lo)] + Slice(s, lo, hi) == s[..Bound(|s|, hi)]
  {
  }

  lemma {:induction false} CutPrefix(available: seq<int>, c: nat, k: nat)
    ensures k * c >= 0 && Flatten(CutGroups(available, c, k)) == available[..Bound(|available|, k * c)]
  {
    if k > 0 {
      var last := Slice(available, (k - 1) * c, k * c);
      assert CutGroups(available, c, k) == CutGroups(available, c, k - 1) + [last];
      CutPrefix(available, c, k - 1);
      FlattenSum(CutGroups(available, c, k - 1), [last]);
      assert Flatten([last]) == last by { assert [last][1..] == []; }
      assert (k - 1) * c + c == k * c;
      SliceExtends(available, (k - 1) * c, k * c);
    }
  }

  lemma {:induction false} FullGroups(available: seq<int>, c: nat, k: nat)
    requires k * c <= |available|
    ensures forall g :: g in CutGroups(available, c, k) ==> |g| == c
  {
    forall i | 0 <= i < k ensures |CutGroups(available, c, k)[i]| == c {
      assert (i + 1) * c == i * c + c;
      MulMonotone(i + 1, k, c);
      NonNegativeProduct(i, c);
    }
  }

  /** Laid end to end, the groups are a prefix of the available CPUs: no CPU is handed
      out twice.  Each group has its full size exactly if enough CPUs are left, which
      the size check guarantees when none or more are skipped. */
  lemma {:induction false} GroupsPartition(cpus: seq<int>, workers: int, perWorker: nat, skip: int)
    requires DivideCpus(cpus, workers, perWorker, skip).Groups?
    ensures var groups, available := DivideCpus(cpus, workers, perWorker, skip).groups, Available(cpus, skip);
            |groups| == workers &&
            Flatten(groups) == available[..Bound(|available|, workers * perWorker)] &&
            ((forall g :: g in groups ==> |g| == perWorker) <==> workers * perWorker <= |available|) &&
            (skip >= 0 ==> workers * perWorker <= |available|)
  {
    var groups, available := DivideCpus(cpus, workers, perWorker, skip).groups, Available(cpus, skip);
    CutPrefix(available, perWorker, workers);
    if workers * perWorker <= |available| {
      FullGroups(available, perWorker, workers);
    } else if forall g :: g in groups ==> |g| == perWorker {
      FlattenLength(groups, perWorker);
    }
  }

  /** With groups of at least one CPU, the division is refused exactly if there is no worker
      or too few CPUs are left for all groups. */
  lemma {:induction false} RefusedIffTooFew(cpus: seq<int>, workers: int, perWorker: int, skip: int)
    requires perWorker >= 1 && skip >= 0
    ensures DivideCpus(cpus, workers, perWorker, skip).ValueError? <==>
            workers < 1 || workers * perWorker > |if skip <= |cpus| then cpus[skip..] else []|
  {
    if workers >= 1 {
      MulMonotone(1, workers, perWorker);
    }
  }

  /** The CPUs that are skipped are the first ones. */
  lemma {:induction false} SkipsTheFirst(cpus: seq<int>, skip: nat)
    ensures Available(cpus, skip) == if skip <= |cpus| then cpus[skip..] else []
  {
  }

  lemma {:induction false} NegativeBounds(n: nat, i: nat, c: int)
    requires c < 0
    ensures i >= 1 ==> Bound(n, (i + 1) * c) <= Bound(n, i * c)
  {
    assert (i + 1) * c == i * c + c;
    if i >= 1 {
      assert i * c == (i - 1) * c + c;
      NegativeProduct(i, c);
    }
  }

  lemma {:induction false} NegativeProduct(i: nat, c: int)
    requires c < 0
    ensures i * c <= 0
  {
  }

  /** A negative size is not refused: the first group gets all but that many of the last
      CPUs, and the others get none. */
  lemma {:induction false} NegativeSize(cpus: seq<int>, workers: int, perWorker: int, skip: int)
    requires DivideCpus(cpus, workers, perWorker, skip).Groups? && perWorker < 0
    ensures var groups, available := DivideCpus(cpus, workers, perWorker, skip).groups, Available(cpus, skip);
            |groups| == workers &&
            groups[0] == available[..Bound(|available|, perWorker)] &&
            (forall i :: 1 <= i < workers ==> groups[i] == []) &&
            Flatten(groups) == groups[0]
  {
    var groups, available := DivideCpus(cpus, workers, perWorker, skip).groups, Available(cpus, skip);
    forall i | 1 <= i < workers ensures groups[i] == [] {
      NegativeBounds(|available|, i, perWorker);
    }
    assert groups[0] == Slice(available, 0 * perWorker, 1 * perWorker);
    AllEmpty(groups[1..]);
  }

  lemma {:induction false} AllEmpty(groups: seq<Group>)
    requires forall i :: 0 <= i < |groups| ==> groups[i] == []
    ensures Flatten(groups) == []
  {
    if groups != [] {
      AllEmpty(groups[1..]);
    }
  }

  lemma {:induction false} MulMonotone(a: nat, b: nat, c: nat)
    requires a <= b
    ensures a * c <= b * c
  {
    assert b * c - a * c == (b - a) * c;
  }

  lemma {:induction false} NonNegativeProduct(a: int, b: nat)
    requires a >= 0
    ensures a * b >= 0
  {
  }

  lemma {:induction false} OneMore(n: nat, c: nat)
    ensures (n + 1) * c == n * c + c
  {
  }

  lemma {:induction false} FlattenLength(groups: seq<Group>, c: nat)
    requires forall g :: g in groups ==> |g| == c
    ensures |Flatten(groups)| == |groups| * c
  {
    if groups != [] {
      FlattenLength(groups[1..], c);
      OneMore(|groups[1..]|, c);
    }
  }

  // ----- The objects -----

  /** The shared queue; an operation on it may fail with an exception. */
  class CpuQueue {
    var items: seq<Group>

    constructor ()
      ensures items == []
    {
      items := [];
    }

    /** `put` */
    method Put(g: Group, works: bool) returns (ok: bool)
      modifies this
      ensures ok == works
      ensures items == if works then old(items) + [g] else old(items)
    {
      if works {
        items := items + [g];
      }
      ok := works;
    }

    /** `_acquire_cpu_group` on a queue: the head, or nothing if the queue is empty or
        cannot be reached. */
    method Acquire(works: bool) returns (g: Option<Group>)
      modifies this
      ensures items == AcquireEffect(old(items), works).0 && g == AcquireEffect(old(items), works).1
    {
      if works && items != [] {
        g := Some(items[0]);
        items := items[1..];
      } else {
        g := None;
      }
    }
  }

  function AcquireEffect(items: seq<Group>, works: bool): (seq<Group>, Option<Group>) {
    if works && items != [] then (items[1..], Some(items[0])) else (items, None)
  }

  class Workspace {
    var cpuGroup: Option<Group>
    var queue: CpuQueue?
    var imagesToCleanup: seq<string>
    var pruneOnCleanup: bool

    constructor (cpuGroup: Option<Group>, queue: CpuQueue?, images: seq<string>, prune: bool)
      ensures this.cpuGroup == cpuGroup && this.queue == queue && imagesToCleanup == images && pruneOnCleanup == prune
    {
      this.cpuGroup, this.queue, this.imagesToCleanup, this.pruneOnCleanup := cpuGroup, queue, images, prune;
    }

    /** Returns the group and forgets it, even if the queue refuses it; removes each
        image once and forgets them; prunes the build cache each time if asked to. */
    method Cleanup(putWorks: bool) returns (removed: seq<string>, pruned: bool)
      modifies this, queue
      ensures queue == old(queue) && pruneOnCleanup == old(pruneOnCleanup) && pruned == pruneOnCleanup
      ensures queue != null ==>
                CleanupEffect(old(queue.items), old(cpuGroup), putWorks) == (queue.items, cpuGroup)
      ensures queue == null ==> cpuGroup == old(cpuGroup)
      ensures imagesToCleanup == [] && removed == old(imagesToCleanup)
    {
      if queue != null && cpuGroup.Some? {
        var ok := queue.Put(cpuGroup.value, putWorks);
        cpuGroup := None;
      }
      removed := [];
      for i := 0 to |imagesToCleanup|
        invariant removed == imagesToCleanup[..i]
        invariant imagesToCleanup == old(imagesToCleanup) && queue == old(queue) && pruneOnCleanup == old(pruneOnCleanup)
        invariant queue != null ==> CleanupEffect(old(queue.items), old(cpuGroup), putWorks) == (queue.items, cpuGroup)
        invariant queue == null ==> cpuGroup == old(cpuGroup)
        modifies {}
      {
        removed := removed + [imagesToCleanup[i]];
      }
      imagesToCleanup := [];
      pruned := pruneOnCleanup;
    }
  }

  function CleanupEffect(items: seq<Group>, held: Option<Group>, putWorks: bool): (seq<Group>, Option<Group>) {
    match held
    case None => (items, None)
    case Some(g) => (if putWorks then items + [g] else items, None)
  }

  // ----- Every interleaving of the workers -----

  /** A place for a workspace: between taking a group and having a workspace that holds
      it, live, or gone because the start failed. */
  datatype Place = Starting(group: Option<Group>) | Live(group: Option<Group>) | Failed

  function HeldBy(p: Place): multiset<Group> {
    if p.Failed? || p.group.None? then multiset{} else multiset{p.group.value}
  }

  function Held(places: seq<Place>): multiset<Group> {
    if places == [] then multiset{} else HeldBy(places[0]) + Held(places[1..])
  }

  /** `lost` collects what a failed start or a failed put drops. */
  datatype Pool = Pool(queue: seq<Group>, places: seq<Place>, lost: multiset<Group>)

  datatype Event = Acquire(works: bool) | Start(place: nat, works: bool) | Cleanup(place: nat, putWorks: bool)

  predicate Enabled(s: Pool, e: Event) {
    match e
    case Acquire(_) => true
    case Start(p, _) => p < |s.places| && s.places[p].Starting?
    case Cleanup(p, _) => p < |s.places| && s.places[p].Live?
  }

  function Apply(s: Pool, e: Event): Pool
    requires Enabled(s, e)
  {
    match e
    case Acquire(works) =>
      var (queue, group) := AcquireEffect(s.queue, works);
      s.(queue := queue, places := s.places + [Starting(group)])
    case Start(p, works) =>
      if works then s.(places := s.places[p := Live(s.places[p].group)])
      else Pool(s.queue, s.places[p := Failed], s.lost + HeldBy(s.places[p]))
    case Cleanup(p, putWorks) =>
      var held := s.places[p];
      var (queue, group) := CleanupEffect(s.queue, held.group, putWorks);
      Pool(queue, s.places[p := Live(group)], if putWorks then s.lost else s.lost + HeldBy(held))
  }

  ghost predicate Reaches(s: Pool, events: seq<Event>, t: Pool)
    decreases |events|
  {
    if events == [] then s == t
    else Enabled(s, events[0]) && Reaches(Apply(s, events[0]), events[1..], t)
  }

  /** `main` fills the queue with the groups before any worker starts. */
  function Initial(groups: seq<Group>): Pool { Pool(groups, [], multiset{}) }

  function Accounted(s: Pool): multiset<Group> { multiset(s.queue) + Held(s.places) + s.lost }

  lemma {:induction false} HeldAppend(places: seq<Place>, p: Place)
    ensures Held(places + [p]) == Held(places) + HeldBy(p)
  {
    if places == [] {
      assert places + [p] == [p] && [p][1..] == [];
    } else {
      assert (places + [p])[1..] == places[1..] + [p];
      HeldAppend(places[1..], p);
    }
  }

  lemma {:induction false} HeldUpdate(places: seq<Place>, i: nat, p: Place)
    requires i < |places|
    ensures Held(places[i := p]) + HeldBy(places[i]) == Held(places) + HeldBy(p)
  {
    var after, rest := places[i := p], places[1..];
    if i == 0 {
      assert after[1..] == rest;
      Shuffle(HeldBy(p), HeldBy(places[0]), Held(rest));
    } else {
      assert after[1..] == rest[i - 1 := p] && after[0] == places[0];
      HeldUpdate(rest, i - 1, p);
      AddLeft(HeldBy(places[0]), Held(after[1..]), HeldBy(rest[i - 1]), Held(rest), HeldBy(p));
    }
  }

  lemma {:induction false} Shuffle<T>(p: multiset<T>, q: multiset<T>, r: multiset<T>)
    ensures (p + r) + q == (q + r) + p
  {
  }

  lemma {:induction false} AddLeft<T>(a: multiset<T>, r: multiset<T>, x: multiset<T>, s: multiset<T>, y: multiset<T>)
    requires r + x == s + y
    ensures (a + r) + x == (a + s) + y
  {
    assert (a + r) + x == a + (r + x);
    assert (a + s) + y == a + (s + y);
  }

  lemma {:induction false} CancelRight<T>(a: multiset<T>, b: multiset<T>, c: multiset<T>)
    requires a + c == b + c
    ensures a == b
  {
    assert a == (a + c) - c;
    assert b == (b + c) - c;
  }

  /** Replacing a place by one that holds `HeldBy(p)`, the rest of the old group going
      to `extra`. */
  lemma {:induction false} MoveGroup(places: seq<Place>, i: nat, p: Place, extra: multiset<Group>)
    requires i < |places| && HeldBy(places[i]) == HeldBy(p) + extra
    ensures Held(places[i := p]) + extra == Held(places)
  {
    HeldUpdate(places, i, p);
    var now := Held(places[i := p]);
    assert (now + extra) + HeldBy(p) == now + (HeldBy(p) + extra);
    CancelRight(now + extra, Held(places), HeldBy(p));
  }

  lemma {:induction false} StepConserves(s: Pool, e: Event)
    requires Enabled(s, e)
    ensures Accounted(Apply(s, e)) == Accounted(s)
  {
    match e {
      case Acquire(works) => AcquireConserves(s, works);
      case Start(p, works) => StartConserves(s, p, works);
      case Cleanup(p, putWorks) => CleanupConserves(s, p, putWorks);
    }
  }

  lemma {:induction false} AcquireConserves(s: Pool, works: bool)
    ensures Accounted(Apply(s, Acquire(works))) == Accounted(s)
  {
    var (queue, group) := AcquireEffect(s.queue, works);
    HeldAppend(s.places, Starting(group));
    TakeHead(s.queue, works);
    assert multiset(queue) + (Held(s.places) + HeldBy(Starting(group))) + s.lost
           == (multiset(queue) + HeldBy(Starting(group))) + Held(s.places) + s.lost;
  }

  lemma {:induction false} TakeHead(items: seq<Group>, works: bool)
    ensures var (queue, group) := AcquireEffect(items, works);
            multiset(queue) + HeldBy(Starting(group)) == multiset(items)
  {
    if works && items != [] {
      assert items == [items[0]] + items[1..];
    }
  }

  lemma {:induction false} StartConserves(s: Pool, p: nat, works: bool)
    requires Enabled(s, Start(p, works))
    ensures Accounted(Apply(s, Start(p, works))) == Accounted(s)
  {
    if works {
      MoveGroup(s.places, p, Live(s.places[p].group), multiset{});
    } else {
      MoveGroup(s.places, p, Failed, HeldBy(s.places[p]));
    }
  }

  lemma {:induction false} CleanupConserves(s: Pool, p: nat, putWorks: bool)
    requires Enabled(s, Cleanup(p, putWorks))
    ensures Accounted(Apply(s, Cleanup(p, putWorks))) == Accounted(s)
  {
    MoveGroup(s.places, p, Live(None), HeldBy(s.places[p]));
  }

  /** In every interleaving, queued, held and lost groups together are the initial ones. */
  lemma {:induction false} GroupsAreConserved(s: Pool, events: seq<Event>, t: Pool)
    requires Reaches(s, events, t)
    ensures Accounted(t) == Accounted(s)
    decreases |events|
  {
    if events != [] {
      StepConserves(s, events[0]);
      GroupsAreConserved(Apply(s, events[0]), events[1..], t);
    }
  }

  /** A second cleanup of a workspace changes nothing. */
  lemma {:induction false} CleanupTwice(s: Pool, p: nat, first: bool, second: bool)
    requires Enabled(s, Cleanup(p, first))
    ensures Enabled(Apply(s, Cleanup(p, first)), Cleanup(p, second))
    ensures Apply(Apply(s, Cleanup(p, first)), Cleanup(p, second)) == Apply(s, Cleanup(p, first))
  {
    var t := Apply(s, Cleanup(p, first));
    assert t.places[p := Live(None)] == t.places;
  }

  // ----- No CPU twice, and no worker without a group -----

  ghost predicate PairwiseDisjoint(bag: multiset<Group>) {
    forall g, h, c: int :: g in bag && h in bag && c in g && c in h ==> g == h && bag[g] == 1
  }

  ghost predicate Distinct(s: seq<int>) { forall i, j :: 0 <= i < j < |s| ==> s[i] != s[j] }

  lemma {:induction false} InFlatten(groups: seq<Group>, c: int)
    ensures c in Flatten(groups) <==> exists g :: g in groups && c in g
  {
    if groups != [] {
      InFlatten(groups[1..], c);
      assert groups == [groups[0]] + groups[1..];
    }
  }

  lemma {:induction false} DistinctParts(a: seq<int>, b: seq<int>)
    requires Distinct(a + b)
    ensures Distinct(b) && forall c: int :: c in a ==> c !in b
  {
    assert forall i :: 0 <= i < |b| ==> b[i] == (a + b)[|a| + i];
    assert forall i :: 0 <= i < |a| ==> a[i] == (a + b)[i];
  }

  /** Groups that lay out distinct CPUs end to end share none. */
  lemma {:induction false} DistinctCpusDisjointGroups(groups: seq<Group>)
    requires Distinct(Flatten(groups))
    ensures PairwiseDisjoint(multiset(groups))
  {
    if groups != [] {
      var first, rest := groups[0], groups[1..];
      DistinctParts(first, Flatten(rest));
      DistinctCpusDisjointGroups(rest);
      assert groups == [first] + rest;
      forall g, h, c: int | g in multiset(groups) && h in multiset(groups) && c in g && c in h
        ensures g == h && multiset(groups)[g] == 1
      {
        InFlatten(rest, c);
        if c in first {
          assert g !in rest && h !in rest;
        } else {
          assert g in rest && h in rest;
        }
      }
    }
  }

  predicate HoldsGroup(p: Place, g: Group) { !p.Failed? && p.group == Some(g) }

  lemma {:induction false} HeldTwo(places: seq<Place>, i: nat, j: nat, g: Group)
    requires i < j < |places| && HoldsGroup(places[i], g) && HoldsGroup(places[j], g)
    ensures Held(places)[g] >= 2
  {
    assert places[1..][j - 1] == places[j];
    if i == 0 {
      HeldOne(places[1..], j - 1, g);
    } else {
      assert places[1..][i - 1] == places[i];
      HeldTwo(places[1..], i - 1, j - 1, g);
    }
  }

  lemma {:induction false} HeldOne(places: seq<Place>, i: nat, g: Group)
    requires i < |places| && HoldsGroup(places[i], g)
    ensures Held(places)[g] >= 1
  {
    if i > 0 { HeldOne(places[1..], i - 1, g); }
  }

  ghost predicate Holds(p: Place, c: int) { !p.Failed? && p.group.Some? && c in p.group.value }

  lemma {:induction false} NotTwoHolders(bag: multiset<Group>, places: seq<Place>, i: nat, j: nat, c: int)
    requires PairwiseDisjoint(bag) && Held(places) <= bag
    requires i < j < |places| && Holds(places[i], c)
    ensures !Holds(places[j], c)
  {
    if Holds(places[j], c) {
      HeldOne(places, i, places[i].group.value);
      HeldOne(places, j, places[j].group.value);
      HeldTwo(places, i, j, places[i].group.value);
    }
  }

  lemma {:induction false} NotHeldAndQueued(bag: multiset<Group>, queue: seq<Group>, places: seq<Place>, i: nat, g: Group, c: int)
    requires PairwiseDisjoint(bag) && multiset(queue) + Held(places) <= bag
    requires i < |places| && g in queue && c in g
    ensures !Holds(places[i], c)
  {
    if Holds(places[i], c) {
      HeldOne(places, i, places[i].group.value);
    }
  }

  /** From groups cut out of distinct CPUs, in every interleaving: no CPU is held by two
      workspaces, and none is both held and in the queue. */
  lemma {:induction false} NoCpuTwice(groups: seq<Group>, events: seq<Event>, t: Pool)
    requires Distinct(Flatten(groups)) && Reaches(Initial(groups), events, t)
    ensures forall i, j, c: int :: 0 <= i < j < |t.places| && Holds(t.places[i], c) ==> !Holds(t.places[j], c)
    ensures forall i, g, c: int :: 0 <= i < |t.places| && g in t.queue && c in g ==> !Holds(t.places[i], c)
  {
    GroupsAreConserved(Initial(groups), events, t);
    DistinctCpusDisjointGroups(groups);
    var bag := multiset(groups);
    assert Accounted(t) == bag;
    forall i, j, c: int | 0 <= i < j < |t.places| && Holds(t.places[i], c) ensures !Holds(t.places[j], c) {
      NotTwoHolders(bag, t.places, i, j, c);
    }
    forall i, g, c: int | 0 <= i < |t.places| && g in t.queue && c in g ensures !Holds(t.places[i], c) {
      NotHeldAndQueued(bag, t.queue, t.places, i, g, c);
    }
  }

  /** The groups cut for the workers satisfy the premise above: the process affinity
      lists each CPU once. */
  lemma {:induction false} CutGroupsAreDistinct(cpus: seq<int>, workers: int, perWorker: int, skip: int)
    requires Distinct(cpus) && DivideCpus(cpus, workers, perWorker, skip).Groups?
    ensures Distinct(Flatten(DivideCpus(cpus, workers, perWorker, skip).groups))
  {
    if perWorker >= 0 {
      GroupsPartition(cpus, workers, perWorker, skip);
    } else {
      NegativeSize(cpus, workers, perWorker, skip);
    }
    var available := Available(cpus, skip);
    var from := Bound(|cpus|, skip);
    assert forall i :: 0 <= i < |available| ==> available[i] == cpus[from + i];
  }

  /** With nothing lost and fewer groups held than there are workers, the queue yields
      a group. */
  lemma {:induction false} AcquireSucceeds(groups: seq<Group>, events: seq<Event>, t: Pool)
    requires Reaches(Initial(groups), events, t)
    requires t.lost == multiset{} && |Held(t.places)| < |groups|
    ensures AcquireEffect(t.queue, true).1.Some?
    ensures AcquireEffect(t.queue, true).1.value in groups
  {
    GroupsAreConserved(Initial(groups), events, t);
    assert |multiset(groups)| == |groups|;
    assert |multiset(t.queue) + Held(t.places) + t.lost| == |t.queue| + |Held(t.places)|;
    assert t.queue[0] in multiset(t.queue) + Held(t.places) + t.lost;
  }
}
