/** Whole runs: any sequence of executions, registrations, removals and outside changes. */
module Runs {
  import opened Identifiers
  import opened Entities
  import opened Engine

  datatype Step =
    | Reflect(call: Call)
    | Register(id: MirrorID, source: SourceID, kind: Kind, auto: bool)
    | Unregister(id: MirrorID)
    | SourceDeleted(source: SourceID)
    | NamespaceDeleted(ns: string)
    | Outside(k: Key, obj: Option<Object>)

  function Put<K, V>(m: map<K, V>, k: K, v: Option<V>): map<K, V> {
    if v.Some? then m[k := v.value] else m - {k}
  }

  /** Removing a mirror or a source touches the store only: deletions in the cluster are no-ops. */
  function Apply(step: Step, st: State): State {
    match step
    case Reflect(call) => Execute(call, st)
    case Register(id, source, kind, auto) => st.(store := st.store[id := Entry(source, kind, "", auto)])
    case Unregister(id) => st.(store := st.store - {id})
    case SourceDeleted(source) =>
      st.(store := map id | id in st.store && st.store[id].source != source :: st.store[id])
    case NamespaceDeleted(ns) =>
      st.(store := map id | id in st.store && !(id.ns == ns && st.store[id].auto) :: st.store[id])
    case Outside(k, obj) => st.(cluster := Put(st.cluster, k, obj))
  }

  function Run(steps: seq<Step>, st: State): State
    decreases |steps|
  {
    if steps == [] then st else Run(steps[1..], Apply(steps[0], st))
  }

  lemma RunCons(a: Step, rest: seq<Step>, st: State)
    ensures Run([a] + rest, st) == Run(rest, Apply(a, st))
  {
    assert ([a] + rest)[1..] == rest;
  }

  lemma RunOne(a: Step, st: State)
    ensures Run([a], st) == Apply(a, st)
  {
  }

  lemma RunTwo(a: Step, b: Step, st: State)
    ensures Run([a, b], st) == Apply(b, Apply(a, st))
  {
    assert [a, b][1..] == [b];
    RunOne(b, Apply(a, st));
  }

  // ---- isolation -----------------------------------------------------------------------

  /** No source of the run may push into the namespace of `k`, and nobody outside touches `k`. */
  ghost predicate OutOfReach(step: Step, k: Key) {
    match step
    case Reflect(call) =>
      !(call.source.CanAutoMirrorToNamespace(k.id.ns) && call.source.CanReflectToNamespace(k.id.ns))
    case Outside(k', _) => k' != k
    case _ => true
  }

  /** A namespace that no source accepts on both of its lists is never touched, in any run. */
  lemma {:induction false} Isolation(steps: seq<Step>, st: State, k: Key)
    requires forall i :: 0 <= i < |steps| ==> OutOfReach(steps[i], k)
    ensures Lookup(Run(steps, st).cluster, k) == Lookup(st.cluster, k)
    decreases |steps|
  {
    if steps != [] {
      assert OutOfReach(steps[0], k);
      if steps[0].Reflect? {
        PolicySafety(steps[0].call, st);
      }
      Isolation(steps[1..], Apply(steps[0], st), k);
    }
  }

  /** No run ever deletes an object: only outside changes make one disappear. */
  lemma {:induction false} NothingDeleted(steps: seq<Step>, st: State, k: Key)
    requires k in st.cluster
    requires forall i :: 0 <= i < |steps| ==> !(steps[i].Outside? && steps[i].k == k)
    ensures k in Run(steps, st).cluster
    decreases |steps|
  {
    if steps != [] {
      if steps[0].Reflect? {
        PolicySafety(steps[0].call, st);
      }
      NothingDeleted(steps[1..], Apply(steps[0], st), k);
    }
  }

  // ---- foreign objects -----------------------------------------------------------------

  /** A plain object, and no mirror of its kind is registered at its place. */
  ghost predicate Foreign(st: State, k: Key) {
    && k in st.cluster
    && !IsHelm(k.kind, st.cluster[k])
    && !IsManaged(st.cluster[k])
    && (k.id in st.store ==> st.store[k.id].kind != k.kind)
  }

  /** The step does not itself put a mirror of that kind at the place, or change the object. */
  ghost predicate LeavesAlone(step: Step, k: Key) {
    && !(step.Register? && step.id == k.id && step.kind == k.kind)
    && !(step.Outside? && step.k == k)
  }

  lemma ForeignStep(step: Step, st: State, k: Key)
    requires Foreign(st, k) && LeavesAlone(step, k)
    ensures Foreign(Apply(step, st), k)
    ensures Apply(step, st).cluster[k] == st.cluster[k]
  {
  }

  /** Nobody's plain object is ever overwritten: whatever sources, namespaces and faults a run has,
      it stays as it is. */
  lemma {:induction false} NoClobbering(steps: seq<Step>, st: State, k: Key)
    requires Foreign(st, k)
    requires forall i :: 0 <= i < |steps| ==> LeavesAlone(steps[i], k)
    ensures Foreign(Run(steps, st), k)
    ensures Run(steps, st).cluster[k] == st.cluster[k]
    decreases |steps|
  {
    if steps != [] {
      ForeignStep(steps[0], st, k);
      NoClobbering(steps[1..], Apply(steps[0], st), k);
    }
  }

  // ---- ownership -----------------------------------------------------------------------

  /** The step does not remove or replace the entry: in particular, an execution of its owner still
      accepts the namespace. */
  ghost predicate LeavesEntry(step: Step, id: MirrorID, owner: SourceID) {
    match step
    case Reflect(call) => call.source.id == owner ==> call.source.CanAutoMirrorToNamespace(id.ns)
    case Register(id', _, _, _) => id' != id
    case Unregister(id') => id' != id
    case SourceDeleted(source) => source != owner
    case NamespaceDeleted(ns) => ns != id.ns
    case Outside(_, _) => true
  }

  /** Who registers a place first keeps it: whatever other sources are executed, the entry keeps its
      owner, its kind and its flag. */
  lemma {:induction false} OwnershipStable(steps: seq<Step>, st: State, id: MirrorID)
    requires id in st.store
    requires forall i :: 0 <= i < |steps| ==> LeavesEntry(steps[i], id, st.store[id].source)
    ensures id in Run(steps, st).store
    ensures Run(steps, st).store[id] == st.store[id].(version := Run(steps, st).store[id].version)
    decreases |steps|
  {
    if steps != [] {
      assert LeavesEntry(steps[0], id, st.store[id].source);
      if steps[0].Reflect? {
        StoreAfter(steps[0].call, st, id);
      }
      OwnershipStable(steps[1..], Apply(steps[0], st), id);
    }
  }

  // ---- quiescence ----------------------------------------------------------------------

  ghost predicate WritesNow(step: Step, st: State, k: Key) {
    step.Reflect? && Writes(step.call, st, k)
  }

  /** How often the engine writes the object at `k` during the run. */
  ghost function WriteCount(steps: seq<Step>, st: State, k: Key): nat
    decreases |steps|
  {
    if steps == [] then 0
    else (if WritesNow(steps[0], st, k) then 1 else 0) + WriteCount(steps[1..], Apply(steps[0], st), k)
  }

  /** While nobody outside touches the object, whoever writes it carries this version. */
  ghost predicate SteadyFor(steps: seq<Step>, st: State, k: Key, version: string)
    decreases |steps|
  {
    steps != [] ==>
      && !(steps[0].Outside? && steps[0].k == k)
      && (WritesNow(steps[0], st, k) ==> steps[0].call.source.version == version)
      && SteadyFor(steps[1..], Apply(steps[0], st), k, version)
  }

  lemma StaysUpToDate(step: Step, st: State, k: Key, version: string)
    requires !(step.Outside? && step.k == k)
    requires WritesNow(step, st, k) ==> step.call.source.version == version
    ensures UpToDate(st.cluster, k, version) ==> UpToDate(Apply(step, st).cluster, k, version)
    ensures WritesNow(step, st, k) ==>
              !UpToDate(st.cluster, k, version) && UpToDate(Apply(step, st).cluster, k, version)
  {
  }

  /** An object is written at most once per version, and not at all if it already carries it. */
  lemma {:induction false} Quiescence(steps: seq<Step>, st: State, k: Key, version: string)
    requires SteadyFor(steps, st, k, version)
    ensures WriteCount(steps, st, k) <= if UpToDate(st.cluster, k, version) then 0 else 1
    decreases |steps|
  {
    if steps != [] {
      StaysUpToDate(steps[0], st, k, version);
      Quiescence(steps[1..], Apply(steps[0], st), k, version);
    }
  }

  /** The places of a set that do not carry their version yet. */
  ghost function Behind(cluster: Cluster, goal: map<Key, string>): set<Key> {
    set k | k in goal && !UpToDate(cluster, k, goal[k])
  }

  ghost predicate Steady(steps: seq<Step>, st: State, goal: map<Key, string>) {
    forall k | k in goal :: SteadyFor(steps, st, k, goal[k])
  }

  /** The objects of `goal` written by one step. */
  ghost function Written(step: Step, st: State, goal: map<Key, string>): set<Key> {
    set k | k in goal && WritesNow(step, st, k)
  }

  ghost function TotalWrites(steps: seq<Step>, st: State, goal: map<Key, string>): nat
    decreases |steps|
  {
    if steps == [] then 0
    else |Written(steps[0], st, goal)| + TotalWrites(steps[1..], Apply(steps[0], st), goal)
  }

  lemma DisjointSize<T>(a: set<T>, b: set<T>, c: set<T>)
    requires a !! b && a + b <= c
    ensures |a| + |b| <= |c|
  {
    assert |a + b| == |a| + |b|;
    SubsetSize(a + b, c);
  }

  lemma SubsetSize<T>(a: set<T>, b: set<T>)
    requires a <= b
    ensures |a| <= |b|
  {
    assert b == a + (b - a);
    assert |b| == |a| + |b - a|;
  }

  /** The number of places still behind bounds all the writes to come, however long the run: every
      write uses one of them up. */
  lemma {:induction false} WritesBounded(steps: seq<Step>, st: State, goal: map<Key, string>)
    requires Steady(steps, st, goal)
    ensures TotalWrites(steps, st, goal) + |Behind(Run(steps, st).cluster, goal)| <= |Behind(st.cluster, goal)|
    decreases |steps|
  {
    if steps != [] {
      var st' := Apply(steps[0], st);
      var now, left, all := Written(steps[0], st, goal), Behind(st'.cluster, goal), Behind(st.cluster, goal);
      forall k | k in goal
        ensures k in now ==> k in all && k !in left
        ensures k in left ==> k in all
      {
        assert SteadyFor(steps, st, k, goal[k]);
        StaysUpToDate(steps[0], st, k, goal[k]);
      }
      DisjointSize(now, left, all);
      assert Steady(steps[1..], st', goal) by {
        forall k | k in goal ensures SteadyFor(steps[1..], st', k, goal[k]) {
          assert SteadyFor(steps, st, k, goal[k]);
        }
      }
      WritesBounded(steps[1..], st', goal);
    }
  }

  // ---- store and cluster agree ---------------------------------------------------------

  /** An object that names a version holds the payload of that version. */
  ghost predicate Truthful(history: string -> Payload, cluster: Cluster) {
    forall k :: k in cluster && RecordedVersion(cluster[k]) != "" ==>
      Holds(k.kind, cluster[k], history(RecordedVersion(cluster[k])))
  }

  /** An entry that names a version has its object in the cluster, at that version. */
  ghost predicate Recorded(st: State) {
    forall id :: id in st.store && st.store[id].version != "" ==>
      var k := Key(st.store[id].kind, id);
      k in st.cluster && RecordedVersion(st.cluster[k]) == st.store[id].version
  }

  ghost predicate Agreement(history: string -> Payload, st: State) {
    Truthful(history, st.cluster) && Recorded(st)
  }

  /** The step plays by the rules: executions read the payload of the version they carry and can
      reach the targets; outside changes keep recorded mirrors and lie about no version. */
  ghost predicate Honest(history: string -> Payload, step: Step, st: State) {
    match step
    case Reflect(call) =>
      && call.faults.targetRead == {} && call.faults.write == {}
      && (call.source.Place() in st.cluster ==>
            PayloadOf(call.source.kind, st.cluster[call.source.Place()]) == history(call.source.version))
    case Outside(k, obj) =>
      && !(k.id in st.store && st.store[k.id].kind == k.kind && st.store[k.id].version != "")
      && (obj.Some? && RecordedVersion(obj.value) != "" ==>
            Holds(k.kind, obj.value, history(RecordedVersion(obj.value))))
    case _ => true
  }

  ghost predicate AllHonest(history: string -> Payload, steps: seq<Step>, st: State)
    decreases |steps|
  {
    steps != [] ==> Honest(history, steps[0], st) && AllHonest(history, steps[1..], Apply(steps[0], st))
  }

  lemma TruthfulReflect(history: string -> Payload, call: Call, st: State, k: Key)
    requires Truthful(history, st.cluster) && Honest(history, Reflect(call), st)
    requires k in Execute(call, st).cluster && RecordedVersion(Execute(call, st).cluster[k]) != ""
    ensures var o := Execute(call, st).cluster[k]; Holds(k.kind, o, history(RecordedVersion(o)))
  {
  }

  lemma RecordedReflect(history: string -> Payload, call: Call, st: State, id: MirrorID)
    requires Recorded(st) && Honest(history, Reflect(call), st)
    requires id in Execute(call, st).store && Execute(call, st).store[id].version != ""
    ensures var st' := Execute(call, st); var k := Key(st'.store[id].kind, id);
            k in st'.cluster && RecordedVersion(st'.cluster[k]) == st'.store[id].version
  {
    StoreAfter(call, st, id);
    ClusterAfter(call, st, Key(Execute(call, st).store[id].kind, id));
  }

  lemma AgreementReflect(history: string -> Payload, call: Call, st: State)
    requires Agreement(history, st) && Honest(history, Reflect(call), st)
    ensures Agreement(history, Execute(call, st))
  {
    var st' := Execute(call, st);
    forall k | k in st'.cluster && RecordedVersion(st'.cluster[k]) != ""
      ensures Holds(k.kind, st'.cluster[k], history(RecordedVersion(st'.cluster[k])))
    {
      TruthfulReflect(history, call, st, k);
    }
    forall id | id in st'.store && st'.store[id].version != ""
      ensures var k := Key(st'.store[id].kind, id);
              k in st'.cluster && RecordedVersion(st'.cluster[k]) == st'.store[id].version
    {
      RecordedReflect(history, call, st, id);
    }
  }

  lemma AgreementStep(history: string -> Payload, step: Step, st: State)
    requires Agreement(history, st) && Honest(history, step, st)
    ensures Agreement(history, Apply(step, st))
  {
    if step.Reflect? {
      AgreementReflect(history, step.call, st);
    }
  }

  /** Every run keeps store and cluster in agreement. */
  lemma {:induction false} AgreementKept(history: string -> Payload, steps: seq<Step>, st: State)
    requires Agreement(history, st) && AllHonest(history, steps, st)
    ensures Agreement(history, Run(steps, st))
    decreases |steps|
  {
    if steps != [] {
      AgreementStep(history, steps[0], st);
      AgreementKept(history, steps[1..], Apply(steps[0], st));
    }
  }

  /** So after any run, an execution brings every surviving mirror it may reach to the source's
      data. */
  lemma Convergence(history: string -> Payload, steps: seq<Step>, st: State, call: Call, id: MirrorID)
    requires Agreement(history, st) && AllHonest(history, steps, st)
    requires Honest(history, Reflect(call), Run(steps, st))
    requires OutcomeOf(call) == Done && call.faults.sourceRead == {}
    requires call.source.version != "" && call.source.Place() in Run(steps, st).cluster
    requires Owned(Execute(call, Run(steps, st)), call.source, id) && call.source.CanReflectToNamespace(id.ns)
    ensures var last := Execute(call, Run(steps, st)); var k := Key(last.store[id].kind, id);
            && last.store[id].version == call.source.version
            && k in last.cluster
            && Holds(k.kind, last.cluster[k], PayloadOf(call.source.kind, Run(steps, st).cluster[call.source.Place()]))
  {
    var before := Run(steps, st);
    AgreementKept(history, steps, st);
    AgreementReflect(history, call, before);
    StoreAfter(call, before, id);
  }

  // ---- what a single execution repairs, exactly ----------------------------------------

  /** With no assumption on the state: after a fault-free execution a reachable mirror holds the
      source's data exactly when it did before, or the entry was behind the source's version and
      the object did not claim that version. A mirror deleted or edited behind the engine's back, or
      whose write failed, is therefore not repaired until the source's version changes. */
  lemma RepairedExactlyWhen(call: Call, st: State, id: MirrorID)
    requires call.faults == NO_FAULTS && OutcomeOf(call) == Done
    requires call.source.Place() in st.cluster && call.source.CanReflectToNamespace(id.ns)
    requires Owned(Execute(call, st), call.source, id)
    ensures var s := call.source; var st' := Execute(call, st); var k := Key(st'.store[id].kind, id);
            var p := PayloadOf(s.kind, st.cluster[s.Place()]);
            var recorded := if id in st.store then st.store[id].version else "";
            (k in st'.cluster && Holds(k.kind, st'.cluster[k], p)) <==>
            || (k in st.cluster && Holds(k.kind, st.cluster[k], p))
            || (recorded != s.version && !UpToDate(st.cluster, k, s.version))
  {
    StoreAfter(call, st, id);
    ClusterAfter(call, st, Key(Execute(call, st).store[id].kind, id));
  }

  /** The step keeps the entry of `k` and the object itself, and if it executes the owner, then at the
      same version. */
  ghost predicate KeepsVersion(step: Step, k: Key, owner: SourceID, version: string) {
    && LeavesEntry(step, k.id, owner)
    && !(step.Outside? && step.k == k)
    && (step.Reflect? && step.call.source.id == owner ==> step.call.source.version == version)
  }

  /** The entry's version is recorded before the write, so a failed write looks like a done one: until
      the owner's version changes or the entry is dropped or replaced, no run writes the object, whatever
      other sources, registrations and deletions come in between. */
  lemma FailedWriteNotRetried(call: Call, steps: seq<Step>, st: State, id: MirrorID)
    requires OutcomeOf(call) == Done && Advances(call, st, id)
    requires id in call.faults.write || id in call.faults.targetRead
    requires var k := Key(Kept(call, st, id).value.kind, id);
             forall i :: 0 <= i < |steps| ==> KeepsVersion(steps[i], k, call.source.id, call.source.version)
    ensures var k := Key(Kept(call, st, id).value.kind, id);
            Lookup(Run([Reflect(call)] + steps, st).cluster, k) == Lookup(st.cluster, k)
  {
    var k := Key(Kept(call, st, id).value.kind, id);
    StoreAfter(call, st, id);
    ClusterAfter(call, st, k);
    assert ([Reflect(call)] + steps)[1..] == steps;
    NeverAgain(call.source.id, call.source.version, steps, Execute(call, st), k);
  }

  lemma NotNow(owner: SourceID, version: string, step: Step, st: State, k: Key)
    requires k.id in st.store && st.store[k.id].source == owner && st.store[k.id].version == version
    requires KeepsVersion(step, k, owner, version)
    ensures var st' := Apply(step, st);
            && k.id in st'.store && st'.store[k.id].source == owner && st'.store[k.id].version == version
            && Lookup(st'.cluster, k) == Lookup(st.cluster, k)
  {
    if step.Reflect? {
      StoreAfter(step.call, st, k.id);
      ClusterAfter(step.call, st, k);
    }
  }

  lemma {:induction false} NeverAgain(owner: SourceID, version: string, steps: seq<Step>, st: State, k: Key)
    requires k.id in st.store && st.store[k.id].source == owner && st.store[k.id].version == version
    requires forall i :: 0 <= i < |steps| ==> KeepsVersion(steps[i], k, owner, version)
    ensures Lookup(Run(steps, st).cluster, k) == Lookup(st.cluster, k)
    decreases |steps|
  {
    if steps != [] {
      NotNow(owner, version, steps[0], st, k);
      NeverAgain(owner, version, steps[1..], Apply(steps[0], st), k);
    }
  }

  /** A mirror that somebody deletes stays away: until its owner's version changes or the entry is dropped
      or replaced, no run creates it again. */
  lemma DeletedMirrorStaysAway(owner: SourceID, version: string, steps: seq<Step>, st: State, k: Key)
    requires k.id in st.store && st.store[k.id].source == owner && st.store[k.id].version == version
    requires forall i :: 0 <= i < |steps| ==> KeepsVersion(steps[i], k, owner, version)
    ensures k !in Run([Outside(k, None)] + steps, st).cluster
    ensures forall k' :: k' != k ==> Lookup(Apply(Outside(k, None), st).cluster, k') == Lookup(st.cluster, k')
  {
    RunCons(Outside(k, None), steps, st);
    NeverAgain(owner, version, steps, Apply(Outside(k, None), st), k);
  }
}
