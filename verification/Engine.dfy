/** One execution of the replication engine, described place by place: what becomes of each store
    entry and of each cluster object. The description names no order of namespaces or mirrors. */
module Engine {
  import opened Identifiers
  import opened Entities

  type Store = map<MirrorID, Entry>
  type Cluster = map<Key, Object>

  datatype State = State(store: Store, cluster: Cluster)

  /** The API calls that fail during one execution, by the mirror they are made for. */
  datatype Faults = Faults(
    list: bool,
    conflictRead: set<MirrorID>,
    sourceRead: set<MirrorID>,
    targetRead: set<MirrorID>,
    write: set<MirrorID>)

  /** Every call goes through. An API server refuses an update that changes the type of an existing Secret,
      so a fault-free execution is one whose updates keep the types of the Secrets they find; a refused
      update is a `write` fault. */
  const NO_FAULTS := Faults(false, {}, {}, {}, {})

  /** One call of the engine: the source, the namespaces the cluster lists, the calls that fail. */
  datatype Call = Call(source: Source, namespaces: seq<string>, faults: Faults)

  datatype Outcome = Done | EmptyName | EmptyNamespace | ListFailed

  predicate ValidSource(s: Source) {
    s.id.name != "" && s.id.ns != ""
  }

  function OutcomeOf(c: Call): Outcome {
    if c.source.id.name == "" then EmptyName
    else if c.source.id.ns == "" then EmptyNamespace
    else if c.source.allowed && c.source.autoEnabled && c.faults.list then ListFailed
    else Done
  }

  // ---- registration --------------------------------------------------------------------

  /** A place the policy wants a mirror at. */
  predicate Candidate(c: Call, id: MirrorID) {
    var s := c.source;
    && id.name == s.TargetName()
    && id.ns in c.namespaces
    && id.ns != s.id.ns
    && s.CanAutoMirrorToNamespace(id.ns)
  }

  /** An object of the source's kind that is neither Helm's nor a mirror is in the way. */
  predicate Conflict(s: Source, cluster: Cluster, id: MirrorID) {
    var k := Key(s.kind, id);
    k in cluster && !IsHelm(s.kind, cluster[k]) && !IsManaged(cluster[k])
  }

  predicate Registers(c: Call, st: State, id: MirrorID) {
    && Candidate(c, id)
    && id !in st.store
    && id !in c.faults.conflictRead
    && !Conflict(c.source, st.cluster, id)
  }

  function NewEntry(s: Source): Entry {
    Entry(s.id, s.kind, "", true)
  }

  /** The entry after registration. */
  function Registered(c: Call, st: State, id: MirrorID): Option<Entry> {
    if id in st.store then Some(st.store[id])
    else if Registers(c, st, id) then Some(NewEntry(c.source))
    else None
  }

  /** The entry after registration and policy cleanup, before anything is pushed. */
  function Kept(c: Call, st: State, id: MirrorID): Option<Entry> {
    var e := Registered(c, st, id);
    if e.Some? && e.value.source == c.source.id && !c.source.CanAutoMirrorToNamespace(id.ns) then None else e
  }

  // ---- pushing -------------------------------------------------------------------------

  function RecordedVersion(o: Object): string {
    o.annotations.Get(ReplicatedVersion)
  }

  /** The guard on the target: its annotation already names the version. */
  predicate UpToDate(cluster: Cluster, k: Key, version: string) {
    k in cluster && cluster[k].annotations.Annotations? && RecordedVersion(cluster[k]) == version
  }

  /** The source is read, the policy lets it through and the entry is behind: its version is set. */
  predicate Advances(c: Call, st: State, id: MirrorID) {
    var s, e := c.source, Kept(c, st, id);
    && e.Some?
    && e.value.source == s.id
    && id !in c.faults.sourceRead
    && s.Place() in st.cluster
    && s.CanReflectToNamespace(id.ns)
    && e.value.version != s.version
  }

  /** The object at `k` is written. */
  predicate Writes(c: Call, st: State, k: Key) {
    && OutcomeOf(c) == Done
    && Advances(c, st, k.id)
    && Kept(c, st, k.id).value.kind == k.kind
    && k.id !in c.faults.targetRead
    && k.id !in c.faults.write
    && !UpToDate(st.cluster, k, c.source.version)
  }

  function EntryAfter(c: Call, st: State, id: MirrorID): Option<Entry> {
    if OutcomeOf(c) != Done then Lookup(st.store, id)
    else if Advances(c, st, id) then Some(Kept(c, st, id).value.(version := c.source.version))
    else Kept(c, st, id)
  }

  function ObjectAfter(c: Call, st: State, k: Key): Option<Object> {
    if Writes(c, st, k) then
      var s := c.source;
      Some(Render(k.kind, Lookup(st.cluster, k), PayloadOf(s.kind, st.cluster[s.Place()]),
                  MirrorAnnotations(s.id, s.version, Kept(c, st, k.id).value.auto)))
    else Lookup(st.cluster, k)
  }

  // ---- the state after -----------------------------------------------------------------

  /** All the places one execution can touch. */
  function Places(c: Call, st: State): set<MirrorID> {
    st.store.Keys + set ns | ns in c.namespaces :: MirrorID(ns, c.source.TargetName())
  }

  function Targets(c: Call, st: State): set<Key> {
    set id, kind | id in Places(c, st) && kind in {Secret, ConfigMap} :: Key(kind, id)
  }

  function Execute(c: Call, st: State): State {
    State(
      map id | id in Places(c, st) && EntryAfter(c, st, id).Some? :: EntryAfter(c, st, id).value,
      map k | k in st.cluster.Keys + Targets(c, st) && ObjectAfter(c, st, k).Some? :: ObjectAfter(c, st, k).value)
  }

  lemma StoreAfter(c: Call, st: State, id: MirrorID)
    ensures Lookup(Execute(c, st).store, id) == EntryAfter(c, st, id)
  {
  }

  lemma ClusterAfter(c: Call, st: State, k: Key)
    ensures Lookup(Execute(c, st).cluster, k) == ObjectAfter(c, st, k)
  {
  }

  /** A state is what it answers at every place. */
  lemma StateIs(st: State, st': State)
    requires forall id :: Lookup(st.store, id) == Lookup(st'.store, id)
    requires forall k :: Lookup(st.cluster, k) == Lookup(st'.cluster, k)
    ensures st == st'
  {
    LookupExtensional(st.store, st'.store);
    LookupExtensional(st.cluster, st'.cluster);
  }

  lemma ExecuteIs(c: Call, st: State, st': State)
    requires forall id :: Lookup(st'.store, id) == EntryAfter(c, st, id)
    requires forall k :: Lookup(st'.cluster, k) == ObjectAfter(c, st, k)
    ensures st' == Execute(c, st)
  {
    forall id ensures Lookup(st'.store, id) == Lookup(Execute(c, st).store, id) {
      StoreAfter(c, st, id);
    }
    forall k ensures Lookup(st'.cluster, k) == Lookup(Execute(c, st).cluster, k) {
      ClusterAfter(c, st, k);
    }
    StateIs(st', Execute(c, st));
  }

  // ---- policy safety and frame ---------------------------------------------------------

  ghost predicate Owned(st: State, s: Source, id: MirrorID) {
    id in st.store && st.store[id].source == s.id
  }

  /** Whatever fails, a changed object is a mirror the source owns, of the kind registered for it,
      in a namespace that both lists accept; entries of other sources never change. */
  lemma PolicySafety(c: Call, st: State)
    ensures var st' := Execute(c, st); var s := c.source;
            forall k :: Lookup(st'.cluster, k) != Lookup(st.cluster, k) ==>
              && Owned(st', s, k.id) && st'.store[k.id].kind == k.kind
              && s.CanAutoMirrorToNamespace(k.id.ns) && s.CanReflectToNamespace(k.id.ns)
    ensures var st' := Execute(c, st); var s := c.source;
            forall id :: Lookup(st'.store, id) != Lookup(st.store, id) ==>
              (id in st.store ==> Owned(st, s, id)) && (id in st'.store ==> Owned(st', s, id))
    ensures forall k :: k in st.cluster ==> k in Execute(c, st).cluster
  {
  }

  // ---- exact reconciliation ------------------------------------------------------------

  /** The entries a source owns after an execution that lists the namespaces: the ones it owned in
      namespaces its policy still accepts, and one for each candidate place that was free. */
  lemma ExactReconciliation(c: Call, st: State, id: MirrorID)
    requires OutcomeOf(c) == Done
    ensures var s := c.source;
            Owned(Execute(c, st), s, id) <==>
            || (Owned(st, s, id) && s.CanAutoMirrorToNamespace(id.ns))
            || Registers(c, st, id)
    ensures !c.source.allowed ==> !Owned(Execute(c, st), c.source, id)
  {
  }

  // ---- foreign objects -----------------------------------------------------------------

  /** An object whose place is not in the store is written exactly when the source registers it now
      (so it is Helm's or already a mirror), can be read, may be reflected there, and the object
      does not carry the source's version. In particular a plain object is never changed. */
  lemma FirstContact(c: Call, st: State, k: Key)
    requires k in st.cluster && k.id !in st.store
    ensures var s, o := c.source, st.cluster[k];
            Writes(c, st, k) <==>
            && OutcomeOf(c) == Done && Candidate(c, k.id) && k.kind == s.kind
            && (IsHelm(k.kind, o) || IsManaged(o))
            && s.CanReflectToNamespace(k.id.ns) && s.Place() in st.cluster && s.version != ""
            && k.id !in c.faults.conflictRead && k.id !in c.faults.sourceRead
            && k.id !in c.faults.targetRead && k.id !in c.faults.write
            && !UpToDate(st.cluster, k, s.version)
    ensures !IsHelm(k.kind, st.cluster[k]) && !IsManaged(st.cluster[k]) ==>
              k in Execute(c, st).cluster && Execute(c, st).cluster[k] == st.cluster[k]
  {
  }

  /** A Helm object at a target is not a conflict: it is overwritten and its annotations replaced, provided
      the API server lets the write through (a Secret keeps its type). */
  lemma HelmTargetOverwritten(c: Call, st: State, k: Key)
    requires c.faults == NO_FAULTS && OutcomeOf(c) == Done
    requires k in st.cluster && k.id !in st.store && IsHelm(k.kind, st.cluster[k])
    requires Candidate(c, k.id) && k.kind == c.source.kind && c.source.CanReflectToNamespace(k.id.ns)
    requires c.source.Place() in st.cluster && c.source.version != ""
    requires !UpToDate(st.cluster, k, c.source.version)
    ensures k in Execute(c, st).cluster
    ensures var o := Execute(c, st).cluster[k];
            o.annotations == MirrorAnnotations(c.source.id, c.source.version, true)
            && Holds(k.kind, o, PayloadOf(c.source.kind, st.cluster[c.source.Place()]))
  {
  }

  // ---- the source's own object ---------------------------------------------------------

  /** Even a source that is its own mirror still reads the same after the execution. */
  lemma SourceStable(c: Call, st: State)
    ensures c.source.Place() in Execute(c, st).cluster <==> c.source.Place() in st.cluster
    ensures c.source.Place() in st.cluster ==>
              PayloadOf(c.source.kind, Execute(c, st).cluster[c.source.Place()])
              == PayloadOf(c.source.kind, st.cluster[c.source.Place()])
  {
  }

  // ---- idempotence ---------------------------------------------------------------------

  /** A fault-free execution leaves nothing to do: executing the same source again, with any part
      of the namespaces listed and whatever calls fail, changes neither store nor cluster. */
  lemma Idempotent(c: Call, again: Call, st: State)
    requires c.faults == NO_FAULTS
    requires again.source == c.source
    requires forall ns :: ns in again.namespaces ==> ns in c.namespaces
    ensures Execute(again, Execute(c, st)) == Execute(c, st)
  {
    var st' := Execute(c, st);
    SourceStable(c, st);
    forall id ensures Lookup(st'.store, id) == EntryAfter(again, st', id) {
      SettledEntry(c, again, st, id);
    }
    forall k ensures Lookup(st'.cluster, k) == ObjectAfter(again, st', k) {
      SettledEntry(c, again, st, k.id);
    }
    ExecuteIs(again, st', st');
  }

  /** After a fault-free execution no entry is created, dropped or advanced by the next. */
  lemma SettledEntry(c: Call, again: Call, st: State, id: MirrorID)
    requires c.faults == NO_FAULTS
    requires again.source == c.source
    requires forall ns :: ns in again.namespaces ==> ns in c.namespaces
    ensures var st' := Execute(c, st);
            EntryAfter(again, st', id) == Lookup(st'.store, id)
            && (OutcomeOf(again) == Done ==> !Advances(again, st', id))
  {
  }
}
