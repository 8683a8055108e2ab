/** The reconcilers around the engine: sources built from annotations, mirror events that register a
    mirror and execute its source, and the removal of sources and namespaces. */
module Reconcilers {
  import opened Identifiers
  import opened Text
  import opened Regex
  import opened AllowedNamespaces
  import opened NamespaceLists
  import opened Entities
  import opened Engine
  import opened Runs
  import opened Caches
  import opened UseCases

  // ---- sources from annotations --------------------------------------------------------

  /** An annotation that is absent or empty leaves the policy that matches nothing. */
  function PolicyFrom(value: string, lib: Library): AllowedNamespaces {
    if value == "" then DENY_ALL else Policy(ParsePatterns(value), lib)
  }

  /** The source an object announces in its annotations. The mirror reconciler's builder leaves the
      auto list out. */
  function SourceOf(kind: Kind, id: SourceID, o: Object, version: string, withAutoList: bool, lib: Library)
    : Option<Source>
  {
    var a := o.annotations;
    if a.NilMap? || a.Get(Replicate) != "true" then None
    else Some(Source(id, "", kind, true, PolicyFrom(a.Get(ReplicateTo), lib), a.Get(AutoReplicate) == "true",
                     if withAutoList then PolicyFrom(a.Get(AutoReplicateTo), lib) else DENY_ALL, version))
  }

  /** A parsed list has no blank pattern left, so its policy is empty only if it is empty or does not
      compile. */
  lemma ParsedPolicy(value: string, lib: Library, ns: string)
    ensures var patterns := ParsePatterns(value);
            && (Policy(patterns, lib).IsEmpty() <==> patterns == [] || Breaks(patterns, lib))
            && (Policy(patterns, lib).Matches(ns) <==> !Breaks(patterns, lib) && SomeAllows(patterns, lib, ns))
  {
    var patterns := ParsePatterns(value);
    PolicyMeaning(patterns, lib, ns);
    PolicyEmpty(patterns, lib);
    BuildMeaning(patterns, DENY_ALL, lib, ns);
    KeepTrimmed(Pieces(value), IsSpace);
    if patterns != [] {
      assert patterns[0] != "" && Trimmed(patterns[0], IsSpace);
      TrimOfTrimmed(patterns[0], IsSpace);
    }
  }

  /** From the text of the annotations to the cluster, for every text: an object changes only in a
      namespace that some pattern of `replicate-to` allows, and some pattern of `auto-replicate-to` if that
      list has any and compiles. */
  lemma AnnotationsGovernWrites(kind: Kind, id: SourceID, o: Object, version: string, lib: Library,
                                namespaces: seq<string>, faults: Faults, st: State, k: Key)
    requires SourceOf(kind, id, o, version, true, lib).Some?
    requires var c := Call(SourceOf(kind, id, o, version, true, lib).value, namespaces, faults);
             Lookup(Execute(c, st).cluster, k) != Lookup(st.cluster, k)
    ensures o.annotations.Get(Replicate) == "true" && o.annotations.Get(AutoReplicate) == "true"
    ensures o.annotations.Get(ReplicateTo) != ""
    ensures var to := ParsePatterns(o.annotations.Get(ReplicateTo));
            !Breaks(to, lib) && SomeAllows(to, lib, k.id.ns)
    ensures var auto := ParsePatterns(o.annotations.Get(AutoReplicateTo));
            || o.annotations.Get(AutoReplicateTo) == "" || auto == [] || Breaks(auto, lib)
            || SomeAllows(auto, lib, k.id.ns)
  {
    var s := SourceOf(kind, id, o, version, true, lib).value;
    PolicySafety(Call(s, namespaces, faults), st);
    ParsedPolicy(o.annotations.Get(ReplicateTo), lib, k.id.ns);
    ParsedPolicy(o.annotations.Get(AutoReplicateTo), lib, k.id.ns);
  }

  /** Exactly where a source may be pushed to: an auto list decides if it has patterns and all it comes to
      compile; otherwise `replicate-to` decides. */
  lemma AutoListDecides(kind: Kind, id: SourceID, o: Object, version: string, lib: Library, ns: string)
    requires SourceOf(kind, id, o, version, true, lib).Some?
    ensures var s := SourceOf(kind, id, o, version, true, lib).value;
            var value := o.annotations.Get(AutoReplicateTo); var auto := ParsePatterns(value);
            s.CanAutoMirrorToNamespace(ns) <==>
            && s.autoEnabled
            && if value == "" || auto == [] || Breaks(auto, lib) then s.CanReflectToNamespace(ns)
               else SomeAllows(auto, lib, ns)
  {
    ParsedPolicy(o.annotations.Get(AutoReplicateTo), lib, ns);
  }

  /** So an auto list that does not compile is as good as none, and widens the push... */
  lemma BrokenAutoListWidens(kind: Kind, id: SourceID, o: Object, version: string, lib: Library, ns: string)
    requires SourceOf(kind, id, o, version, true, lib).Some?
    requires Breaks(ParsePatterns(o.annotations.Get(AutoReplicateTo)), lib)
    ensures var s := SourceOf(kind, id, o, version, true, lib).value;
            s.CanAutoMirrorToNamespace(ns) <==> s.autoEnabled && s.CanReflectToNamespace(ns)
  {
    AutoListDecides(kind, id, o, version, lib, ns);
  }

  /** ... as one with a bracket left open does. */
  lemma OpenBracketBreaks(lib: Library)
    ensures ParsePatterns("a[") == ["a["] && Breaks(ParsePatterns("a["), lib)
  {
    OneOpenBracket();
    PiecesOf("a[", "");
    TrimOfTrimmed("a[", IsSpace);
    GlobCompiles("a[", lib);
    OnlyBreaks("a[", lib);
  }

  lemma OneOpenBracket()
    ensures IsGlob("a[") && !Balanced("a[")
  {
    assert "a["[1..] == "[" && "["[1..] == "";
  }

  lemma OnlyBreaks(pattern: string, lib: Library)
    requires TrimSpace(pattern) == pattern && !Compiles(pattern, lib)
    ensures Breaks([pattern], lib)
  {
  }

  /** A source pushed by annotations alone needs `replicate-to`: with only `auto-replicate-to`,
      mirrors are registered but no object is ever written, in any execution. */
  lemma AutoListAloneWritesNothing(kind: Kind, id: SourceID, o: Object, version: string, lib: Library,
                                   namespaces: seq<string>, faults: Faults, st: State)
    requires SourceOf(kind, id, o, version, true, lib).Some?
    requires o.annotations.Get(ReplicateTo) == ""
    ensures Execute(Call(SourceOf(kind, id, o, version, true, lib).value, namespaces, faults), st).cluster == st.cluster
  {
  }

  /** A source without `auto-replicate` is never pushed, and a mirror that asked for it is dropped
      from the store by the first execution. */
  lemma OnDemandWritesNothing(c: Call, st: State)
    requires !c.source.autoEnabled && ValidSource(c.source)
    ensures Execute(c, st).cluster == st.cluster
    ensures forall id :: !Owned(Execute(c, st), c.source, id)
  {
  }

  // ---- mirror events -------------------------------------------------------------------

  /** The object a mirror event is about. Only a Secret can be one: a managed ConfigMap is reported
      as an error. */
  function FetchMirror(cluster: Cluster, id: MirrorID): Option<Object> {
    var k := Key(Secret, id);
    if k in cluster && !IsHelm(Secret, cluster[k]) && IsManaged(cluster[k]) then Some(cluster[k]) else None
  }

  datatype SourceFetch = Absent | NotASource | Fetched(s: Source)

  /** A Secret of that name hides a ConfigMap. */
  function FetchSource(cluster: Cluster, id: SourceID, version: string, lib: Library): SourceFetch {
    var m := MirrorID(id.ns, id.name);
    if Key(Secret, m) in cluster then FetchedAs(Secret, id, cluster[Key(Secret, m)], version, lib)
    else if Key(ConfigMap, m) in cluster then FetchedAs(ConfigMap, id, cluster[Key(ConfigMap, m)], version, lib)
    else Absent
  }

  function FetchedAs(kind: Kind, id: SourceID, o: Object, version: string, lib: Library): (r: SourceFetch)
    ensures r.Fetched? ==> r.s.id == id && r.s.kind == kind
  {
    if IsHelm(kind, o) then NotASource
    else
      match SourceOf(kind, id, o, version, false, lib)
      case None => NotASource
      case Some(s) => Fetched(s)
  }

  function OwnerOf(o: Object): SourceID {
    var (ns, name) := SplitSpec(o.annotations.Get(ReplicatedFrom));
    SourceID(ns, name)
  }

  function MarkedAuto(o: Object): bool {
    o.annotations.Get(AutoReplicated) == "true"
  }

  method ReadOwner(o: Object) returns (owner: SourceID)
    ensures owner == OwnerOf(o)
  {
    var ns, name := SplitReflects(o.annotations.Get(ReplicatedFrom));
    owner := SourceID(ns, name);
  }

  /** One mirror event: the object it names, what the cluster lists, the version the source is read at, the
      library its patterns are compiled with, and the API calls that fail, execution by execution. Executions
      past the plan meet no fault. */
  datatype Event = Event(
    id: MirrorID,
    namespaces: seq<string>,
    version: string,
    lib: Library,
    mirrorReadFails: bool,
    sourceReadFails: bool,
    plan: seq<Faults>)

  function First(plan: seq<Faults>): Faults {
    if plan == [] then NO_FAULTS else plan[0]
  }

  function Rest(plan: seq<Faults>): seq<Faults> {
    if plan == [] then [] else plan[1..]
  }

  /** The mirror the event is about, or none if there is nothing to do. */
  function EventMirror(ev: Event, cluster: Cluster): Option<Object> {
    if ev.mirrorReadFails then None else FetchMirror(cluster, ev.id)
  }

  /** A failed read of the source ends the event like an absent source. */
  function EventSource(ev: Event, cluster: Cluster, owner: SourceID): (r: SourceFetch)
    ensures r.Fetched? ==> r.s.id == owner && r.s.version == ev.version && r.s.Place() in cluster
  {
    if ev.sourceReadFails then Absent else FetchSource(cluster, owner, ev.version, ev.lib)
  }

  /** The places a source owns. */
  function OwnedBy(store: Store, source: SourceID): set<MirrorID> {
    set id | id in store && store[id].source == source
  }

  /** A source executed `n` times in a row. */
  function Executions(s: Source, namespaces: seq<string>, plan: seq<Faults>, n: nat): seq<Step> {
    if n == 0 then [] else [Reflect(Call(s, namespaces, First(plan)))] + Executions(s, namespaces, Rest(plan), n - 1)
  }

  /** The state `n` executions lead to. */
  function Executed(s: Source, namespaces: seq<string>, plan: seq<Faults>, n: nat, st: State): State
    decreases n
  {
    if n == 0 then st
    else Executed(s, namespaces, Rest(plan), n - 1, Execute(Call(s, namespaces, First(plan)), st))
  }

  ghost predicate LeadsTo(s: Source, namespaces: seq<string>, plan: seq<Faults>, n: nat, st: State, end: State) {
    Executed(s, namespaces, plan, n, st) == end
  }

  lemma {:induction false} ExecutedIsRun(s: Source, namespaces: seq<string>, plan: seq<Faults>, n: nat, st: State)
    ensures Run(Executions(s, namespaces, plan, n), st) == Executed(s, namespaces, plan, n, st)
    decreases n
  {
    if n != 0 {
      var c := Call(s, namespaces, First(plan));
      RunCons(Reflect(c), Executions(s, namespaces, Rest(plan), n - 1), st);
      ExecutedIsRun(s, namespaces, Rest(plan), n - 1, Execute(c, st));
    }
  }

  /** What a mirror event does, as steps of a run: at most one registration, and then one execution of
      the source per mirror it has. */
  function MirrorEventSteps(ev: Event, st: State): seq<Step> {
    match EventMirror(ev, st.cluster)
    case None => []
    case Some(o) =>
      var owner, auto := OwnerOf(o), MarkedAuto(o);
      match EventSource(ev, st.cluster, owner)
      case Absent => []
      case NotASource => if auto then [Register(ev.id, owner, Secret, true)] else [Unregister(ev.id)]
      case Fetched(s) =>
        var register := Register(ev.id, owner, s.kind, auto);
        [register] + Executions(s, ev.namespaces, ev.plan, |OwnedBy(Apply(register, st).store, owner)|)
  }

  /** The record the event puts in the mirror cache. */
  function EventRecord(ev: Event, st: State): Option<MirrorRecord> {
    match EventMirror(ev, st.cluster)
    case None => None
    case Some(o) =>
      var owner, auto := OwnerOf(o), MarkedAuto(o);
      var source := EventSource(ev, st.cluster, owner);
      if source.Fetched? || (source.NotASource? && auto) then
        Some(MirrorRecord(ev.id.String(), owner.String(), auto))
      else None
  }

  function WithRecord(records: map<string, MirrorRecord>, ev: Event, st: State): map<string, MirrorRecord> {
    match EventRecord(ev, st)
    case None => records
    case Some(r) => records[ev.id.String() := r]
  }

  /** The steps and the record, by what the source turns out to be. */
  lemma EventPlan(ev: Event, st: State, o: Object, source: SourceFetch)
    requires EventMirror(ev, st.cluster) == Some(o) && EventSource(ev, st.cluster, OwnerOf(o)) == source
    ensures var steps, auto := MirrorEventSteps(ev, st), MarkedAuto(o);
            && (source.NotASource? ==>
                  && steps == [if auto then Register(ev.id, OwnerOf(o), Secret, true) else Unregister(ev.id)]
                  && (EventRecord(ev, st).Some? <==> auto))
            && (source.Fetched? ==>
                  && var register := Register(ev.id, source.s.id, source.s.kind, auto);
                  && steps == [register] + Executions(source.s, ev.namespaces, ev.plan,
                                                      |OwnedBy(Apply(register, st).store, source.s.id)|)
                  && EventRecord(ev, st).Some?)
            && (EventRecord(ev, st).Some? ==>
                  EventRecord(ev, st).value == MirrorRecord(ev.id.String(), OwnerOf(o).String(), auto))
  {
  }

  /** Mirrors with different identifiers that cover a set of places are as many as the places. */
  lemma {:induction false} CountDistinct(ids: seq<MirrorID>, places: set<MirrorID>)
    requires forall i, j :: 0 <= i < j < |ids| ==> ids[i] != ids[j]
    requires forall id :: id in ids <==> id in places
    ensures |ids| == |places|
    decreases |ids|
  {
    if ids == [] {
      assert places == {};
    } else {
      assert ids[0] in places;
      CountDistinct(ids[1..], places - {ids[0]});
    }
  }

  class MirrorReconciler {
    const engine: ReflectResources
    const cache: MirrorCache

    constructor (engine: ReflectResources, cache: MirrorCache)
      ensures this.engine == engine && this.cache == cache
    {
      this.engine, this.cache := engine, cache;
    }

    /** One event, whatever calls fail. */
    method Reconcile(ev: Event)
      requires engine.store.Valid()
      modifies engine.store, engine.store.mirrors.Values, engine.cluster, cache
      ensures engine.store.Valid() && fresh(engine.store.mirrors.Values - old(engine.store.mirrors.Values))
      ensures engine.Current() == Run(MirrorEventSteps(ev, old(engine.Current())), old(engine.Current()))
      ensures cache.records == WithRecord(old(cache.records), ev, old(engine.Current()))
    {
      var fetched := EventMirror(ev, engine.cluster.objects);
      if fetched != None {
        ReconcileMirror(ev, fetched.value);
      }
    }

    method ReconcileMirror(ev: Event, o: Object)
      requires engine.store.Valid() && EventMirror(ev, engine.cluster.objects) == Some(o)
      modifies engine.store, engine.store.mirrors.Values, engine.cluster, cache
      ensures engine.store.Valid() && fresh(engine.store.mirrors.Values - old(engine.store.mirrors.Values))
      ensures engine.Current() == Run(MirrorEventSteps(ev, old(engine.Current())), old(engine.Current()))
      ensures cache.records == WithRecord(old(cache.records), ev, old(engine.Current()))
    {
      var owner := ReadOwner(o);
      var source := EventSource(ev, engine.cluster.objects, owner);
      match source {
        case Absent =>
        case NotASource => ReconcileUnannounced(ev, o, owner);
        case Fetched(s) => ReconcileAnnounced(ev, o, s);
      }
    }

    method ReconcileUnannounced(ev: Event, o: Object, owner: SourceID)
      requires engine.store.Valid() && EventMirror(ev, engine.cluster.objects) == Some(o) && owner == OwnerOf(o)
      requires EventSource(ev, engine.cluster.objects, owner) == NotASource
      modifies engine.store, engine.store.mirrors.Values, engine.cluster, cache
      ensures engine.store.Valid() && fresh(engine.store.mirrors.Values - old(engine.store.mirrors.Values))
      ensures engine.Current() == Run(MirrorEventSteps(ev, old(engine.Current())), old(engine.Current()))
      ensures cache.records == WithRecord(old(cache.records), ev, old(engine.Current()))
    {
      EventPlan(ev, engine.Current(), o, NotASource);
      RecordOnly(ev.id, owner, MarkedAuto(o));
    }

    method ReconcileAnnounced(ev: Event, o: Object, s: Source)
      requires engine.store.Valid() && EventMirror(ev, engine.cluster.objects) == Some(o)
      requires EventSource(ev, engine.cluster.objects, OwnerOf(o)) == Fetched(s)
      modifies engine.store, engine.store.mirrors.Values, engine.cluster, cache
      ensures engine.store.Valid() && fresh(engine.store.mirrors.Values - old(engine.store.mirrors.Values))
      ensures engine.Current() == Run(MirrorEventSteps(ev, old(engine.Current())), old(engine.Current()))
      ensures cache.records == WithRecord(old(cache.records), ev, old(engine.Current()))
    {
      EventPlan(ev, engine.Current(), o, Fetched(s));
      RegisterAndExecute(ev, s, MarkedAuto(o));
    }

    /** The source announces nothing: an auto mirror is kept on record, any other is forgotten. */
    method RecordOnly(id: MirrorID, owner: SourceID, auto: bool)
      requires engine.store.Valid()
      modifies engine.store, cache
      ensures engine.store.Valid() && fresh(engine.store.mirrors.Values - old(engine.store.mirrors.Values))
      ensures var step := if auto then Register(id, owner, Secret, true) else Unregister(id);
              engine.Current() == Run([step], old(engine.Current()))
      ensures cache.records == if auto
                               then old(cache.records)[id.String() := MirrorRecord(id.String(), owner.String(), auto)]
                               else old(cache.records)
    {
      ghost var st := engine.Current();
      if auto {
        RegisterMirror(id, owner, Secret, true);
        RunOne(Register(id, owner, Secret, true), st);
      } else {
        engine.store.Unregister(id);
        assert engine.store.View() == st.store - {id};
        RunOne(Unregister(id), st);
      }
    }

    method RegisterAndExecute(ev: Event, s: Source, auto: bool)
      requires engine.store.Valid()
      modifies engine.store, engine.store.mirrors.Values, engine.cluster, cache
      ensures engine.store.Valid() && fresh(engine.store.mirrors.Values - old(engine.store.mirrors.Values))
      ensures var register := Register(ev.id, s.id, s.kind, auto);
              var n := |OwnedBy(Apply(register, old(engine.Current())).store, s.id)|;
              engine.Current() == Run([register] + Executions(s, ev.namespaces, ev.plan, n), old(engine.Current()))
      ensures cache.records == old(cache.records)[ev.id.String() := MirrorRecord(ev.id.String(), s.id.String(), auto)]
    {
      ghost var st := engine.Current();
      RegisterMirror(ev.id, s.id, s.kind, auto);
      ghost var register := Register(ev.id, s.id, s.kind, auto);
      ghost var n := |OwnedBy(Apply(register, st).store, s.id)|;
      RunCons(register, Executions(s, ev.namespaces, ev.plan, n), st);
      ExecutedIsRun(s, ev.namespaces, ev.plan, n, engine.Current());
      ExecuteForEach(s, ev.namespaces, ev.plan);
    }

    method RegisterMirror(id: MirrorID, owner: SourceID, kind: Kind, auto: bool)
      requires engine.store.Valid()
      modifies engine.store, cache
      ensures engine.store.Valid() && fresh(engine.store.mirrors.Values - old(engine.store.mirrors.Values))
      ensures engine.Current() == Apply(Register(id, owner, kind, auto), old(engine.Current()))
      ensures id in engine.store.mirrors && engine.store.mirrors[id].sourceID == owner
      ensures cache.records == old(cache.records)[id.String() := MirrorRecord(id.String(), owner.String(), auto)]
    {
      cache.Set(id.String(), MirrorRecord(id.String(), owner.String(), auto));
      RegisterNew(engine.store, id, owner, kind, auto);
    }

    /** One execution per mirror the source has when the loop starts. */
    method ExecuteForEach(s: Source, namespaces: seq<string>, plan: seq<Faults>)
      requires engine.store.Valid()
      modifies engine.store, engine.store.mirrors.Values, engine.cluster
      ensures engine.store.Valid() && fresh(engine.store.mirrors.Values - old(engine.store.mirrors.Values))
      ensures var n := |OwnedBy(old(engine.Current()).store, s.id)|;
              engine.Current() == Executed(s, namespaces, plan, n, old(engine.Current()))
    {
      var n := CountMirrors(s.id);
      ghost var end := Executed(s, namespaces, plan, n, engine.Current());
      var left := plan;
      for i := 0 to n
        invariant engine.store.Valid() && fresh(engine.store.mirrors.Values - old(engine.store.mirrors.Values))
        invariant LeadsTo(s, namespaces, left, n - i, engine.Current(), end)
      {
        ExecuteNext(s, namespaces, left, n - i, end);
        left := Rest(left);
      }
    }

    method ExecuteNext(s: Source, namespaces: seq<string>, plan: seq<Faults>, ghost n: nat, ghost end: State)
      requires engine.store.Valid() && n > 0 && LeadsTo(s, namespaces, plan, n, engine.Current(), end)
      modifies engine.store, engine.store.mirrors.Values, engine.cluster
      ensures engine.store.Valid() && fresh(engine.store.mirrors.Values - old(engine.store.mirrors.Values))
      ensures LeadsTo(s, namespaces, Rest(plan), n - 1, engine.Current(), end)
    {
      var r := engine.Execute(Call(s, namespaces, First(plan)));
    }

    /** How many mirrors the store hands out for a source. */
    method CountMirrors(source: SourceID) returns (n: nat)
      requires engine.store.Valid()
      ensures n == |OwnedBy(engine.Current().store, source)|
    {
      var mirrors := engine.store.GetBySourceID(source);
      n := |mirrors|;
      ghost var ids := seq(n, i requires 0 <= i < n => mirrors[i].id);
      ghost var places := OwnedBy(engine.Current().store, source);
      forall id | id in places ensures id in ids {
        assert engine.store.mirrors[id] in mirrors;
        var i :| 0 <= i < n && mirrors[i] == engine.store.mirrors[id];
        assert ids[i] == id;
      }
      CountDistinct(ids, places);
    }
  }

  // ---- executing a source several times ------------------------------------------------

  /** Once an execution meets no fault the ones after it change nothing, whatever fails in them. */
  lemma {:induction false} CleanExecutionIsLast(s: Source, namespaces: seq<string>, plan: seq<Faults>, n: nat,
                                                st: State)
    ensures var c := Call(s, namespaces, NO_FAULTS);
            Executed(s, namespaces, plan, n, Execute(c, st)) == Execute(c, st)
    decreases n
  {
    if n != 0 {
      Idempotent(Call(s, namespaces, NO_FAULTS), Call(s, namespaces, First(plan)), st);
      CleanExecutionIsLast(s, namespaces, Rest(plan), n - 1, st);
    }
  }

  /** So the event of a mirror whose source is found is one registration and one execution, however many
      mirrors the source has, if the first execution meets no fault. */
  lemma EventIsOneExecution(ev: Event, st: State, s: Source, o: Object)
    requires EventMirror(ev, st.cluster) == Some(o) && EventSource(ev, st.cluster, OwnerOf(o)) == Fetched(s)
    requires First(ev.plan) == NO_FAULTS
    ensures Run(MirrorEventSteps(ev, st), st)
         == Execute(Call(s, ev.namespaces, NO_FAULTS), Apply(Register(ev.id, s.id, s.kind, MarkedAuto(o)), st))
  {
    var register := Register(ev.id, s.id, s.kind, MarkedAuto(o));
    var c, st' := Call(s, ev.namespaces, NO_FAULTS), Apply(register, st);
    var n := |OwnedBy(st'.store, s.id)|;
    assert ev.id in OwnedBy(st'.store, s.id);
    RunCons(register, Executions(s, ev.namespaces, ev.plan, n), st);
    ExecutedIsRun(s, ev.namespaces, ev.plan, n, st');
    CleanExecutionIsLast(s, ev.namespaces, Rest(ev.plan), n - 1, st');
  }

  /** The push to a place gets through: in the first execution that lists the namespaces and reads the
      source for it, the target can be read and written. */
  predicate GetsThrough(plan: seq<Faults>, id: MirrorID, n: nat) {
    && n > 0
    && if First(plan).list || id in First(plan).sourceRead then GetsThrough(Rest(plan), id, n - 1)
       else id !in First(plan).targetRead && id !in First(plan).write
  }

  /** A place registered for the source with no version yet, the source being able to push there. */
  ghost predicate Pending(s: Source, st: State, id: MirrorID, auto: bool) {
    && Lookup(st.store, id) == Some(Entry(s.id, s.kind, "", auto))
    && ValidSource(s) && s.version != "" && s.Place() in st.cluster
    && s.CanAutoMirrorToNamespace(id.ns) && s.CanReflectToNamespace(id.ns)
    && !UpToDate(st.cluster, Key(s.kind, id), s.version)
  }

  function PushedObject(s: Source, cluster: Cluster, id: MirrorID, auto: bool): Object
    requires s.Place() in cluster
  {
    Render(s.kind, Lookup(cluster, Key(s.kind, id)), PayloadOf(s.kind, cluster[s.Place()]),
           MirrorAnnotations(s.id, s.version, auto))
  }

  /** A pending place, and what a push would make of its object. */
  ghost predicate PendingAs(s: Source, st: State, id: MirrorID, auto: bool, pushed: Object) {
    Pending(s, st, id, auto) && PushedObject(s, st.cluster, id, auto) == pushed
  }

  /** The version is recorded at the place. */
  ghost predicate RecordedAt(s: Source, st: State, id: MirrorID) {
    && s.CanAutoMirrorToNamespace(id.ns)
    && id in st.store && st.store[id].source == s.id && st.store[id].version == s.version
  }

  /** An execution that cannot list the namespaces or read the source leaves the place pending. */
  lemma StillPending(c: Call, st: State, id: MirrorID, auto: bool, pushed: Object)
    requires PendingAs(c.source, st, id, auto, pushed) && (c.faults.list || id in c.faults.sourceRead)
    ensures PendingAs(c.source, Execute(c, st), id, auto, pushed)
  {
    StoreAfter(c, st, id);
    ClusterAfter(c, st, Key(c.source.kind, id));
    SourceStable(c, st);
  }

  /** Any other records the version, and writes the object if it can. */
  lemma NoLongerPending(c: Call, st: State, id: MirrorID, auto: bool, pushed: Object)
    requires PendingAs(c.source, st, id, auto, pushed) && !c.faults.list && id !in c.faults.sourceRead
    ensures RecordedAt(c.source, Execute(c, st), id)
    ensures Lookup(Execute(c, st).cluster, Key(c.source.kind, id))
         == if id in c.faults.targetRead || id in c.faults.write then Lookup(st.cluster, Key(c.source.kind, id))
            else Some(pushed)
  {
    StoreAfter(c, st, id);
    ClusterAfter(c, st, Key(c.source.kind, id));
  }

  /** Several executions push to a pending place exactly when the push gets through. */
  lemma {:induction false} PendingPushed(s: Source, namespaces: seq<string>, plan: seq<Faults>, n: nat, st: State,
                                         id: MirrorID, auto: bool, pushed: Object)
    requires PendingAs(s, st, id, auto, pushed)
    ensures FateIs(Executed(s, namespaces, plan, n, st), st, Key(s.kind, id), GetsThrough(plan, id, n), pushed)
    decreases n, 1
  {
    if n != 0 {
      if First(plan).list || id in First(plan).sourceRead {
        PushedLater(s, namespaces, plan, n, st, id, auto, pushed);
      } else {
        PushedAtOnce(Call(s, namespaces, First(plan)), Rest(plan), n - 1, st, id, auto, pushed);
      }
    }
  }

  lemma {:induction false} PushedLater(s: Source, namespaces: seq<string>, plan: seq<Faults>, n: nat, st: State,
                                       id: MirrorID, auto: bool, pushed: Object)
    requires PendingAs(s, st, id, auto, pushed) && n != 0 && (First(plan).list || id in First(plan).sourceRead)
    ensures FateIs(Executed(s, namespaces, plan, n, st), st, Key(s.kind, id), GetsThrough(plan, id, n), pushed)
    decreases n, 0
  {
    var c, through := Call(s, namespaces, First(plan)), GetsThrough(Rest(plan), id, n - 1);
    StillPending(c, st, id, auto, pushed);
    PendingPushed(s, namespaces, Rest(plan), n - 1, Execute(c, st), id, auto, pushed);
    FateCarries(c, st, Executed(s, namespaces, Rest(plan), n - 1, Execute(c, st)), id, auto, through, pushed);
  }

  lemma FateCarries(c: Call, st: State, end: State, id: MirrorID, auto: bool, through: bool, pushed: Object)
    requires PendingAs(c.source, st, id, auto, pushed) && (c.faults.list || id in c.faults.sourceRead)
    requires FateIs(end, Execute(c, st), Key(c.source.kind, id), through, pushed)
    ensures FateIs(end, st, Key(c.source.kind, id), through, pushed)
  {
    ClusterAfter(c, st, Key(c.source.kind, id));
  }

  ghost predicate FateIs(end: State, st: State, k: Key, through: bool, pushed: Object) {
    Lookup(end.cluster, k) == if through then Some(pushed) else Lookup(st.cluster, k)
  }

  lemma PushedAtOnce(c: Call, plan: seq<Faults>, n: nat, st: State, id: MirrorID, auto: bool, pushed: Object)
    requires PendingAs(c.source, st, id, auto, pushed) && !c.faults.list && id !in c.faults.sourceRead
    ensures FateIs(Executed(c.source, c.namespaces, plan, n, Execute(c, st)), st, Key(c.source.kind, id),
                   id !in c.faults.targetRead && id !in c.faults.write, pushed)
  {
    NoLongerPending(c, st, id, auto, pushed);
    RecordedKept(c.source, c.namespaces, plan, n, Execute(c, st), Key(c.source.kind, id));
  }

  /** A place recorded at the source's version is not written again. */
  lemma {:induction false} RecordedKept(s: Source, namespaces: seq<string>, plan: seq<Faults>, n: nat, st: State,
                                        k: Key)
    requires RecordedAt(s, st, k.id)
    ensures Lookup(Executed(s, namespaces, plan, n, st).cluster, k) == Lookup(st.cluster, k)
    decreases n
  {
    if n != 0 {
      var c := Call(s, namespaces, First(plan));
      NotNow(s.id, s.version, Reflect(c), st, k);
      RecordedKept(s, namespaces, Rest(plan), n - 1, Execute(c, st), k);
    }
  }

  ghost predicate Executes(step: Step, s: Source) {
    step.Reflect? && step.call.source == s
  }

  lemma {:induction false} ExecutionsOnly(s: Source, namespaces: seq<string>, plan: seq<Faults>, n: nat)
    ensures forall step :: step in Executions(s, namespaces, plan, n) ==> Executes(step, s)
    decreases n
  {
    if n != 0 {
      ExecutionsOnly(s, namespaces, Rest(plan), n - 1);
    }
  }

  // ---- events and plain objects --------------------------------------------------------

  /** A source that may not push to a place, or has nothing to push, leaves the object there alone. */
  lemma {:induction false} NotPendingKept(s: Source, namespaces: seq<string>, plan: seq<Faults>, n: nat, st: State,
                                          k: Key)
    requires !ValidSource(s) || UpToDate(st.cluster, k, s.version)
             || !(s.CanAutoMirrorToNamespace(k.id.ns) && s.CanReflectToNamespace(k.id.ns))
    ensures Lookup(Executed(s, namespaces, plan, n, st).cluster, k) == Lookup(st.cluster, k)
    decreases n
  {
    if n != 0 {
      var c := Call(s, namespaces, First(plan));
      ClusterAfter(c, st, k);
      NotPendingKept(s, namespaces, Rest(plan), n - 1, Execute(c, st), k);
    }
  }

  /** All the executions of an event, from the state in which its mirror has just been registered. */
  lemma RegisteredThenExecuted(s: Source, namespaces: seq<string>, plan: seq<Faults>, n: nat, st: State,
                               id: MirrorID, auto: bool)
    requires Lookup(st.store, id) == Some(Entry(s.id, s.kind, "", auto)) && s.Place() in st.cluster
    ensures var k := Key(s.kind, id);
            Lookup(Executed(s, namespaces, plan, n, st).cluster, k)
            == if Pending(s, st, id, auto) && GetsThrough(plan, id, n)
               then Some(PushedObject(s, st.cluster, id, auto)) else Lookup(st.cluster, k)
  {
    var k := Key(s.kind, id);
    if Pending(s, st, id, auto) {
      PendingPushed(s, namespaces, plan, n, st, id, auto, PushedObject(s, st.cluster, id, auto));
    } else if s.version == "" && s.CanAutoMirrorToNamespace(id.ns) {
      RecordedKept(s, namespaces, plan, n, st, k);
    } else {
      NotPendingKept(s, namespaces, plan, n, st, k);
    }
  }

  /** How often an event that finds mirror `o` and source `s` executes the source. */
  function ExecutionCount(ev: Event, st: State, o: Object, s: Source): nat {
    |OwnedBy(Apply(Register(ev.id, s.id, s.kind, MarkedAuto(o)), st).store, s.id)|
  }

  /** The event makes the engine overwrite the ConfigMap at the mirror's place: the mirror is a Secret
      whose source is a ConfigMap, and the push to the place goes through. */
  ghost predicate Clobbers(ev: Event, st: State) {
    var mirror := EventMirror(ev, st.cluster);
    && mirror.Some?
    && var source := EventSource(ev, st.cluster, OwnerOf(mirror.value));
    && source.Fetched? && source.s.kind == ConfigMap && ValidSource(source.s) && ev.version != ""
    && source.s.CanAutoMirrorToNamespace(ev.id.ns) && source.s.CanReflectToNamespace(ev.id.ns)
    && !UpToDate(st.cluster, Key(ConfigMap, ev.id), ev.version)
    && GetsThrough(ev.plan, ev.id, ExecutionCount(ev, st, mirror.value, source.s))
  }

  /** A mirror event registers the kind of the source it finds, not of the object it is about. So plain
      objects are not safe from events, and this is exactly when one changes. */
  lemma EventClobbersExactly(ev: Event, st: State, k: Key)
    requires Foreign(st, k)
    ensures Lookup(Run(MirrorEventSteps(ev, st), st).cluster, k) != Lookup(st.cluster, k)
            <==> k == Key(ConfigMap, ev.id) && Clobbers(ev, st)
  {
    var mirror := EventMirror(ev, st.cluster);
    if mirror.Some? {
      var source := EventSource(ev, st.cluster, OwnerOf(mirror.value));
      if source.Fetched? && k == Key(source.s.kind, ev.id) {
        EventAtPlace(ev, st, mirror.value, source.s);
      } else {
        EventLeavesAlone(ev, st, k);
        NoClobbering(MirrorEventSteps(ev, st), st, k);
      }
    }
  }

  lemma EventLeavesAlone(ev: Event, st: State, k: Key)
    requires Foreign(st, k) && EventMirror(ev, st.cluster).Some?
    requires var source := EventSource(ev, st.cluster, OwnerOf(EventMirror(ev, st.cluster).value));
             source.Fetched? ==> k != Key(source.s.kind, ev.id)
    ensures var steps := MirrorEventSteps(ev, st); forall i :: 0 <= i < |steps| ==> LeavesAlone(steps[i], k)
  {
    var o := EventMirror(ev, st.cluster).value;
    var source := EventSource(ev, st.cluster, OwnerOf(o));
    if source.Fetched? {
      var s, n := source.s, ExecutionCount(ev, st, o, source.s);
      ExecutionsOnly(s, ev.namespaces, ev.plan, n);
      var steps := MirrorEventSteps(ev, st);
      assert steps == [Register(ev.id, s.id, s.kind, MarkedAuto(o))] + Executions(s, ev.namespaces, ev.plan, n);
      forall i | 0 <= i < |steps| ensures LeavesAlone(steps[i], k) {
        assert steps[i] in steps;
      }
    }
  }

  lemma EventAtPlace(ev: Event, st: State, o: Object, s: Source)
    requires EventMirror(ev, st.cluster) == Some(o) && EventSource(ev, st.cluster, OwnerOf(o)) == Fetched(s)
    ensures var k := Key(s.kind, ev.id);
            Lookup(Run(MirrorEventSteps(ev, st), st).cluster, k)
            == if Pending(s, Apply(Register(ev.id, s.id, s.kind, MarkedAuto(o)), st), ev.id, MarkedAuto(o))
                  && GetsThrough(ev.plan, ev.id, ExecutionCount(ev, st, o, s))
               then Some(PushedObject(s, st.cluster, ev.id, MarkedAuto(o))) else Lookup(st.cluster, k)
  {
    var register, n := Register(ev.id, s.id, s.kind, MarkedAuto(o)), ExecutionCount(ev, st, o, s);
    RunCons(register, Executions(s, ev.namespaces, ev.plan, n), st);
    ExecutedIsRun(s, ev.namespaces, ev.plan, n, Apply(register, st));
    RegisteredThenExecuted(s, ev.namespaces, ev.plan, n, Apply(register, st), ev.id, MarkedAuto(o));
  }

  /** What such an object then holds: the data of the ConfigMap source, under mirror annotations. */
  lemma MirrorEventClobbersOtherKind(ev: Event, st: State)
    requires Clobbers(ev, st)
    ensures var o := EventMirror(ev, st.cluster).value; var s := EventSource(ev, st.cluster, OwnerOf(o)).s;
            var k := Key(ConfigMap, ev.id); var st' := Run(MirrorEventSteps(ev, st), st);
            k in st'.cluster && Holds(ConfigMap, st'.cluster[k], PayloadOf(ConfigMap, st.cluster[s.Place()]))
            && st'.cluster[k].annotations == MirrorAnnotations(s.id, ev.version, MarkedAuto(o))
  {
    var o := EventMirror(ev, st.cluster).value;
    EventAtPlace(ev, st, o, EventSource(ev, st.cluster, OwnerOf(o)).s);
  }

  // ---- recovery after a restart --------------------------------------------------------

  /** The annotations the engine writes name the owner and the auto flag of the entry, so a mirror
      event can read both back from the object, for a source whose name has no slash. */
  lemma WrittenMirrorNamesOwner(c: Call, st: State, k: Key)
    requires Writes(c, st, k) && '/' !in c.source.id.name
    ensures k in Execute(c, st).cluster && k.id in Execute(c, st).store
    ensures var o, e := Execute(c, st).cluster[k], Execute(c, st).store[k.id];
            IsManaged(o) && OwnerOf(o) == e.source == c.source.id && MarkedAuto(o) == e.auto
  {
    ClusterAfter(c, st, k);
    StoreAfter(c, st, k.id);
    SplitInvertsString(c.source.id);
  }

  /** The mirror's entry comes back: the event finds the mirror, and its source announces nothing but the
      mirror is marked auto, or it is announced and the execution does not drop the entry. */
  ghost predicate Restores(ev: Event, cluster: Cluster) {
    match EventMirror(ev, cluster)
    case None => false
    case Some(o) =>
      match EventSource(ev, cluster, OwnerOf(o))
      case Absent => false
      case NotASource => MarkedAuto(o)
      case Fetched(s) =>
        OutcomeOf(Call(s, ev.namespaces, First(ev.plan))) == Done ==> s.CanAutoMirrorToNamespace(ev.id.ns)
  }

  /** After a restart the store is empty. Exactly when an event puts the entry of its mirror back, and the
      owner, kind and flag it gets. */
  lemma RestoredExactlyWhen(ev: Event, cluster: Cluster)
    ensures var restarted := State(map[], cluster); var st := Run(MirrorEventSteps(ev, restarted), restarted);
            && (ev.id in st.store <==> Restores(ev, cluster))
            && (ev.id in st.store ==>
                  var o := EventMirror(ev, cluster).value; var source := EventSource(ev, cluster, OwnerOf(o));
                  st.store[ev.id] == Entry(OwnerOf(o), if source.Fetched? then source.s.kind else Secret,
                                           st.store[ev.id].version, MarkedAuto(o)))
  {
    var restarted := State(map[], cluster);
    var mirror := EventMirror(ev, cluster);
    if mirror.Some? {
      var owner, auto := OwnerOf(mirror.value), MarkedAuto(mirror.value);
      match EventSource(ev, cluster, owner) {
        case Absent =>
        case NotASource =>
          RunOne(Register(ev.id, owner, Secret, true), restarted);
          RunOne(Unregister(ev.id), restarted);
        case Fetched(s) =>
          FirstEvent(ev, cluster, mirror.value, s);
          AloneInStore(Call(s, ev.namespaces, First(ev.plan)), cluster, ev.id, auto);
      }
    }
  }

  /** With nothing else in the store the source is executed once. */
  lemma FirstEvent(ev: Event, cluster: Cluster, o: Object, s: Source)
    requires EventMirror(ev, cluster) == Some(o) && EventSource(ev, cluster, OwnerOf(o)) == Fetched(s)
    ensures var restarted, e := State(map[], cluster), Entry(s.id, s.kind, "", MarkedAuto(o));
            Run(MirrorEventSteps(ev, restarted), restarted)
            == Execute(Call(s, ev.namespaces, First(ev.plan)), State(map[ev.id := e], cluster))
  {
    var register, c := Register(ev.id, s.id, s.kind, MarkedAuto(o)), Call(s, ev.namespaces, First(ev.plan));
    var restarted := State(map[], cluster);
    var st := Apply(register, restarted);
    assert OwnedBy(st.store, s.id) == {ev.id};
    assert Executions(s, ev.namespaces, ev.plan, 1) == [Reflect(c)];
    assert MirrorEventSteps(ev, restarted) == [register] + [Reflect(c)];
    RunTwo(register, Reflect(c), restarted);
  }

  lemma AloneInStore(c: Call, cluster: Cluster, id: MirrorID, auto: bool)
    ensures var st := Execute(c, State(map[id := Entry(c.source.id, c.source.kind, "", auto)], cluster));
            && (id in st.store <==> (OutcomeOf(c) == Done ==> c.source.CanAutoMirrorToNamespace(id.ns)))
            && (id in st.store ==> st.store[id] == Entry(c.source.id, c.source.kind, st.store[id].version, auto))
  {
    StoreAfter(c, State(map[id := Entry(c.source.id, c.source.kind, "", auto)], cluster), id);
  }

  /** A Secret mirror pushed by a rule, whose source announces nothing itself: its event puts the entry
      back, owner, kind and flag, and touches no object. */
  lemma RestartRestoresRuleMirror(c: Call, st: State, k: Key, ev: Event)
    requires Writes(c, st, k) && '/' !in c.source.id.name
    requires k.kind == Secret && Execute(c, st).store[k.id].auto
    requires !IsHelm(Secret, Execute(c, st).cluster[k])
    requires ev.id == k.id && !ev.mirrorReadFails
    requires EventSource(ev, Execute(c, st).cluster, c.source.id) == NotASource
    ensures var ran := Execute(c, st); var restarted := State(map[], ran.cluster);
            Run(MirrorEventSteps(ev, restarted), restarted)
            == State(map[k.id := ran.store[k.id].(version := "")], ran.cluster)
  {
    WrittenMirrorNamesOwner(c, st, k);
    StoreAfter(c, st, k.id);
    var restarted := State(map[], Execute(c, st).cluster);
    assert MirrorEventSteps(ev, restarted) == [Register(k.id, c.source.id, Secret, true)];
    RunOne(Register(k.id, c.source.id, Secret, true), restarted);
  }

  /** A ConfigMap mirror is not put back by its event, unless a Secret mirror shares its place. */
  lemma ConfigMapMirrorNotRestored(ev: Event, cluster: Cluster)
    requires FetchMirror(cluster, ev.id) == None
    ensures var restarted := State(map[], cluster);
            ev.id !in Run(MirrorEventSteps(ev, restarted), restarted).store
  {
    RestoredExactlyWhen(ev, cluster);
  }

  // ---- removals ------------------------------------------------------------------------

  /** A deleted source: its entries go, its mirrors stay (cluster deletions are no-ops). */
  method SourceDeletion(engine: ReflectResources, source: SourceID)
    requires engine.store.Valid()
    modifies engine.store
    ensures engine.store.Valid()
    ensures engine.Current() == Apply(SourceDeleted(source), old(engine.Current()))
  {
    HandleSourceDeletion(engine.store, source);
  }

  /** A deleted namespace: exactly its cache keys and its auto-created entries go. */
  method HandleNamespaceDeletion(engine: ReflectResources, cache: MirrorCache, ns: string)
    requires engine.store.Valid()
    modifies engine.store, cache
    ensures engine.store.Valid()
    ensures engine.Current() == Apply(NamespaceDeleted(ns), old(engine.Current()))
    ensures forall id: MirrorID :: '/' !in id.name ==>
              (id.String() in cache.records <==> id.String() in old(cache.records) && id.ns != ns)
  {
    var deleted := cache.DeleteByNamespace(ns);
    forall id: MirrorID | '/' !in id.name
      ensures id.String() in cache.records <==> id.String() in old(cache.records) && id.ns != ns
    {
      KeyNamespace(id, ns);
    }
    UnregisterAutoIn(engine.store, ns);
  }
}
