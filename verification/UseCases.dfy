/** The engine as it runs: loops over namespaces and mirrors that change the store and the cluster
    in place. Each method is proved against the place-by-place description in `Engine`. */
module UseCases {
  import opened Identifiers
  import opened ConfigMapData
  import opened Entities
  import opened Engine

  // ---- the mirror store ----------------------------------------------------------------

  class MirrorStore {
    var mirrors: map<MirrorID, Mirror>

    constructor ()
      ensures Valid() && mirrors == map[]
    {
      mirrors := map[];
    }

    /** Every mirror is stored under its own identifier, so no two entries share one. */
    ghost predicate Valid()
      reads this
    {
      forall id :: id in mirrors ==> mirrors[id].id == id
    }

    ghost function View(): Store
      reads this, mirrors.Values
    {
      map id | id in mirrors :: mirrors[id].View()
    }

    method Get(id: MirrorID) returns (m: Mirror?)
      ensures m == null <==> id !in mirrors
      ensures m != null ==> m == mirrors[id]
    {
      m := if id in mirrors then mirrors[id] else null;
    }

    /** The mirrors of a source, each once, in whatever order the map is walked. */
    method GetBySourceID(source: SourceID) returns (result: seq<Mirror>)
      requires Valid()
      ensures forall i :: 0 <= i < |result| ==>
                var id := result[i].id; id in mirrors && mirrors[id] == result[i] && result[i].sourceID == source
      ensures forall i, j :: 0 <= i < j < |result| ==> result[i].id != result[j].id
      ensures forall id :: id in mirrors && mirrors[id].sourceID == source ==> mirrors[id] in result
    {
      result := [];
      var left := mirrors.Keys;
      while left != {}
        invariant left <= mirrors.Keys
        invariant forall i :: 0 <= i < |result| ==>
                    var id := result[i].id;
                    id in mirrors && id !in left && mirrors[id] == result[i] && result[i].sourceID == source
        invariant forall i, j :: 0 <= i < j < |result| ==> result[i].id != result[j].id
        invariant forall id :: id in mirrors && id !in left && mirrors[id].sourceID == source ==> mirrors[id] in result
        decreases |left|
      {
        var id :| id in left;
        if mirrors[id].sourceID == source {
          result := result + [mirrors[id]];
        }
        left := left - {id};
      }
    }

    method ListByNamespace(ns: string) returns (result: seq<Mirror>)
      requires Valid()
      ensures forall i :: 0 <= i < |result| ==>
                var id := result[i].id; id in mirrors && mirrors[id] == result[i] && id.ns == ns
      ensures forall id :: id in mirrors && id.ns == ns ==> mirrors[id] in result
    {
      result := [];
      var left := mirrors.Keys;
      while left != {}
        invariant left <= mirrors.Keys
        invariant forall i :: 0 <= i < |result| ==>
                    var id := result[i].id; id in mirrors && id !in left && mirrors[id] == result[i] && id.ns == ns
        invariant forall id :: id in mirrors && id !in left && id.ns == ns ==> mirrors[id] in result
        decreases |left|
      {
        var id :| id in left;
        if mirrors[id].id.ns == ns {
          result := result + [mirrors[id]];
        }
        left := left - {id};
      }
    }

    /** `Create`, `Update` and `RegisterMirror` of the source: the entry of that place is replaced. */
    method Register(m: Mirror)
      requires Valid()
      modifies this
      ensures Valid() && mirrors == old(mirrors)[m.id := m]
    {
      mirrors := mirrors[m.id := m];
    }

    /** `Delete` and `UnregisterMirror`. */
    method Unregister(id: MirrorID)
      requires Valid()
      modifies this
      ensures Valid() && mirrors == old(mirrors) - {id}
    {
      mirrors := mirrors - {id};
    }
  }

  /** Puts a new mirror in the store. Its version is empty. */
  method RegisterNew(store: MirrorStore, id: MirrorID, owner: SourceID, kind: Kind, auto: bool)
    requires store.Valid()
    modifies store
    ensures store.Valid() && fresh(store.mirrors.Values - old(store.mirrors.Values))
    ensures store.View() == old(store.View())[id := Entry(owner, kind, "", auto)]
    ensures id in store.mirrors && store.mirrors[id].sourceID == owner
  {
    var m := new Mirror(id, owner, kind);
    m.SetAutoCreated(auto);
    store.Register(m);
  }

  /** Removes every entry of a source. */
  method HandleSourceDeletion(store: MirrorStore, source: SourceID)
    requires store.Valid()
    modifies store
    ensures store.Valid()
    ensures store.View() ==
            map id | id in old(store.View()) && old(store.View())[id].source != source :: old(store.View())[id]
  {
    ghost var view, before := store.View(), store.mirrors;
    var mirrors := store.GetBySourceID(source);
    ghost var drop := set id | id in before && before[id].sourceID == source;
    ghost var gone: set<MirrorID> := {};
    for i := 0 to |mirrors|
      invariant store.Valid() && store.mirrors == before - gone && gone <= drop
      invariant forall j :: 0 <= j < i ==> mirrors[j].id in gone
    {
      store.Unregister(mirrors[i].id);
      gone := gone + {mirrors[i].id};
    }
    forall id | id in drop ensures id in gone {
      assert before[id] in mirrors;
    }
    ViewWithout(store, before, drop, view);
  }

  /** Removes the auto-created entries of a namespace. */
  method UnregisterAutoIn(store: MirrorStore, ns: string)
    requires store.Valid()
    modifies store
    ensures store.Valid()
    ensures store.View() ==
            map id | id in old(store.View()) && !(id.ns == ns && old(store.View())[id].auto) :: old(store.View())[id]
  {
    ghost var view, before := store.View(), store.mirrors;
    var mirrors := store.ListByNamespace(ns);
    ghost var drop := set id | id in before && id.ns == ns && before[id].autoCreated;
    UnregisterAuto(store, mirrors, drop);
    ViewWithout(store, before, drop, view);
  }

  /** The loop: the auto-created among the mirrors listed are removed. */
  method UnregisterAuto(store: MirrorStore, mirrors: seq<Mirror>, ghost drop: set<MirrorID>)
    requires store.Valid()
    requires forall j :: 0 <= j < |mirrors| ==> (mirrors[j].autoCreated <==> mirrors[j].id in drop)
    requires forall id :: id in drop ==> id in store.mirrors && store.mirrors[id] in mirrors
    modifies store
    ensures store.Valid() && store.mirrors == old(store.mirrors) - drop
  {
    ghost var before, gone: set<MirrorID> := store.mirrors, {};
    for i := 0 to |mirrors|
      invariant store.Valid() && store.mirrors == before - gone && gone <= drop
      invariant forall j :: 0 <= j < i && mirrors[j].id in drop ==> mirrors[j].id in gone
    {
      if mirrors[i].autoCreated {
        store.Unregister(mirrors[i].id);
        gone := gone + {mirrors[i].id};
      }
    }
    forall id | id in drop ensures id in gone {
      assert before[id] in mirrors;
    }
    assert gone == drop;
  }

  /** Removing identifiers from the store removes them from its view. */
  lemma ViewWithout(store: MirrorStore, before: map<MirrorID, Mirror>, drop: set<MirrorID>, view: Store)
    requires store.mirrors == before - drop
    requires view.Keys == before.Keys && forall id :: id in before ==> view[id] == before[id].View()
    ensures store.View() == view - drop
  {
  }

  // ---- the cluster ---------------------------------------------------------------------

  datatype ReadResult = Found(o: Object) | NotFound | ReadFailed

  class ClusterClient {
    var objects: Cluster

    constructor (objects: Cluster)
      ensures this.objects == objects
    {
      this.objects := objects;
    }

    method Get(k: Key, fails: bool) returns (r: ReadResult)
      ensures r == if fails then ReadFailed else if k in objects then Found(objects[k]) else NotFound
    {
      r := if fails then ReadFailed else if k in objects then Found(objects[k]) else NotFound;
    }

    method Create(k: Key, o: Object, fails: bool) returns (ok: bool)
      modifies this
      ensures ok == (!fails && k !in old(objects))
      ensures objects == if ok then old(objects)[k := o] else old(objects)
    {
      ok := !fails && k !in objects;
      if ok {
        objects := objects[k := o];
      }
    }

    method Update(k: Key, o: Object, fails: bool) returns (ok: bool)
      modifies this
      ensures ok == (!fails && k in old(objects))
      ensures objects == if ok then old(objects)[k := o] else old(objects)
    {
      ok := !fails && k in objects;
      if ok {
        objects := objects[k := o];
      }
    }
  }

  // ---- the reflection service ----------------------------------------------------------

  datatype ReflectResult = Reflected | SourceNotAllowed | NamespaceNotAllowed | NoUpdateNeeded

  /** The policy and version gate. It records the version before anything is written. */
  method Gate(s: Source, m: Mirror) returns (r: ReflectResult)
    modifies m`version
    ensures r == Reflected <==> s.CanReflectToNamespace(m.id.ns) && old(m.version) != s.version
    ensures m.View() == if r == Reflected then old(m.View()).(version := s.version) else old(m.View())
  {
    if !s.allowed {
      return SourceNotAllowed;
    }
    if !s.CanReflectToNamespace(m.id.ns) {
      return NamespaceNotAllowed;
    }
    if m.version == s.version {
      return NoUpdateNeeded;
    }
    m.SetVersion(s.version);
    return Reflected;
  }

  // ---- executing a source --------------------------------------------------------------

  class ReflectResources {
    const store: MirrorStore
    const cluster: ClusterClient

    constructor (store: MirrorStore, cluster: ClusterClient)
      ensures this.store == store && this.cluster == cluster
    {
      this.store, this.cluster := store, cluster;
    }

    ghost function Current(): State
      reads store, store.mirrors.Values, cluster
    {
      State(store.View(), cluster.objects)
    }

    /** Whether an object stands in the way at the target. A failed read counts as one. */
    method CheckForConflicts(c: Call, id: MirrorID) returns (conflict: bool)
      ensures conflict <==> id in c.faults.conflictRead || Conflict(c.source, cluster.objects, id)
    {
      var r := cluster.Get(Key(c.source.kind, id), id in c.faults.conflictRead);
      match r {
        case Found(o) =>
          if IsHelm(c.source.kind, o) || o.annotations.Get(ReplicatedFrom) != "" {
            return false;
          }
          return true;
        case NotFound => return false;
        case ReadFailed => return true;
      }
    }

    method CreateAutoMirrorIfNotExists(c: Call, ns: string)
      requires store.Valid()
      modifies store
      ensures store.Valid()
      ensures var id := MirrorID(ns, c.source.TargetName());
              if id in old(store.mirrors) || id in c.faults.conflictRead || Conflict(c.source, cluster.objects, id)
              then store.mirrors == old(store.mirrors)
              else && id in store.mirrors && fresh(store.mirrors[id])
                   && store.mirrors == old(store.mirrors)[id := store.mirrors[id]]
                   && store.mirrors[id].View() == NewEntry(c.source)
    {
      var id := MirrorID(ns, c.source.TargetName());
      var found := store.Get(id);
      if found != null {
        return;
      }
      var conflict := CheckForConflicts(c, id);
      if conflict {
        return;
      }
      var m := new Mirror(id, c.source.id, c.source.kind);
      m.SetAutoCreated(true);
      store.Register(m);
    }

    /** Registers a mirror in every accepted namespace that is free. */
    method HandleAutoMirrors(c: Call) returns (ok: bool)
      requires store.Valid()
      modifies store
      ensures ok == !c.faults.list
      ensures store.Valid()
      ensures fresh(store.mirrors.Values - old(store.mirrors.Values))
      ensures !ok ==> store.mirrors == old(store.mirrors)
      ensures ok ==> forall id :: Lookup(store.View(), id) == Registered(c, old(Current()), id)
    {
      if c.faults.list {
        return false;
      }
      ghost var st := Current();
      for i := 0 to |c.namespaces|
        invariant store.Valid()
        invariant fresh(store.mirrors.Values - old(store.mirrors.Values))
        invariant RegisteredUpTo(c, st, store.View(), i)
      {
        var ns := c.namespaces[i];
        ghost var view := store.View();
        if ns == c.source.id.ns || !c.source.CanAutoMirrorToNamespace(ns) {
          RegisterNone(c, st, view, i);
          continue;
        }
        CreateAutoMirrorIfNotExists(c, ns);
        RegisterStep(c, st, view, store.View(), i);
      }
      assert c.(namespaces := c.namespaces[..|c.namespaces|]) == c;
      return true;
    }

    /** Drops the entries of a source: all of them, or those its policy no longer accepts. */
    method Cleanup(s: Source, all: bool)
      requires store.Valid()
      modifies store
      ensures store.Valid()
      ensures store.mirrors == map id | id in old(store.mirrors) &&
                !(old(store.mirrors)[id].sourceID == s.id && (all || !s.CanAutoMirrorToNamespace(id.ns)))
                :: old(store.mirrors)[id]
    {
      var mirrors := store.GetBySourceID(s.id);
      ghost var before, gone: set<MirrorID> := store.mirrors, {};
      for i := 0 to |mirrors|
        invariant store.Valid() && store.mirrors == before - gone
        invariant forall id :: id in gone ==>
                    id in before && before[id].sourceID == s.id && (all || !s.CanAutoMirrorToNamespace(id.ns))
        invariant forall j :: 0 <= j < i && (all || !s.CanAutoMirrorToNamespace(mirrors[j].id.ns)) ==>
                    mirrors[j].id in gone
      {
        if all || !s.CanAutoMirrorToNamespace(mirrors[i].id.ns) {
          store.Unregister(mirrors[i].id);
          gone := gone + {mirrors[i].id};
        }
      }
      forall id | id in before && before[id].sourceID == s.id && (all || !s.CanAutoMirrorToNamespace(id.ns))
        ensures id in gone
      {
        assert before[id] in mirrors;
      }
    }

    /** Writes the mirror's object unless it already carries the version. */
    method UpdateMirrorData(c: Call, m: Mirror, p: Payload) returns (ok: bool)
      modifies cluster
      ensures var k, s := Key(m.kind, m.id), c.source;
              cluster.objects ==
              if m.id in c.faults.targetRead || m.id in c.faults.write || UpToDate(old(cluster.objects), k, s.version)
              then old(cluster.objects)
              else old(cluster.objects)[k := Render(k.kind, Lookup(old(cluster.objects), k), p,
                                                    MirrorAnnotations(s.id, s.version, m.autoCreated))]
    {
      var annotations := MirrorAnnotations(c.source.id, c.source.version, m.autoCreated);
      var k := Key(m.kind, m.id);
      var r := cluster.Get(k, m.id in c.faults.targetRead);
      match r {
        case ReadFailed => return false;
        case NotFound =>
          var o := WrittenObject(k.kind, None, p, annotations);
          ok := cluster.Create(k, o, m.id in c.faults.write);
        case Found(found) =>
          if found.annotations.Annotations? && found.annotations.Get(ReplicatedVersion) == c.source.version {
            return true;
          }
          var o := WrittenObject(k.kind, Some(found), p, annotations);
          ok := cluster.Update(k, o, m.id in c.faults.write);
      }
    }

    static method WrittenObject(kind: Kind, found: Option<Object>, p: Payload, annotations: Annotations)
      returns (o: Object)
      ensures o == Render(kind, found, p, annotations)
    {
      var base := if found.Some? then found.value else Object(map[], map[], "", NilMap);
      match kind {
        case Secret => o := base.(data := p.data, stype := p.stype, annotations := annotations);
        case ConfigMap =>
          var text, binary := SplitParts(p.data);
          o := base.(data := text, binary := binary, annotations := annotations);
      }
    }

    static method ReadPayload(kind: Kind, o: Object) returns (p: Payload)
      ensures p == PayloadOf(kind, o)
    {
      match kind {
        case Secret => p := Payload(o.data, o.stype);
        case ConfigMap =>
          var flat := FlattenParts(o.data, o.binary);
          p := Payload(flat, "");
      }
    }

    /** Pushes the source to one mirror. */
    method ReflectToMirror(c: Call, m: Mirror) returns (ok: bool)
      modifies m`version, cluster
      ensures var s, k, cur := c.source, Key(m.kind, m.id), old(cluster.objects);
              var advances := && m.id !in c.faults.sourceRead && s.Place() in cur
                              && s.CanReflectToNamespace(m.id.ns) && old(m.version) != s.version;
              && m.View() == (if advances then old(m.View()).(version := s.version) else old(m.View()))
              && cluster.objects ==
                 if !advances || m.id in c.faults.targetRead || m.id in c.faults.write || UpToDate(cur, k, s.version)
                 then cur
                 else cur[k := Render(k.kind, Lookup(cur, k), PayloadOf(s.kind, cur[s.Place()]),
                                      MirrorAnnotations(s.id, s.version, old(m.autoCreated)))]
    {
      var r := cluster.Get(c.source.Place(), m.id in c.faults.sourceRead);
      if !r.Found? {
        return false;
      }
      var p := ReadPayload(c.source.kind, r.o);
      var gate := Gate(c.source, m);
      if gate != Reflected {
        return false;
      }
      ok := UpdateMirrorData(c, m, p);
    }

    /** One execution. The store and the cluster end up as described place by place, in whatever
        order the store hands out the mirrors. */
    method Execute(c: Call) returns (r: Outcome)
      requires store.Valid()
      modifies store, store.mirrors.Values, cluster
      ensures store.Valid() && fresh(store.mirrors.Values - old(store.mirrors.Values))
      ensures r == OutcomeOf(c)
      ensures Current() == Engine.Execute(c, old(Current()))
    {
      ghost var st := Current();
      if c.source.id.name == "" {
        ExecuteIs(c, st, st);
        return EmptyName;
      }
      if c.source.id.ns == "" {
        ExecuteIs(c, st, st);
        return EmptyNamespace;
      }
      if !c.source.allowed {
        Cleanup(c.source, true);
        forall id ensures Lookup(store.View(), id) == EntryAfter(c, st, id) {}
        ExecuteIs(c, st, Current());
        return Done;
      }
      if c.source.autoEnabled {
        var ok := HandleAutoMirrors(c);
        if !ok {
          ExecuteIs(c, st, Current());
          return ListFailed;
        }
      } else {
        forall id ensures Lookup(store.View(), id) == Registered(c, st, id) {}
      }
      Cleanup(c.source, false);
      forall id ensures Lookup(store.View(), id) == Kept(c, st, id) {}
      NothingPushed(c, st, Current());
      PushAll(c, st);
      return Done;
    }

    /** The last phase: pushes to every mirror the source still owns. */
    method PushAll(c: Call, ghost st: State)
      requires store.Valid() && OutcomeOf(c) == Done
      requires PartlyPushed(c, st, Current(), {})
      modifies store.mirrors.Values, cluster
      ensures store.Valid() && store.mirrors == old(store.mirrors)
      ensures Current() == Engine.Execute(c, st)
    {
      var mirrors := store.GetBySourceID(c.source.id);
      ghost var done := PushEach(c, mirrors, st);
      AllOwnedDone(mirrors, c.source.id, done);
      AllPushed(c, st, Current(), done);
    }

    /** The loop over the mirrors handed out. */
    method PushEach(c: Call, mirrors: seq<Mirror>, ghost st: State) returns (ghost done: set<MirrorID>)
      requires store.Valid() && OutcomeOf(c) == Done
      requires forall i :: 0 <= i < |mirrors| ==>
                 mirrors[i].id in store.mirrors && store.mirrors[mirrors[i].id] == mirrors[i]
                 && mirrors[i].sourceID == c.source.id
      requires forall i, j :: 0 <= i < j < |mirrors| ==> mirrors[i].id != mirrors[j].id
      requires PartlyPushed(c, st, Current(), {})
      modifies store.mirrors.Values, cluster
      ensures store.mirrors == old(store.mirrors)
      ensures PartlyPushed(c, st, Current(), done)
      ensures forall j :: 0 <= j < |mirrors| ==> mirrors[j].id in done
    {
      done := {};
      for i := 0 to |mirrors|
        invariant store.mirrors == old(store.mirrors)
        invariant forall j :: 0 <= j < i ==> mirrors[j].id in done
        invariant forall j :: i <= j < |mirrors| ==> mirrors[j].id !in done
        invariant PartlyPushed(c, st, Current(), done)
      {
        PushOne(c, mirrors[i], st, done);
        done := done + {mirrors[i].id};
      }
    }

    /** The mirrors handed out are all the source owns. */
    lemma AllOwnedDone(mirrors: seq<Mirror>, source: SourceID, done: set<MirrorID>)
      requires forall id :: id in store.mirrors && store.mirrors[id].sourceID == source ==> store.mirrors[id] in mirrors
      requires forall j :: 0 <= j < |mirrors| ==> mirrors[j].id in done
      requires store.Valid()
      ensures forall id :: id in Current().store && Current().store[id].source == source ==> id in done
    {
    }

    method PushOne(c: Call, m: Mirror, ghost st: State, ghost done: set<MirrorID>)
      requires store.Valid() && OutcomeOf(c) == Done
      requires m.id in store.mirrors && store.mirrors[m.id] == m && m.sourceID == c.source.id && m.id !in done
      requires PartlyPushed(c, st, Current(), done)
      modifies m, cluster
      ensures PartlyPushed(c, st, Current(), done + {m.id})
    {
      ghost var before := Current();
      assert before.store[m.id] == m.View();
      var ok := ReflectToMirror(c, m);
      forall id
        ensures Lookup(store.View(), id) == if id == m.id then Some(m.View()) else Lookup(before.store, id)
      {
      }
      PushStep(c, st, before, Current(), done, m.id);
    }
  }

  /** The view is what registration makes of the first `i` namespaces. */
  ghost predicate RegisteredUpTo(c: Call, st: State, view: Store, i: nat)
    requires i <= |c.namespaces|
  {
    forall id :: Lookup(view, id) == Registered(c.(namespaces := c.namespaces[..i]), st, id)
  }

  /** One namespace more is one candidate place more. */
  lemma CandidateStep(c: Call, i: nat, id: MirrorID)
    requires i < |c.namespaces|
    ensures Candidate(c.(namespaces := c.namespaces[..i + 1]), id) <==>
            || Candidate(c.(namespaces := c.namespaces[..i]), id)
            || (&& id == MirrorID(c.namespaces[i], c.source.TargetName()) && id.ns != c.source.id.ns
                && c.source.CanAutoMirrorToNamespace(id.ns))
  {
  }

  lemma RegisterNone(c: Call, st: State, view: Store, i: nat)
    requires i < |c.namespaces| && RegisteredUpTo(c, st, view, i)
    requires c.namespaces[i] == c.source.id.ns || !c.source.CanAutoMirrorToNamespace(c.namespaces[i])
    ensures RegisteredUpTo(c, st, view, i + 1)
  {
  }

  lemma RegisterStep(c: Call, st: State, view: Store, next: Store, i: nat)
    requires i < |c.namespaces| && RegisteredUpTo(c, st, view, i)
    requires c.namespaces[i] != c.source.id.ns && c.source.CanAutoMirrorToNamespace(c.namespaces[i])
    requires var id := MirrorID(c.namespaces[i], c.source.TargetName());
             forall x :: Lookup(next, x) ==
               if x != id || id in view || id in c.faults.conflictRead || Conflict(c.source, st.cluster, id)
               then Lookup(view, x) else Some(NewEntry(c.source))
    ensures RegisteredUpTo(c, st, next, i + 1)
  {
    forall id ensures Lookup(next, id) == Registered(c.(namespaces := c.namespaces[..i + 1]), st, id) {
      CandidateStep(c, i, id);
      assert Lookup(view, id) == Registered(c.(namespaces := c.namespaces[..i]), st, id);
    }
  }

  /** The places in `done` are as after the execution, the others as before the pushes. */
  ghost predicate PartlyPushed(c: Call, st: State, now: State, done: set<MirrorID>) {
    && (forall id :: Lookup(now.store, id) == if id in done then EntryAfter(c, st, id) else Kept(c, st, id))
    && (forall k :: Lookup(now.cluster, k) == if k.id in done then ObjectAfter(c, st, k) else Lookup(st.cluster, k))
  }

  lemma NothingPushed(c: Call, st: State, now: State)
    requires forall id :: Lookup(now.store, id) == Kept(c, st, id)
    requires now.cluster == st.cluster
    ensures PartlyPushed(c, st, now, {})
  {
  }


  /** One push takes one more place to its final state. */
  lemma PushStep(c: Call, st: State, now: State, next: State, done: set<MirrorID>, id: MirrorID)
    requires PartlyPushed(c, st, now, done) && OutcomeOf(c) == Done && id !in done
    requires id in now.store && now.store[id].source == c.source.id
    requires var s, e := c.source, now.store[id]; var k, cur := Key(e.kind, id), now.cluster;
             var advances := && id !in c.faults.sourceRead && s.Place() in cur
                             && s.CanReflectToNamespace(id.ns) && e.version != s.version;
             && (forall i :: Lookup(next.store, i) ==
                   if i != id then Lookup(now.store, i)
                   else if advances then Some(e.(version := s.version)) else Some(e))
             && next.cluster ==
                if !advances || id in c.faults.targetRead || id in c.faults.write || UpToDate(cur, k, s.version)
                then cur
                else cur[k := Render(k.kind, Lookup(cur, k), PayloadOf(s.kind, cur[s.Place()]),
                                     MirrorAnnotations(s.id, s.version, e.auto))]
    ensures PartlyPushed(c, st, next, done + {id})
  {
  }

  /** When every owned place has been pushed to, the execution is complete. */
  lemma AllPushed(c: Call, st: State, now: State, done: set<MirrorID>)
    requires PartlyPushed(c, st, now, done) && OutcomeOf(c) == Done
    requires forall id :: id in now.store && now.store[id].source == c.source.id ==> id in done
    ensures now == Execute(c, st)
  {
    forall id
      ensures Lookup(now.store, id) == EntryAfter(c, st, id)
      ensures id in done || !Advances(c, st, id)
    {
      assert Lookup(now.store, id) == if id in done then EntryAfter(c, st, id) else Kept(c, st, id);
    }
    forall k ensures Lookup(now.cluster, k) == ObjectAfter(c, st, k) {
      assert k.id in done || !Advances(c, st, k.id);
    }
    ExecuteIs(c, st, now);
  }
}
