/** Executions of sources that do not meet commute, and so a batch of them may run in any order. */
module Confluence {
  import opened Identifiers
  import opened Entities
  import opened Engine

  /** The places a call may change now: those its source owns, and the free ones it wants. */
  ghost predicate Acts(c: Call, st: State, id: MirrorID) {
    Owned(st, c.source, id) || (Candidate(c, id) && id !in st.store)
  }

  /** No place the other wants is given up. */
  ghost predicate KeepsFrom(c: Call, other: Call, st: State) {
    forall id :: Owned(st, c.source, id) && Candidate(other, id) ==> c.source.CanAutoMirrorToNamespace(id.ns)
  }

  /** Different sources that change no place in common and not each other's object. One may want what the
      other owns, as long as the other keeps it. */
  ghost predicate Independent(a: Call, b: Call, st: State) {
    && a.source.id != b.source.id
    && (forall id :: !(Acts(a, st, id) && Acts(b, st, id)))
    && !Acts(b, st, a.source.Place().id)
    && !Acts(a, st, b.source.Place().id)
    && KeepsFrom(a, b, st) && KeepsFrom(b, a, st)
  }

  /** Two states look the same to a call at a place: same entry there, same objects there, and the
      source reads the same. */
  ghost predicate SameView(c: Call, st: State, st': State, id: MirrorID) {
    && Lookup(st.store, id) == Lookup(st'.store, id)
    && (forall kind :: Lookup(st.cluster, Key(kind, id)) == Lookup(st'.cluster, Key(kind, id)))
    && Lookup(st.cluster, c.source.Place()) == Lookup(st'.cluster, c.source.Place())
  }

  /** Execution is local: what becomes of a place depends on that place and the source only. */
  lemma Locality(c: Call, st: State, st': State, id: MirrorID)
    requires SameView(c, st, st', id)
    ensures EntryAfter(c, st, id) == EntryAfter(c, st', id)
    ensures forall kind :: ObjectAfter(c, st, Key(kind, id)) == ObjectAfter(c, st', Key(kind, id))
  {
  }

  /** A place the call does not act on stays as it is. */
  lemma Untouched(c: Call, st: State, id: MirrorID)
    requires !Acts(c, st, id)
    ensures EntryAfter(c, st, id) == Lookup(st.store, id)
    ensures forall kind :: ObjectAfter(c, st, Key(kind, id)) == Lookup(st.cluster, Key(kind, id))
  {
  }

  lemma ActsAfterOther(a: Call, b: Call, st: State, id: MirrorID)
    requires Independent(a, b, st)
    ensures Acts(a, Execute(b, st), id) <==> Acts(a, st, id)
  {
    StoreAfter(b, st, id);
  }

  lemma ActsAfterSelf(a: Call, st: State, id: MirrorID)
    ensures Acts(a, Execute(a, st), id) ==> Acts(a, st, id)
  {
    StoreAfter(a, st, id);
  }

  lemma KeepsFromAfter(a: Call, b: Call, c: Call, st: State)
    requires KeepsFrom(a, b, st) && (c == a || c.source.id != a.source.id)
    ensures KeepsFrom(a, b, Execute(c, st))
  {
    forall id | Owned(Execute(c, st), a.source, id) && Candidate(b, id)
      ensures a.source.CanAutoMirrorToNamespace(id.ns)
    {
      StoreAfter(c, st, id);
    }
  }

  /** What `a` makes of a place is the same before and after an independent `b`... */
  lemma AfterIndependent(a: Call, b: Call, st: State, id: MirrorID)
    requires Independent(a, b, st) && !Acts(b, st, id)
    ensures EntryAfter(a, Execute(b, st), id) == EntryAfter(a, st, id)
    ensures forall kind :: ObjectAfter(a, Execute(b, st), Key(kind, id)) == ObjectAfter(a, st, Key(kind, id))
  {
    var st' := Execute(b, st);
    var home := a.source.Place();
    Untouched(b, st, id);
    Untouched(b, st, home.id);
    StoreAfter(b, st, id);
    ClusterAfter(b, st, home);
    forall kind
      ensures Lookup(st.cluster, Key(kind, id)) == Lookup(st'.cluster, Key(kind, id))
    {
      ClusterAfter(b, st, Key(kind, id));
    }
    assert Key(home.kind, home.id) == home;
    Locality(a, st', st, id);
  }

  /** ... and where `b` acts, `a` does nothing, before or after. */
  lemma PlaceAfterBoth(a: Call, b: Call, st: State, id: MirrorID)
    requires Independent(a, b, st) && !Acts(b, st, id)
    ensures EntryAfter(a, Execute(b, st), id) == EntryAfter(b, Execute(a, st), id)
    ensures forall kind ::
              ObjectAfter(a, Execute(b, st), Key(kind, id)) == ObjectAfter(b, Execute(a, st), Key(kind, id))
  {
    AfterIndependent(a, b, st, id);
    IndependentSymmetric(a, b, st);
    ActsAfterOther(b, a, st, id);
    Untouched(b, Execute(a, st), id);
    StoreAfter(a, st, id);
    forall kind
      ensures ObjectAfter(a, Execute(b, st), Key(kind, id)) == ObjectAfter(b, Execute(a, st), Key(kind, id))
    {
      ClusterAfter(a, st, Key(kind, id));
    }
  }

  lemma IndependentSymmetric(a: Call, b: Call, st: State)
    requires Independent(a, b, st)
    ensures Independent(b, a, st)
  {
  }

  lemma PlaceCommutes(a: Call, b: Call, st: State, id: MirrorID, kind: Kind)
    requires Independent(a, b, st)
    ensures Lookup(Execute(a, Execute(b, st)).store, id) == Lookup(Execute(b, Execute(a, st)).store, id)
    ensures Lookup(Execute(a, Execute(b, st)).cluster, Key(kind, id))
         == Lookup(Execute(b, Execute(a, st)).cluster, Key(kind, id))
  {
    if Acts(b, st, id) {
      IndependentSymmetric(a, b, st);
      PlaceAfterBoth(b, a, st, id);
    } else {
      PlaceAfterBoth(a, b, st, id);
    }
    StoreAfter(a, Execute(b, st), id);
    StoreAfter(b, Execute(a, st), id);
    ClusterAfter(a, Execute(b, st), Key(kind, id));
    ClusterAfter(b, Execute(a, st), Key(kind, id));
  }

  /** Independent executions commute, whatever calls fail in either. */
  lemma Commute(a: Call, b: Call, st: State)
    requires Independent(a, b, st)
    ensures Execute(a, Execute(b, st)) == Execute(b, Execute(a, st))
  {
    var ab, ba := Execute(a, Execute(b, st)), Execute(b, Execute(a, st));
    forall id ensures Lookup(ab.store, id) == Lookup(ba.store, id) {
      PlaceCommutes(a, b, st, id, Secret);
    }
    forall k: Key ensures Lookup(ab.cluster, k) == Lookup(ba.cluster, k) {
      PlaceCommutes(a, b, st, k.id, k.kind);
    }
    StateIs(ab, ba);
  }

  // ---- batches -------------------------------------------------------------------------

  function ExecuteAll(calls: seq<Call>, st: State): State
    decreases |calls|
  {
    if calls == [] then st else ExecuteAll(calls[1..], Execute(calls[0], st))
  }

  ghost predicate PairwiseIndependent(calls: seq<Call>, st: State) {
    forall i, j :: 0 <= i < |calls| && 0 <= j < |calls| && i != j ==> Independent(calls[i], calls[j], st)
  }

  /** Independence of two calls survives the execution of one of them or of a third. */
  lemma IndependenceKept(a: Call, b: Call, c: Call, st: State)
    requires Independent(a, b, st)
    requires c == a || Independent(a, c, st)
    requires c == b || Independent(b, c, st)
    ensures Independent(a, b, Execute(c, st))
  {
    forall id
      ensures Acts(a, Execute(c, st), id) ==> Acts(a, st, id)
      ensures Acts(b, Execute(c, st), id) ==> Acts(b, st, id)
    {
      if c == a {
        ActsAfterSelf(a, st, id);
      } else {
        ActsAfterOther(a, c, st, id);
      }
      if c == b {
        ActsAfterSelf(b, st, id);
      } else {
        ActsAfterOther(b, c, st, id);
      }
    }
    KeepsFromAfter(a, b, c, st);
    KeepsFromAfter(b, a, c, st);
  }

  lemma ExecuteCons(x: Call, rest: seq<Call>, st: State)
    ensures ExecuteAll([x] + rest, st) == ExecuteAll(rest, Execute(x, st))
  {
  }

  function Without(calls: seq<Call>, i: nat): seq<Call>
    requires i < |calls|
  {
    calls[..i] + calls[i + 1..]
  }

  lemma WithoutTail(calls: seq<Call>, i: nat)
    requires 0 < i < |calls|
    ensures [calls[0]] + Without(calls[1..], i - 1) == Without(calls, i)
    ensures calls[1..][i - 1] == calls[i]
  {
  }

  /** A call of the batch can be brought to the front. */
  lemma {:induction false} BringToFront(calls: seq<Call>, i: nat, st: State)
    requires i < |calls| && PairwiseIndependent(calls, st)
    ensures ExecuteAll(calls, st) == ExecuteAll(Without(calls, i), Execute(calls[i], st))
    decreases |calls|
  {
    if i == 0 {
      assert Without(calls, 0) == calls[1..];
    } else {
      var x, y, rest := calls[0], calls[i], calls[1..];
      PairwiseWithout(calls, 0, st);
      assert Without(calls, 0) == rest;
      BringToFront(rest, i - 1, Execute(x, st));
      WithoutTail(calls, i);
      Commute(y, x, st);
      ExecuteCons(x, Without(rest, i - 1), Execute(y, st));
    }
  }

  /** Any two calls other than `i` stay independent when `i` is executed. */
  lemma IndependentAfter(calls: seq<Call>, i: nat, m: nat, n: nat, st: State)
    requires i < |calls| && m < |calls| && n < |calls| && m != n && m != i && n != i
    requires PairwiseIndependent(calls, st)
    ensures Independent(calls[m], calls[n], Execute(calls[i], st))
  {
    assert Independent(calls[m], calls[n], st);
    assert Independent(calls[m], calls[i], st) && Independent(calls[n], calls[i], st);
    IndependenceKept(calls[m], calls[n], calls[i], st);
  }

  lemma WithoutAt(calls: seq<Call>, i: nat, m: nat)
    requires i < |calls| && m < |calls| - 1
    ensures Without(calls, i)[m] == calls[if m < i then m else m + 1]
  {
  }

  lemma PairwiseWithout(calls: seq<Call>, i: nat, st: State)
    requires i < |calls| && PairwiseIndependent(calls, st)
    ensures PairwiseIndependent(Without(calls, i), Execute(calls[i], st))
  {
    var others := Without(calls, i);
    forall m, n | 0 <= m < |others| && 0 <= n < |others| && m != n
      ensures Independent(others[m], others[n], Execute(calls[i], st))
    {
      var m', n' := if m < i then m else m + 1, if n < i then n else n + 1;
      WithoutAt(calls, i, m);
      WithoutAt(calls, i, n);
      IndependentAfter(calls, i, m', n', st);
    }
  }

  lemma MultisetWithout(calls: seq<Call>, perm: seq<Call>, i: nat)
    requires i < |calls| && perm != [] && calls[i] == perm[0]
    requires multiset(calls) == multiset(perm)
    ensures multiset(Without(calls, i)) == multiset(perm[1..])
  {
    assert calls == calls[..i] + [calls[i]] + calls[i + 1..];
    assert perm == [perm[0]] + perm[1..];
    var x, a, b := multiset{perm[0]}, multiset(Without(calls, i)), multiset(perm[1..]);
    assert a == multiset(calls[..i]) + multiset(calls[i + 1..]);
    assert multiset(calls) == multiset(calls[..i]) + x + multiset(calls[i + 1..]);
    assert multiset(perm) == x + b;
    assert a + x == multiset(calls);
    assert b + x == multiset(perm);
    assert a == a + x - x == b + x - x == b;
  }

  /** A batch of pairwise independent sources reaches the same state in every order. */
  lemma {:induction false} AnyOrder(calls: seq<Call>, perm: seq<Call>, st: State)
    requires PairwiseIndependent(calls, st)
    requires multiset(calls) == multiset(perm)
    ensures ExecuteAll(calls, st) == ExecuteAll(perm, st)
    decreases |calls|
  {
    if perm == [] {
      assert |multiset(calls)| == |calls|;
    } else {
      assert perm[0] in multiset(perm);
      assert perm[0] in calls;
      var i: nat :| i < |calls| && calls[i] == perm[0];
      BringToFront(calls, i, st);
      PairwiseWithout(calls, i, st);
      MultisetWithout(calls, perm, i);
      AnyOrder(Without(calls, i), perm[1..], Execute(perm[0], st));
    }
  }

  // ---- one place for two sources -------------------------------------------------------

  lemma TakenByFirst(a: Call, b: Call, st: State, id: MirrorID)
    requires a.source.id != b.source.id && OutcomeOf(a) == Done && Registers(a, st, id)
    ensures Owned(Execute(b, Execute(a, st)), a.source, id)
  {
    StoreAfter(a, st, id);
    StoreAfter(b, Execute(a, st), id);
  }

  /** Two sources that would both take a place do not commute: whoever is first has it. */
  lemma SamePlaceContends(a: Call, b: Call, st: State, id: MirrorID)
    requires a.source.id != b.source.id && OutcomeOf(a) == Done && OutcomeOf(b) == Done
    requires Registers(a, st, id) && Registers(b, st, id)
    ensures Execute(b, Execute(a, st)) != Execute(a, Execute(b, st))
  {
    TakenByFirst(a, b, st, id);
    TakenByFirst(b, a, st, id);
  }

  // ---- two kinds under one name --------------------------------------------------------

  /** A source whose push to a free place goes through. */
  ghost predicate FirstAt(c: Call, st: State, id: MirrorID) {
    && c.faults == NO_FAULTS && OutcomeOf(c) == Done && Registers(c, st, id)
    && c.source.CanReflectToNamespace(id.ns) && c.source.Place() in st.cluster && c.source.version != ""
    && Key(Secret, id) !in st.cluster && Key(ConfigMap, id) !in st.cluster
  }

  lemma AfterFirst(c: Call, st: State, id: MirrorID, kind: Kind)
    requires FirstAt(c, st, id)
    ensures var st' := Execute(c, st); var k := Key(c.source.kind, id);
            && Lookup(st'.store, id) == Some(Entry(c.source.id, c.source.kind, c.source.version, true))
            && k in st'.cluster && RecordedVersion(st'.cluster[k]) == c.source.version
            && (kind != c.source.kind ==> Key(kind, id) !in st'.cluster)
  {
    StoreAfter(c, st, id);
    ClusterAfter(c, st, Key(c.source.kind, id));
    ClusterAfter(c, st, Key(kind, id));
  }

  /** The other of the two sources still reads its own data after the first has run. */
  lemma SecondReads(a: Call, b: Call, st: State)
    requires a.source.id == b.source.id && b.source.Place().id !in st.store
    ensures Lookup(Execute(a, st).cluster, b.source.Place()) == Lookup(st.cluster, b.source.Place())
  {
  }

  /** The second source finds the mirror of the first as its own and overwrites it. */
  lemma SecondOverwrites(c: Call, st: State, id: MirrorID, e: Entry)
    requires c.faults == NO_FAULTS && OutcomeOf(c) == Done && Lookup(st.store, id) == Some(e)
    requires e.source == c.source.id && e.version != c.source.version
    requires c.source.CanReflectToNamespace(id.ns) && c.source.CanAutoMirrorToNamespace(id.ns)
    requires c.source.Place() in st.cluster && !UpToDate(st.cluster, Key(e.kind, id), c.source.version)
    ensures var st' := Execute(c, st); var k := Key(e.kind, id);
            && Lookup(st'.store, id) == Some(e.(version := c.source.version))
            && k in st'.cluster && Holds(e.kind, st'.cluster[k], PayloadOf(c.source.kind, st.cluster[c.source.Place()]))
  {
    StoreAfter(c, st, id);
    ClusterAfter(c, st, Key(e.kind, id));
  }

  /** Source identifiers carry no kind, so a Secret and a ConfigMap of the same name are one owner:
      whichever runs first decides the kind of the mirror, and the other then overwrites its data.
      The order matters, and the mirror Secret ends up with the ConfigMap's data. (A write that would change
      the type of an existing Secret counts as a fault; see `NO_FAULTS`.) */
  lemma SameNameCollides(secret: Call, configMap: Call, st: State, id: MirrorID)
    requires secret.source.id == configMap.source.id
    requires secret.source.kind == Secret && configMap.source.kind == ConfigMap
    requires FirstAt(secret, st, id) && FirstAt(configMap, st, id)
    requires secret.source.version != configMap.source.version
    requires secret.source.Place().id !in st.store
    ensures var st' := Execute(configMap, Execute(secret, st));
            && Key(Secret, id) in st'.cluster
            && Holds(Secret, st'.cluster[Key(Secret, id)], PayloadOf(ConfigMap, st.cluster[configMap.source.Place()]))
    ensures Execute(configMap, Execute(secret, st)) != Execute(secret, Execute(configMap, st))
  {
    var a, b := secret, configMap;
    var st1, st2 := Execute(a, st), Execute(b, st);
    AfterFirst(a, st, id, ConfigMap);
    SecondReads(a, b, st);
    SecondOverwrites(b, st1, id, Entry(a.source.id, Secret, a.source.version, true));
    AfterFirst(b, st, id, Secret);
    SecondReads(b, a, st);
    SecondOverwrites(a, st2, id, Entry(b.source.id, ConfigMap, b.source.version, true));
    assert Lookup(Execute(b, st1).store, id).value.kind != Lookup(Execute(a, st2).store, id).value.kind;
  }
}
