/** Sources that contend for the same places. Who gets a place depends on the order, but one round still
    converges and two rounds reach a fixpoint: the first frees every place its owner no longer wants, and
    the second hands out the free ones. */
module Contention {
  import opened Identifiers
  import opened Entities
  import opened Engine
  import opened Runs
  import opened Confluence
  import opened Rounds

  /** The places a call may ever change while its source is as it is: those it wants or owns. */
  ghost predicate Touches(c: Call, st: State, id: MirrorID) {
    Candidate(c, id) || Owned(st, c.source, id)
  }

  lemma TouchedAfterOther(a: Call, b: Call, st: State, id: MirrorID)
    requires a.source.id != b.source.id
    ensures Touches(a, Execute(b, st), id) <==> Touches(a, st, id)
  {
  }

  lemma TouchedAfterSelf(a: Call, st: State, id: MirrorID)
    ensures Touches(a, Execute(a, st), id) ==> Touches(a, st, id)
  {
  }

  /** Sources with identifiers of their own, none of which targets another's object. Nothing is said about
      the places they want or own. */
  ghost predicate Contenders(calls: seq<Call>, st: State) {
    && FaultFree(calls)
    && (forall c, d :: c in calls && d in calls && c.source.id == d.source.id ==> c == d)
    && (forall c, d :: c in calls && d in calls && c != d ==> !Touches(c, st, d.source.Place().id))
  }

  /** A round executes every source at least once, in any order. */
  ghost predicate RoundOf(round: seq<Call>, calls: seq<Call>) {
    forall c :: c in round <==> c in calls
  }

  ghost predicate Among(round: seq<Call>, calls: seq<Call>) {
    forall c :: c in round ==> c in calls
  }

  lemma NoFaults(calls: seq<Call>, c: Call)
    requires FaultFree(calls) && c in calls
    ensures c.faults == NO_FAULTS
  {
  }

  lemma ContendersAfter(calls: seq<Call>, x: Call, st: State)
    requires Contenders(calls, st) && x in calls
    ensures Contenders(calls, Execute(x, st))
  {
    forall c, d | c in calls && d in calls && c != d
      ensures !Touches(c, Execute(x, st), d.source.Place().id)
    {
      var id := d.source.Place().id;
      assert !Touches(c, st, id);
      if c == x {
        TouchedAfterSelf(c, st, id);
      } else {
        TouchedAfterOther(c, x, st, id);
      }
    }
  }

  /** Every source still reads the same after an execution of any of them. */
  lemma HomeKept(calls: seq<Call>, c: Call, x: Call, st: State)
    requires Contenders(calls, st) && c in calls && x in calls
    ensures var home, st' := c.source.Place(), Execute(x, st);
            && (home in st'.cluster <==> home in st.cluster)
            && (home in st.cluster ==>
                  PayloadOf(c.source.kind, st'.cluster[home]) == PayloadOf(c.source.kind, st.cluster[home]))
  {
    var home := c.source.Place();
    if c == x {
      SourceStable(x, st);
    } else {
      assert !Touches(x, st, home.id);
      Untouched(x, st, home.id);
      ClusterAfter(x, st, home);
      assert Key(home.kind, home.id) == home;
    }
  }

  // ---- sources with nothing to do at a place -------------------------------------------

  /** An execution would not change the place: no entry is added, dropped or advanced. */
  ghost predicate Quiet(c: Call, st: State, id: MirrorID) {
    EntryAfter(c, st, id) == Lookup(st.store, id) && (OutcomeOf(c) == Done ==> !Advances(c, st, id))
  }

  lemma SelfQuiet(c: Call, st: State, id: MirrorID)
    requires c.faults == NO_FAULTS
    ensures Quiet(c, Execute(c, st), id)
  {
    SettledEntry(c, c, st, id);
  }

  lemma QuietAtOthers(c: Call, st: State, id: MirrorID)
    requires id in st.store && st.store[id].source != c.source.id
    ensures Quiet(c, st, id)
  {
  }

  lemma QuietKept(c: Call, st: State, st': State, id: MirrorID)
    requires Quiet(c, st, id)
    requires Lookup(st'.store, id) == Lookup(st.store, id)
    requires id in st.store || forall kind :: Lookup(st'.cluster, Key(kind, id)) == Lookup(st.cluster, Key(kind, id))
    requires c.source.Place() in st'.cluster <==> c.source.Place() in st.cluster
    ensures Quiet(c, st', id)
  {
  }

  /** A quiet source leaves the place alone however it is executed again. */
  lemma QuietRepeats(c: Call, again: Call, st: State, id: MirrorID)
    requires c.faults == NO_FAULTS && Quiet(c, st, id) && Repeats(again, c)
    ensures EntryAfter(again, st, id) == Lookup(st.store, id)
    ensures forall kind :: ObjectAfter(again, st, Key(kind, id)) == Lookup(st.cluster, Key(kind, id))
  {
  }

  ghost predicate AllQuiet(calls: seq<Call>, st: State, id: MirrorID) {
    forall c :: c in calls ==> Quiet(c, st, id)
  }

  /** Where all are quiet, nothing is left to do. */
  lemma QuietIsFixpoint(calls: seq<Call>, c: Call, again: Call, st: State)
    requires FaultFree(calls) && (forall id :: AllQuiet(calls, st, id)) && c in calls && Repeats(again, c)
    ensures Execute(again, st) == st
  {
    NoFaults(calls, c);
    forall id ensures Lookup(st.store, id) == EntryAfter(again, st, id) {
      assert AllQuiet(calls, st, id);
      QuietRepeats(c, again, st, id);
    }
    forall k: Key ensures Lookup(st.cluster, k) == ObjectAfter(again, st, k) {
      assert AllQuiet(calls, st, k.id);
      QuietRepeats(c, again, st, k.id);
      assert Key(k.kind, k.id) == k;
    }
    ExecuteIs(again, st, st);
  }

  // ---- the first round -----------------------------------------------------------------

  /** Taken places are quiet for every source already executed. */
  ghost predicate QuietIfTaken(done: set<Call>, st: State, id: MirrorID) {
    id in st.store ==> forall c :: c in done ==> Quiet(c, st, id)
  }

  lemma StaysSettled(calls: seq<Call>, c: Call, x: Call, st: State, id: MirrorID)
    requires Contenders(calls, st) && c in calls && x in calls && id in Execute(x, st).store
    requires c == x || (id in st.store ==> Quiet(c, st, id))
    ensures Quiet(c, Execute(x, st), id)
  {
    var st' := Execute(x, st);
    NoFaults(calls, x);
    if c == x {
      SelfQuiet(x, st, id);
    } else if st'.store[id].source != c.source.id {
      QuietAtOthers(c, st', id);
    } else {
      PolicySafety(x, st);
      HomeKept(calls, c, x, st);
      QuietKept(c, st, st', id);
    }
  }

  lemma {:induction false} FirstRound(calls: seq<Call>, done: set<Call>, round: seq<Call>, st: State, id: MirrorID)
    requires Contenders(calls, st) && Among(round, calls) && (forall c :: c in done ==> c in calls)
    requires QuietIfTaken(done, st, id)
    ensures Contenders(calls, ExecuteAll(round, st))
    ensures QuietIfTaken(done + (set c | c in round), ExecuteAll(round, st), id)
    decreases |round|
  {
    if round == [] {
      assert done + (set c | c in round) == done;
    } else {
      var x, st' := round[0], Execute(round[0], st);
      ContendersAfter(calls, x, st);
      forall c | c in done + {x} && id in st'.store
        ensures Quiet(c, st', id)
      {
        StaysSettled(calls, c, x, st, id);
      }
      FirstRound(calls, done + {x}, round[1..], st', id);
      assert done + {x} + (set c | c in round[1..]) == done + (set c | c in round);
    }
  }

  /** After one round in any order every taken place is settled. */
  lemma TakenPlacesSettle(calls: seq<Call>, round: seq<Call>, st: State, id: MirrorID)
    requires Contenders(calls, st) && RoundOf(round, calls)
    ensures Contenders(calls, ExecuteAll(round, st))
    ensures id in ExecuteAll(round, st).store ==> AllQuiet(calls, ExecuteAll(round, st), id)
  {
    FirstRound(calls, {}, round, st, id);
  }

  // ---- the second round ----------------------------------------------------------------

  /** Taken places are quiet for all, free places for every source already executed. */
  ghost predicate QuietSoFar(calls: seq<Call>, done: set<Call>, st: State, id: MirrorID) {
    forall c :: c in calls && (id in st.store || c in done) ==> Quiet(c, st, id)
  }

  /** A source that does not register a free place leaves the objects there alone. */
  lemma FreeUntouched(x: Call, st: State, id: MirrorID)
    requires id !in st.store && id !in Execute(x, st).store
    ensures forall kind :: Lookup(Execute(x, st).cluster, Key(kind, id)) == Lookup(st.cluster, Key(kind, id))
  {
    PolicySafety(x, st);
  }

  lemma StaysQuiet(calls: seq<Call>, done: set<Call>, c: Call, x: Call, st: State, id: MirrorID)
    requires Contenders(calls, st) && c in calls && x in calls && QuietSoFar(calls, done, st, id)
    requires id in Execute(x, st).store || c in done || c == x
    ensures Quiet(c, Execute(x, st), id)
  {
    var st' := Execute(x, st);
    NoFaults(calls, x);
    if id in st'.store {
      StaysSettled(calls, c, x, st, id);
    } else if c == x {
      SelfQuiet(x, st, id);
    } else {
      StoreAfter(x, st, id);
      HomeKept(calls, c, x, st);
      if id !in st.store {
        FreeUntouched(x, st, id);
      }
      QuietKept(c, st, st', id);
    }
  }

  lemma {:induction false} SecondRound(calls: seq<Call>, done: set<Call>, round: seq<Call>, st: State, id: MirrorID)
    requires Contenders(calls, st) && Among(round, calls) && QuietSoFar(calls, done, st, id)
    ensures QuietSoFar(calls, done + (set c | c in round), ExecuteAll(round, st), id)
    decreases |round|
  {
    if round == [] {
      assert done + (set c | c in round) == done;
    } else {
      var x, st' := round[0], Execute(round[0], st);
      ContendersAfter(calls, x, st);
      forall c | c in calls && (id in st'.store || c in done + {x})
        ensures Quiet(c, st', id)
      {
        StaysQuiet(calls, done, c, x, st, id);
      }
      SecondRound(calls, done + {x}, round[1..], st', id);
      assert done + {x} + (set c | c in round[1..]) == done + (set c | c in round);
    }
  }

  /** After two rounds every place is settled. */
  lemma AllPlacesSettle(calls: seq<Call>, first: seq<Call>, second: seq<Call>, st: State, id: MirrorID)
    requires Contenders(calls, st) && RoundOf(first, calls) && RoundOf(second, calls)
    ensures AllQuiet(calls, ExecuteAll(second, ExecuteAll(first, st)), id)
  {
    TakenPlacesSettle(calls, first, st, id);
    SecondRound(calls, {}, second, ExecuteAll(first, st), id);
  }

  // ---- fixpoints -----------------------------------------------------------------------

  lemma {:induction false} RepeatsChangeNothing(calls: seq<Call>, more: seq<Call>, st: State)
    requires FaultFree(calls) && (forall id :: AllQuiet(calls, st, id)) && OnlyRepeats(more, calls)
    ensures ExecuteAll(more, st) == st
    decreases |more|
  {
    if more != [] {
      assert RepeatsOneOf(more[0], calls);
      var c :| c in calls && Repeats(more[0], c);
      QuietIsFixpoint(calls, c, more[0], st);
      RepeatsChangeNothing(calls, more[1..], st);
    }
  }

  /** Two fault-free rounds, each in its own order, reach a fixpoint whatever the sources contend for:
      afterwards no execution of them changes anything, whatever its order, repetition and failures. */
  lemma TwoRoundsAreFixpoint(calls: seq<Call>, first: seq<Call>, second: seq<Call>, more: seq<Call>, st: State)
    requires Contenders(calls, st) && RoundOf(first, calls) && RoundOf(second, calls) && OnlyRepeats(more, calls)
    ensures var end := ExecuteAll(second, ExecuteAll(first, st)); ExecuteAll(more, end) == end
  {
    var end := ExecuteAll(second, ExecuteAll(first, st));
    forall id ensures AllQuiet(calls, end, id) {
      AllPlacesSettle(calls, first, second, st, id);
    }
    RepeatsChangeNothing(calls, more, end);
  }

  /** Some source would take the place now. */
  ghost predicate Unsettled(calls: seq<Call>, st: State, id: MirrorID) {
    exists c :: c in calls && ValidSource(c.source) && Registers(c, st, id)
  }

  lemma SettledIsQuiet(calls: seq<Call>, round: seq<Call>, st: State, id: MirrorID)
    requires Contenders(calls, st) && RoundOf(round, calls) && !Unsettled(calls, ExecuteAll(round, st), id)
    ensures AllQuiet(calls, ExecuteAll(round, st), id)
  {
    var end := ExecuteAll(round, st);
    TakenPlacesSettle(calls, round, st, id);
    if id !in end.store {
      forall c | c in calls ensures Quiet(c, end, id) {
        assert !(ValidSource(c.source) && Registers(c, end, id));
      }
    }
  }

  lemma UnsettledMoves(calls: seq<Call>, st: State, id: MirrorID) returns (c: Call)
    requires FaultFree(calls) && Unsettled(calls, st, id)
    ensures c in calls && Execute(c, st) != st
  {
    c :| c in calls && ValidSource(c.source) && Registers(c, st, id);
    NoFaults(calls, c);
    StoreAfter(c, st, id);
  }

  ghost predicate IsFixpoint(calls: seq<Call>, st: State) {
    forall c :: c in calls ==> Execute(c, st) == st
  }

  /** A round reaches a fixpoint exactly when it leaves no free place that one of its sources would take. */
  lemma FixpointExactlyWhen(calls: seq<Call>, round: seq<Call>, st: State)
    requires Contenders(calls, st) && RoundOf(round, calls)
    ensures var end := ExecuteAll(round, st); IsFixpoint(calls, end) <==> forall id :: !Unsettled(calls, end, id)
  {
    var end := ExecuteAll(round, st);
    if id :| Unsettled(calls, end, id) {
      var c := UnsettledMoves(calls, end, id);
    } else {
      forall id ensures AllQuiet(calls, end, id) {
        SettledIsQuiet(calls, round, st, id);
      }
      forall c | c in calls ensures Execute(c, end) == end {
        QuietIsFixpoint(calls, c, c, end);
      }
    }
  }

  // ---- when one round is enough --------------------------------------------------------

  /** The states have the same entry and the same objects at a place. */
  ghost predicate SameAt(st: State, st': State, id: MirrorID) {
    && Lookup(st'.store, id) == Lookup(st.store, id)
    && forall kind :: Lookup(st'.cluster, Key(kind, id)) == Lookup(st.cluster, Key(kind, id))
  }

  /** The source would take the place, were it free. */
  ghost predicate Takes(c: Call, st: State, id: MirrorID) {
    ValidSource(c.source) && Candidate(c, id) && !Conflict(c.source, st.cluster, id)
  }

  /** The source owns the place and gives it up. */
  ghost predicate Frees(c: Call, st: State, id: MirrorID) {
    ValidSource(c.source) && Owned(st, c.source, id) && !c.source.CanAutoMirrorToNamespace(id.ns)
  }

  lemma TakesSame(c: Call, st: State, st': State, id: MirrorID)
    requires forall kind :: Lookup(st'.cluster, Key(kind, id)) == Lookup(st.cluster, Key(kind, id))
    ensures Takes(c, st', id) <==> Takes(c, st, id)
  {
    assert Lookup(st'.cluster, Key(c.source.kind, id)) == Lookup(st.cluster, Key(c.source.kind, id));
  }

  /** A taken place is nothing to a source that does not own it. */
  lemma TakerWaits(c: Call, st: State, id: MirrorID)
    requires id in st.store && st.store[id].source != c.source.id
    ensures SameAt(st, Execute(c, st), id)
  {
    StoreAfter(c, st, id);
    forall kind ensures Lookup(Execute(c, st).cluster, Key(kind, id)) == Lookup(st.cluster, Key(kind, id)) {
      ClusterAfter(c, st, Key(kind, id));
    }
  }

  /** An owner that gives a place up leaves the objects there alone. */
  lemma OwnerFrees(c: Call, st: State, id: MirrorID)
    requires c.faults == NO_FAULTS && Frees(c, st, id)
    ensures id !in Execute(c, st).store
    ensures forall kind :: Lookup(Execute(c, st).cluster, Key(kind, id)) == Lookup(st.cluster, Key(kind, id))
  {
    StoreAfter(c, st, id);
    PolicySafety(c, st);
  }

  /** A free place is taken, or stays as it is. */
  lemma FreeStep(c: Call, st: State, id: MirrorID)
    requires c.faults == NO_FAULTS && id !in st.store
    ensures id in Execute(c, st).store <==> Takes(c, st, id)
    ensures !Takes(c, st, id) ==> SameAt(st, Execute(c, st), id)
    ensures Takes(c, st, id) ==> Owned(Execute(c, st), c.source, id) && c.source.CanAutoMirrorToNamespace(id.ns)
  {
    StoreAfter(c, st, id);
    if !Takes(c, st, id) {
      FreeUntouched(c, st, id);
    }
  }

  lemma {:induction false} AllWait(round: seq<Call>, st: State, id: MirrorID)
    requires id in st.store && forall c :: c in round ==> c.source.id != st.store[id].source
    ensures SameAt(st, ExecuteAll(round, st), id)
    decreases |round|
  {
    if round != [] {
      assert round[0] in round;
      TakerWaits(round[0], st, id);
      AllWait(round[1..], Execute(round[0], st), id);
    }
  }

  lemma {:induction false} StaysFree(calls: seq<Call>, round: seq<Call>, st: State, id: MirrorID)
    requires FaultFree(calls) && Among(round, calls)
    requires id !in st.store && forall c :: c in round ==> !Takes(c, st, id)
    ensures SameAt(st, ExecuteAll(round, st), id)
    decreases |round|
  {
    if round != [] {
      var st' := Execute(round[0], st);
      assert round[0] in round;
      NoFaults(calls, round[0]);
      FreeStep(round[0], st, id);
      forall c | c in round[1..] ensures !Takes(c, st', id) {
        TakesSame(c, st, st', id);
      }
      StaysFree(calls, round[1..], st', id);
    }
  }

  /** Whoever owns the place and wants it keeps it. */
  lemma {:induction false} StaysTaken(round: seq<Call>, st: State, id: MirrorID)
    requires id in st.store && forall c :: c in round ==> !Frees(c, st, id)
    ensures id in ExecuteAll(round, st).store
    decreases |round|
  {
    if round != [] {
      var st' := Execute(round[0], st);
      assert round[0] in round;
      StoreAfter(round[0], st, id);
      forall c | c in round[1..] ensures !Frees(c, st', id) {
        assert !Frees(c, st, id);
      }
      StaysTaken(round[1..], st', id);
    }
  }

  /** A free place that someone takes is taken in the end. */
  lemma {:induction false} SomeoneTakes(calls: seq<Call>, round: seq<Call>, st: State, id: MirrorID)
    requires Contenders(calls, st) && Among(round, calls)
    requires id !in st.store && exists c :: c in round && Takes(c, st, id)
    ensures id in ExecuteAll(round, st).store
    decreases |round|
  {
    var x, st' := round[0], Execute(round[0], st);
    assert x in calls;
    NoFaults(calls, x);
    FreeStep(x, st, id);
    if Takes(x, st, id) {
      forall c | c in round[1..] ensures !Frees(c, st', id) {
        assert c.source.id == x.source.id ==> c == x;
      }
      StaysTaken(round[1..], st', id);
    } else {
      ContendersAfter(calls, x, st);
      var c :| c in round && Takes(c, st, id);
      TakesSame(c, st, st', id);
      SomeoneTakes(calls, round[1..], st', id);
    }
  }

  lemma {:induction false} ExecuteSplit(round: seq<Call>, n: nat, st: State)
    requires n < |round|
    ensures ExecuteAll(round, st) == ExecuteAll(round[n + 1..], Execute(round[n], ExecuteAll(round[..n], st)))
    decreases n
  {
    if n > 0 {
      ExecuteSplit(round[1..], n - 1, Execute(round[0], st));
      assert round[1..][n - 1] == round[n] && round[1..][n..] == round[n + 1..];
      assert round[..n][1..] == round[1..][..n - 1];
    }
  }

  /** The owner of the place gives it up at turn `n`, for the first time, and nobody after it takes it. */
  ghost predicate FreedForGood(round: seq<Call>, st: State, id: MirrorID, n: nat) {
    && n < |round| && Frees(round[n], st, id)
    && (forall m :: 0 <= m < n ==> !Frees(round[m], st, id))
    && (forall m :: n < m < |round| ==> !Takes(round[m], st, id))
  }

  /** A source wants a place that is freed too late for it. */
  ghost predicate LeftOver(calls: seq<Call>, round: seq<Call>, st: State, id: MirrorID) {
    (exists c :: c in calls && Takes(c, st, id)) && exists n: nat :: FreedForGood(round, st, id, n)
  }

  lemma UnsettledMeans(calls: seq<Call>, st: State, end: State, id: MirrorID)
    requires FaultFree(calls)
    requires forall kind :: Lookup(end.cluster, Key(kind, id)) == Lookup(st.cluster, Key(kind, id))
    ensures Unsettled(calls, end, id) <==> id !in end.store && exists c :: c in calls && Takes(c, st, id)
  {
    forall c | c in calls
      ensures ValidSource(c.source) && Registers(c, end, id) <==> id !in end.store && Takes(c, st, id)
    {
      NoFaults(calls, c);
      TakesSame(c, st, end, id);
    }
  }

  /** Before the owner's first turn the place is as it was, after it the place is free. */
  lemma AfterOwner(calls: seq<Call>, round: seq<Call>, st: State, id: MirrorID, n: nat) returns (st': State)
    requires Contenders(calls, st) && RoundOf(round, calls) && n < |round| && Frees(round[n], st, id)
    requires forall m :: 0 <= m < n ==> !Frees(round[m], st, id)
    ensures ExecuteAll(round, st) == ExecuteAll(round[n + 1..], st')
    ensures id !in st'.store && Contenders(calls, st')
    ensures forall kind :: Lookup(st'.cluster, Key(kind, id)) == Lookup(st.cluster, Key(kind, id))
  {
    var owner, before := round[n], ExecuteAll(round[..n], st);
    assert owner in round;
    forall c | c in round[..n] ensures c.source.id != st.store[id].source {
      assert c in round;
      var m :| 0 <= m < n && round[m] == c;
      assert !Frees(c, st, id);
    }
    AllWait(round[..n], st, id);
    FirstRound(calls, {}, round[..n], st, id);
    NoFaults(calls, owner);
    OwnerFrees(owner, before, id);
    ContendersAfter(calls, owner, before);
    st' := Execute(owner, before);
    ExecuteSplit(round, n, st);
  }

  /** The turn `n` is the only one that can be the owner's first. */
  lemma FreedOnce(round: seq<Call>, st: State, id: MirrorID, n: nat)
    requires n < |round| && Frees(round[n], st, id) && forall m :: 0 <= m < n ==> !Frees(round[m], st, id)
    ensures (exists k: nat :: FreedForGood(round, st, id, k)) <==>
            forall m :: n < m < |round| ==> !Takes(round[m], st, id)
  {
    forall k: nat | FreedForGood(round, st, id, k) ensures k == n {
    }
    if forall m :: n < m < |round| ==> !Takes(round[m], st, id) {
      assert FreedForGood(round, st, id, n);
    }
  }

  lemma FreedPlace(calls: seq<Call>, round: seq<Call>, st: State, id: MirrorID, n: nat)
    requires Contenders(calls, st) && RoundOf(round, calls) && n < |round| && Frees(round[n], st, id)
    requires forall m :: 0 <= m < n ==> !Frees(round[m], st, id)
    ensures Unsettled(calls, ExecuteAll(round, st), id) <==> LeftOver(calls, round, st, id)
  {
    var rest := round[n + 1..];
    var st' := AfterOwner(calls, round, st, id, n);
    FreedOnce(round, st, id, n);
    LaterTurns(round, st, id, n);
    FreePlace(calls, rest, st, st', id);
  }

  lemma LaterTurns(round: seq<Call>, st: State, id: MirrorID, n: nat)
    requires n < |round|
    ensures Among(round[n + 1..], round)
    ensures (forall m :: n < m < |round| ==> !Takes(round[m], st, id)) <==>
            (forall c :: c in round[n + 1..] ==> !Takes(c, st, id))
  {
    var rest := round[n + 1..];
    if m :| n < m < |round| && Takes(round[m], st, id) {
      assert round[m] == rest[m - n - 1];
    }
    if c :| c in rest && Takes(c, st, id) {
      var m :| 0 <= m < |rest| && rest[m] == c;
      assert round[n + 1 + m] == c;
    }
  }

  /** What becomes of a free place. */
  lemma FreePlace(calls: seq<Call>, rest: seq<Call>, st: State, st': State, id: MirrorID)
    requires Contenders(calls, st') && Among(rest, calls) && id !in st'.store
    requires forall kind :: Lookup(st'.cluster, Key(kind, id)) == Lookup(st.cluster, Key(kind, id))
    ensures Unsettled(calls, ExecuteAll(rest, st'), id) <==>
            (exists c :: c in calls && Takes(c, st, id)) && forall c :: c in rest ==> !Takes(c, st, id)
  {
    forall c ensures Takes(c, st', id) <==> Takes(c, st, id) {
      TakesSame(c, st, st', id);
    }
    if exists c :: c in rest && Takes(c, st', id) {
      SomeoneTakes(calls, rest, st', id);
    } else {
      StaysFree(calls, rest, st', id);
      UnsettledMeans(calls, st', ExecuteAll(rest, st'), id);
    }
  }

  /** At one place: the round leaves it free for one of its sources exactly if it was given up too late. */
  lemma PlaceSettlesExactlyWhen(calls: seq<Call>, round: seq<Call>, st: State, id: MirrorID)
    requires Contenders(calls, st) && RoundOf(round, calls)
    ensures Unsettled(calls, ExecuteAll(round, st), id) <==> LeftOver(calls, round, st, id)
  {
    if id !in st.store {
      FreePlace(calls, round, st, st, id);
    } else if exists n: nat :: n < |round| && Frees(round[n], st, id) {
      var n := FirstFree(round, st, id);
      FreedPlace(calls, round, st, id, n);
    } else {
      forall c | c in round ensures !Frees(c, st, id) {
        var n :| 0 <= n < |round| && round[n] == c;
      }
      StaysTaken(round, st, id);
    }
  }

  lemma {:induction false} FirstFree(round: seq<Call>, st: State, id: MirrorID) returns (n: nat)
    requires exists n: nat :: n < |round| && Frees(round[n], st, id)
    ensures n < |round| && Frees(round[n], st, id) && forall m :: 0 <= m < n ==> !Frees(round[m], st, id)
  {
    n := 0;
    while !Frees(round[n], st, id)
      invariant n < |round| && forall m :: 0 <= m < n ==> !Frees(round[m], st, id)
      decreases |round| - n
    {
      n := n + 1;
    }
  }

  /** One round is enough exactly when no place that one of its sources would take is given up by its owner
      after the last of them has run. Everything is read off the round and the state it starts from. */
  lemma OneRoundEnoughExactlyWhen(calls: seq<Call>, round: seq<Call>, st: State)
    requires Contenders(calls, st) && RoundOf(round, calls)
    ensures IsFixpoint(calls, ExecuteAll(round, st)) <==> forall id :: !LeftOver(calls, round, st, id)
  {
    var end := ExecuteAll(round, st);
    FixpointExactlyWhen(calls, round, st);
    forall id ensures Unsettled(calls, end, id) <==> LeftOver(calls, round, st, id) {
      PlaceSettlesExactlyWhen(calls, round, st, id);
    }
  }

  /** And it need not be: the place is freed by its owner after the source that wants it has run. */
  lemma OneRoundNotEnough(owner: Call, taker: Call, st: State, id: MirrorID)
    requires owner.source.id != taker.source.id && owner.faults == NO_FAULTS && taker.faults == NO_FAULTS
    requires ValidSource(owner.source) && ValidSource(taker.source)
    requires Owned(st, owner.source, id) && !owner.source.CanAutoMirrorToNamespace(id.ns)
    requires Candidate(taker, id) && !Conflict(taker.source, st.cluster, id)
    ensures var end := ExecuteAll([taker, owner], st);
            id !in end.store && Owned(Execute(taker, end), taker.source, id)
  {
    var st1 := Execute(taker, st);
    var end := Execute(owner, st1);
    TakerWaits(taker, st, id);
    OwnerFrees(owner, st1, id);
    TakesSame(taker, st, end, id);
    ExactReconciliation(taker, end, id);
    assert ExecuteAll([taker, owner], st) == end by {
      assert [taker, owner] == [taker] + [owner] && [owner] == [owner] + [];
      ExecuteCons(taker, [owner], st);
      ExecuteCons(owner, [], st1);
    }
  }

  // ---- two sources under one identifier ------------------------------------------------

  /** Two sources that go by one identifier, at different versions, and both want the mirror they have. */
  ghost predicate Rivals(a: Call, b: Call, st: State, id: MirrorID) {
    && a.source.id == b.source.id && a.source.version != b.source.version && ValidSource(a.source)
    && a.faults == NO_FAULTS && b.faults == NO_FAULTS && Owned(st, a.source, id)
    && a.source.Place() in st.cluster && b.source.Place() in st.cluster
    && a.source.CanAutoMirrorToNamespace(id.ns) && a.source.CanReflectToNamespace(id.ns)
    && b.source.CanAutoMirrorToNamespace(id.ns) && b.source.CanReflectToNamespace(id.ns)
  }

  /** Entry and object carry the version. */
  ghost predicate AtVersion(st: State, k: Key, version: string) {
    k.id in st.store && st.store[k.id].version == version && UpToDate(st.cluster, k, version)
  }

  /** Rivals for the mirror at `k`, which the second has written last. */
  ghost predicate WroteLast(a: Call, b: Call, st: State, k: Key) {
    Rivals(a, b, st, k.id) && st.store[k.id].kind == k.kind && AtVersion(st, k, b.source.version)
  }

  lemma RivalStep(a: Call, b: Call, st: State, k: Key)
    requires Rivals(a, b, st, k.id) && st.store[k.id].kind == k.kind
    ensures var st' := Execute(a, st);
            && Rivals(b, a, st', k.id) && st'.store[k.id].kind == k.kind
            && st'.store[k.id].version == a.source.version
            && (st.store[k.id].version == b.source.version ==> WroteLast(b, a, st', k))
  {
    StoreAfter(a, st, k.id);
    ClusterAfter(a, st, k);
    PolicySafety(a, st);
  }

  lemma NextTurn(a: Call, b: Call, st: State, k: Key)
    requires WroteLast(a, b, st, k)
    ensures Writes(a, st, k) && WroteLast(b, a, Execute(a, st), k)
  {
    RivalStep(a, b, st, k);
  }

  /** They have no common fixpoint, so no number of rounds settles them. */
  lemma RivalsNeverSettle(a: Call, b: Call, st: State, id: MirrorID)
    requires Rivals(a, b, st, id)
    ensures !(Execute(a, st) == st && Execute(b, st) == st)
  {
    StoreAfter(a, st, id);
    StoreAfter(b, st, id);
  }

  /** Whose turn it is, and the state before it, when the two take turns. */
  function Turn(a: Call, b: Call, i: nat): Call
    decreases i
  {
    if i == 0 then a else Turn(b, a, i - 1)
  }

  function Before(a: Call, b: Call, st: State, i: nat): State
    decreases i
  {
    if i == 0 then st else Before(b, a, Execute(a, st), i - 1)
  }

  ghost predicate WritesAt(a: Call, b: Call, st: State, i: nat, k: Key) {
    Writes(Turn(a, b, i), Before(a, b, st, i), k)
  }

  lemma OneTurnLater(a: Call, b: Call, st: State, i: nat, k: Key)
    ensures WritesAt(a, b, st, i + 1, k) <==> WritesAt(b, a, Execute(a, st), i, k)
  {
  }

  lemma {:induction false} EveryTurnWrites(a: Call, b: Call, st: State, i: nat, k: Key)
    requires WroteLast(a, b, st, k)
    ensures WritesAt(a, b, st, i, k)
    decreases i
  {
    NextTurn(a, b, st, k);
    if i > 0 {
      EveryTurnWrites(b, a, Execute(a, st), i - 1, k);
      OneTurnLater(a, b, st, i - 1, k);
    }
  }

  lemma TwoTurns(a: Call, b: Call, st: State, k: Key)
    requires Rivals(a, b, st, k.id) && st.store[k.id].kind == k.kind
    ensures WroteLast(a, b, Execute(b, Execute(a, st)), k)
  {
    RivalStep(a, b, st, k);
    RivalStep(b, a, Execute(a, st), k);
  }

  /** Taking turns they overwrite the mirror forever: after each has had one, every turn writes it. */
  lemma RivalsOverwriteForever(a: Call, b: Call, st: State, i: nat, k: Key)
    requires Rivals(a, b, st, k.id) && st.store[k.id].kind == k.kind
    ensures WritesAt(a, b, Execute(b, Execute(a, st)), i, k)
  {
    TwoTurns(a, b, st, k);
    EveryTurnWrites(a, b, Execute(b, Execute(a, st)), i, k);
  }

  // ---- convergence ---------------------------------------------------------------------

  /** Store and cluster agree and every source can be read. */
  ghost predicate InOrder(history: string -> Payload, calls: seq<Call>, st: State) {
    Contenders(calls, st) && Agreement(history, st) && forall c :: c in calls ==> Readable(history, c, st)
  }

  lemma {:induction false} RoundKeepsOrder(history: string -> Payload, calls: seq<Call>, round: seq<Call>, st: State)
    requires InOrder(history, calls, st) && Among(round, calls)
    ensures InOrder(history, calls, ExecuteAll(round, st))
    decreases |round|
  {
    if round != [] {
      var x := round[0];
      NoFaults(calls, x);
      assert Readable(history, x, st);
      AgreementReflect(history, x, st);
      ContendersAfter(calls, x, st);
      forall c | c in calls ensures Readable(history, c, Execute(x, st)) {
        HomeKept(calls, c, x, st);
      }
      RoundKeepsOrder(history, calls, round[1..], Execute(x, st));
    }
  }

  /** A quiet source with a mirror it may reach has recorded its version there. */
  lemma QuietIsRecorded(c: Call, st: State, id: MirrorID)
    requires Quiet(c, st, id) && OutcomeOf(c) == Done && c.faults == NO_FAULTS
    requires Owned(st, c.source, id) && c.source.CanReflectToNamespace(id.ns) && c.source.Place() in st.cluster
    ensures st.store[id].version == c.source.version
  {
  }

  /** One fault-free round is enough for the data, in any order and whatever the sources contend for: every
      mirror a source has at the end, in a namespace it may reach, holds its data. */
  lemma ContendedRoundConverges(history: string -> Payload, calls: seq<Call>, round: seq<Call>, c: Call,
                                id: MirrorID, st: State)
    requires InOrder(history, calls, st) && RoundOf(round, calls) && c in calls
    requires ValidSource(c.source) && c.source.version != ""
    requires Owned(ExecuteAll(round, st), c.source, id) && c.source.CanReflectToNamespace(id.ns)
    ensures var s := c.source; var end := ExecuteAll(round, st); var k := Key(end.store[id].kind, id);
            && end.store[id].version == s.version
            && k in end.cluster && Holds(k.kind, end.cluster[k], PayloadOf(s.kind, st.cluster[s.Place()]))
  {
    var end := ExecuteAll(round, st);
    NoFaults(calls, c);
    RoundKeepsOrder(history, calls, round, st);
    TakenPlacesSettle(calls, round, st, id);
    assert Readable(history, c, end) && Readable(history, c, st);
    QuietIsRecorded(c, end, id);
  }
}
