/** A round of reconciliation executes every source once, in any order. One round settles the cluster:
    every mirror a source can reach holds its data, and whatever is executed again changes nothing. */
module Rounds {
  import opened Identifiers
  import opened Entities
  import opened Engine
  import opened Runs
  import opened Confluence

  /** The same source again, with any part of the namespaces listed and any calls failing. */
  ghost predicate Repeats(again: Call, c: Call) {
    again.source == c.source && forall ns :: ns in again.namespaces ==> ns in c.namespaces
  }

  lemma RepeatIndependent(again: Call, c: Call, d: Call, st: State)
    requires Repeats(again, c) && Independent(c, d, st)
    ensures Independent(again, d, st)
  {
  }

  ghost predicate IndependentOfAll(x: Call, calls: seq<Call>, st: State) {
    forall i :: 0 <= i < |calls| ==> Independent(x, calls[i], st)
  }

  /** A call can be moved across a batch it is independent of. */
  lemma {:induction false} MoveAcross(x: Call, calls: seq<Call>, st: State)
    requires IndependentOfAll(x, calls, st) && PairwiseIndependent(calls, st)
    ensures Execute(x, ExecuteAll(calls, st)) == ExecuteAll(calls, Execute(x, st))
    decreases |calls|
  {
    if calls != [] {
      var c, rest := calls[0], calls[1..];
      assert Independent(x, c, st);
      forall i | 0 <= i < |rest|
        ensures Independent(x, rest[i], Execute(c, st))
      {
        assert Independent(x, calls[i + 1], st) && Independent(c, calls[i + 1], st);
        IndependenceKept(x, rest[i], c, st);
      }
      PairwiseWithout(calls, 0, st);
      assert Without(calls, 0) == rest;
      MoveAcross(x, rest, Execute(c, st));
      Commute(x, c, st);
    }
  }

  // ---- one round is enough -------------------------------------------------------------

  ghost predicate FaultFree(calls: seq<Call>) {
    forall i :: 0 <= i < |calls| ==> calls[i].faults == NO_FAULTS
  }

  /** After a round, a source of the round has nothing left to do. */
  lemma Settled(calls: seq<Call>, i: nat, again: Call, st: State)
    requires PairwiseIndependent(calls, st) && FaultFree(calls)
    requires i < |calls| && Repeats(again, calls[i])
    ensures Execute(again, ExecuteAll(calls, st)) == ExecuteAll(calls, st)
  {
    var x, rest := calls[i], Without(calls, i);
    var first := Execute(x, st);
    BringToFront(calls, i, st);
    PairwiseWithout(calls, i, st);
    forall j | 0 <= j < |rest|
      ensures Independent(again, rest[j], first)
    {
      WithoutAt(calls, i, j);
      assert Independent(x, rest[j], st);
      IndependenceKept(x, rest[j], x, st);
      RepeatIndependent(again, x, rest[j], first);
    }
    MoveAcross(again, rest, first);
    Idempotent(x, again, st);
  }

  ghost predicate RepeatsOneOf(x: Call, calls: seq<Call>) {
    exists c :: c in calls && Repeats(x, c)
  }

  /** Executions to come that only repeat sources of the round. */
  ghost predicate OnlyRepeats(more: seq<Call>, calls: seq<Call>) {
    forall x :: x in more ==> RepeatsOneOf(x, calls)
  }

  /** One fault-free round of independent sources reaches a fixpoint: however often, in whatever order
      and with whatever failures its sources are executed again, store and cluster stay the same. */
  lemma {:induction false} RoundIsFixpoint(calls: seq<Call>, more: seq<Call>, st: State)
    requires PairwiseIndependent(calls, st) && FaultFree(calls) && OnlyRepeats(more, calls)
    ensures ExecuteAll(more, ExecuteAll(calls, st)) == ExecuteAll(calls, st)
    decreases |more|
  {
    if more != [] {
      assert RepeatsOneOf(more[0], calls);
      var c :| c in calls && Repeats(more[0], c);
      var i: nat :| i < |calls| && calls[i] == c;
      Settled(calls, i, more[0], st);
      RoundIsFixpoint(calls, more[1..], st);
    }
  }

  // ---- one round converges -------------------------------------------------------------

  /** The source is there, with the payload of the version it carries. */
  ghost predicate Readable(history: string -> Payload, c: Call, st: State) {
    && c.source.Place() in st.cluster
    && PayloadOf(c.source.kind, st.cluster[c.source.Place()]) == history(c.source.version)
  }

  ghost predicate AllReadable(history: string -> Payload, calls: seq<Call>, st: State) {
    forall i :: 0 <= i < |calls| ==> Readable(history, calls[i], st)
  }

  /** A source stays readable through its own execution and through independent ones. */
  lemma StaysReadable(history: string -> Payload, c: Call, d: Call, st: State)
    requires Readable(history, c, st)
    requires d == c || Independent(c, d, st)
    ensures Readable(history, c, Execute(d, st))
  {
  }

  lemma RestReadable(history: string -> Payload, calls: seq<Call>, st: State)
    requires calls != [] && PairwiseIndependent(calls, st) && AllReadable(history, calls, st)
    ensures AllReadable(history, calls[1..], Execute(calls[0], st))
  {
  }

  /** A round about to run, and a source `x` that is part of it or independent of it. */
  ghost predicate Ready(history: string -> Payload, calls: seq<Call>, x: Call, st: State) {
    && PairwiseIndependent(calls, st) && FaultFree(calls)
    && Agreement(history, st) && AllReadable(history, calls, st)
    && Readable(history, x, st) && (x in calls || IndependentOfAll(x, calls, st))
  }

  lemma ReadyAgain(history: string -> Payload, calls: seq<Call>, x: Call, st: State)
    requires calls != [] && Ready(history, calls, x, st)
    ensures Ready(history, calls[1..], x, Execute(calls[0], st))
  {
    var c, rest := calls[0], calls[1..];
    assert Agreement(history, Execute(c, st)) by {
      assert Readable(history, c, st) && c.faults == NO_FAULTS;
      AgreementReflect(history, c, st);
    }
    assert PairwiseIndependent(rest, Execute(c, st)) by {
      PairwiseWithout(calls, 0, st);
      assert Without(calls, 0) == rest;
    }
    RestReadable(history, calls, st);
    WatchedAfter(calls, x, st);
    StaysReadable(history, x, c, st);
  }

  lemma {:induction false} RoundKeepsAgreement(history: string -> Payload, calls: seq<Call>, x: Call, st: State)
    requires Ready(history, calls, x, st)
    ensures Agreement(history, ExecuteAll(calls, st)) && Readable(history, x, ExecuteAll(calls, st))
    decreases |calls|
  {
    if calls != [] {
      ReadyAgain(history, calls, x, st);
      RoundKeepsAgreement(history, calls[1..], x, Execute(calls[0], st));
    }
  }

  /** A call that is in the batch, or independent of it, is so of the remaining batch. */
  lemma WatchedAfter(calls: seq<Call>, x: Call, st: State)
    requires calls != [] && PairwiseIndependent(calls, st)
    requires x in calls || IndependentOfAll(x, calls, st)
    ensures x == calls[0] || Independent(x, calls[0], st)
    ensures x in calls[1..] || IndependentOfAll(x, calls[1..], Execute(calls[0], st))
  {
    var c, rest := calls[0], calls[1..];
    if x !in rest {
      forall i | 0 <= i < |rest|
        ensures Independent(x, rest[i], Execute(c, st))
      {
        assert Independent(c, calls[i + 1], st);
        assert Independent(x, calls[i + 1], st);
        assert x == c || Independent(x, c, st);
        IndependenceKept(x, rest[i], c, st);
      }
    } else {
      var i :| 0 <= i < |rest| && rest[i] == x;
      assert Independent(calls[i + 1], c, st);
    }
  }

  /** The main result. Start where store and cluster agree, with every source readable. After one
      fault-free round, in whatever order, every mirror a source still has in a namespace it may
      reach is recorded at the source's version and holds the source's data, and further executions
      of these sources change nothing. */
  lemma RoundConverges(history: string -> Payload, calls: seq<Call>, order: seq<Call>, more: seq<Call>,
                       i: nat, id: MirrorID, st: State)
    requires PairwiseIndependent(calls, st) && FaultFree(calls) && multiset(order) == multiset(calls)
    requires Agreement(history, st) && AllReadable(history, calls, st) && OnlyRepeats(more, calls)
    requires i < |calls| && OutcomeOf(calls[i]) == Done && calls[i].source.version != ""
    requires var end := ExecuteAll(more, ExecuteAll(order, st));
             Owned(end, calls[i].source, id) && calls[i].source.CanReflectToNamespace(id.ns)
    ensures var s := calls[i].source; var end := ExecuteAll(more, ExecuteAll(order, st));
            var k := Key(end.store[id].kind, id);
            && end.store[id].version == s.version
            && k in end.cluster && Holds(k.kind, end.cluster[k], PayloadOf(s.kind, st.cluster[s.Place()]))
  {
    var x := calls[i];
    var end := ExecuteAll(calls, st);
    AnyOrder(calls, order, st);
    RoundIsFixpoint(calls, more, st);
    RoundKeepsAgreement(history, calls, x, st);
    Settled(calls, i, x, st);
    assert Run([], end) == end;
    Convergence(history, [], end, x, id);
  }
}
