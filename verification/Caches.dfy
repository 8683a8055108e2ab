/** The expiring negative cache, the properties cache built on it, and the mirror cache keyed by
    printed identifiers. Time is a parameter. */
module Caches {
  import opened Identifiers

  // ---- the expiring cache --------------------------------------------------------------

  datatype CacheEntry = CacheEntry(timestamp: int, expiry: int) {
    /** Zero means never. */
    predicate IsExpired(now: int) {
      expiry != 0 && now - timestamp > expiry
    }
  }

  type Entries = map<string, CacheEntry>

  predicate Live(entries: Entries, key: string, now: int) {
    key in entries && !entries[key].IsExpired(now)
  }

  datatype Op = Get(key: string) | Set(key: string, expiry: int) | Delete(key: string) | Clear | Cleanup
  datatype Timed = Timed(op: Op, now: int)

  function ApplyOp(t: Timed, entries: Entries): Entries {
    match t.op
    case Get(_) => entries
    case Set(key, expiry) => entries[key := CacheEntry(t.now, expiry)]
    case Delete(key) => entries - {key}
    case Clear => map[]
    case Cleanup => map key | key in entries && !entries[key].IsExpired(t.now) :: entries[key]
  }

  class Cache {
    var entries: Entries
    const defExpiry: int

    constructor (defExpiry: int)
      ensures entries == map[] && this.defExpiry == defExpiry
    {
      this.entries, this.defExpiry := map[], defExpiry;
    }

    method Lookup(key: string, now: int) returns (found: bool)
      ensures found == Live(entries, key, now)
    {
      if key !in entries {
        return false;
      }
      return !entries[key].IsExpired(now);
    }

    method Put(key: string, expiry: int, now: int)
      modifies this
      ensures entries == ApplyOp(Timed(Set(key, expiry), now), old(entries))
    {
      entries := entries[key := CacheEntry(now, expiry)];
    }

    method Remove(key: string)
      modifies this
      ensures entries == old(entries) - {key}
      ensures forall now :: entries == ApplyOp(Timed(Delete(key), now), old(entries))
    {
      entries := entries - {key};
    }

    method Empty()
      modifies this
      ensures entries == map[]
      ensures forall now :: entries == ApplyOp(Timed(Clear, now), old(entries))
    {
      entries := map[];
    }

    /** Deletes while walking the map, in whatever order. */
    method Sweep(now: int)
      modifies this
      ensures entries == ApplyOp(Timed(Cleanup, now), old(entries))
    {
      var left := entries.Keys;
      while left != {}
        invariant left <= entries.Keys <= old(entries).Keys
        invariant forall key :: key in old(entries) ==>
                    (key in entries <==> key in left || !old(entries)[key].IsExpired(now))
        invariant forall key :: key in entries ==> entries[key] == old(entries)[key]
        decreases |left|
      {
        var key :| key in left;
        if entries[key].IsExpired(now) {
          entries := entries - {key};
        }
        left := left - {key};
      }
    }
  }

  /** What a run of timed operations answers to its lookups. */
  function Answers(run: seq<Timed>, entries: Entries): seq<bool>
    decreases |run|
  {
    if run == [] then []
    else
      (if run[0].op.Get? then [Live(entries, run[0].op.key, run[0].now)] else [])
      + Answers(run[1..], ApplyOp(run[0], entries))
  }

  function WithoutCleanups(run: seq<Timed>): seq<Timed> {
    if run == [] then []
    else (if run[0].op.Cleanup? then [] else [run[0]]) + WithoutCleanups(run[1..])
  }

  ghost predicate Monotone(run: seq<Timed>, start: int) {
    && (forall i :: 0 <= i < |run| ==> start <= run[i].now)
    && (forall i, j :: 0 <= i < j < |run| ==> run[i].now <= run[j].now)
  }

  /** The same live entries, now and therefore from now on. */
  ghost predicate SameLive(a: Entries, b: Entries, now: int) {
    forall key ::
      && (Live(a, key, now) <==> Live(b, key, now))
      && (Live(a, key, now) ==> a[key] == b[key])
  }

  lemma SameLiveLater(a: Entries, b: Entries, now: int, later: int)
    requires SameLive(a, b, now) && now <= later
    ensures SameLive(a, b, later)
  {
  }

  lemma SameLiveStep(a: Entries, b: Entries, t: Timed)
    requires SameLive(a, b, t.now)
    ensures SameLive(ApplyOp(t, a), if t.op.Cleanup? then b else ApplyOp(t, b), t.now)
  {
  }

  /** Cleanups are invisible: in every run on a clock that does not go back, leaving them all out
      changes no answer. */
  lemma {:induction false} CleanupInvisible(run: seq<Timed>, a: Entries, b: Entries, start: int)
    requires Monotone(run, start) && SameLive(a, b, start)
    ensures Answers(run, a) == Answers(WithoutCleanups(run), b)
    decreases |run|
  {
    if run != [] {
      var t, rest := run[0], run[1..];
      SameLiveLater(a, b, start, t.now);
      SameLiveStep(a, b, t);
      assert Monotone(rest, t.now);
      if t.op.Cleanup? {
        CleanupInvisible(rest, ApplyOp(t, a), b, t.now);
        assert WithoutCleanups(run) == WithoutCleanups(rest);
      } else {
        CleanupInvisible(rest, ApplyOp(t, a), ApplyOp(t, b), t.now);
        assert WithoutCleanups(run)[1..] == WithoutCleanups(rest);
        if t.op.Get? {
          assert Live(a, t.op.key, t.now) <==> Live(b, t.op.key, t.now);
        }
      }
    }
  }

  // ---- expiry --------------------------------------------------------------------------

  /** Operations that leave the entry of a key alone. */
  ghost predicate Spares(t: Timed, key: string) {
    match t.op
    case Get(_) => true
    case Set(k, _) => k != key
    case Delete(k) => k != key
    case Clear => false
    case Cleanup => true
  }

  function AfterRun(run: seq<Timed>, entries: Entries): Entries
    decreases |run|
  {
    if run == [] then entries else AfterRun(run[1..], ApplyOp(run[0], entries))
  }

  lemma {:induction false} StaysUntilExpiry(run: seq<Timed>, entries: Entries, key: string, t: int, expiry: int,
                                            now: int)
    requires Monotone(run, t) && (forall i :: 0 <= i < |run| ==> Spares(run[i], key) && run[i].now <= now)
    requires t <= now && (key in entries ==> entries[key] == CacheEntry(t, expiry))
    requires expiry == 0 || now - t <= expiry ==> key in entries
    ensures Live(AfterRun(run, entries), key, now) <==> expiry == 0 || now - t <= expiry
    decreases |run|
  {
    if run != [] {
      assert Spares(run[0], key) && run[0].now <= now;
      assert Monotone(run[1..], t);
      forall i | 0 <= i < |run[1..]| ensures Spares(run[1..][i], key) && run[1..][i].now <= now {
        assert run[1..][i] == run[i + 1];
      }
      StaysUntilExpiry(run[1..], ApplyOp(run[0], entries), key, t, expiry, now);
    }
  }

  /** In every run on a clock that does not go back, a key set at time `t` is answered for exactly until its
      expiry has passed, and for ever if that is zero, as long as nobody sets or deletes it. */
  lemma AnsweredUntilExpiry(run: seq<Timed>, entries: Entries, key: string, t: int, expiry: int, now: int)
    requires Monotone(run, t) && (forall i :: 0 <= i < |run| ==> Spares(run[i], key) && run[i].now <= now) && t <= now
    ensures Live(AfterRun([Timed(Set(key, expiry), t)] + run, entries), key, now)
            <==> expiry == 0 || now - t <= expiry
  {
    assert ([Timed(Set(key, expiry), t)] + run)[1..] == run;
    StaysUntilExpiry(run, ApplyOp(Timed(Set(key, expiry), t), entries), key, t, expiry, now);
  }

  // ---- the properties cache ------------------------------------------------------------

  /** Known properties by key, and beside them the keys known to be absent. */
  class PropertiesCache<Props> {
    var props: map<string, Props>
    const notFound: Cache

    constructor (expiry: int)
      ensures Valid() && fresh(notFound) && props == map[]
    {
      props := map[];
      notFound := new Cache(expiry);
    }

    /** No key is both known and reported absent. */
    ghost predicate Valid()
      reads this, notFound
    {
      props.Keys !! notFound.entries.Keys
    }

    method Set(key: string, p: Props)
      requires Valid()
      modifies this, notFound
      ensures Valid() && props == old(props)[key := p] && notFound.entries == old(notFound.entries) - {key}
    {
      props := props[key := p];
      notFound.Remove(key);
    }

    method Delete(key: string)
      requires Valid()
      modifies this, notFound
      ensures Valid() && props == old(props) - {key} && notFound.entries == old(notFound.entries) - {key}
    {
      props := props - {key};
      notFound.Remove(key);
    }

    method MarkNotFound(key: string, now: int)
      requires Valid()
      modifies this, notFound
      ensures Valid() && props == old(props) - {key}
      ensures notFound.entries == old(notFound.entries)[key := CacheEntry(now, notFound.defExpiry)]
    {
      props := props - {key};
      notFound.Put(key, notFound.defExpiry, now);
    }

    method IsNotFound(key: string, now: int) returns (r: bool)
      requires Valid()
      ensures r == Live(notFound.entries, key, now)
      ensures r ==> key !in props
    {
      r := notFound.Lookup(key, now);
    }

    method Clear()
      requires Valid()
      modifies this, notFound
      ensures Valid() && props == map[] && notFound.entries == map[]
    {
      props := map[];
      notFound.Empty();
    }
  }

  // ---- the mirror cache ----------------------------------------------------------------

  datatype MirrorRecord = MirrorRecord(mirrorID: string, sourceID: string, isAuto: bool)

  /** The part of the key before its last slash is the namespace. */
  predicate InNamespace(key: string, ns: string) {
    '/' in key && SplitSpec(key).0 == ns
  }

  method IsMirrorInNamespace(key: string, ns: string) returns (r: bool)
    ensures r == InNamespace(key, ns)
  {
    var i := |key| - 1;
    while i >= 0
      invariant -1 <= i < |key|
      invariant '/' !in key[i + 1..]
    {
      if key[i] == '/' {
        assert key == key[..i] + "/" + key[i + 1..];
        SplitUnique(key, key[..i], key[i + 1..]);
        return key[..i] == ns;
      }
      i := i - 1;
    }
    assert key == key[0..];
    return false;
  }

  /** A printed identifier is in the namespace it was printed from and in no other. */
  lemma KeyNamespace(id: MirrorID, ns: string)
    requires '/' !in id.name
    ensures InNamespace(id.String(), ns) <==> id.ns == ns
  {
    SplitUnique(id.String(), id.ns, id.name);
    assert id.String()[|id.ns|] == '/';
  }

  class MirrorCache {
    var records: map<string, MirrorRecord>

    constructor ()
      ensures records == map[]
    {
      records := map[];
    }

    method Set(key: string, record: MirrorRecord)
      modifies this
      ensures records == old(records)[key := record]
    {
      records := records[key := record];
    }

    method DeleteByNamespace(ns: string) returns (deleted: seq<string>)
      modifies this
      ensures records == map key | key in old(records) && !InNamespace(key, ns) :: old(records)[key]
      ensures forall key :: key in deleted <==> key in old(records) && InNamespace(key, ns)
    {
      deleted := [];
      var left := records.Keys;
      while left != {}
        invariant left <= records.Keys <= old(records).Keys
        invariant forall key :: key in old(records) ==> (key in records <==> key in left || !InNamespace(key, ns))
        invariant forall key :: key in records ==> records[key] == old(records)[key]
        invariant forall key :: key in deleted <==> key in old(records) && key !in left && InNamespace(key, ns)
        decreases |left|
      {
        var key :| key in left;
        var inside := IsMirrorInNamespace(key, ns);
        if inside {
          records, deleted := records - {key}, deleted + [key];
        }
        left := left - {key};
      }
    }
  }
}
