/** Cluster replication rules: which namespaces a rule targets, and the source built from them. */
module Rules {
  import opened Identifiers
  import opened Regex
  import opened Selector
  import opened AllowedNamespaces
  import opened Entities
  import opened Engine
  import opened Confluence

  datatype Targets = Targets(includes: seq<string>, excludes: seq<string>, selector: string)

  predicate Included(t: Targets, ns: string) {
    t.includes == [] || ns in t.includes
  }

  /** An empty selector selects everything, one that does not compile nothing. */
  predicate Selected(t: Targets, lib: Library, ns: string) {
    var re := CompileSelector(t.selector, lib);
    t.selector == "" || (re.Some? && MatchString(re.value, ns))
  }

  predicate Wanted(t: Targets, lib: Library, ns: string) {
    Included(t, ns) && Selected(t, lib, ns) && ns !in t.excludes
  }

  /** The elements that pass, in order. */
  function Filter(xs: seq<string>, p: string -> bool): (r: seq<string>)
    ensures forall x :: x in r <==> x in xs && p(x)
  {
    if xs == [] then []
    else
      assert forall x :: x in xs <==> x == xs[0] || x in xs[1..];
      (if p(xs[0]) then [xs[0]] else []) + Filter(xs[1..], p)
  }

  lemma {:induction false} FilterSnoc(xs: seq<string>, x: string, p: string -> bool)
    ensures Filter(xs + [x], p) == Filter(xs, p) + if p(x) then [x] else []
  {
    if xs == [] {
      assert xs + [x] == [x] && [x][1..] == [];
    } else {
      assert (xs + [x])[1..] == xs[1..] + [x];
      FilterSnoc(xs[1..], x, p);
    }
  }

  lemma {:induction false} FilterTwice(xs: seq<string>, p: string -> bool, q: string -> bool, both: string -> bool)
    requires forall x :: both(x) <==> p(x) && q(x)
    ensures Filter(Filter(xs, p), q) == Filter(xs, both)
  {
    if xs != [] {
      FilterTwice(xs[1..], p, q, both);
      if p(xs[0]) {
        assert Filter(xs, p)[0] == xs[0] && Filter(xs, p)[1..] == Filter(xs[1..], p);
      } else {
        assert Filter(xs, p) == Filter(xs[1..], p);
        assert Filter(xs, both) == Filter(xs[1..], both);
      }
    }
  }

  lemma {:induction false} FilterAll(xs: seq<string>, p: string -> bool)
    requires forall x :: x in xs ==> p(x)
    ensures Filter(xs, p) == xs
  {
    if xs != [] {
      FilterAll(xs[1..], p);
    }
  }

  function TargetNamespaces(all: seq<string>, t: Targets, lib: Library): seq<string> {
    Filter(all, ns => Wanted(t, lib, ns))
  }

  /** The inner loop over the includes, left at the first match. */
  method IsListed(ns: string, names: seq<string>) returns (found: bool)
    ensures found <==> ns in names
  {
    for j := 0 to |names|
      invariant ns !in names[..j]
    {
      if ns == names[j] {
        return true;
      }
    }
    return false;
  }

  method KeepIncluded(all: seq<string>, t: Targets) returns (r: seq<string>)
    ensures r == Filter(all, ns => Included(t, ns))
  {
    if |t.includes| == 0 {
      FilterAll(all, ns => Included(t, ns));
      return all;
    }
    r := [];
    for i := 0 to |all|
      invariant r == Filter(all[..i], ns => Included(t, ns))
    {
      FilterSnoc(all[..i], all[i], ns => Included(t, ns));
      assert all[..i + 1] == all[..i] + [all[i]];
      var found := IsListed(all[i], t.includes);
      if found {
        r := r + [all[i]];
      }
    }
    assert all[..|all|] == all;
  }

  method KeepSelected(all: seq<string>, t: Targets, lib: Library, re: Re) returns (r: seq<string>)
    requires t.selector != "" && CompileSelector(t.selector, lib) == Some(re)
    ensures r == Filter(all, ns => Selected(t, lib, ns))
  {
    r := [];
    for i := 0 to |all|
      invariant r == Filter(all[..i], ns => Selected(t, lib, ns))
    {
      FilterSnoc(all[..i], all[i], ns => Selected(t, lib, ns));
      assert all[..i + 1] == all[..i] + [all[i]];
      if MatchString(re, all[i]) {
        r := r + [all[i]];
      }
    }
    assert all[..|all|] == all;
  }

  method DropExcluded(all: seq<string>, t: Targets) returns (r: seq<string>)
    ensures r == Filter(all, ns => ns !in t.excludes)
  {
    var excluded: set<string> := {};
    for i := 0 to |t.excludes|
      invariant forall x :: x in excluded <==> x in t.excludes[..i]
    {
      assert t.excludes[..i + 1] == t.excludes[..i] + [t.excludes[i]];
      excluded := excluded + {t.excludes[i]};
    }
    assert t.excludes[..|t.excludes|] == t.excludes;
    r := [];
    for i := 0 to |all|
      invariant r == Filter(all[..i], ns => ns !in t.excludes)
    {
      FilterSnoc(all[..i], all[i], ns => ns !in t.excludes);
      assert all[..i + 1] == all[..i] + [all[i]];
      if all[i] !in excluded {
        r := r + [all[i]];
      }
    }
    assert all[..|all|] == all;
  }

  /** The listed namespaces that pass includes, selector and excludes, in order; an error when the
      selector does not compile. Includes narrow what the selector gives, they do not add to it. */
  method DetermineTargetNamespaces(all: seq<string>, t: Targets, lib: Library) returns (r: Option<seq<string>>)
    ensures r == None <==> t.selector != "" && CompileSelector(t.selector, lib) == None
    ensures r.Some? ==> r.value == TargetNamespaces(all, t, lib)
  {
    var included := KeepIncluded(all, t);
    var selected := included;
    if t.selector != "" {
      var re := CompileSelector(t.selector, lib);
      if re == None {
        return None;
      }
      selected := KeepSelected(included, t, lib, re.value);
    } else {
      FilterAll(included, ns => Selected(t, lib, ns));
    }
    var final := DropExcluded(selected, t);
    FilterTwice(all, ns => Included(t, ns), ns => Selected(t, lib, ns), ns => Included(t, ns) && Selected(t, lib, ns));
    FilterTwice(all, ns => Included(t, ns) && Selected(t, lib, ns), ns => ns !in t.excludes, ns => Wanted(t, lib, ns));
    return Some(final);
  }

  // ---- from the rule to the engine -----------------------------------------------------

  /** The source a rule makes of an object: everything is allowed, and the targets are its auto list. */
  function RuleSource(kind: Kind, id: SourceID, targetName: string, version: string, targets: seq<string>, lib: Library)
    : Source
  {
    Source(id, targetName, kind, true, Policy(["*"], lib), targets != [],
           if targets != [] then Policy(targets, lib) else DENY_ALL, version)
  }

  lemma StarPolicyIsAll(lib: Library)
    ensures Policy(["*"], lib).isAll
  {
  }

  /** The targets, fed back in as patterns, are accepted exactly. */
  lemma RuleAccepts(kind: Kind, id: SourceID, targetName: string, version: string, targets: seq<string>, lib: Library,
                    ns: string)
    requires forall i :: 0 <= i < |targets| ==> IsLabel(targets[i])
    ensures var s := RuleSource(kind, id, targetName, version, targets, lib);
            (s.CanAutoMirrorToNamespace(ns) <==> ns in targets) && s.CanReflectToNamespace(ns)
  {
    StarPolicyIsAll(lib);
    LabelsAllowThemselves(targets, lib, ns);
  }

  /** A rule end to end: after the execution of its source, the source owns a place exactly if the
      namespace is one the rule wants and it owned the place before or it was free; objects change
      in wanted namespaces only. */
  lemma RuleEndToEnd(all: seq<string>, t: Targets, kind: Kind, id: SourceID, targetName: string, version: string,
                     lib: Library, namespaces: seq<string>, faults: Faults, st: State)
    requires forall i :: 0 <= i < |all| ==> IsLabel(all[i])
    requires var s := RuleSource(kind, id, targetName, version, TargetNamespaces(all, t, lib), lib);
             OutcomeOf(Call(s, namespaces, faults)) == Done
    ensures var s := RuleSource(kind, id, targetName, version, TargetNamespaces(all, t, lib), lib);
            var st' := Execute(Call(s, namespaces, faults), st);
            && (forall m: MirrorID :: Owned(st', s, m) <==>
                  && m.ns in all && Wanted(t, lib, m.ns)
                  && (Owned(st, s, m) ||
                      (&& m.name == s.TargetName() && m.ns in namespaces && m.ns != id.ns && m !in st.store
                       && m !in faults.conflictRead && !Conflict(s, st.cluster, m))))
            && (forall k :: Lookup(st'.cluster, k) != Lookup(st.cluster, k) ==>
                  k.id.ns in all && Wanted(t, lib, k.id.ns))
  {
    var targets := TargetNamespaces(all, t, lib);
    var s := RuleSource(kind, id, targetName, version, targets, lib);
    var c := Call(s, namespaces, faults);
    var st' := Execute(c, st);
    forall i | 0 <= i < |targets| ensures IsLabel(targets[i]) {
      assert targets[i] in targets;
      assert targets[i] in all;
    }
    PolicySafety(c, st);
    forall m: MirrorID
      ensures Owned(st', s, m) <==>
              && m.ns in all && Wanted(t, lib, m.ns)
              && (Owned(st, s, m) ||
                  (&& m.name == s.TargetName() && m.ns in namespaces && m.ns != id.ns && m !in st.store
                   && m !in faults.conflictRead && !Conflict(s, st.cluster, m)))
    {
      RuleAccepts(kind, id, targetName, version, targets, lib, m.ns);
      ExactReconciliation(c, st, m);
    }
    forall k | Lookup(st'.cluster, k) != Lookup(st.cluster, k) ensures k.id.ns in all && Wanted(t, lib, k.id.ns) {
      RuleAccepts(kind, id, targetName, version, targets, lib, k.id.ns);
    }
  }

  // ---- the order of a rule's sources ---------------------------------------------------

  /** The call is for a source that the rule makes of an object in its namespace. */
  ghost predicate FromRule(c: Call, ns: string, targets: seq<string>, lib: Library) {
    var s := c.source;
    s == RuleSource(s.kind, s.id, s.targetName, s.version, targets, lib) && s.id.ns == ns
  }

  /** A rule's sources of one kind, whose target names differ, as they do without a template. Mirrors left
      by another template, or wanted by two, are no matter: each source keeps what it owns where the rule
      wants it. */
  ghost predicate RuleBatch(calls: seq<Call>, ns: string, targets: seq<string>, lib: Library) {
    && (forall i :: 0 <= i < |calls| ==> FromRule(calls[i], ns, targets, lib))
    && (forall i, j :: 0 <= i < |calls| && 0 <= j < |calls| && i != j ==>
          && calls[i].source.id.name != calls[j].source.id.name
          && calls[i].source.TargetName() != calls[j].source.TargetName())
  }

  /** No source of the batch has another's object for a mirror. */
  ghost predicate OwnObjects(calls: seq<Call>, st: State) {
    forall i, j :: 0 <= i < |calls| && 0 <= j < |calls| && i != j ==>
      !Owned(st, calls[i].source, calls[j].source.Place().id)
  }

  lemma RuleSourcesIndependent(a: Call, b: Call, ns: string, targets: seq<string>, lib: Library, st: State)
    requires FromRule(a, ns, targets, lib) && FromRule(b, ns, targets, lib)
    requires a.source.id.name != b.source.id.name && a.source.TargetName() != b.source.TargetName()
    requires !Owned(st, a.source, b.source.Place().id) && !Owned(st, b.source, a.source.Place().id)
    ensures Independent(a, b, st)
  {
  }

  /** The order in which a rule works through its source namespace does not matter. */
  lemma RuleOrderIrrelevant(calls: seq<Call>, perm: seq<Call>, ns: string, targets: seq<string>, lib: Library,
                            st: State)
    requires RuleBatch(calls, ns, targets, lib) && OwnObjects(calls, st)
    requires multiset(calls) == multiset(perm)
    ensures ExecuteAll(calls, st) == ExecuteAll(perm, st)
  {
    forall i, j | 0 <= i < |calls| && 0 <= j < |calls| && i != j
      ensures Independent(calls[i], calls[j], st)
    {
      assert FromRule(calls[i], ns, targets, lib) && FromRule(calls[j], ns, targets, lib);
      RuleSourcesIndependent(calls[i], calls[j], ns, targets, lib, st);
    }
    AnyOrder(calls, perm, st);
  }
}
