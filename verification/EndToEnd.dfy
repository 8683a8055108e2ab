/** From the objects in the cluster to the objects in the cluster, with every key, annotation and field
    written out: what rules, annotations and mirror events make of them. */
module EndToEnd {
  import opened Identifiers
  import opened Regex
  import opened AllowedNamespaces
  import opened NamespaceLists
  import opened Entities
  import opened Engine
  import opened Runs
  import opened Rules
  import opened Reconcilers

  // ---- reading objects -----------------------------------------------------------------

  /** The annotation is there, with this value. */
  ghost predicate Says(o: Object, key: AnnotationKey, value: string) {
    o.annotations.Annotations? && key in o.annotations.entries && o.annotations.entries[key] == value
  }

  /** The annotation is there and not empty. */
  ghost predicate SaysSomething(o: Object, key: AnnotationKey) {
    o.annotations.Annotations? && key in o.annotations.entries && o.annotations.entries[key] != ""
  }

  /** A Secret whose type begins with `helm.sh`, or any object with one of Helm's annotations, even empty. */
  ghost predicate HelmMarked(kind: Kind, o: Object) {
    || (kind == Secret && |o.stype| >= 7 && o.stype[..7] == "helm.sh")
    || (o.annotations.Annotations? && HelmReleaseName in o.annotations.entries)
    || (o.annotations.Annotations? && HelmRelease in o.annotations.entries)
  }

  /** The mirror has the data of the source: of a Secret data and type, of a ConfigMap all values, no key
      twice. */
  ghost predicate CopyOf(kind: Kind, mirror: Object, source: Object) {
    match kind
    case Secret => mirror.data == source.data && mirror.stype == source.stype
    case ConfigMap =>
      mirror.data + mirror.binary == source.data + source.binary && mirror.data.Keys !! mirror.binary.Keys
  }

  ghost predicate SignedBy(o: Object, ns: string, name: string, version: string) {
    o.annotations == Annotations(map[ReplicatedFrom := ns + "/" + name, ReplicatedVersion := version,
                                     AutoReplicated := "true"])
  }

  lemma Markers(kind: Kind, o: Object)
    ensures IsHelm(kind, o) <==> HelmMarked(kind, o)
    ensures IsManaged(o) <==> SaysSomething(o, ReplicatedFrom)
    ensures forall key, value :: value != "" ==> (o.annotations.Get(key) == value <==> Says(o, key, value))
    ensures forall key :: o.annotations.Get(key) == "" <==> !SaysSomething(o, key)
  {
  }

  /** Holding the payload of a source is being its copy, as far as values go. */
  lemma HoldsIsCopy(kind: Kind, o: Object, source: Object)
    ensures Holds(kind, o, PayloadOf(kind, source)) <==>
            match kind
            case Secret => o.data == source.data && o.stype == source.stype
            case ConfigMap => o.data + o.binary == source.data + source.binary
  {
  }

  // ---- rules ---------------------------------------------------------------------------

  /** The call a rule makes for the object at `ns/name`. */
  function RuleCall(kind: Kind, ns: string, name: string, targetName: string, version: string,
                    targets: seq<string>, lib: Library, namespaces: seq<string>): Call
  {
    Call(RuleSource(kind, SourceID(ns, name), targetName, version, targets, lib), namespaces, NO_FAULTS)
  }

  /** A rule that targets the listed namespace `t` has an object to copy there, and the place is not taken. */
  ghost predicate RuleReaches(kind: Kind, ns: string, name: string, targetName: string, version: string,
                              targets: seq<string>, namespaces: seq<string>, st: State, t: string, k: Key)
  {
    && ns != "" && name != "" && version != "" && t != ns && t in targets && t in namespaces
    && (forall i :: 0 <= i < |targets| ==> IsLabel(targets[i]))
    && k == Key(kind, MirrorID(t, if targetName != "" then targetName else name)) && k.id !in st.store
    && Key(kind, MirrorID(ns, name)) in st.cluster
  }

  /** A rule copies its object to a target namespace, under the target name if it has one. */
  lemma RulePushes(kind: Kind, ns: string, name: string, targetName: string, version: string, targets: seq<string>,
                   lib: Library, namespaces: seq<string>, st: State, t: string, k: Key)
    requires RuleReaches(kind, ns, name, targetName, version, targets, namespaces, st, t, k) && k !in st.cluster
    ensures var st' := Execute(RuleCall(kind, ns, name, targetName, version, targets, lib, namespaces), st);
            && k in st'.cluster && CopyOf(kind, st'.cluster[k], st.cluster[Key(kind, MirrorID(ns, name))])
            && SignedBy(st'.cluster[k], ns, name, version)
            && Lookup(st'.store, k.id) == Some(Entry(SourceID(ns, name), kind, version, true))
  {
    var c := RuleCall(kind, ns, name, targetName, version, targets, lib, namespaces);
    RuleAccepts(kind, SourceID(ns, name), targetName, version, targets, lib, t);
    StoreAfter(c, st, k.id);
    ClusterAfter(c, st, k);
    RenderCopies(kind, None, st.cluster[Key(kind, MirrorID(ns, name))],
                 MirrorAnnotations(SourceID(ns, name), version, true));
  }

  lemma RenderCopies(kind: Kind, found: Option<Object>, source: Object, annotations: Annotations)
    ensures CopyOf(kind, Render(kind, found, PayloadOf(kind, source), annotations), source)
    ensures Render(kind, found, PayloadOf(kind, source), annotations).annotations == annotations
  {
  }

  /** An object that is in the way changes exactly if Helm or the engine marked it and it does not carry the
      source's version; then it is overwritten. */
  lemma RuleOverwritesExactly(kind: Kind, ns: string, name: string, targetName: string, version: string,
                              targets: seq<string>, lib: Library, namespaces: seq<string>, st: State, t: string, k: Key)
    requires RuleReaches(kind, ns, name, targetName, version, targets, namespaces, st, t, k) && k in st.cluster
    ensures var st' := Execute(RuleCall(kind, ns, name, targetName, version, targets, lib, namespaces), st);
            var o := st.cluster[k];
            && k in st'.cluster
            && (st'.cluster[k] != o <==>
                (HelmMarked(kind, o) || SaysSomething(o, ReplicatedFrom)) && !Says(o, ReplicatedVersion, version))
            && (st'.cluster[k] != o ==>
                && CopyOf(kind, st'.cluster[k], st.cluster[Key(kind, MirrorID(ns, name))])
                && SignedBy(st'.cluster[k], ns, name, version))
  {
    var c := RuleCall(kind, ns, name, targetName, version, targets, lib, namespaces);
    RuleAccepts(kind, SourceID(ns, name), targetName, version, targets, lib, t);
    Markers(kind, st.cluster[k]);
    ClusterAfter(c, st, k);
    RenderCopies(kind, Some(st.cluster[k]), st.cluster[Key(kind, MirrorID(ns, name))],
                 MirrorAnnotations(SourceID(ns, name), version, true));
  }

  // ---- plain objects -------------------------------------------------------------------

  /** An object that neither Helm nor the engine marked stays as it is in every run, whatever is executed,
      as long as no mirror of its kind is registered at its place. */
  lemma PlainObjectSurvives(steps: seq<Step>, st: State, k: Key)
    requires k in st.cluster && k.id !in st.store
    requires !HelmMarked(k.kind, st.cluster[k]) && !SaysSomething(st.cluster[k], ReplicatedFrom)
    requires forall i :: 0 <= i < |steps| ==> LeavesAlone(steps[i], k)
    ensures k in Run(steps, st).cluster && Run(steps, st).cluster[k] == st.cluster[k]
  {
    Markers(k.kind, st.cluster[k]);
    NoClobbering(steps, st, k);
  }

  // ---- sources by annotation -----------------------------------------------------------

  /** The text of an annotation, empty if it is missing. */
  function TextOf(o: Object, key: AnnotationKey): string {
    if o.annotations.Annotations? && key in o.annotations.entries then o.annotations.entries[key] else ""
  }

  /** What the annotations of an object say about pushing it to a namespace. */
  ghost predicate Announced(o: Object, lib: Library, t: string) {
    var to, auto := ParsePatterns(TextOf(o, ReplicateTo)), ParsePatterns(TextOf(o, AutoReplicateTo));
    && Says(o, Replicate, "true") && Says(o, AutoReplicate, "true")
    && SaysSomething(o, ReplicateTo) && !Breaks(to, lib) && SomeAllows(to, lib, t)
    && (!SaysSomething(o, AutoReplicateTo) || auto == [] || Breaks(auto, lib) || SomeAllows(auto, lib, t))
  }

  /** An object is a source exactly if it says so. */
  lemma SourceExactlyWhen(kind: Kind, id: SourceID, o: Object, version: string, withAutoList: bool, lib: Library)
    ensures SourceOf(kind, id, o, version, withAutoList, lib).Some? <==> Says(o, Replicate, "true")
  {
  }

  lemma AnnouncedAccepts(kind: Kind, id: SourceID, o: Object, version: string, lib: Library, t: string)
    requires Says(o, Replicate, "true")
    ensures var s := SourceOf(kind, id, o, version, true, lib);
            && s.Some?
            && (s.value.CanAutoMirrorToNamespace(t) && s.value.CanReflectToNamespace(t) <==> Announced(o, lib, t))
  {
    Markers(kind, o);
    AutoListDecides(kind, id, o, version, lib, t);
    ParsedPolicy(o.annotations.Get(ReplicateTo), lib, t);
  }

  /** An object with annotations is copied to a listed namespace, where nothing is in the way, exactly if it
      says that it may be. It goes there under its own name. */
  lemma AnnotatedPushExactly(kind: Kind, ns: string, name: string, version: string, lib: Library,
                             namespaces: seq<string>, st: State, t: string)
    requires ns != "" && name != "" && version != "" && t != ns && t in namespaces
    requires Key(kind, MirrorID(ns, name)) in st.cluster
    requires MirrorID(t, name) !in st.store && Key(kind, MirrorID(t, name)) !in st.cluster
    requires Says(st.cluster[Key(kind, MirrorID(ns, name))], Replicate, "true")
    ensures var o, k := st.cluster[Key(kind, MirrorID(ns, name))], Key(kind, MirrorID(t, name));
            var s := SourceOf(kind, SourceID(ns, name), o, version, true, lib);
            && s.Some?
            && var st' := Execute(Call(s.value, namespaces, NO_FAULTS), st);
            && (k in st'.cluster <==> Announced(o, lib, t))
            && (k in st'.cluster ==> CopyOf(kind, st'.cluster[k], o) && SignedBy(st'.cluster[k], ns, name, version))
  {
    var o, k := st.cluster[Key(kind, MirrorID(ns, name))], Key(kind, MirrorID(t, name));
    SourceExactlyWhen(kind, SourceID(ns, name), o, version, true, lib);
    var s := SourceOf(kind, SourceID(ns, name), o, version, true, lib).value;
    AnnouncedAccepts(kind, SourceID(ns, name), o, version, lib, t);
    ClusterAfter(Call(s, namespaces, NO_FAULTS), st, k);
    RenderCopies(kind, None, o, MirrorAnnotations(SourceID(ns, name), version, true));
  }

  // ---- mirror events -------------------------------------------------------------------

  /** The event's mirror: a Secret that is not Helm's and names its source, read without a fault. */
  ghost predicate EventAt(ev: Event, st: State) {
    && !ev.mirrorReadFails && Key(Secret, ev.id) in st.cluster
    && !HelmMarked(Secret, st.cluster[Key(Secret, ev.id)])
    && SaysSomething(st.cluster[Key(Secret, ev.id)], ReplicatedFrom)
  }

  /** Anything else is ignored, and so is an event whose source cannot be read or is not there. */
  lemma OtherEventsIgnored(ev: Event, st: State, ns: string, name: string)
    requires || !EventAt(ev, st)
             || ev.sourceReadFails
             || (&& Says(st.cluster[Key(Secret, ev.id)], ReplicatedFrom, ns + "/" + name) && '/' !in name
                 && Key(Secret, MirrorID(ns, name)) !in st.cluster && Key(ConfigMap, MirrorID(ns, name)) !in st.cluster)
    ensures MirrorEventSteps(ev, st) == []
  {
    if Key(Secret, ev.id) in st.cluster {
      Markers(Secret, st.cluster[Key(Secret, ev.id)]);
    }
    if '/' !in name {
      SplitUnique(ns + "/" + name, ns, name);
    }
  }

  /** The object the mirror names as its source: the Secret of that name, or else the ConfigMap. */
  ghost predicate Names(ev: Event, st: State, kind: Kind, ns: string, name: string) {
    && EventAt(ev, st) && '/' !in name
    && Says(st.cluster[Key(Secret, ev.id)], ReplicatedFrom, ns + "/" + name)
    && !ev.sourceReadFails && Key(kind, MirrorID(ns, name)) in st.cluster
    && (kind == ConfigMap ==> Key(Secret, MirrorID(ns, name)) !in st.cluster)
  }

  /** The source an event executes: the object under its own name, at the version read, with its
      `replicate-to` list and no auto list. */
  function EventSourceOf(ev: Event, kind: Kind, ns: string, name: string, o: Object): Source {
    var to := TextOf(o, ReplicateTo);
    Source(SourceID(ns, name), "", kind, true, if to == "" then DENY_ALL else Policy(ParsePatterns(to), ev.lib),
           TextOf(o, AutoReplicate) == "true", DENY_ALL, ev.version)
  }

  lemma NamedSource(ev: Event, st: State, kind: Kind, ns: string, name: string)
    requires Names(ev, st, kind, ns, name)
    ensures var m, o := st.cluster[Key(Secret, ev.id)], st.cluster[Key(kind, MirrorID(ns, name))];
            && EventMirror(ev, st.cluster) == Some(m) && OwnerOf(m) == SourceID(ns, name)
            && var source := EventSource(ev, st.cluster, SourceID(ns, name));
            && (source.Fetched? <==> !HelmMarked(kind, o) && Says(o, Replicate, "true"))
            && !source.Absent?
            && (source.Fetched? ==> source.s == EventSourceOf(ev, kind, ns, name, o))
  {
    var m, o := st.cluster[Key(Secret, ev.id)], st.cluster[Key(kind, MirrorID(ns, name))];
    Markers(Secret, m);
    Markers(kind, o);
    SplitUnique(ns + "/" + name, ns, name);
    SourceExactlyWhen(kind, SourceID(ns, name), o, ev.version, false, ev.lib);
  }

  /** The event executes the source exactly if that is not Helm's and says that it may be replicated. Then
      the steps are one registration and executions of that object under its own name and at the version
      read; otherwise no object changes. */
  lemma EventExecutesExactly(ev: Event, st: State, kind: Kind, ns: string, name: string)
    requires Names(ev, st, kind, ns, name)
    ensures var o, steps := st.cluster[Key(kind, MirrorID(ns, name))], MirrorEventSteps(ev, st);
            && ((exists i :: 0 <= i < |steps| && steps[i].Reflect?) <==>
                !HelmMarked(kind, o) && Says(o, Replicate, "true"))
            && (forall i :: 0 <= i < |steps| && steps[i].Reflect? ==>
                  steps[i].call.source == EventSourceOf(ev, kind, ns, name, o))
            && (forall i :: 0 <= i < |steps| && steps[i].Register? ==>
                  && steps[i].id == ev.id && steps[i].source == SourceID(ns, name)
                  && (steps[i].auto <==> Says(st.cluster[Key(Secret, ev.id)], AutoReplicated, "true")))
            && (HelmMarked(kind, o) || !Says(o, Replicate, "true") ==> Run(steps, st).cluster == st.cluster)
  {
    var m := st.cluster[Key(Secret, ev.id)];
    Markers(Secret, m);
    NamedSource(ev, st, kind, ns, name);
    var source := EventSource(ev, st.cluster, SourceID(ns, name));
    if source.Fetched? {
      ExecutingSteps(ev, st, m, source.s);
    } else {
      RunOne(Register(ev.id, SourceID(ns, name), Secret, true), st);
      RunOne(Unregister(ev.id), st);
    }
  }

  lemma ExecutingSteps(ev: Event, st: State, m: Object, s: Source)
    requires EventMirror(ev, st.cluster) == Some(m) && EventSource(ev, st.cluster, OwnerOf(m)) == Fetched(s)
    ensures var steps := MirrorEventSteps(ev, st);
            && |steps| >= 2 && steps[1].Reflect?
            && (forall i :: 0 <= i < |steps| && steps[i].Reflect? ==> steps[i].call.source == s)
            && (forall i :: 0 <= i < |steps| && steps[i].Register? ==>
                  steps[i] == Register(ev.id, s.id, s.kind, MarkedAuto(m)))
  {
    var register, n := Register(ev.id, s.id, s.kind, MarkedAuto(m)), ExecutionCount(ev, st, m, s);
    var steps, rest := MirrorEventSteps(ev, st), Executions(s, ev.namespaces, ev.plan, n);
    assert ev.id in OwnedBy(Apply(register, st).store, s.id);
    assert steps == [register] + rest && rest != [] && steps[1] == rest[0];
    ExecutionsOnly(s, ev.namespaces, ev.plan, n);
    forall i | 0 < i < |steps| ensures Executes(steps[i], s) {
      assert steps[i] in rest;
    }
  }
}
