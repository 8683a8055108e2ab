/** Sources, mirrors and the cluster objects they stand for. */
module Entities {
  import opened Identifiers
  import opened AllowedNamespaces
  import opened ConfigMapData

  datatype Kind = Secret | ConfigMap

  /** Where an object lives in the cluster. */
  datatype Key = Key(kind: Kind, id: MirrorID)

  /** The annotation keys the engine reads or writes, and all others by name. */
  datatype AnnotationKey =
    | Replicate
    | ReplicateTo
    | AutoReplicate
    | AutoReplicateTo
    | ReplicatedFrom
    | ReplicatedVersion
    | AutoReplicated
    | HelmReleaseName
    | HelmRelease
    | Other(name: string)

  /** Annotations as Go holds them: a nil map is told apart from an empty one. */
  datatype Annotations = NilMap | Annotations(entries: map<AnnotationKey, string>) {
    predicate Has(k: AnnotationKey) {
      Annotations? && k in entries
    }

    /** Indexing a Go map: a missing key reads as the empty string. */
    function Get(k: AnnotationKey): string {
      if Has(k) then entries[k] else ""
    }
  }

  /** A Secret or a ConfigMap. A Secret has no binary part, a ConfigMap no type. */
  datatype Object = Object(data: Data, binary: Data, stype: string, annotations: Annotations)

  predicate IsHelm(kind: Kind, o: Object) {
    || (kind.Secret? && "helm.sh" <= o.stype)
    || o.annotations.Has(HelmReleaseName)
    || o.annotations.Has(HelmRelease)
  }

  /** Carries a `replicated-from` annotation. */
  predicate IsManaged(o: Object) {
    o.annotations.Get(ReplicatedFrom) != ""
  }

  /** What is copied from a source: its flattened data and, for a Secret, its type. */
  datatype Payload = Payload(data: Data, stype: string)

  function PayloadOf(kind: Kind, o: Object): Payload {
    match kind
    case Secret => Payload(o.data, o.stype)
    case ConfigMap => Payload(Flatten(o.data, o.binary), "")
  }

  /** The object holds the payload, as far as its kind can. */
  ghost predicate Holds(kind: Kind, o: Object, p: Payload) {
    && PayloadOf(kind, o).data == p.data
    && (kind.Secret? ==> o.stype == p.stype)
  }

  function MirrorAnnotations(source: SourceID, version: string, auto: bool): Annotations {
    var base := map[ReplicatedFrom := source.String(), ReplicatedVersion := version];
    Annotations(if auto then base[AutoReplicated := "true"] else base)
  }

  /** The object written for a mirror, over the object found at its place. */
  function Render(kind: Kind, found: Option<Object>, p: Payload, annotations: Annotations): (o: Object)
    ensures Holds(kind, o, p) && o.annotations == annotations
  {
    var base := if found.Some? then found.value else Object(map[], map[], "", NilMap);
    match kind
    case Secret => base.(data := p.data, stype := p.stype, annotations := annotations)
    case ConfigMap =>
      SplitThenFlatten(p.data);
      base.(data := TextPart(p.data), binary := BinaryPart(p.data), annotations := annotations)
  }

  datatype Source = Source(
    id: SourceID,
    targetName: string,
    kind: Kind,
    allowed: bool,
    allowedNamespaces: AllowedNamespaces,
    autoEnabled: bool,
    autoNamespaces: AllowedNamespaces,
    version: string)
  {
    function TargetName(): string {
      if targetName != "" then targetName else id.name
    }

    /** Where the source itself lives. */
    function Place(): Key {
      Key(kind, MirrorID(id.ns, id.name))
    }

    predicate CanReflectToNamespace(ns: string) {
      allowed && allowedNamespaces.Matches(ns)
    }

    predicate CanAutoMirrorToNamespace(ns: string) {
      && autoEnabled
      && allowed
      && if !autoNamespaces.IsEmpty() then autoNamespaces.Matches(ns) else allowedNamespaces.Matches(ns)
    }
  }

  /** What the store knows of a mirror; its identifier is the key it is stored under. */
  datatype Entry = Entry(source: SourceID, kind: Kind, version: string, auto: bool)

  /** A mirror as the store holds it: shared by reference, its version updated in place. */
  class Mirror {
    const id: MirrorID
    const sourceID: SourceID
    const kind: Kind
    var version: string
    var autoCreated: bool

    constructor (id: MirrorID, sourceID: SourceID, kind: Kind)
      ensures this.id == id && View() == Entry(sourceID, kind, "", false)
    {
      this.id, this.sourceID, this.kind, this.version, this.autoCreated := id, sourceID, kind, "", false;
    }

    function View(): Entry
      reads this
    {
      Entry(sourceID, kind, version, autoCreated)
    }

    method SetVersion(v: string)
      modifies this`version
      ensures View() == old(View()).(version := v)
    {
      version := v;
    }

    method SetAutoCreated(auto: bool)
      modifies this`autoCreated
      ensures View() == old(View()).(auto := auto)
    {
      autoCreated := auto;
    }
  }
}
