/** Identifiers of sources and mirrors, their printed form `namespace/name`, and the
    split at the last slash that reads the printed form back. */
module Identifiers {

  datatype Option<+T> = None | Some(value: T)

  /** `None` stands for a key that is not in the map. */
  function Lookup<K, V>(m: map<K, V>, k: K): Option<V> {
    if k in m then Some(m[k]) else None
  }

  /** Maps are determined by what they answer to lookups. */
  lemma LookupExtensional<K(!new), V>(m: map<K, V>, n: map<K, V>)
    requires forall k :: Lookup(m, k) == Lookup(n, k)
    ensures m == n
  {
    forall k
      ensures k in m <==> k in n
      ensures k in m ==> m[k] == n[k]
    {
      assert Lookup(m, k) == Lookup(n, k);
    }
    assert m.Keys == n.Keys;
  }

  datatype SourceID = SourceID(ns: string, name: string) {
    function String(): string {
      ns + "/" + name
    }
  }

  datatype MirrorID = MirrorID(ns: string, name: string) {
    function String(): string {
      ns + "/" + name
    }
  }

  /** The two halves of `value` around its last slash; without a slash, everything is the name. */
  ghost predicate SplitsAtLastSlash(value: string, ns: string, name: string) {
    && '/' !in name
    && (value == ns + "/" + name || (ns == "" && value == name))
  }

  function SplitSpec(value: string): (r: (string, string))
    ensures SplitsAtLastSlash(value, r.0, r.1)
  {
    if value == "" then ("", "")
    else if value[|value| - 1] == '/' then
      assert value == value[..|value| - 1] + "/" + "";
      (value[..|value| - 1], "")
    else
      var last := |value| - 1;
      var (ns, name) := SplitSpec(value[..last]);
      assert value == value[..last] + [value[last]];
      if '/' in value[..last] then
        assert value == ns + "/" + (name + [value[last]]);
        (ns, name + [value[last]])
      else
        assert '/' !in value;
        ("", value)
  }

  /** Scans backwards for the slash, as every copy of the splitter in the source does. */
  method SplitReflects(value: string) returns (ns: string, name: string)
    ensures (ns, name) == SplitSpec(value)
  {
    var i := |value| - 1;
    while i >= 0
      invariant -1 <= i < |value|
      invariant '/' !in value[i + 1..]
    {
      if value[i] == '/' {
        assert value == value[..i] + "/" + value[i + 1..];
        SplitUnique(value, value[..i], value[i + 1..]);
        return value[..i], value[i + 1..];
      }
      i := i - 1;
    }
    assert value == value[0..];
    SplitUnique(value, "", value);
    return "", value;
  }

  /** The halves are determined: whatever split satisfies the description is the one computed,
      except that a leading slash is always taken as a separator. */
  lemma {:induction false} SplitUnique(value: string, ns: string, name: string)
    requires '/' !in name
    requires value == ns + "/" + name || (ns == "" && value == name)
    ensures SplitSpec(value) == (ns, name)
  {
    var (a, b) := SplitSpec(value);
    if value == ns + "/" + name {
      assert value[|ns|] == '/';
      assert '/' in value;
      assert value == a + "/" + b;
      assert value[|a|] == '/';
      assert |a| == |ns|;
      assert a == value[..|ns|] == ns;
      assert b == value[|ns| + 1..] == name;
    } else {
      assert '/' !in value;
      assert (a + "/" + b)[|a|] == '/';
    }
  }

  /** Printing then splitting gives the identifier back, for every name without a slash
      (the namespace may hold anything). */
  lemma SplitInvertsString(id: SourceID)
    requires '/' !in id.name
    ensures SplitSpec(id.String()) == (id.ns, id.name)
  {
    SplitUnique(id.String(), id.ns, id.name);
  }

  /** Splitting then printing gives the annotation back exactly when it has a slash. */
  lemma StringInvertsSplit(value: string)
    ensures SourceID(SplitSpec(value).0, SplitSpec(value).1).String() == value <==> '/' in value
  {
  }

  /** Two mirrors never share a printed key, so the printed form can key a cache. */
  lemma StringInjective(a: MirrorID, b: MirrorID)
    requires '/' !in a.name && '/' !in b.name
    ensures a.String() == b.String() <==> a == b
  {
    SplitUnique(a.String(), a.ns, a.name);
    SplitUnique(b.String(), b.ns, b.name);
  }
}
