/** The data of a ConfigMap: text and binary values are flattened into one map when a source is
    read and split again, by printability, when its mirror is written. */
module ConfigMapData {
  newtype Byte = x: int | 0 <= x < 256
  type Bytes = seq<Byte>
  type Data = map<string, Bytes>

  predicate Printable(v: Bytes) {
    forall i :: 0 <= i < |v| ==> 32 <= v[i] <= 126
  }

  method IsPrintable(v: Bytes) returns (r: bool)
    ensures r == Printable(v)
  {
    for i := 0 to |v|
      invariant forall k :: 0 <= k < i ==> 32 <= v[k] <= 126
    {
      if v[i] < 32 || v[i] > 126 {
        return false;
      }
    }
    return true;
  }

  /** Empty values count as text. */
  predicate IsBinary(v: Bytes) {
    |v| > 0 && !Printable(v)
  }

  /** A key present in both parts keeps its binary value. */
  function Flatten(text: Data, binary: Data): Data {
    text + binary
  }

  function TextPart(flat: Data): Data {
    map k | k in flat && !IsBinary(flat[k]) :: flat[k]
  }

  function BinaryPart(flat: Data): Data {
    map k | k in flat && IsBinary(flat[k]) :: flat[k]
  }

  /** Copies a map over another key by key, in whatever order the map is walked. */
  method CopyOver(into: Data, from: Data) returns (r: Data)
    ensures r == into + from
  {
    r := into;
    var left := from.Keys;
    while left != {}
      invariant left <= from.Keys && r.Keys == into.Keys + (from.Keys - left)
      invariant forall k | k in r :: r[k] == if k in from && k !in left then from[k] else into[k]
      decreases |left|
    {
      var k :| k in left;
      r, left := r[k := from[k]], left - {k};
    }
  }

  /** Reads the two parts of a ConfigMap, text first. */
  method FlattenParts(text: Data, binary: Data) returns (flat: Data)
    ensures flat == Flatten(text, binary)
  {
    flat := CopyOver(map[], text);
    assert flat == text;
    flat := CopyOver(flat, binary);
  }

  /** Fills the two parts of the mirror key by key. */
  method SplitParts(flat: Data) returns (text: Data, binary: Data)
    ensures text == TextPart(flat) && binary == BinaryPart(flat)
  {
    text, binary := map[], map[];
    var left := flat.Keys;
    while left != {}
      invariant left <= flat.Keys
      invariant text == map k | k in flat && k !in left && !IsBinary(flat[k]) :: flat[k]
      invariant binary == map k | k in flat && k !in left && IsBinary(flat[k]) :: flat[k]
      decreases |left|
    {
      var k :| k in left;
      var printable := IsPrintable(flat[k]);
      if |flat[k]| > 0 && !printable {
        binary := binary[k := flat[k]];
      } else {
        text := text[k := flat[k]];
      }
      left := left - {k};
    }
  }

  /** Splitting loses nothing, and no key lands in both parts. */
  lemma SplitThenFlatten(flat: Data)
    ensures TextPart(flat).Keys !! BinaryPart(flat).Keys
    ensures Flatten(TextPart(flat), BinaryPart(flat)) == flat
  {
  }

  /** A mirror of a mirror is byte-identical to the mirror. */
  lemma SplitIsFixpoint(text: Data, binary: Data)
    ensures var t, b := TextPart(Flatten(text, binary)), BinaryPart(Flatten(text, binary));
            TextPart(Flatten(t, b)) == t && BinaryPart(Flatten(t, b)) == b
  {
  }

  /** A mirror has the same two parts as its source exactly when the source already keeps
      printable (or empty) values as text, the rest as binary, and no key twice. A text value with
      a newline is one that moves to the binary part. */
  lemma MirrorPartsIdentical(text: Data, binary: Data)
    ensures (TextPart(Flatten(text, binary)) == text && BinaryPart(Flatten(text, binary)) == binary)
       <==> && text.Keys !! binary.Keys
            && (forall k | k in text :: !IsBinary(text[k]))
            && (forall k | k in binary :: IsBinary(binary[k]))
  {
  }

  /** A value is text on the mirror exactly if all its bytes lie between space and tilde, so tabs and every
      byte of a longer UTF-8 character make it binary. */
  lemma TextExactlyWhen(k: string, v: Bytes)
    ensures var flat := Flatten(map[k := v], map[]);
            && (k in TextPart(flat) <==> forall b | b in v :: 32 <= b as int < 127)
            && (k in BinaryPart(flat) <==> k !in TextPart(flat))
            && (TextPart(flat) + BinaryPart(flat) == map[k := v])
  {
    assert forall i :: 0 <= i < |v| ==> v[i] in v;
  }

  /** The newline case: text on the source, binary on the mirror. */
  lemma TextWithNewlineMoves(k: string, v: Bytes)
    requires 10 in v
    ensures TextPart(Flatten(map[k := v], map[])) == map[]
    ensures BinaryPart(Flatten(map[k := v], map[])) == map[k := v]
  {
  }
}
