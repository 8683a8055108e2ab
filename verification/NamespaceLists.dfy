/** Comma-separated namespace lists in annotations: one printer and two independent parsers, a
    hand-written one that trims spaces and tabs and one that trims all white space. */
module NamespaceLists {
  import opened Text
  import opened Entities

  // ---- what the operations compute -----------------------------------------------------

  function Join(xs: seq<string>): string {
    if xs == [] then "" else if |xs| == 1 then xs[0] else xs[0] + "," + Join(xs[1..])
  }

  /** The stretches between commas, empty ones included. */
  function Pieces(v: string): (r: seq<string>)
    ensures r != []
  {
    if v == "" then [""]
    else if v[0] == ',' then [""] + Pieces(v[1..])
    else Glue([v[0]], Pieces(v[1..]))
  }

  function Glue(s: string, pieces: seq<string>): (r: seq<string>)
    requires pieces != []
    ensures |r| == |pieces|
  {
    [s + pieces[0]] + pieces[1..]
  }

  function NonEmpty(xs: seq<string>): seq<string> {
    if xs == [] then [] else (if xs[0] == "" then [] else [xs[0]]) + NonEmpty(xs[1..])
  }

  /** The trimmed pieces that are not empty. */
  function Keep(pieces: seq<string>, p: char -> bool): seq<string> {
    if pieces == [] then []
    else (if Trim(pieces[0], p) == "" then [] else [Trim(pieces[0], p)]) + Keep(pieces[1..], p)
  }

  function ParseList(v: string): seq<string> {
    Keep(Pieces(v), IsBlank)
  }

  function ParsePatterns(v: string): seq<string> {
    if v == "" || v == "*" then ["*"] else Keep(Pieces(v), IsSpace)
  }

  // ---- the loops -----------------------------------------------------------------------

  lemma {:induction false} JoinSnoc(xs: seq<string>, x: string)
    ensures Join(xs + [x]) == if xs == [] then x else Join(xs) + "," + x
  {
    if xs == [] {
      assert xs + [x] == [x];
    } else {
      assert (xs + [x])[1..] == xs[1..] + [x];
      JoinSnoc(xs[1..], x);
      if |xs| > 1 {
        assert xs[0] + "," + (Join(xs[1..]) + "," + x) == xs[0] + "," + Join(xs[1..]) + "," + x;
      }
    }
  }

  method JoinNamespaces(xs: seq<string>) returns (r: string)
    ensures r == Join(xs)
  {
    r := "";
    for i := 0 to |xs|
      invariant r == Join(xs[..i])
    {
      JoinSnoc(xs[..i], xs[i]);
      assert xs[..i + 1] == xs[..i] + [xs[i]];
      if i > 0 {
        r := r + ",";
      }
      r := r + xs[i];
    }
    assert xs[..|xs|] == xs;
  }

  lemma GlueNothing(pieces: seq<string>)
    requires pieces != []
    ensures Glue("", pieces) == pieces
  {
    assert "" + pieces[0] == pieces[0];
  }

  lemma GlueTwice(s: string, t: string, pieces: seq<string>)
    requires pieces != []
    ensures Glue(s, Glue(t, pieces)) == Glue(s + t, pieces)
  {
    assert s + (t + pieces[0]) == s + t + pieces[0];
  }

  method SplitNamespaces(v: string) returns (result: seq<string>)
    ensures result == NonEmpty(Pieces(v))
  {
    result := [];
    var current := "";
    GlueNothing(Pieces(v));
    assert v[0..] == v;
    for i := 0 to |v|
      invariant NonEmpty(Pieces(v)) == result + NonEmpty(Glue(current, Pieces(v[i..])))
    {
      ghost var here, next := Pieces(v[i..]), Pieces(v[i + 1..]);
      assert v[i..][1..] == v[i + 1..];
      if v[i] == ',' {
        assert Glue(current, here)[1..] == next && Glue(current, here)[0] == current;
        if current != "" {
          result := result + [current];
        }
        current := "";
        GlueNothing(next);
      } else {
        GlueTwice(current, [v[i]], next);
        current := current + [v[i]];
      }
    }
    assert Glue(current, [""]) == [current] by {
      assert current + "" == current;
    }
    assert [current][1..] == [];
    if current != "" {
      result := result + [current];
    }
  }

  method TrimBlanks(s: string) returns (r: string)
    ensures r == Trim(s, IsBlank)
  {
    var start, end := 0, |s|;
    while start < end && (s[start] == ' ' || s[start] == '\t')
      invariant 0 <= start <= end == |s|
      invariant All(s[..start], IsBlank)
    {
      start := start + 1;
    }
    while end > start && (s[end - 1] == ' ' || s[end - 1] == '\t')
      invariant start <= end <= |s|
      invariant start < |s| && start < end ==> !IsBlank(s[start])
      invariant All(s[end..], IsBlank)
    {
      end := end - 1;
    }
    TrimUnique(s, IsBlank, start, end);
    return s[start..end];
  }

  lemma {:induction false} KeepAppend(a: seq<string>, b: seq<string>, p: char -> bool)
    ensures Keep(a + b, p) == Keep(a, p) + Keep(b, p)
  {
    if a == [] {
      assert a + b == b;
    } else {
      assert (a + b)[1..] == a[1..] + b;
      KeepAppend(a[1..], b, p);
    }
  }

  lemma {:induction false} KeepNonEmpty(xs: seq<string>, p: char -> bool)
    ensures Keep(NonEmpty(xs), p) == Keep(xs, p)
  {
    if xs != [] {
      KeepNonEmpty(xs[1..], p);
      if xs[0] != "" {
        assert NonEmpty(xs)[1..] == NonEmpty(xs[1..]);
      } else {
        assert Trim("", p) == "";
        assert NonEmpty(xs) == NonEmpty(xs[1..]);
        assert Keep(xs, p) == Keep(xs[1..], p);
      }
    }
  }

  lemma KeepSnoc(xs: seq<string>, x: string, p: char -> bool)
    ensures Keep(xs + [x], p) == Keep(xs, p) + if Trim(x, p) == "" then [] else [Trim(x, p)]
  {
    KeepAppend(xs, [x], p);
    assert [x][1..] == [];
  }

  method ParseNamespaceList(v: string) returns (parts: seq<string>)
    ensures parts == ParseList(v)
  {
    parts := [];
    if v == "" {
      assert Pieces(v) == [""] && Trim("", IsBlank) == "";
      return;
    }
    var pieces := SplitNamespaces(v);
    for i := 0 to |pieces|
      invariant parts == Keep(pieces[..i], IsBlank)
    {
      var p := TrimBlanks(pieces[i]);
      assert pieces[..i + 1] == pieces[..i] + [pieces[i]];
      KeepSnoc(pieces[..i], pieces[i], IsBlank);
      if p != "" {
        parts := parts + [p];
      }
    }
    assert pieces[..|pieces|] == pieces;
    KeepNonEmpty(Pieces(v), IsBlank);
  }

  method ParseAllowedNamespacesAnnotation(v: string) returns (result: seq<string>)
    ensures result == ParsePatterns(v)
  {
    if v == "" || v == "*" {
      return ["*"];
    }
    var pieces := Pieces(v);
    result := [];
    for i := 0 to |pieces|
      invariant result == Keep(pieces[..i], IsSpace)
    {
      var p := TrimSpace(pieces[i]);
      assert pieces[..i + 1] == pieces[..i] + [pieces[i]];
      KeepSnoc(pieces[..i], pieces[i], IsSpace);
      if p != "" {
        result := result + [p];
      }
    }
    assert pieces[..|pieces|] == pieces;
  }

  // ---- round trips ---------------------------------------------------------------------

  ghost predicate Item(x: string) {
    x != "" && ',' !in x && Trimmed(x, IsBlank)
  }

  ghost predicate Items(xs: seq<string>) {
    forall i :: 0 <= i < |xs| ==> Item(xs[i])
  }

  /** A comma-free text is one piece; up to a comma it is the first. */
  lemma {:induction false} PiecesOf(a: string, b: string)
    requires ',' !in a
    ensures Pieces(a) == [a]
    ensures Pieces(a + "," + b) == [a] + Pieces(b)
  {
    if a == "" {
      assert a + "," + b == "," + b;
      assert ("," + b)[1..] == b;
    } else {
      assert forall c | c in a[1..] :: c in a;
      assert a[0] in a;
      PiecesOf(a[1..], b);
      assert (a + "," + b)[1..] == a[1..] + "," + b;
      assert a == [a[0]] + a[1..];
    }
  }

  /** Parsing a printed list gives the list back, the empty list included. */
  lemma {:induction false} ParseInvertsJoin(xs: seq<string>)
    requires Items(xs)
    ensures ParseList(Join(xs)) == xs
  {
    if xs == [] {
      assert Pieces("") == [""] && Trim("", IsBlank) == "";
    } else {
      assert Item(xs[0]);
      TrimOfTrimmed(xs[0], IsBlank);
      if |xs| == 1 {
        PiecesOf(xs[0], "");
        assert xs == [xs[0]];
        assert Keep([xs[0]], IsBlank) == [xs[0]] by {
          assert [xs[0]][1..] == [];
        }
      } else {
        PiecesOf(xs[0], Join(xs[1..]));
        assert ([xs[0]] + Pieces(Join(xs[1..])))[1..] == Pieces(Join(xs[1..]));
        ParseInvertsJoin(xs[1..]);
      }
    }
  }

  ghost predicate CommaFree(xs: seq<string>) {
    forall i :: 0 <= i < |xs| ==> ',' !in xs[i]
  }

  lemma {:induction false} PiecesCommaFree(v: string)
    ensures CommaFree(Pieces(v))
  {
    if v != "" {
      PiecesCommaFree(v[1..]);
    }
  }

  lemma {:induction false} KeepItems(pieces: seq<string>)
    requires CommaFree(pieces)
    ensures Items(Keep(pieces, IsBlank))
  {
    if pieces != [] {
      var i, j := TrimAt(pieces[0], IsBlank);
      assert forall c | c in pieces[0][i..j] :: c in pieces[0];
      KeepItems(pieces[1..]);
    }
  }

  /** Whatever an annotation says, printing what was parsed and parsing again changes nothing. */
  lemma ParseJoinParse(v: string)
    ensures ParseList(Join(ParseList(v))) == ParseList(v)
  {
    PiecesCommaFree(v);
    KeepItems(Pieces(v));
    ParseInvertsJoin(ParseList(v));
  }

  /** What a parser keeps is trimmed and not empty. */
  lemma {:induction false} KeepTrimmed(pieces: seq<string>, p: char -> bool)
    ensures forall i :: 0 <= i < |Keep(pieces, p)| ==> Keep(pieces, p)[i] != "" && Trimmed(Keep(pieces, p)[i], p)
  {
    if pieces != [] {
      KeepTrimmed(pieces[1..], p);
      TrimIsTrimmed(pieces[0], p);
    }
  }

  // ---- the two parsers -----------------------------------------------------------------

  lemma TrimNothing(s: string, p: char -> bool, q: char -> bool)
    requires forall c :: p(c) ==> q(c)
    requires Trim(s, p) == ""
    ensures Trim(s, q) == ""
  {
    var i, j := TrimAt(s, p);
    assert s == s[..i] + s[j..];
    assert All(s, q) by {
      forall k | 0 <= k < |s| ensures q(s[k]) {
        assert if k < i then s[k] == s[..i][k] else s[k] == s[j..][k - j];
      }
    }
    assert s[|s|..] == "" && s[..|s|] == s;
    TrimUnique(s, q, |s|, |s|);
  }

  lemma {:induction false} KeepShorter(pieces: seq<string>)
    ensures |Keep(pieces, IsSpace)| <= |Keep(pieces, IsBlank)|
  {
    if pieces != [] {
      KeepShorter(pieces[1..]);
      if Trim(pieces[0], IsBlank) == "" {
        TrimNothing(pieces[0], IsBlank, IsSpace);
      }
    }
  }

  ghost predicate TrimAlike(pieces: seq<string>) {
    forall i :: 0 <= i < |pieces| ==> Trim(pieces[i], IsBlank) == Trim(pieces[i], IsSpace)
  }

  /** What the first piece contributes. */
  lemma KeepFirst(pieces: seq<string>, p: char -> bool)
    requires pieces != []
    ensures var x, rest := Trim(pieces[0], p), Keep(pieces[1..], p);
            if x == "" then Keep(pieces, p) == rest
            else Keep(pieces, p) != [] && Keep(pieces, p)[0] == x && Keep(pieces, p)[1..] == rest
  {
  }

  lemma {:induction false} KeepAlike(pieces: seq<string>)
    ensures Keep(pieces, IsBlank) == Keep(pieces, IsSpace) <==> TrimAlike(pieces)
  {
    if pieces != [] {
      var rest := pieces[1..];
      KeepAlike(rest);
      KeepShorter(rest);
      KeepFirst(pieces, IsBlank);
      KeepFirst(pieces, IsSpace);
      assert TrimAlike(pieces) <==> Trim(pieces[0], IsBlank) == Trim(pieces[0], IsSpace) && TrimAlike(rest) by {
        assert forall i :: 0 < i < |pieces| ==> pieces[i] == rest[i - 1];
      }
      if Trim(pieces[0], IsBlank) == "" {
        TrimNothing(pieces[0], IsBlank, IsSpace);
      } else if Trim(pieces[0], IsBlank) == Trim(pieces[0], IsSpace) && TrimAlike(rest) {
        assert Keep(pieces, IsBlank) == [Trim(pieces[0], IsBlank)] + Keep(rest, IsBlank);
        assert Keep(pieces, IsSpace) == [Trim(pieces[0], IsSpace)] + Keep(rest, IsSpace);
      }
    }
  }

  lemma StarList()
    ensures Keep(Pieces("*"), IsSpace) == ["*"]
  {
    PiecesOf("*", "");
    TrimOfTrimmed("*", IsSpace);
    assert ["*"][1..] == [];
  }

  /** The two trimmers agree on a text exactly when what is left between its spaces and tabs neither
      begins nor ends with other white space. */
  lemma TrimmersAgree(s: string)
    ensures Trim(s, IsBlank) == Trim(s, IsSpace) <==> Trimmed(Trim(s, IsBlank), IsSpace)
  {
    TrimIsTrimmed(s, IsSpace);
    if Trimmed(Trim(s, IsBlank), IsSpace) {
      var a, b := TrimAt(s, IsBlank);
      assert All(s[..a], IsSpace) && All(s[b..], IsSpace);
      TrimUnique(s, IsSpace, a, b);
    }
  }

  /** No piece has white space at its ends but spaces and tabs. */
  ghost predicate BlankEnds(pieces: seq<string>) {
    forall i :: 0 <= i < |pieces| ==> Trimmed(Trim(pieces[i], IsBlank), IsSpace)
  }

  /** The parsers agree exactly on the non-empty annotations in which no piece has other white space
      than spaces and tabs at its ends; on the empty one they differ. */
  lemma ParsersAgree(v: string)
    ensures ParseList(v) == ParsePatterns(v) <==> v != "" && BlankEnds(Pieces(v))
  {
    KeepAlike(Pieces(v));
    forall i | 0 <= i < |Pieces(v)|
      ensures Trim(Pieces(v)[i], IsBlank) == Trim(Pieces(v)[i], IsSpace) <==>
              Trimmed(Trim(Pieces(v)[i], IsBlank), IsSpace)
    {
      TrimmersAgree(Pieces(v)[i]);
    }
    if v == "*" {
      StarList();
    }
    if v == "" {
      assert Pieces("") == [""] && Trim("", IsBlank) == "";
    }
  }

  /** In particular they agree when the annotation has no white space but spaces and tabs. */
  lemma ParsersAgreeOnBlanks(v: string)
    requires v != "" && forall c | c in v :: IsSpace(c) ==> IsBlank(c)
    ensures ParseList(v) == ParsePatterns(v)
  {
    PiecesWithin(v);
    forall i | 0 <= i < |Pieces(v)| ensures Trimmed(Trim(Pieces(v)[i], IsBlank), IsSpace) {
      var s := Pieces(v)[i];
      var a, b := TrimAt(s, IsBlank);
      assert forall c | c in s[a..b] :: c in s;
    }
    ParsersAgree(v);
  }

  lemma {:induction false} PiecesWithin(v: string)
    ensures forall i, c :: 0 <= i < |Pieces(v)| && c in Pieces(v)[i] ==> c in v
  {
    if v != "" {
      PiecesWithin(v[1..]);
      var rest := Pieces(v[1..]);
      forall i, c | 0 <= i < |rest| && c in rest[i] ensures c in v {
        assert c in v[1..];
      }
      if v[0] == ',' {
        assert forall i :: 0 < i < |Pieces(v)| ==> Pieces(v)[i] == rest[i - 1];
      } else {
        assert forall i :: 0 < i < |Pieces(v)| ==> Pieces(v)[i] == rest[i];
        assert Pieces(v)[0] == [v[0]] + rest[0];
      }
    }
  }

  // ---- the source record ---------------------------------------------------------------

  /** The part of the record that annotations carry. */
  datatype SourceRecord = SourceRecord(
    allowed: bool, allowedNamespaces: seq<string>, autoEnabled: bool, autoNamespaces: seq<string>)

  function BoolToString(b: bool): string {
    if b then "true" else "false"
  }

  function ToAnnotations(d: SourceRecord): map<AnnotationKey, string> {
    map[Replicate := BoolToString(d.allowed), AutoReplicate := BoolToString(d.autoEnabled)]
    + (if d.allowedNamespaces != [] then map[ReplicateTo := Join(d.allowedNamespaces)] else map[])
    + (if d.autoNamespaces != [] then map[AutoReplicateTo := Join(d.autoNamespaces)] else map[])
  }

  function ParseAnnotations(a: Annotations): SourceRecord {
    SourceRecord(
      a.Has(Replicate) && a.Get(Replicate) == "true",
      if a.Has(ReplicateTo) then ParseList(a.Get(ReplicateTo)) else [],
      a.Has(AutoReplicate) && a.Get(AutoReplicate) == "true",
      if a.Has(AutoReplicateTo) then ParseList(a.Get(AutoReplicateTo)) else [])
  }

  lemma FlagRoundTrip(b: bool)
    ensures (BoolToString(b) == "true") == b
  {
  }

  /** What each annotation says after printing. */
  lemma Printed(d: SourceRecord)
    ensures var a := Annotations(ToAnnotations(d));
            && a.Has(Replicate) && a.Get(Replicate) == (if d.allowed then "true" else "false")
            && a.Has(AutoReplicate) && a.Get(AutoReplicate) == (if d.autoEnabled then "true" else "false")
            && a.Has(ReplicateTo) == (d.allowedNamespaces != [])
            && a.Has(AutoReplicateTo) == (d.autoNamespaces != [])
            && (a.Has(ReplicateTo) ==> a.Get(ReplicateTo) == Join(d.allowedNamespaces))
            && (a.Has(AutoReplicateTo) ==> a.Get(AutoReplicateTo) == Join(d.autoNamespaces))
  {
  }

  /** A record survives the trip through annotations exactly when its lists do: that is, when they
      are what parsing can give. */
  lemma RecordRoundTrip(d: SourceRecord)
    ensures ParseAnnotations(Annotations(ToAnnotations(d))) == d
       <==> Items(d.allowedNamespaces) && Items(d.autoNamespaces)
  {
    Printed(d);
    FlagRoundTrip(d.allowed);
    FlagRoundTrip(d.autoEnabled);
    ListRoundTrip(d.allowedNamespaces);
    ListRoundTrip(d.autoNamespaces);
  }

  lemma ListRoundTrip(xs: seq<string>)
    ensures ParseList(Join(xs)) == xs <==> Items(xs)
  {
    if Items(xs) {
      ParseInvertsJoin(xs);
    }
    PiecesCommaFree(Join(xs));
    KeepItems(Pieces(Join(xs)));
  }
}
