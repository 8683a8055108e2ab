/** Selectors of replication rules: a regular expression that gets an anchor at each end unless
    that end already has one or is `.*`. */
module Selector {
  import opened Identifiers
  import opened Regex
  import opened Anchoring

  predicate HasPrefix(s: string, t: string) {
    |t| <= |s| && s[..|t|] == t
  }

  predicate HasSuffix(s: string, t: string) {
    |t| <= |s| && s[|s| - |t|..] == t
  }

  function SelectorRegex(selector: string): string {
    Anchor(!HasPrefix(selector, "^") && !HasPrefix(selector, ".*"), "^")
    + selector
    + Anchor(!HasSuffix(selector, "$") && !HasSuffix(selector, ".*"), "$")
  }

  function CompileSelector(selector: string, lib: Library): Option<Re> {
    if selector == "" then None else Compile(SelectorRegex(selector), lib)
  }

  /** The controller's, the webhook's and the templating code each build the text themselves. Only the
      templating code goes on with an empty selector. */
  method AnchorSelector(selector: string) returns (text: string)
    ensures text == SelectorRegex(selector)
  {
    text := selector;
    if !HasPrefix(selector, "^") && !HasPrefix(selector, ".*") {
      text := "^" + text;
    } else {
      assert "" + selector == selector;
    }
    if !HasSuffix(selector, "$") && !HasSuffix(selector, ".*") {
      text := text + "$";
    } else {
      assert text + "" == text;
    }
  }

  /** The webhook admits exactly the selectors the controller can compile. */
  method ValidateSelector(selector: string, lib: Library) returns (ok: bool)
    ensures ok <==> CompileSelector(selector, lib).Some?
  {
    if selector == "" {
      return false;
    }
    var text := AnchorSelector(selector);
    return Compile(text, lib).Some?;
  }

  /** The expression whose groups fill a template is the selector's own, where the rule has one. */
  method TemplateExpression(selector: string, lib: Library) returns (re: Option<Re>)
    ensures selector != "" ==> re == CompileSelector(selector, lib)
    ensures selector == "" ==> re.Some? && forall name :: MatchString(re.value, name) <==> name == ""
  {
    var text := AnchorSelector(selector);
    re := Compile(text, lib);
    if selector == "" {
      assert AnchoredText(true, "", true) == SelectorRegex("");
      EmptyAnchored("", lib);
      forall name ensures re.Some? && (MatchString(re.value, name) <==> name == "") {
        EmptyAnchored(name, lib);
      }
    }
  }

  lemma EmptyAnchored(name: string, lib: Library)
    ensures var re := Compile(AnchoredText(true, "", true), lib);
            re.Some? && (MatchString(re.value, name) <==> name == "")
  {
    assert START.top.Alternatives() == [[]];
    OwnCore(true, "", true);
    AnchoredMeaning(true, "", true, lib, name);
    if name == "" {
      assert Accepts(Core(true, "", true), [[]], 0, name, 0, 0);
    }
  }

  function StripStart(selector: string): string {
    if HasPrefix(selector, "^") then selector[1..] else selector
  }

  function StripEnd(s: string): string {
    if HasSuffix(s, "$") then s[..|s| - 1] else s
  }

  /** The selector without the anchors its author wrote. */
  function Body(selector: string): string {
    StripEnd(StripStart(selector))
  }

  /** Whether the compiled selector is held at the start, and at the end, of the name. */
  predicate HeldAtStart(selector: string) {
    !HasPrefix(selector, ".*")
  }

  predicate HeldAtEnd(selector: string) {
    !HasSuffix(selector, ".*")
  }

  /** Prefixes and suffixes by character. */
  lemma Ends(s: string)
    ensures HasPrefix(s, "^") <==> s != "" && s[0] == '^'
    ensures HasPrefix(s, ".*") <==> |s| >= 2 && s[0] == '.' && s[1] == '*'
    ensures HasSuffix(s, "$") <==> s != "" && s[|s| - 1] == '$'
    ensures HasSuffix(s, ".*") <==> |s| >= 2 && s[|s| - 2] == '.' && s[|s| - 1] == '*'
  {
    if s != "" && s[|s| - 1] == '$' {
      assert s[|s| - 1..] == "$";
    }
    if |s| >= 2 && s[|s| - 2] == '.' && s[|s| - 1] == '*' {
      assert s[|s| - 2..] == ".*";
    }
  }

  lemma StartShape(selector: string)
    ensures Anchor(!HasPrefix(selector, "^") && !HasPrefix(selector, ".*"), "^") + selector
            == Anchor(HeldAtStart(selector), "^") + StripStart(selector)
    ensures !HeldAtStart(selector) ==> StripStart(selector) == selector
  {
    Ends(selector);
    if HasPrefix(selector, "^") {
      var rest := selector[1..];
      assert selector == "^" + rest;
      assert "" + selector == selector;
    }
  }

  /** Stripping the front does not change which end the selector has. */
  lemma StripStartKeepsEnd(selector: string)
    ensures HasSuffix(StripStart(selector), "$") <==> HasSuffix(selector, "$")
    ensures HasSuffix(StripStart(selector), ".*") <==> HasSuffix(selector, ".*")
  {
    Ends(selector);
    Ends(StripStart(selector));
  }

  lemma WithoutAnchor(s: string, last: char)
    requires s != "" && s[|s| - 1] == last
    ensures s == s[..|s| - 1] + [last]
  {
  }

  lemma EndShape(s: string)
    ensures s + Anchor(!HasSuffix(s, "$") && !HasSuffix(s, ".*"), "$") == StripEnd(s) + Anchor(HeldAtEnd(s), "$")
    ensures !HeldAtEnd(s) ==> StripEnd(s) == s
  {
    Ends(s);
    if HasSuffix(s, "$") {
      WithoutAnchor(s, '$');
      assert Anchor(HeldAtEnd(s), "$") == ['$'];
      assert s + Anchor(false, "$") == s;
    }
  }

  lemma StripEndKeepsStart(s: string)
    requires HasPrefix(s, ".*")
    ensures HasPrefix(StripEnd(s), ".*")
  {
    Ends(s);
    Ends(StripEnd(s));
  }

  lemma Reassociate(a: string, s: string, b: string, a': string, t: string, b': string, u: string)
    requires a + s == a' + t && t + b == u + b'
    ensures a + s + b == a' + u + b'
  {
    assert a + s + b == a' + (t + b);
    assert a' + (u + b') == a' + u + b';
  }

  /** Both anchors of the author are taken off and put back. */
  lemma RegexShape(selector: string)
    ensures SelectorRegex(selector) ==
            Anchor(HeldAtStart(selector), "^") + Body(selector) + Anchor(HeldAtEnd(selector), "$")
    ensures !HeldAtStart(selector) ==> HasPrefix(Body(selector), ".*")
    ensures !HeldAtEnd(selector) ==> HasSuffix(Body(selector), ".*")
  {
    var s := StripStart(selector);
    StartShape(selector);
    StripStartKeepsEnd(selector);
    EndShape(s);
    if HasPrefix(s, ".*") {
      StripEndKeepsStart(s);
    }
    Reassociate(Anchor(!HasPrefix(selector, "^") && !HasPrefix(selector, ".*"), "^"), selector,
                Anchor(!HasSuffix(selector, "$") && !HasSuffix(selector, ".*"), "$"),
                Anchor(HeldAtStart(selector), "^"), s, Anchor(HeldAtEnd(selector), "$"), StripEnd(s));
  }

  // ---- open ends -----------------------------------------------------------------------

  /** A well-formed text that starts with `.*` has that as the first item. */
  lemma ParseLeadingStar(text: string)
    requires Parse(text).Some? && HasPrefix(text, ".*")
    ensures Parse(text).value[0] != [] && Parse(text).value[0][0] == Star(Any)
  {
    var rest := text[2..];
    LeadingStarSplits(text);
    FeedAppend(START, ['.', '*'], rest);
    LeadingStarIsFront();
    if rest != "" && rest[0] == '?' {
      LazyAfter(Star(Any), rest[1..]);
    }
    FeedAllFronted(START, rest, Star(Any));
    AlternativesPrefixed(FeedAll(START, rest).top, Star(Any));
  }

  lemma LeadingStarSplits(text: string)
    requires HasPrefix(text, ".*")
    ensures text == ['.', '*'] + text[2..]
  {
  }

  lemma LeadingStarIsFront()
    ensures FeedAll(START, ['.', '*']) == Fronted(START, Star(Any))
  {
    FeedTwo(START, '.', '*');
    ReadStar(START);
    assert START.top.cur + [Star(Any)] == [Star(Any)] + START.top.cur;
  }

  lemma {:induction false} NeverEscaped(p: Parser, text: string)
    requires p.Reading? ==> !p.escaped
    requires '\\' !in text
    ensures FeedAll(p, text).Reading? ==> !FeedAll(p, text).escaped
    decreases |text|
  {
    if text != "" {
      assert text[0] in text;
      assert forall c | c in text[1..] :: c in text;
      NeverEscaped(Feed(p, text[0]), text[1..]);
    }
  }

  /** Without escapes, a text that ends in `.*` has that as the last item. */
  lemma ParseTrailingStar(text: string)
    requires Parse(text).Some? && HasSuffix(text, ".*") && '\\' !in text
    ensures var alts := Parse(text).value; var last := alts[|alts| - 1];
            last != [] && last[|last| - 1] == Star(Any)
  {
    var t := text[..|text| - 2];
    assert text == t + ['.', '*'];
    assert forall c | c in t :: c in text;
    NeverEscaped(START, t);
    FeedAppend(START, t, ['.', '*']);
    FeedTwo(FeedAll(START, t), '.', '*');
  }

  // ---- meaning -------------------------------------------------------------------------

  lemma WidenLeft(items: seq<Re>, s: string, i: nat, j: nat)
    requires items != [] && items[0] == Star(Any) && NoNewline(s)
    requires i <= j <= |s| && Spans(CatAll(items), s, i, j)
    ensures Spans(CatAll(items), s, 0, j)
  {
    var m := CatSplit(Star(Any), CatAll(items[1..]), s, i, j);
    AnyStarSpans(s, 0, m);
    CatJoin(Star(Any), CatAll(items[1..]), s, 0, m, j);
  }

  lemma WidenRight(items: seq<Re>, s: string, i: nat, j: nat)
    requires items != [] && items[|items| - 1] == Star(Any) && NoNewline(s)
    requires i <= j <= |s| && Spans(CatAll(items), s, i, j)
    ensures Spans(CatAll(items), s, i, |s|)
  {
    var front := items[..|items| - 1];
    assert items == front + [Star(Any)];
    var m := ItemsSplit(front, [Star(Any)], s, i, j);
    AnyStarSpans(s, m, |s|);
    CatSingle(Star(Any), s, m, |s|);
    ItemsJoin(front, [Star(Any)], s, i, m, |s|);
  }

  /** What the author's expression comes to once it is anchored. */
  function SelectorCore(selector: string): Core {
    CoreOf(HeldAtStart(selector), Body(selector), HeldAtEnd(selector))
  }

  /** What a compiled selector accepts, for every selector of the fragment, alternation and escapes included:
      the anchors bind to the first and the last alternative only, so the ones between match anywhere in the
      name; an escaped dollar and an anchor under `*` or `?` hold nothing. */
  lemma SelectorMeaning(selector: string, lib: Library, name: string)
    requires InFragment(SelectorRegex(selector))
    ensures var core, re := SelectorCore(selector), CompileSelector(selector, lib);
            && (re.Some? <==> selector != "" && Parse(core.body).Some?)
            && (re.Some? ==> (MatchString(re.value, name) <==> AcceptsSome(core, Parse(core.body).value, name)))
  {
    RegexShape(selector);
    AnchoredMeaning(HeldAtStart(selector), Body(selector), HeldAtEnd(selector), lib, name);
  }

  /** Without top-level alternation and escapes, searching with the compiled selector is matching
      the whole name, whichever ends were anchored: an end left open is `.*` and absorbs the rest. */
  lemma SelectorIsFullMatch(selector: string, lib: Library, name: string)
    requires selector != "" && '\\' !in selector && NoNewline(name)
    requires Parse(Body(selector)).Some? && |Parse(Body(selector)).value| == 1
    ensures CompileSelector(selector, lib).Some?
    ensures MatchString(CompileSelector(selector, lib).value, name) <==>
            FullMatch(CatAll(Parse(Body(selector)).value[0]), name)
  {
    var core, alts := SelectorCore(selector), Parse(Body(selector)).value;
    RegexShape(selector);
    OwnCore(HeldAtStart(selector), Body(selector), HeldAtEnd(selector));
    SelectorMeaning(selector, lib, name);
    if FullMatch(CatAll(alts[0]), name) {
      assert Accepts(core, alts, 0, name, 0, |name|);
    }
    if k: nat, i: nat, j: nat :| k < |alts| && i <= j <= |name| && Accepts(core, alts, k, name, i, j) {
      assert alts == [alts[0]];
      OpenEndsAbsorb(selector, name, alts[0], i, j);
    }
  }

  /** An end that is not held can be stretched to the end of the name. */
  lemma OpenEndsAbsorb(selector: string, name: string, items: seq<Re>, i: nat, j: nat)
    requires '\\' !in selector && NoNewline(name)
    requires Parse(Body(selector)) == Some([items])
    requires i <= j <= |name| && Spans(CatAll(items), name, i, j)
    requires (HeldAtStart(selector) ==> i == 0) && (HeldAtEnd(selector) ==> j == |name|)
    ensures FullMatch(CatAll(items), name)
  {
    RegexShape(selector);
    if !HeldAtStart(selector) {
      ParseLeadingStar(Body(selector));
      WidenLeft(items, name, i, j);
    }
    if !HeldAtEnd(selector) {
      assert forall c | c in Body(selector) :: c in selector;
      ParseTrailingStar(Body(selector));
      WidenRight(items, name, 0, j);
    }
  }

  lemma ParseAOrB()
    ensures Parse("a|b") == Some([[Lit('a')], [Lit('b')]])
  {
    assert "a|b" == "a" + "|" + "b";
    FeedAppend(START, "a" + "|", "b");
    FeedAppend(START, "a", "|");
    FeedOne(START, 'a');
    FeedOne(Feed(START, 'a'), '|');
    FeedOne(Feed(Feed(START, 'a'), '|'), 'b');
    assert Feed(START, 'a') == Reading([], Level([], [Lit('a')]), false);
    assert Feed(Feed(START, 'a'), '|') == Reading([], Level([[Lit('a')]], []), false);
    assert FeedAll(START, "a|b") == Reading([], Level([[Lit('a')]], [Lit('b')]), false);
    assert Level([[Lit('a')]], [Lit('b')]).Alternatives() == [[Lit('a')], [Lit('b')]];
  }

  /** With alternation the anchors do not hold the whole name: `a|b` accepts `ax`, which neither
      alternative matches. */
  lemma AlternationEscapesAnchors(lib: Library)
    ensures Parse(Body("a|b")) == Some([[Lit('a')], [Lit('b')]])
    ensures CompileSelector("a|b", lib).Some? && MatchString(CompileSelector("a|b", lib).value, "ax")
    ensures !FullMatch(CatAll([Lit('a')]), "ax") && !FullMatch(CatAll([Lit('b')]), "ax")
  {
    Ends("a|b");
    ParseAOrB();
    RegexShape("a|b");
    OwnCore(true, "a|b", true);
    SelectorMeaning("a|b", lib, "ax");
    CatSingle(Lit('a'), "ax", 0, 1);
    assert Accepts(Core(true, "a|b", true), [[Lit('a')], [Lit('b')]], 0, "ax", 0, 1);
    CatSingle(Lit('a'), "ax", 0, 2);
    CatSingle(Lit('b'), "ax", 0, 2);
  }
}
