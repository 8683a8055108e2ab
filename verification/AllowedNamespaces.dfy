/** Namespace policies: a list of globs is compiled to regular expressions by successive text
    replacements, and a namespace is allowed when one of them matches. */
module AllowedNamespaces {
  import opened Identifiers
  import opened Regex
  import opened Anchoring
  import opened Text

  // ---- what a glob means ---------------------------------------------------------------

  /** `*` stands for any newline-free run, every other character for itself. */
  predicate GlobMatches(pattern: string, name: string)
    decreases |pattern|
  {
    if pattern == "" then name == ""
    else if pattern[0] == '*' then
      exists k: nat :: k <= |name| && NoNewline(name[..k]) && GlobMatches(pattern[1..], name[k..])
    else name != "" && name[0] == pattern[0] && GlobMatches(pattern[1..], name[1..])
  }

  predicate IsBracket(c: char) {
    c == '[' || c == ']'
  }

  /** The pattern without its brackets: the compiler turns them into groups, which match nothing
      of their own. */
  function EraseBrackets(pattern: string): string {
    if pattern == "" then ""
    else (if IsBracket(pattern[0]) then "" else [pattern[0]]) + EraseBrackets(pattern[1..])
  }

  /** Brackets left open after `pattern`, starting from `depth`; `None` when one closes too early. */
  function BracketDepth(depth: nat, pattern: string): Option<nat>
    decreases |pattern|
  {
    if pattern == "" then Some(depth)
    else if pattern[0] == '[' then BracketDepth(depth + 1, pattern[1..])
    else if pattern[0] == ']' then
      if depth == 0 then None else BracketDepth(depth - 1, pattern[1..])
    else BracketDepth(depth, pattern[1..])
  }

  predicate Balanced(pattern: string) {
    BracketDepth(0, pattern) == Some(0)
  }

  /** Not special to the regular-expression syntax, or one of those the compiler rewrites. */
  predicate IsGlobChar(c: char) {
    c !in "\\+?(){}|^$"
  }

  predicate IsGlob(pattern: string) {
    forall c | c in pattern :: IsGlobChar(c)
  }

  // ---- compilation ---------------------------------------------------------------------

  function ReplaceAll(s: string, target: char, text: string): string {
    if s == "" then "" else (if s[0] == target then text else [s[0]]) + ReplaceAll(s[1..], target, text)
  }

  /** The four passes over the pattern, in the order of the source. */
  function GlobRegex(pattern: string): string {
    var escaped := ReplaceAll(pattern, '.', "\\.");
    var starred := ReplaceAll(escaped, '*', ".*");
    var grouped := ReplaceAll(starred, '[', "(");
    ReplaceAll(grouped, ']', ")")
  }

  /** The text that is compiled for a pattern. */
  function PatternText(pattern: string): string {
    "^" + GlobRegex(pattern) + "$"
  }

  function CompileGlob(pattern: string, lib: Library): Option<Re> {
    Compile(PatternText(pattern), lib)
  }

  function EmitChar(c: char): string {
    if c == '.' then "\\." else if c == '*' then ".*" else if c == '[' then "(" else if c == ']' then ")" else [c]
  }

  function Emit(pattern: string): string {
    if pattern == "" then "" else EmitChar(pattern[0]) + Emit(pattern[1..])
  }

  lemma {:induction false} ReplaceAppend(a: string, b: string, target: char, text: string)
    ensures ReplaceAll(a + b, target, text) == ReplaceAll(a, target, text) + ReplaceAll(b, target, text)
  {
    if a == "" {
      assert a + b == b;
    } else {
      assert (a + b)[1..] == a[1..] + b;
      ReplaceAppend(a[1..], b, target, text);
    }
  }

  lemma ReplaceOne(c: char, target: char, text: string)
    ensures ReplaceAll([c], target, text) == if c == target then text else [c]
  {
  }

  lemma ReplaceTwo(c: char, d: char, target: char, text: string)
    requires c != target && d != target
    ensures ReplaceAll([c, d], target, text) == [c, d]
  {
    assert [c, d] == [c] + [d];
    ReplaceAppend([c], [d], target, text);
    ReplaceOne(c, target, text);
    ReplaceOne(d, target, text);
  }

  /** No pass rewrites what an earlier pass produced, so the four passes act on each character
      of the pattern separately. */
  lemma {:induction false} PassesAreSimultaneous(pattern: string)
    ensures GlobRegex(pattern) == Emit(pattern)
  {
    if pattern != "" {
      var head, tail := [pattern[0]], pattern[1..];
      assert pattern == head + tail;
      ReplaceAppend(head, tail, '.', "\\.");
      var a, a' := ReplaceAll(head, '.', "\\."), ReplaceAll(tail, '.', "\\.");
      ReplaceAppend(a, a', '*', ".*");
      var b, b' := ReplaceAll(a, '*', ".*"), ReplaceAll(a', '*', ".*");
      ReplaceAppend(b, b', '[', "(");
      var c, c' := ReplaceAll(b, '[', "("), ReplaceAll(b', '[', "(");
      ReplaceAppend(c, c', ']', ")");
      PassesAreSimultaneous(tail);
      EmitsOneCharacter(pattern[0]);
    }
  }

  lemma EmitsOneCharacter(c: char)
    ensures GlobRegex([c]) == EmitChar(c)
  {
    ReplaceOne(c, '.', "\\.");
    if c == '.' {
      ReplaceTwo('\\', '.', '*', ".*");
      ReplaceTwo('\\', '.', '[', "(");
      ReplaceTwo('\\', '.', ']', ")");
    } else {
      ReplaceOne(c, '*', ".*");
      if c == '*' {
        ReplaceTwo('.', '*', '[', "(");
        ReplaceTwo('.', '*', ']', ")");
      } else {
        ReplaceOne(c, '[', "(");
        ReplaceOne(if c == '[' then '(' else c, ']', ")");
      }
    }
  }

  // ---- compilation preserves meaning ---------------------------------------------------

  /** The item a single glob character stands for. */
  function Item(c: char): seq<Re> {
    if IsBracket(c) then [] else if c == '*' then [Star(Any)] else [Lit(c)]
  }

  /** The items a glob stands for. */
  function Items(pattern: string): seq<Re> {
    if pattern == "" then []
    else Item(pattern[0]) + Items(pattern[1..])
  }

  function FlatOpen(open: seq<Level>): seq<Re> {
    if open == [] then [] else FlatOpen(open[..|open| - 1]) + open[|open| - 1].cur
  }

  /** Everything the parser has read so far, group boundaries forgotten. */
  function Flat(p: Parser): seq<Re>
    requires p.Reading?
  {
    FlatOpen(p.open) + p.top.cur
  }

  /** A parser state that a glob can lead to: between characters, no alternation. */
  ghost predicate GlobState(p: Parser) {
    && p.Reading?
    && !p.escaped
    && p.top.done == []
    && forall k :: 0 <= k < |p.open| ==> p.open[k].done == []
  }

  lemma EquivalentRefl(xs: seq<Re>)
    ensures Equivalent(xs, xs)
  {
  }

  /** Closing a group leaves the meaning of what was read unchanged. */
  lemma CloseGroup(p: Parser)
    requires GlobState(p) && p.open != []
    ensures var q := Feed(p, ')');
            GlobState(q) && |q.open| == |p.open| - 1 && Equivalent(Flat(q), Flat(p))
  {
    var q := Feed(p, ')');
    var n := |p.open| - 1;
    var outer := p.open[n];
    assert p.top.Alternatives() == [p.top.cur];
    var before := FlatOpen(p.open[..n]) + outer.cur;
    GroupIsTransparent(p.top.cur);
    EquivalentRefl(before);
    EquivalentAppend(before, [Group(CatAll(p.top.cur))], before, p.top.cur);
    assert Flat(q) == before + [Group(CatAll(p.top.cur))];
    assert Flat(p) == before + p.top.cur;
  }

  /** A pushed item goes to the end of what was read. */
  lemma FlatPush(p: Parser, r: Re)
    requires p.Reading?
    ensures Flat(p.(top := p.top.Push(r))) == Flat(p) + [r]
  {
  }

  lemma OpenGroup(p: Parser)
    requires GlobState(p)
    ensures var q := Feed(p, '(');
            GlobState(q) && |q.open| == |p.open| + 1 && Flat(q) == Flat(p)
  {
  }

  function DepthChange(c: char): int {
    if c == '[' then 1 else if c == ']' then -1 else 0
  }

  /** Reading the translation of one glob character. */
  lemma FeedGlobChar(p: Parser, c: char)
    requires GlobState(p) && IsGlobChar(c)
    requires c == ']' ==> p.open != []
    ensures var q := FeedAll(p, EmitChar(c));
            GlobState(q) && |q.open| == |p.open| + DepthChange(c) && Equivalent(Flat(q), Flat(p) + Item(c))
  {
    EquivalentRefl(Flat(p) + Item(c));
    if c == '[' {
      FeedOne(p, '(');
      OpenGroup(p);
      assert Flat(p) + [] == Flat(p);
    } else if c == ']' {
      FeedOne(p, ')');
      CloseGroup(p);
      assert Flat(p) + [] == Flat(p);
    } else if c == '.' {
      FeedTwo(p, '\\', '.');
      FlatPush(p, Lit('.'));
    } else if c == '*' {
      FeedTwo(p, '.', '*');
      ReadStar(p);
      FlatPush(p, Star(Any));
    } else {
      FeedOne(p, c);
      FlatPush(p, Lit(c));
    }
  }

  /** The parser, having read the pattern from state `p`, is in state `q`. */
  ghost predicate ReadsAs(q: Parser, p: Parser, pattern: string)
    requires p.Reading?
  {
    match BracketDepth(|p.open|, pattern)
    case None => q == Failed
    case Some(depth) => GlobState(q) && |q.open| == depth && Equivalent(Flat(q), Flat(p) + Items(pattern))
  }

  lemma {:induction false} FeedGlob(p: Parser, pattern: string)
    requires GlobState(p) && IsGlob(pattern)
    ensures ReadsAs(FeedAll(p, Emit(pattern)), p, pattern)
    decreases |pattern|
  {
    if pattern == "" {
      assert Flat(p) + [] == Flat(p);
    } else {
      var c, tail := pattern[0], pattern[1..];
      assert IsGlobChar(c) && IsGlob(tail);
      FeedAppend(p, EmitChar(c), Emit(tail));
      if c == ']' && p.open == [] {
        FeedOne(p, ')');
        FailedStaysFailed(Emit(tail));
      } else {
        FeedGlobChar(p, c);
        FeedGlob(FeedAll(p, EmitChar(c)), tail);
        ReadsOneMore(p, c, tail);
        assert pattern == [c] + tail;
      }
    }
  }

  lemma ReadsOneMore(p: Parser, c: char, tail: string)
    requires GlobState(p) && IsGlobChar(c) && (c == ']' ==> p.open != [])
    requires FeedAll(p, EmitChar(c)).Reading?
    requires ReadsAs(FeedAll(FeedAll(p, EmitChar(c)), Emit(tail)), FeedAll(p, EmitChar(c)), tail)
    ensures ReadsAs(FeedAll(FeedAll(p, EmitChar(c)), Emit(tail)), p, [c] + tail)
  {
    var mid := FeedAll(p, EmitChar(c));
    FeedGlobChar(p, c);
    assert ([c] + tail)[1..] == tail;
    assert BracketDepth(|p.open|, [c] + tail) == BracketDepth(|mid.open|, tail);
    if BracketDepth(|mid.open|, tail).Some? {
      ExtendReading(FeedAll(mid, Emit(tail)), mid, p, c, tail);
    }
  }

  lemma ExtendReading(q: Parser, mid: Parser, p: Parser, c: char, tail: string)
    requires q.Reading? && mid.Reading? && p.Reading?
    requires Equivalent(Flat(q), Flat(mid) + Items(tail))
    requires Equivalent(Flat(mid), Flat(p) + Item(c))
    ensures Equivalent(Flat(q), Flat(p) + Items([c] + tail))
  {
    EquivalentRefl(Items(tail));
    EquivalentAppend(Flat(mid), Items(tail), Flat(p) + Item(c), Items(tail));
    assert ([c] + tail)[1..] == tail;
    assert Flat(p) + Item(c) + Items(tail) == Flat(p) + Items([c] + tail);
  }

  /** The step for `*`: the tail means the same from wherever the run ends. */
  lemma StarMeansGlob(rest: Re, erased: string, name: string, i: nat)
    requires i <= |name|
    requires forall k: nat :: i <= k <= |name| ==>
               (Spans(rest, name, k, |name|) <==> GlobMatches(erased, name[k..]))
    ensures Spans(Cat(Star(Any), rest), name, i, |name|) <==> GlobMatches("*" + erased, name[i..])
  {
    if Spans(Cat(Star(Any), rest), name, i, |name|) {
      var m := CatSplit(Star(Any), rest, name, i, |name|);
      AnyStarSpans(name, i, m);
      RunThenTail(erased, name, i, m);
    }
    if GlobMatches("*" + erased, name[i..]) {
      var m := RunOf(erased, name, i);
      AnyStarSpans(name, i, m);
      CatJoin(Star(Any), rest, name, i, m, |name|);
    }
  }

  lemma RunThenTail(erased: string, name: string, i: nat, m: nat)
    requires i <= m <= |name|
    requires NoNewline(name[i..m]) && GlobMatches(erased, name[m..])
    ensures GlobMatches("*" + erased, name[i..])
  {
    var tail, k := name[i..], m - i;
    assert tail[..k] == name[i..m];
    assert tail[k..] == name[m..];
    StarRun(erased, tail, k);
  }

  lemma StarRun(erased: string, name: string, k: nat)
    requires k <= |name| && NoNewline(name[..k]) && GlobMatches(erased, name[k..])
    ensures GlobMatches("*" + erased, name)
  {
    var pattern := "*" + erased;
    assert pattern[0] == '*' && pattern[1..] == erased;
  }

  lemma RunOf(erased: string, name: string, i: nat) returns (m: nat)
    requires i <= |name|
    requires GlobMatches("*" + erased, name[i..])
    ensures i <= m <= |name| && NoNewline(name[i..m]) && GlobMatches(erased, name[m..])
  {
    var tail := name[i..];
    assert ("*" + erased)[1..] == erased;
    var k: nat :| k <= |tail| && NoNewline(tail[..k]) && GlobMatches(erased, tail[k..]);
    m := i + k;
    assert tail[..k] == name[i..m] && tail[k..] == name[m..];
  }

  lemma LiteralMeansGlob(c: char, rest: Re, erased: string, name: string, i: nat)
    requires i <= |name| && c != '*'
    requires i < |name| ==> (Spans(rest, name, i + 1, |name|) <==> GlobMatches(erased, name[i + 1..]))
    ensures Spans(Cat(Lit(c), rest), name, i, |name|) <==> GlobMatches([c] + erased, name[i..])
  {
  }

  /** Spanning to the end of the subject with a glob's items is what the glob means. */
  lemma {:induction false} ItemsMeanGlob(pattern: string, name: string, i: nat)
    requires i <= |name|
    ensures Spans(CatAll(Items(pattern)), name, i, |name|) <==> GlobMatches(EraseBrackets(pattern), name[i..])
    decreases |pattern|
  {
    if pattern != "" {
      var c, tail := pattern[0], pattern[1..];
      forall k: nat | i <= k <= |name|
        ensures Spans(CatAll(Items(tail)), name, k, |name|) <==> GlobMatches(EraseBrackets(tail), name[k..])
      {
        ItemsMeanGlob(tail, name, k);
      }
      if IsBracket(c) {
        assert Items(pattern) == Items(tail);
        assert EraseBrackets(pattern) == EraseBrackets(tail);
      } else {
        assert Items(pattern)[1..] == Items(tail);
        assert EraseBrackets(pattern) == [c] + EraseBrackets(tail);
        if c == '*' {
          StarMeansGlob(CatAll(Items(tail)), EraseBrackets(tail), name, i);
        } else {
          LiteralMeansGlob(c, CatAll(Items(tail)), EraseBrackets(tail), name, i);
        }
      }
    }
  }

  /** What the parser has read of an anchored glob before the closing anchor. */
  lemma ReadAnchored(pattern: string) returns (p: Parser)
    requires IsGlob(pattern)
    ensures FeedAll(START, PatternText(pattern)) == Feed(p, '$')
    ensures ReadsAs(p, Reading([], Level([], [Begin]), false), pattern)
  {
    PassesAreSimultaneous(pattern);
    var text := GlobRegex(pattern);
    var begun := Reading([], Level([], [Begin]), false);
    FeedOne(START, '^');
    assert FeedAll(START, "^") == begun;
    FeedAppend(START, "^" + text, "$");
    FeedAppend(START, "^", text);
    FeedGlob(begun, pattern);
    p := FeedAll(begun, text);
    FeedOne(p, '$');
  }

  /** Of globs the compiler accepts exactly the bracket-balanced ones, and the expression it builds
      matches exactly the names the glob means. */
  lemma GlobCompiled(pattern: string, lib: Library, name: string)
    requires IsGlob(pattern)
    ensures InFragment(PatternText(pattern))
    ensures CompileGlob(pattern, lib).Some? <==> Balanced(pattern)
    ensures Balanced(pattern) ==>
              (MatchString(CompileGlob(pattern, lib).value, name) <==> GlobMatches(EraseBrackets(pattern), name))
  {
    var p := ReadAnchored(pattern);
    if p != Failed && p.open == [] {
      assert Flat(Reading([], Level([], [Begin]), false)) == [Begin];
      assert Flat(p) == p.top.cur;
      assert CompileGlob(pattern, lib) == Some(CatAll(p.top.cur + [End]));
      AnchoredMeansGlob(p.top.cur, pattern, name);
    }
  }

  lemma AnchoredMeansGlob(read: seq<Re>, pattern: string, name: string)
    requires Equivalent(read, [Begin] + Items(pattern))
    ensures MatchString(CatAll(read + [End]), name) <==> GlobMatches(EraseBrackets(pattern), name)
  {
    var items := Items(pattern);
    EquivalentRefl([End]);
    EquivalentAppend(read, [End], [Begin] + items, [End]);
    EquivalentSearch(read + [End], [Begin] + items + [End], name);
    AnchoredIsFull(items, name);
    ItemsMeanGlob(pattern, name, 0);
    assert name[0..] == name;
  }

  lemma EquivalentSearch(xs: seq<Re>, ys: seq<Re>, name: string)
    requires Equivalent(xs, ys)
    ensures MatchString(CatAll(xs), name) <==> MatchString(CatAll(ys), name)
  {
  }

  // ---- any pattern ---------------------------------------------------------------------

  /** What a pattern comes to once it is rewritten and anchored. */
  function PatternCore(pattern: string): Core {
    CoreOf(true, GlobRegex(pattern), true)
  }

  /** A pattern of the fragment compiles if its core is well formed; of any other the library decides. */
  ghost predicate Compiles(pattern: string, lib: Library) {
    if InFragment(PatternText(pattern)) then Parse(PatternCore(pattern).body).Some? else lib(PatternText(pattern)).Some?
  }

  /** The names a pattern means: those some alternative of its core accepts; outside the fragment, those
      the library finds. */
  ghost predicate Means(pattern: string, lib: Library, name: string) {
    && Compiles(pattern, lib)
    && if InFragment(PatternText(pattern))
       then AcceptsSome(PatternCore(pattern), Parse(PatternCore(pattern).body).value, name)
       else MatchString(lib(PatternText(pattern)).value, name)
  }

  /** Every pattern, whatever operators of the expression syntax it brings along, is compiled to what it
      means; for a glob that is what the glob means, and exactly the bracket-balanced globs compile. */
  lemma CompileGlobCorrect(pattern: string, lib: Library, name: string)
    ensures CompileGlob(pattern, lib).Some? <==> Compiles(pattern, lib)
    ensures CompileGlob(pattern, lib).Some? ==>
              (MatchString(CompileGlob(pattern, lib).value, name) <==> Means(pattern, lib, name))
    ensures IsGlob(pattern) ==>
              && InFragment(PatternText(pattern))
              && (Compiles(pattern, lib) <==> Balanced(pattern))
              && (Means(pattern, lib, name) <==> Balanced(pattern) && GlobMatches(EraseBrackets(pattern), name))
  {
    if InFragment(PatternText(pattern)) {
      assert AnchoredText(true, GlobRegex(pattern), true) == PatternText(pattern);
      AnchoredMeaning(true, GlobRegex(pattern), true, lib, name);
    }
    if IsGlob(pattern) {
      GlobCompiled(pattern, lib, name);
    }
  }

  // ---- lists of patterns ---------------------------------------------------------------

  datatype AllowedNamespaces = AllowedNamespaces(patterns: seq<string>, regexes: seq<Re>, isAll: bool) {
    predicate Matches(name: string) {
      isAll || AnyMatch(regexes, name)
    }

    predicate IsEmpty() {
      patterns == [] && !isAll
    }
  }

  /** The zero value: no pattern, and nothing matches. */
  const DENY_ALL := AllowedNamespaces([], [], false)

  predicate AnyMatch(regexes: seq<Re>, name: string) {
    regexes != [] && (MatchString(regexes[0], name) || AnyMatch(regexes[1..], name))
  }

  lemma {:induction false} AnyMatchAppend(a: seq<Re>, b: seq<Re>, name: string)
    ensures AnyMatch(a + b, name) <==> AnyMatch(a, name) || AnyMatch(b, name)
  {
    if a == [] {
      assert a + b == b;
    } else {
      assert (a + b)[1..] == a[1..] + b;
      AnyMatchAppend(a[1..], b, name);
    }
  }

  /** The list as compiled, continuing from what is already compiled; `None` is a compile error. */
  function Build(patterns: seq<string>, acc: AllowedNamespaces, lib: Library): Option<AllowedNamespaces>
    decreases |patterns|
  {
    if patterns == [] then Some(acc)
    else
      var pattern, rest := TrimSpace(patterns[0]), patterns[1..];
      if pattern == "" then Build(rest, acc, lib)
      else if pattern == "*" then Some(acc.(isAll := true))
      else
        match CompileGlob(pattern, lib)
        case None => None
        case Some(re) => Build(rest, acc.(patterns := acc.patterns + [pattern], regexes := acc.regexes + [re]), lib)
  }

  method NewAllowedNamespaces(patterns: seq<string>, lib: Library) returns (r: Option<AllowedNamespaces>)
    ensures r == Build(patterns, DENY_ALL, lib)
  {
    var an := DENY_ALL;
    for i := 0 to |patterns|
      invariant Build(patterns, DENY_ALL, lib) == Build(patterns[i..], an, lib)
    {
      var pattern := TrimSpace(patterns[i]);
      assert patterns[i..][1..] == patterns[i + 1..];
      if pattern == "" {
        continue;
      }
      if pattern == "*" {
        return Some(an.(isAll := true));
      }
      an := an.(patterns := an.patterns + [pattern]);
      var re := CompileGlob(pattern, lib);
      if re == None {
        return None;
      }
      an := an.(regexes := an.regexes + [re.value]);
    }
    return Some(an);
  }

  /** The callers ignore the error and keep the value, which is then the zero value. */
  function Policy(patterns: seq<string>, lib: Library): AllowedNamespaces {
    match Build(patterns, DENY_ALL, lib)
    case None => DENY_ALL
    case Some(an) => an
  }

  /** A pattern that does not compile is reached: no `*` stands before it. */
  ghost predicate Breaks(patterns: seq<string>, lib: Library) {
    && patterns != []
    && (!Compiles(TrimSpace(patterns[0]), lib) || (TrimSpace(patterns[0]) != "*" && Breaks(patterns[1..], lib)))
  }

  /** The trimmed pattern is the lone `*`, which stands for every name, or means the name. Blank ones are
      skipped. */
  ghost predicate Allows(pattern: string, lib: Library, name: string) {
    var trimmed := TrimSpace(pattern);
    trimmed == "*" || (trimmed != "" && Means(trimmed, lib, name))
  }

  ghost predicate SomeAllows(patterns: seq<string>, lib: Library, name: string) {
    exists i :: 0 <= i < |patterns| && Allows(patterns[i], lib, name)
  }

  lemma SomeAllowsCons(patterns: seq<string>, lib: Library, name: string)
    requires patterns != []
    ensures SomeAllows(patterns, lib, name) <==> Allows(patterns[0], lib, name) || SomeAllows(patterns[1..], lib, name)
  {
    var rest := patterns[1..];
    if SomeAllows(rest, lib, name) {
      var i :| 0 <= i < |rest| && Allows(rest[i], lib, name);
      assert patterns[i + 1] == rest[i];
    }
    if SomeAllows(patterns, lib, name) && !Allows(patterns[0], lib, name) {
      var i :| 0 <= i < |patterns| && Allows(patterns[i], lib, name);
      assert i > 0 && rest[i - 1] == patterns[i];
    }
  }

  lemma TrivialPatterns(lib: Library)
    ensures Compiles("", lib) && Compiles("*", lib)
  {
    GlobCompiles("", lib);
    StarIsBalanced();
    GlobCompiles("*", lib);
  }

  lemma GlobCompiles(pattern: string, lib: Library)
    requires IsGlob(pattern)
    ensures Compiles(pattern, lib) <==> Balanced(pattern)
  {
    CompileGlobCorrect(pattern, lib, "");
  }

  lemma StarIsBalanced()
    ensures Balanced("*") && EraseBrackets("*") == "*"
  {
  }

  lemma {:induction false} BuildMeaning(patterns: seq<string>, acc: AllowedNamespaces, lib: Library, name: string)
    requires !acc.isAll
    ensures Build(patterns, acc, lib).None? <==> Breaks(patterns, lib)
    ensures Build(patterns, acc, lib).Some? ==>
              (Build(patterns, acc, lib).value.Matches(name) <==> acc.Matches(name) || SomeAllows(patterns, lib, name))
    decreases |patterns|
  {
    if patterns != [] {
      var pattern, rest := TrimSpace(patterns[0]), patterns[1..];
      SomeAllowsCons(patterns, lib, name);
      TrivialPatterns(lib);
      if pattern == "" {
        BuildMeaning(rest, acc, lib, name);
      } else if pattern != "*" {
        CompileGlobCorrect(pattern, lib, name);
        if Compiles(pattern, lib) {
          var re := CompileGlob(pattern, lib).value;
          AnyMatchAppend(acc.regexes, [re], name);
          assert AnyMatch([re], name) <==> MatchString(re, name);
          BuildMeaning(rest, acc.(patterns := acc.patterns + [pattern], regexes := acc.regexes + [re]), lib, name);
        }
      }
    }
  }

  /** What a policy list decides, for every list and every name: a namespace is allowed when some pattern
      of the list allows it, the early return on `*` notwithstanding; a list with a reachable pattern that
      does not compile allows nothing. */
  lemma PolicyMeaning(patterns: seq<string>, lib: Library, name: string)
    ensures Policy(patterns, lib).Matches(name) <==> !Breaks(patterns, lib) && SomeAllows(patterns, lib, name)
  {
    BuildMeaning(patterns, DENY_ALL, lib, name);
  }

  /** Some pattern of the list, trimmed, is a glob for the name. */
  ghost predicate SomeGlobMatches(patterns: seq<string>, name: string) {
    exists i :: 0 <= i < |patterns| && GlobAllows(patterns[i], name)
  }

  ghost predicate GlobAllows(pattern: string, name: string) {
    TrimSpace(pattern) != "" && GlobMatches(EraseBrackets(TrimSpace(pattern)), name)
  }

  ghost predicate Globs(patterns: seq<string>) {
    forall i :: 0 <= i < |patterns| ==> IsGlob(TrimSpace(patterns[i]))
  }

  /** An unbalanced pattern is reached: no `*` stands before it. */
  ghost predicate Unbalanced(patterns: seq<string>) {
    && patterns != []
    && (!Balanced(TrimSpace(patterns[0])) || (TrimSpace(patterns[0]) != "*" && Unbalanced(patterns[1..])))
  }

  lemma EverythingGlob(name: string)
    requires NoNewline(name)
    ensures GlobMatches("*", name)
  {
    assert name[0..|name|] == name == name[0..] && name[|name|..] == "";
    RunThenTail("", name, 0, |name|);
    assert "*" + "" == "*";
  }

  lemma GlobAllowance(pattern: string, lib: Library, name: string)
    requires IsGlob(TrimSpace(pattern)) && NoNewline(name)
    ensures Compiles(TrimSpace(pattern), lib) <==> Balanced(TrimSpace(pattern))
    ensures Balanced(TrimSpace(pattern)) ==> (Allows(pattern, lib, name) <==> GlobAllows(pattern, name))
    ensures TrimSpace(pattern) == "*" ==> Allows(pattern, lib, name)
  {
    CompileGlobCorrect(TrimSpace(pattern), lib, name);
    StarIsBalanced();
    EverythingGlob(name);
  }

  lemma {:induction false} CompilingNeverBreaks(patterns: seq<string>, lib: Library)
    requires forall i :: 0 <= i < |patterns| ==> Compiles(TrimSpace(patterns[i]), lib)
    ensures !Breaks(patterns, lib)
  {
    if patterns != [] {
      CompilingNeverBreaks(patterns[1..], lib);
    }
  }

  lemma SomeGlobCons(patterns: seq<string>, name: string)
    requires patterns != []
    ensures SomeGlobMatches(patterns, name) <==> GlobAllows(patterns[0], name) || SomeGlobMatches(patterns[1..], name)
  {
    var rest := patterns[1..];
    if SomeGlobMatches(rest, name) {
      var i :| 0 <= i < |rest| && GlobAllows(rest[i], name);
      assert patterns[i + 1] == rest[i];
    }
    if SomeGlobMatches(patterns, name) && !GlobAllows(patterns[0], name) {
      var i :| 0 <= i < |patterns| && GlobAllows(patterns[i], name);
      assert i > 0 && rest[i - 1] == patterns[i];
    }
  }

  lemma {:induction false} GlobsAllow(patterns: seq<string>, lib: Library, name: string)
    requires Globs(patterns) && NoNewline(name)
    ensures Breaks(patterns, lib) <==> Unbalanced(patterns)
    ensures !Unbalanced(patterns) ==> (SomeAllows(patterns, lib, name) <==> SomeGlobMatches(patterns, name))
  {
    if patterns != [] {
      GlobAllowance(patterns[0], lib, name);
      SomeAllowsCons(patterns, lib, name);
      SomeGlobCons(patterns, name);
      GlobsAllow(patterns[1..], lib, name);
    }
  }

  /** A list of globs allows exactly the names its globs mean, unless an unbalanced one was reached. */
  lemma GlobListMeaning(patterns: seq<string>, lib: Library, name: string)
    requires Globs(patterns) && NoNewline(name)
    ensures Policy(patterns, lib).Matches(name) <==> !Unbalanced(patterns) && SomeGlobMatches(patterns, name)
  {
    GlobsAllow(patterns, lib, name);
    PolicyMeaning(patterns, lib, name);
  }

  /** A policy is empty (so that another list is consulted in its place) when no pattern is left
      after trimming, and also when compilation broke. */
  lemma {:induction false} BuildEmpty(patterns: seq<string>, acc: AllowedNamespaces, lib: Library)
    requires Build(patterns, acc, lib).Some?
    ensures Build(patterns, acc, lib).value.IsEmpty() <==>
              acc.IsEmpty() && forall i :: 0 <= i < |patterns| ==> TrimSpace(patterns[i]) == ""
    decreases |patterns|
  {
    if patterns != [] {
      var pattern, rest := TrimSpace(patterns[0]), patterns[1..];
      assert forall i :: 0 < i < |patterns| ==> patterns[i] == rest[i - 1];
      if pattern == "" {
        BuildEmpty(rest, acc, lib);
      } else if pattern != "*" {
        var re := CompileGlob(pattern, lib).value;
        BuildEmpty(rest, acc.(patterns := acc.patterns + [pattern], regexes := acc.regexes + [re]), lib);
      }
    }
  }

  lemma PolicyEmpty(patterns: seq<string>, lib: Library)
    ensures Policy(patterns, lib).IsEmpty() <==>
              Build(patterns, DENY_ALL, lib).None? || forall i :: 0 <= i < |patterns| ==> TrimSpace(patterns[i]) == ""
  {
    if Build(patterns, DENY_ALL, lib).Some? {
      BuildEmpty(patterns, DENY_ALL, lib);
    }
  }

  // ---- literal names -------------------------------------------------------------------

  /** The characters of a DNS-1123 label. */
  predicate IsLabel(name: string) {
    name != "" && forall c | c in name :: 'a' <= c <= 'z' || '0' <= c <= '9' || c == '-'
  }

  lemma {:induction false} LiteralGlob(pattern: string, name: string)
    requires forall c | c in pattern :: c != '*' && !IsBracket(c)
    ensures GlobMatches(pattern, name) <==> pattern == name
    ensures EraseBrackets(pattern) == pattern && Balanced(pattern)
    decreases |pattern|
  {
    if pattern != "" {
      assert pattern == [pattern[0]] + pattern[1..];
      assert forall c | c in pattern[1..] :: c in pattern;
      assert pattern[0] in pattern;
      LiteralGlob(pattern[1..], if name == "" then "" else name[1..]);
      if name != "" {
        assert name == [name[0]] + name[1..];
      }
    }
  }

  /** A list of plain namespace names, used as patterns, allows exactly those names. */
  lemma LabelsAllowThemselves(names: seq<string>, lib: Library, name: string)
    requires forall i :: 0 <= i < |names| ==> IsLabel(names[i])
    ensures Policy(names, lib).Matches(name) <==> name in names
    ensures Policy(names, lib).IsEmpty() <==> names == []
  {
    forall i | 0 <= i < |names|
      ensures TrimSpace(names[i]) == names[i] && Compiles(names[i], lib)
      ensures Allows(names[i], lib, name) <==> names[i] == name
    {
      LabelAllows(names[i], lib, name);
    }
    CompilingNeverBreaks(names, lib);
    PolicyMeaning(names, lib, name);
    BuildMeaning(names, DENY_ALL, lib, name);
    PolicyEmpty(names, lib);
    if names != [] {
      assert TrimSpace(names[0]) != "";
    }
  }

  lemma LabelAllows(plain: string, lib: Library, name: string)
    requires IsLabel(plain)
    ensures TrimSpace(plain) == plain && Compiles(plain, lib)
    ensures Allows(plain, lib, name) <==> plain == name
  {
    assert forall c | c in plain :: !IsSpace(c) && IsGlobChar(c);
    assert plain[0] in plain && plain[|plain| - 1] in plain;
    TrimOfTrimmed(plain, IsSpace);
    LiteralGlob(plain, name);
    CompileGlobCorrect(plain, lib, name);
  }
}
