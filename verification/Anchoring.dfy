/** Expressions put between anchors by pasting text: `^` in front, `$` behind. The anchors belong to the
    first and the last alternative, a repetition operator in front takes the anchor for its operand, and a
    backslash at the end takes the dollar for a literal. */
module Anchoring {
  import opened Identifiers
  import opened Regex

  function Anchor(needed: bool, anchor: string): string {
    if needed then anchor else ""
  }

  function AnchoredText(atStart: bool, b: string, atEnd: bool): string {
    Anchor(atStart, "^") + b + Anchor(atEnd, "$")
  }

  /** What such a text comes to: an expression, and whether it is held at each end of the subject. */
  datatype Core = Core(atStart: bool, body: string, atEnd: bool)

  predicate IsOperator(c: char) {
    c == '*' || c == '+' || c == '?'
  }

  predicate StartsWithOperator(b: string) {
    b != "" && IsOperator(b[0])
  }

  /** An odd number of backslashes at the end. */
  predicate EndsEscaped(b: string) {
    b != "" && b[|b| - 1] == '\\' && !EndsEscaped(b[..|b| - 1])
  }

  /** `^+` is `^`, while `^*` and `^?` hold nothing. */
  function HeldAfter(atStart: bool, b: string): bool {
    atStart && (StartsWithOperator(b) ==> b[0] == '+')
  }

  function AfterOperator(atStart: bool, b: string): string {
    if atStart && StartsWithOperator(b) then b[1..] else b
  }

  function CoreOf(atStart: bool, b: string, atEnd: bool): Core {
    var rest := AfterOperator(atStart, b);
    if atEnd && EndsEscaped(rest) then Core(HeldAfter(atStart, b), rest + "$", false)
    else Core(HeldAfter(atStart, b), rest, atEnd)
  }

  // ---- one more item in front ----------------------------------------------------------

  function Prefixed(level: Level, r: Re): Level {
    if level.done == [] then Level([], [r] + level.cur)
    else Level([[r] + level.done[0]] + level.done[1..], level.cur)
  }

  /** The parser state with one more item at the very front of what was read. */
  function Fronted(p: Parser, r: Re): Parser {
    match p
    case Failed => Failed
    case Outside => Outside
    case Reading(open, top, escaped) =>
      if open == [] then Reading([], Prefixed(top, r), escaped)
      else Reading([Prefixed(open[0], r)] + open[1..], top, escaped)
  }

  /** The first item has been read, or a group is open: nothing put in front is in reach of a repetition. */
  predicate Covered(p: Parser) {
    p.Reading? ==> p.open != [] || p.top.done != [] || p.top.cur != [] || p.escaped
  }

  lemma RepeatPrefixed(level: Level, c: char, r: Re)
    requires IsOperator(c)
    requires level.done != [] || level.cur != [] || IsRepetition(r)
    ensures Repeat(Prefixed(level, r), c) ==
            match Repeat(level, c) case None => None case Some(l) => Some(Prefixed(l, r))
  {
    var n := |level.cur|;
    if n > 0 && level.done == [] {
      assert ([r] + level.cur)[..n] == [r] + level.cur[..n - 1];
      assert forall item :: ([r] + level.cur)[..n] + [item] == [r] + (level.cur[..n - 1] + [item]);
    }
  }

  lemma PushPrefixed(level: Level, x: Re, r: Re)
    ensures Prefixed(level, r).Push(x) == Prefixed(level.Push(x), r)
  {
  }

  lemma AlternativesPrefixed(level: Level, r: Re)
    ensures Prefixed(level, r).Alternatives() ==
            [[r] + level.Alternatives()[0]] + level.Alternatives()[1..]
  {
  }

  lemma ModifierPrefixed(p: Parser, c: char, r: Re)
    requires p.Reading? && p.open == [] && (Covered(p) || c != '?') && !p.escaped
    ensures IsModifier(Fronted(p, r), c) <==> IsModifier(p, c)
  {
    var cur := p.top.cur;
    if cur != [] && p.top.done == [] {
      assert ([r] + cur)[|cur|] == cur[|cur| - 1];
    }
  }

  /** One character at the top level, where the added item may be in reach of a repetition. */
  lemma FeedFrontedTop(p: Parser, c: char, r: Re)
    requires p.Reading? && p.open == []
    requires Covered(p) || (IsRepetition(r) && c != '?') || !IsOperator(c)
    ensures Feed(Fronted(p, r), c) == Fronted(Feed(p, c), r)
  {
    var top := p.top;
    if p.escaped {
      PushPrefixed(top, Lit(c), r);
    } else if IsOperator(c) {
      ModifierPrefixed(p, c, r);
      RepeatPrefixed(top, c, r);
    } else if c == '|' {
      assert Prefixed(top, r).done + [Prefixed(top, r).cur] == Prefixed(Level(top.done + [top.cur], []), r).done;
    } else {
      PushPrefixed(top, Any, r);
      PushPrefixed(top, Begin, r);
      PushPrefixed(top, End, r);
      PushPrefixed(top, Lit(c), r);
    }
  }

  lemma FeedFrontedInside(p: Parser, c: char, r: Re)
    requires p.Reading? && p.open != []
    ensures Feed(Fronted(p, r), c) == Fronted(Feed(p, c), r)
  {
  }

  lemma FeedFronted(p: Parser, c: char, r: Re)
    requires Covered(p) || (IsRepetition(r) && c != '?') || !IsOperator(c)
    ensures Feed(Fronted(p, r), c) == Fronted(Feed(p, c), r)
  {
    if p.Reading? {
      if p.open == [] {
        FeedFrontedTop(p, c, r);
      } else {
        FeedFrontedInside(p, c, r);
      }
    }
  }

  /** Reading on keeps the front covered. */
  lemma CoveredAfter(p: Parser, c: char)
    ensures Covered(Feed(p, c))
  {
  }

  /** Whatever stands in front, and whether or not the text is well formed, the rest is read the same. */
  lemma {:induction false} FeedAllFronted(p: Parser, text: string, r: Re)
    requires Covered(p) || !StartsWithOperator(text) || (IsRepetition(r) && text[0] != '?')
    ensures FeedAll(Fronted(p, r), text) == Fronted(FeedAll(p, text), r)
    decreases |text|
  {
    if text != "" {
      FeedFronted(p, text[0], r);
      CoveredAfter(p, text[0]);
      FeedAllFronted(Feed(p, text[0]), text[1..], r);
    }
  }

  // ---- the front anchor ----------------------------------------------------------------

  /** The item that the anchor and an operator behind it become. */
  function FrontItems(atStart: bool, b: string): seq<Re> {
    if !atStart then []
    else if !StartsWithOperator(b) then [Begin]
    else if b[0] == '*' then [Star(Begin)]
    else if b[0] == '+' then [Plus(Begin)]
    else [Opt(Begin)]
  }

  function WithFront(p: Parser, front: seq<Re>): Parser {
    if front == [] then p else Fronted(p, front[0])
  }

  lemma ReadOperator(c: char)
    requires IsOperator(c)
    ensures FeedAll(START, ['^', c]) == Fronted(START, FrontItems(true, [c])[0])
  {
    var item := FrontItems(true, [c])[0];
    FeedTwo(START, '^', c);
    OnlyBegin();
    RepeatBegin(c);
    assert Feed(Reading([], Level([], [Begin]), false), c) == Reading([], Level([], [item]), false);
    assert Prefixed(START.top, item).cur == [item];
  }

  lemma OnlyBegin()
    ensures Feed(START, '^') == Reading([], Level([], [Begin]), false)
  {
    assert START.top.Push(Begin).cur == [Begin];
  }

  lemma RepeatBegin(c: char)
    requires IsOperator(c)
    ensures Repeat(Level([], [Begin]), c) == Some(Level([], [FrontItems(true, [c])[0]]))
  {
    var item := FrontItems(true, [c])[0];
    assert [Begin][..0] + [item] == [item];
  }

  /** A question mark behind an operator makes it lazy, which is outside the fragment. */
  predicate LazyStart(atStart: bool, b: string) {
    atStart && StartsWithOperator(b) && |b| > 1 && b[1] == '?'
  }

  lemma LazyIsOutside(b: string, text: string)
    requires LazyStart(true, b) && "^" + b <= text
    ensures !InFragment(text)
  {
    var rest := text[3..];
    assert text == ['^', b[0]] + (['?'] + rest);
    FeedAppend(START, ['^', b[0]], ['?'] + rest);
    ReadOperator(b[0]);
    LazyAfter(FrontItems(true, [b[0]])[0], rest);
  }

  lemma LazyAfter(r: Re, rest: string)
    requires IsRepetition(r)
    ensures FeedAll(Fronted(START, r), ['?'] + rest) == Outside
  {
    var p := Fronted(START, r);
    assert p.top.cur == [r];
    FeedAppend(p, ['?'], rest);
    FeedOne(p, '?');
    FailedStaysFailed(rest);
  }

  lemma ReadFront(atStart: bool, b: string)
    requires !LazyStart(atStart, b)
    ensures FeedAll(START, Anchor(atStart, "^") + b)
         == WithFront(FeedAll(START, AfterOperator(atStart, b)), FrontItems(atStart, b))
  {
    if !atStart {
      assert "" + b == b;
    } else if StartsWithOperator(b) {
      assert "^" + b == ['^', b[0]] + b[1..];
      FeedAppend(START, ['^', b[0]], b[1..]);
      ReadOperator(b[0]);
      FeedAllFronted(START, b[1..], FrontItems(true, b)[0]);
    } else {
      FeedAppend(START, "^", b);
      FeedOne(START, '^');
      assert Feed(START, '^') == Fronted(START, Begin);
      FeedAllFronted(START, b, Begin);
    }
  }

  lemma ParseFront(atStart: bool, b: string)
    requires !LazyStart(atStart, b)
    ensures var rest, text := AfterOperator(atStart, b), Anchor(atStart, "^") + b;
            && (Parse(text).Some? <==> Parse(rest).Some?)
            && (Parse(rest).Some? ==>
                  var alts := Parse(rest).value;
                  Parse(text).value == [FrontItems(atStart, b) + alts[0]] + alts[1..])
  {
    var rest, front := AfterOperator(atStart, b), FrontItems(atStart, b);
    ReadFront(atStart, b);
    var p := FeedAll(START, rest);
    if front == [] {
      if Parse(rest).Some? {
        var alts := Parse(rest).value;
        assert [] + alts[0] == alts[0] && [alts[0]] + alts[1..] == alts;
      }
    } else if p.Reading? {
      AlternativesPrefixed(p.top, front[0]);
    }
  }

  // ---- the end anchor ------------------------------------------------------------------

  /** The parser expects an escaped character exactly after an odd number of backslashes. */
  lemma {:induction false} EscapedAtEnd(text: string)
    ensures var p := FeedAll(START, text); p.Reading? ==> (p.escaped <==> EndsEscaped(text))
    decreases |text|
  {
    if text != "" {
      var n := |text| - 1;
      assert text == text[..n] + [text[n]];
      FeedAppend(START, text[..n], [text[n]]);
      FeedOne(FeedAll(START, text[..n]), text[n]);
      EscapedAtEnd(text[..n]);
    }
  }

  /** A dollar behind a text that does not end escaped goes to the last alternative only. */
  lemma ParseEnd(text: string)
    requires !EndsEscaped(text)
    ensures Parse(text + "$").Some? <==> Parse(text).Some?
    ensures Parse(text).Some? ==>
              var alts := Parse(text).value; var n := |alts| - 1;
              Parse(text + "$").value == alts[..n] + [alts[n] + [End]]
  {
    var p := FeedAll(START, text);
    FeedAppend(START, text, "$");
    FeedOne(p, '$');
    EscapedAtEnd(text);
    if p.Reading? {
      assert Feed(p, '$') == p.(top := p.top.Push(End));
      assert p.top.Push(End).Alternatives() == p.top.done + [p.top.cur + [End]];
    }
  }

  lemma {:induction false} EndsEscapedSuffix(a: string, b: string)
    requires b != "" && (a == "" || a[|a| - 1] != '\\')
    ensures EndsEscaped(a + b) <==> EndsEscaped(b)
    decreases |b|
  {
    var n := |b| - 1;
    assert (a + b)[..|a| + n] == a + b[..n];
    if n > 0 {
      EndsEscapedSuffix(a, b[..n]);
    } else {
      assert a + b[..n] == a;
    }
  }

  /** Neither the anchor nor an operator behind it changes how the text ends. */
  lemma FrontKeepsEnd(atStart: bool, b: string)
    requires !EndsEscaped(AfterOperator(atStart, b))
    ensures !EndsEscaped(Anchor(atStart, "^") + b)
  {
    var rest := AfterOperator(atStart, b);
    if !atStart {
      assert "" + b == b;
    } else {
      var front := if StartsWithOperator(b) then "^" + [b[0]] else "^";
      assert "^" + b == front + rest;
      if rest == "" {
        assert front + rest == front;
      } else {
        EndsEscapedSuffix(front, rest);
      }
    }
  }

  // ---- what the text means -------------------------------------------------------------

  function After(held: bool): seq<Re> {
    if held then [End] else []
  }

  /** An alternative between what stands in front of the first and behind the last. */
  function Between(front: seq<Re>, alts: seq<seq<Re>>, k: nat, atEnd: bool): seq<Re>
    requires k < |alts|
  {
    (if k == 0 then front else []) + alts[k] + After(k == |alts| - 1 && atEnd)
  }

  /** The alternatives of `alts` with `front` before the first and the end anchor behind the last. */
  ghost predicate Surrounds(compiled: seq<seq<Re>>, front: seq<Re>, alts: seq<seq<Re>>, atEnd: bool) {
    |compiled| == |alts| && forall k :: 0 <= k < |alts| ==> compiled[k] == Between(front, alts, k, atEnd)
  }

  lemma SurroundsFront(front: seq<Re>, alts: seq<seq<Re>>)
    requires alts != []
    ensures Surrounds([front + alts[0]] + alts[1..], front, alts, false)
  {
  }

  lemma SurroundsBoth(compiled: seq<seq<Re>>, front: seq<Re>, alts: seq<seq<Re>>)
    requires alts != [] && Surrounds(compiled, front, alts, false)
    ensures var n := |compiled| - 1; Surrounds(compiled[..n] + [compiled[n] + [End]], front, alts, true)
  {
    var n := |compiled| - 1;
    assert compiled[n] + [End] == Between(front, alts, n, true) by {
      assert compiled[n] == Between(front, alts, n, false);
    }
  }

  /** The alternatives of an anchored text are those of its core. */
  lemma ParseAnchored(atStart: bool, b: string, atEnd: bool)
    requires InFragment(AnchoredText(atStart, b, atEnd))
    ensures var core, text := CoreOf(atStart, b, atEnd), AnchoredText(atStart, b, atEnd);
            && (Parse(text).Some? <==> Parse(core.body).Some?)
            && (Parse(text).Some? ==>
                  Surrounds(Parse(text).value, FrontItems(atStart, b), Parse(core.body).value, core.atEnd))
  {
    var core, t := CoreOf(atStart, b, atEnd), Anchor(atStart, "^") + b;
    if LazyStart(atStart, b) {
      LazyIsOutside(b, AnchoredText(atStart, b, atEnd));
    }
    var rest, front := AfterOperator(atStart, b), FrontItems(atStart, b);
    if atEnd && EndsEscaped(rest) {
      assert t + "$" == Anchor(atStart, "^") + (b + "$");
      assert AfterOperator(atStart, b + "$") == rest + "$" && FrontItems(atStart, b + "$") == front;
      ParseFront(atStart, b + "$");
      if Parse(core.body).Some? {
        SurroundsFront(front, Parse(core.body).value);
      }
    } else {
      ParseFront(atStart, b);
      assert t + "" == t;
      if Parse(rest).Some? {
        SurroundsFront(front, Parse(rest).value);
      }
      if atEnd {
        FrontKeepsEnd(atStart, b);
        ParseEnd(t);
        if Parse(rest).Some? {
          SurroundsBoth(Parse(t).value, front, Parse(rest).value);
        }
      }
    }
  }

  /** Alternative `k` accepts the span `i..j` of the name: the first alternative is held at the start, the
      last at the end. */
  predicate Accepts(core: Core, alts: seq<seq<Re>>, k: nat, name: string, i: nat, j: nat)
    requires k < |alts| && i <= j <= |name|
  {
    && Spans(CatAll(alts[k]), name, i, j)
    && (k == 0 && core.atStart ==> i == 0)
    && (k == |alts| - 1 && core.atEnd ==> j == |name|)
  }

  ghost predicate AcceptsSome(core: Core, alts: seq<seq<Re>>, name: string) {
    exists k: nat, i: nat, j: nat :: k < |alts| && i <= j <= |name| && Accepts(core, alts, k, name, i, j)
  }

  lemma FrontSpans(atStart: bool, b: string, s: string, i: nat, j: nat)
    requires i <= j <= |s|
    ensures Spans(CatAll(FrontItems(atStart, b)), s, i, j) <==> i == j && (HeldAfter(atStart, b) ==> i == 0)
  {
    var front := FrontItems(atStart, b);
    if front != [] {
      CatSingle(front[0], s, i, j);
    }
  }

  /** Anchors restrict the span they are put around, and nothing else. */
  lemma AnchorsRestrict(atStart: bool, b: string, alts: seq<seq<Re>>, k: nat, atEnd: bool, s: string, i: nat, j: nat)
    requires i <= j <= |s| && k < |alts|
    ensures Spans(CatAll(Between(FrontItems(atStart, b), alts, k, atEnd)), s, i, j) <==>
            && Spans(CatAll(alts[k]), s, i, j)
            && (k == 0 && HeldAfter(atStart, b) ==> i == 0) && (k == |alts| - 1 && atEnd ==> j == |s|)
  {
    var pre := if k == 0 then FrontItems(atStart, b) else [];
    var items, post := alts[k], After(k == |alts| - 1 && atEnd);
    forall x: nat, y: nat | x <= y <= |s|
      ensures Spans(CatAll(pre), s, x, y) <==> x == y && (k == 0 && HeldAfter(atStart, b) ==> x == 0)
      ensures Spans(CatAll(post), s, x, y) <==> x == y && (k == |alts| - 1 && atEnd ==> y == |s|)
    {
      FrontSpans(atStart, b, s, x, y);
      CatSingle(End, s, x, y);
    }
    if Spans(CatAll(pre + items + post), s, i, j) {
      var m := ItemsSplit(pre + items, post, s, i, j);
      var n := ItemsSplit(pre, items, s, i, m);
    }
    if && Spans(CatAll(items), s, i, j)
       && (k == 0 && HeldAfter(atStart, b) ==> i == 0) && (k == |alts| - 1 && atEnd ==> j == |s|) {
      ItemsJoin(pre, items, s, i, i, j);
      ItemsJoin(pre + items, post, s, i, j, j);
    }
  }

  lemma SpansAnchored(atStart: bool, b: string, atEnd: bool, lib: Library, name: string, i: nat, j: nat)
    requires InFragment(AnchoredText(atStart, b, atEnd))
    requires i <= j <= |name| && Compile(AnchoredText(atStart, b, atEnd), lib).Some?
    ensures var core := CoreOf(atStart, b, atEnd);
            && Parse(core.body).Some?
            && var alts := Parse(core.body).value;
            Spans(Compile(AnchoredText(atStart, b, atEnd), lib).value, name, i, j) <==>
            exists k: nat :: k < |alts| && Accepts(core, alts, k, name, i, j)
  {
    var core, compiled := CoreOf(atStart, b, atEnd), Parse(AnchoredText(atStart, b, atEnd)).value;
    ParseAnchored(atStart, b, atEnd);
    var alts := Parse(core.body).value;
    AltSpans(compiled, name, i, j);
    forall k: nat | k < |alts|
      ensures Spans(CatAll(compiled[k]), name, i, j) <==> Accepts(core, alts, k, name, i, j)
    {
      AnchorsRestrict(atStart, b, alts, k, core.atEnd, name, i, j);
    }
  }

  /** What an anchored text accepts, for every text of the fragment. It compiles exactly if its core is well
      formed, and then finds the names some alternative of the core accepts. */
  lemma AnchoredMeaning(atStart: bool, b: string, atEnd: bool, lib: Library, name: string)
    requires InFragment(AnchoredText(atStart, b, atEnd))
    ensures var core, re := CoreOf(atStart, b, atEnd), Compile(AnchoredText(atStart, b, atEnd), lib);
            && (re.Some? <==> Parse(core.body).Some?)
            && (re.Some? ==> (MatchString(re.value, name) <==> AcceptsSome(core, Parse(core.body).value, name)))
  {
    var core, re := CoreOf(atStart, b, atEnd), Compile(AnchoredText(atStart, b, atEnd), lib);
    ParseAnchored(atStart, b, atEnd);
    if re.Some? {
      var alts := Parse(core.body).value;
      if MatchString(re.value, name) {
        var i: nat, j: nat :| i <= j <= |name| && Spans(re.value, name, i, j);
        SpansAnchored(atStart, b, atEnd, lib, name, i, j);
        var k: nat :| k < |alts| && Accepts(core, alts, k, name, i, j);
      }
      if AcceptsSome(core, alts, name) {
        var k: nat, i: nat, j: nat :| k < |alts| && i <= j <= |name| && Accepts(core, alts, k, name, i, j);
        SpansAnchored(atStart, b, atEnd, lib, name, i, j);
      }
    }
  }

  /** A text that is well formed by itself is its own core. */
  lemma OwnCore(atStart: bool, b: string, atEnd: bool)
    requires Parse(b).Some?
    ensures CoreOf(atStart, b, atEnd) == Core(atStart, b, atEnd)
    ensures InFragment(AnchoredText(atStart, b, atEnd))
  {
    EscapedAtEnd(b);
    if StartsWithOperator(b) {
      FailedStaysFailed(b[1..]);
    }
    var t := Anchor(atStart, "^") + b;
    ReadFront(atStart, b);
    FeedAppend(START, t, Anchor(atEnd, "$"));
    if atEnd {
      FeedOne(FeedAll(START, t), '$');
    }
  }
}
