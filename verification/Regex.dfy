/** The fragment of Go's regular expressions that globs and selectors need: literals, `.`,
    anchors, groups, alternation, the three repetition operators and escaped punctuation. A text that uses
    anything else is told apart from one that is malformed: what the library makes of it is a parameter.

    Concrete syntax is read by a shift-reduce parser that is a left fold over the characters,
    meaning is a declarative relation between an expression and a span of the subject. */
module Regex {
  import opened Identifiers

  datatype Re =
    | Eps
    | Lit(c: char)
    | Any
    | Begin
    | End
    | Cat(first: Re, second: Re)
    | Alt(left: Re, right: Re)
    | Star(body: Re)
    | Plus(body: Re)
    | Opt(body: Re)
    | Group(body: Re)

  /** `r` matches the span `s[i..j]` of the subject `s`; anchors look at the whole subject. */
  predicate Spans(r: Re, s: string, i: nat, j: nat)
    requires i <= j <= |s|
    decreases r, j - i
  {
    match r
    case Eps => i == j
    case Lit(c) => j == i + 1 && s[i] == c
    case Any => j == i + 1 && s[i] != '\n'
    case Begin => i == j == 0
    case End => i == j == |s|
    case Cat(a, b) => exists m: nat :: i <= m <= j && Spans(a, s, i, m) && Spans(b, s, m, j)
    case Alt(a, b) => Spans(a, s, i, j) || Spans(b, s, i, j)
    case Star(a) => i == j || exists m: nat :: i < m <= j && Spans(a, s, i, m) && Spans(r, s, m, j)
    case Plus(a) =>
      Spans(a, s, i, j) || exists m: nat :: i < m <= j && Spans(a, s, i, m) && Spans(r, s, m, j)
    case Opt(a) => i == j || Spans(a, s, i, j)
    case Group(a) => Spans(a, s, i, j)
  }

  /** Go's `MatchString`: the expression matches some span of the subject. */
  predicate MatchString(r: Re, s: string) {
    exists i: nat, j: nat :: i <= j <= |s| && Spans(r, s, i, j)
  }

  predicate FullMatch(r: Re, s: string) {
    Spans(r, s, 0, |s|)
  }

  predicate NoNewline(s: string) {
    '\n' !in s
  }

  // ---- item lists ----------------------------------------------------------------------

  function CatAll(items: seq<Re>): Re {
    if items == [] then Eps else Cat(items[0], CatAll(items[1..]))
  }

  function AltAll(alts: seq<seq<Re>>): Re
    requires alts != []
  {
    if |alts| == 1 then CatAll(alts[0]) else Alt(CatAll(alts[0]), AltAll(alts[1..]))
  }

  lemma CatJoin(a: Re, b: Re, s: string, i: nat, m: nat, j: nat)
    requires i <= m <= j <= |s|
    requires Spans(a, s, i, m) && Spans(b, s, m, j)
    ensures Spans(Cat(a, b), s, i, j)
  {
  }

  lemma CatSplit(a: Re, b: Re, s: string, i: nat, j: nat) returns (m: nat)
    requires i <= j <= |s|
    requires Spans(Cat(a, b), s, i, j)
    ensures i <= m <= j && Spans(a, s, i, m) && Spans(b, s, m, j)
  {
    m :| i <= m <= j && Spans(a, s, i, m) && Spans(b, s, m, j);
  }

  /** Adjacent spans of two item lists make a span of their concatenation... */
  lemma {:induction false} ItemsJoin(xs: seq<Re>, ys: seq<Re>, s: string, i: nat, m: nat, j: nat)
    requires i <= m <= j <= |s|
    requires Spans(CatAll(xs), s, i, m) && Spans(CatAll(ys), s, m, j)
    ensures Spans(CatAll(xs + ys), s, i, j)
  {
    if xs == [] {
      assert xs + ys == ys;
    } else {
      assert (xs + ys)[1..] == xs[1..] + ys;
      var n := CatSplit(xs[0], CatAll(xs[1..]), s, i, m);
      ItemsJoin(xs[1..], ys, s, n, m, j);
      CatJoin(xs[0], CatAll(xs[1..] + ys), s, i, n, j);
    }
  }

  /** ... and every span of the concatenation arises so. */
  lemma {:induction false} ItemsSplit(xs: seq<Re>, ys: seq<Re>, s: string, i: nat, j: nat) returns (m: nat)
    requires i <= j <= |s|
    requires Spans(CatAll(xs + ys), s, i, j)
    ensures i <= m <= j && Spans(CatAll(xs), s, i, m) && Spans(CatAll(ys), s, m, j)
  {
    if xs == [] {
      assert xs + ys == ys;
      m := i;
    } else {
      assert (xs + ys)[1..] == xs[1..] + ys;
      var n := CatSplit(xs[0], CatAll(xs[1..] + ys), s, i, j);
      m := ItemsSplit(xs[1..], ys, s, n, j);
      CatJoin(xs[0], CatAll(xs[1..]), s, i, n, m);
    }
  }

  lemma CatSingle(x: Re, s: string, i: nat, j: nat)
    requires i <= j <= |s|
    ensures Spans(CatAll([x]), s, i, j) <==> Spans(x, s, i, j)
  {
  }

  lemma {:induction false} AltSpans(alts: seq<seq<Re>>, s: string, i: nat, j: nat)
    requires alts != [] && i <= j <= |s|
    ensures Spans(AltAll(alts), s, i, j) <==> exists k :: 0 <= k < |alts| && Spans(CatAll(alts[k]), s, i, j)
  {
    if |alts| > 1 {
      AltSpans(alts[1..], s, i, j);
      assert forall k :: 0 < k < |alts| ==> alts[k] == alts[1..][k - 1];
    }
  }

  /** `.*` spans exactly the newline-free stretches. */
  lemma {:induction false} AnyStarSpans(s: string, i: nat, j: nat)
    requires i <= j <= |s|
    ensures Spans(Star(Any), s, i, j) <==> NoNewline(s[i..j])
    decreases j - i
  {
    if i < j {
      AnyStarSpans(s, i + 1, j);
      assert s[i..j] == [s[i]] + s[i + 1..j];
      if NoNewline(s[i..j]) {
        assert Spans(Any, s, i, i + 1);
      }
    }
  }

  /** With both anchors in place, search is a match of the whole subject. */
  lemma AnchoredIsFull(items: seq<Re>, s: string)
    ensures MatchString(CatAll([Begin] + items + [End]), s) <==> FullMatch(CatAll(items), s)
  {
    var n := |s|;
    if FullMatch(CatAll(items), s) {
      CatSingle(Begin, s, 0, 0);
      CatSingle(End, s, n, n);
      ItemsJoin([Begin], items, s, 0, 0, n);
      ItemsJoin([Begin] + items, [End], s, 0, n, n);
    }
    if MatchString(CatAll([Begin] + items + [End]), s) {
      var i: nat, j: nat :| i <= j <= n && Spans(CatAll([Begin] + items + [End]), s, i, j);
      var m := ItemsSplit([Begin] + items, [End], s, i, j);
      var k := ItemsSplit([Begin], items, s, i, m);
      CatSingle(Begin, s, i, k);
      CatSingle(End, s, m, j);
    }
  }

  // ---- equivalence of item lists -------------------------------------------------------

  ghost predicate Equivalent(xs: seq<Re>, ys: seq<Re>) {
    forall s: string, i: nat, j: nat :: i <= j <= |s| ==>
      (Spans(CatAll(xs), s, i, j) <==> Spans(CatAll(ys), s, i, j))
  }

  lemma EquivalentAppend(xs: seq<Re>, ys: seq<Re>, xs': seq<Re>, ys': seq<Re>)
    requires Equivalent(xs, xs') && Equivalent(ys, ys')
    ensures Equivalent(xs + ys, xs' + ys')
  {
    forall s: string, i: nat, j: nat | i <= j <= |s|
      ensures Spans(CatAll(xs + ys), s, i, j) <==> Spans(CatAll(xs' + ys'), s, i, j)
    {
      if Spans(CatAll(xs + ys), s, i, j) {
        var m := ItemsSplit(xs, ys, s, i, j);
        ItemsJoin(xs', ys', s, i, m, j);
      }
      if Spans(CatAll(xs' + ys'), s, i, j) {
        var m := ItemsSplit(xs', ys', s, i, j);
        ItemsJoin(xs, ys, s, i, m, j);
      }
    }
  }

  /** A group around a list means what the list means. */
  lemma GroupIsTransparent(xs: seq<Re>)
    ensures Equivalent([Group(CatAll(xs))], xs)
  {
    forall s: string, i: nat, j: nat | i <= j <= |s|
      ensures Spans(CatAll([Group(CatAll(xs))]), s, i, j) <==> Spans(CatAll(xs), s, i, j)
    {
      CatSingle(Group(CatAll(xs)), s, i, j);
    }
  }

  // ---- concrete syntax -----------------------------------------------------------------

  /** One open group: the finished alternatives and the items of the current one. */
  datatype Level = Level(done: seq<seq<Re>>, cur: seq<Re>) {
    function Alternatives(): (a: seq<seq<Re>>)
      ensures a != []
    {
      done + [cur]
    }

    function Push(r: Re): Level {
      this.(cur := cur + [r])
    }
  }

  /** The text so far is malformed, whatever follows; or it uses a construct outside the fragment; or it
      is being read. */
  datatype Parser = Failed | Outside | Reading(open: seq<Level>, top: Level, escaped: bool)

  const START: Parser := Reading([], Level([], []), false)

  predicate IsRepetition(r: Re) {
    r.Star? || r.Plus? || r.Opt?
  }

  predicate IsAlphanumeric(c: char) {
    '0' <= c <= '9' || 'a' <= c <= 'z' || 'A' <= c <= 'Z'
  }

  function Repeat(level: Level, c: char): Option<Level> {
    var n := |level.cur|;
    if n == 0 || IsRepetition(level.cur[n - 1]) then None
    else
      var operand := level.cur[n - 1];
      var item := if c == '*' then Star(operand) else if c == '+' then Plus(operand) else Opt(operand);
      Some(level.(cur := level.cur[..n - 1] + [item]))
  }

  /** A group with flags, or a lazy repetition. */
  predicate IsModifier(p: Parser, c: char)
    requires p.Reading?
  {
    var cur := p.top.cur;
    c == '?' && ((p.open != [] && p.top == Level([], [])) || (cur != [] && IsRepetition(cur[|cur| - 1])))
  }

  /** Classes, counted and lazy repetition, flags, and escapes of letters and digits are outside the
      fragment. Escaping a character beyond ASCII is an error. */
  function Feed(p: Parser, c: char): Parser {
    match p
    case Failed => Failed
    case Outside => Outside
    case Reading(open, top, true) =>
      if IsAlphanumeric(c) then Outside
      else if c as int >= 128 then Failed
      else Reading(open, top.Push(Lit(c)), false)
    case Reading(open, top, false) =>
      if c == '\\' then Reading(open, top, true)
      else if c == '(' then Reading(open + [top], Level([], []), false)
      else if c == ')' then
        if open == [] then Failed
        else
          var outer := open[|open| - 1];
          Reading(open[..|open| - 1], outer.Push(Group(AltAll(top.Alternatives()))), false)
      else if c == '|' then Reading(open, Level(top.done + [top.cur], []), false)
      else if IsModifier(p, c) then Outside
      else if c == '*' || c == '+' || c == '?' then
        match Repeat(top, c) {
          case None => Failed
          case Some(level) => Reading(open, level, false)
        }
      else if c == '.' then Reading(open, top.Push(Any), false)
      else if c == '^' then Reading(open, top.Push(Begin), false)
      else if c == '$' then Reading(open, top.Push(End), false)
      else if c in "[]{}" then Outside
      else Reading(open, top.Push(Lit(c)), false)
  }

  function FeedAll(p: Parser, text: string): Parser
    decreases |text|
  {
    if text == "" then p else FeedAll(Feed(p, text[0]), text[1..])
  }

  lemma {:induction false} FeedAppend(p: Parser, a: string, b: string)
    ensures FeedAll(p, a + b) == FeedAll(FeedAll(p, a), b)
    decreases |a|
  {
    if a == "" {
      assert a + b == b;
    } else {
      assert (a + b)[1..] == a[1..] + b;
      FeedAppend(Feed(p, a[0]), a[1..], b);
    }
  }

  lemma FeedOne(p: Parser, c: char)
    ensures FeedAll(p, [c]) == Feed(p, c)
  {
  }

  lemma FeedTwo(p: Parser, c: char, d: char)
    ensures FeedAll(p, [c, d]) == Feed(Feed(p, c), d)
  {
    assert [c, d] == [c] + [d];
    FeedAppend(p, [c], [d]);
    FeedOne(p, c);
    FeedOne(Feed(p, c), d);
  }

  /** Reading `.*` pushes one item. */
  lemma ReadStar(p: Parser)
    requires p.Reading? && !p.escaped
    ensures Feed(Feed(p, '.'), '*') == p.(top := p.top.Push(Star(Any)))
  {
    assert Feed(p, '.').top.cur[..|p.top.cur|] == p.top.cur;
  }

  lemma {:induction false} FailedStaysFailed(text: string)
    ensures FeedAll(Failed, text) == Failed && FeedAll(Outside, text) == Outside
  {
    if text != "" {
      FailedStaysFailed(text[1..]);
    }
  }

  /** The fragment whose compilation and meaning are modelled. */
  predicate InFragment(text: string) {
    FeedAll(START, text) != Outside
  }

  /** In particular, every text without brackets, braces, question marks and backslashes. */
  lemma {:induction false} PlainInFragment(p: Parser, text: string)
    requires !p.Outside? && (p.Reading? ==> !p.escaped)
    requires forall c | c in text :: c !in "[]{}?\\"
    ensures var q := FeedAll(p, text); !q.Outside? && (q.Reading? ==> !q.escaped)
    decreases |text|
  {
    if text != "" {
      assert text[0] in text;
      assert forall c | c in text[1..] :: c in text;
      PlainInFragment(Feed(p, text[0]), text[1..]);
    }
  }

  /** The top-level alternatives of a well-formed expression of the fragment. */
  function Parse(text: string): (r: Option<seq<seq<Re>>>)
    ensures r.Some? ==> r.value != []
  {
    var p := FeedAll(START, text);
    if p.Reading? && p.open == [] && !p.escaped then Some(p.top.Alternatives()) else None
  }

  /** What the regular-expression library makes of texts outside the fragment: an error, or an expression
      that finds the same names. */
  type Library = string -> Option<Re>

  /** `regexp.Compile`. */
  function Compile(text: string, lib: Library): Option<Re> {
    if !InFragment(text) then lib(text)
    else
      match Parse(text)
      case None => None
      case Some(alts) => Some(AltAll(alts))
  }
}
