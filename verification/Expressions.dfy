/** Expressions of the fragment printed with as few parentheses as their structure needs, and read back:
    what is compiled from the text means what the expression means. */
module Expressions {
  import opened Identifiers
  import opened Regex
  import opened Selector

  // ---- printing ------------------------------------------------------------------------

  predicate IsSpecial(c: char) {
    c in "\\.+*?()|[]{}^$"
  }

  function PrintChar(c: char): string {
    if IsSpecial(c) then ['\\', c] else [c]
  }

  predicate IsAtom(r: Re) {
    r.Lit? || r.Any? || r.Begin? || r.End? || r.Group?
  }

  /** Alternatives, separated by bars. */
  function PrintAlternatives(r: Re): string
    decreases r, if r.Alt? then 0 else if IsAtom(r) then 2 else 1
  {
    if r.Alt? then PrintAlternatives(r.left) + "|" + PrintAlternatives(r.right) else PrintSequence(r)
  }

  /** A sequence of items. Alternatives need parentheses here. */
  function PrintSequence(r: Re): string
    decreases r, if r.Alt? || IsAtom(r) then 1 else 0
  {
    match r
    case Eps => ""
    case Cat(a, b) => PrintSequence(a) + PrintSequence(b)
    case Alt(_, _) => "(" + PrintAlternatives(r) + ")"
    case Star(a) => PrintAtom(a) + "*"
    case Plus(a) => PrintAtom(a) + "+"
    case Opt(a) => PrintAtom(a) + "?"
    case _ => PrintAtom(r)
  }

  /** Something an operator can be put behind: a character, an anchor or a group. */
  function PrintAtom(r: Re): string
    decreases r, if IsAtom(r) then 0 else 2
  {
    match r
    case Lit(c) => PrintChar(c)
    case Any => "."
    case Begin => "^"
    case End => "$"
    case Group(a) => "(" + PrintAlternatives(a) + ")"
    case _ => "(" + PrintAlternatives(r) + ")"
  }

  // ---- what the parser makes of it -----------------------------------------------------

  function ReadAlternatives(r: Re): (alts: seq<seq<Re>>)
    ensures alts != []
    decreases r, if r.Alt? then 0 else if IsAtom(r) then 2 else 1
  {
    if r.Alt? then ReadAlternatives(r.left) + ReadAlternatives(r.right) else [ReadSequence(r)]
  }

  function ReadSequence(r: Re): seq<Re>
    decreases r, if r.Alt? || IsAtom(r) then 1 else 0
  {
    match r
    case Eps => []
    case Cat(a, b) => ReadSequence(a) + ReadSequence(b)
    case Alt(_, _) => [Group(AltAll(ReadAlternatives(r)))]
    case Star(a) => [Star(ReadAtom(a))]
    case Plus(a) => [Plus(ReadAtom(a))]
    case Opt(a) => [Opt(ReadAtom(a))]
    case _ => [ReadAtom(r)]
  }

  function ReadAtom(r: Re): (atom: Re)
    ensures !IsRepetition(atom)
    decreases r, if IsAtom(r) then 0 else 2
  {
    match r
    case Lit(_) => r
    case Any => r
    case Begin => r
    case End => r
    case Group(a) => Group(AltAll(ReadAlternatives(a)))
    case _ => Group(AltAll(ReadAlternatives(r)))
  }

  /** The parser is between two items. */
  ghost predicate Between(p: Parser) {
    p.Reading? && !p.escaped
  }

  function Extend(p: Parser, xs: seq<Re>): Parser
    requires p.Reading?
  {
    p.(top := p.top.(cur := p.top.cur + xs))
  }

  /** The alternatives follow those already read. */
  function WithAlternatives(p: Parser, alts: seq<seq<Re>>): Parser
    requires p.Reading? && alts != []
  {
    var n := |alts| - 1;
    p.(top := Level(p.top.done + alts[..n], alts[n]))
  }

  lemma ReadChar(p: Parser, c: char)
    requires Between(p)
    ensures FeedAll(p, PrintChar(c)) == Extend(p, [Lit(c)])
  {
    if IsSpecial(c) {
      FeedTwo(p, '\\', c);
    } else {
      FeedOne(p, c);
    }
  }

  lemma ReadParentheses(p: Parser, text: string, alts: seq<seq<Re>>)
    requires Between(p) && alts != []
    requires var inner := Reading(p.open + [p.top], Level([], []), false);
             FeedAll(inner, text) == WithAlternatives(inner, alts)
    ensures FeedAll(p, "(" + text + ")") == Extend(p, [Group(AltAll(alts))])
  {
    var inner := Reading(p.open + [p.top], Level([], []), false);
    FeedAppend(p, "(" + text, ")");
    FeedAppend(p, "(", text);
    FeedOne(p, '(');
    FeedOne(WithAlternatives(inner, alts), ')');
    CloseParenthesis(p, alts);
  }

  lemma CloseParenthesis(p: Parser, alts: seq<seq<Re>>)
    requires Between(p) && alts != []
    ensures var inner := Reading(p.open + [p.top], Level([], []), false);
            Feed(WithAlternatives(inner, alts), ')') == Extend(p, [Group(AltAll(alts))])
  {
    var n, open := |alts| - 1, p.open + [p.top];
    assert [] + alts[..n] == alts[..n];
    assert Level(alts[..n], alts[n]).Alternatives() == alts;
    assert open[|open| - 1] == p.top && open[..|open| - 1] == p.open;
  }

  lemma ReadOperator(p: Parser, x: Re, c: char)
    requires Between(p) && !IsRepetition(x) && (c == '*' || c == '+' || c == '?')
    ensures Feed(Extend(p, [x]), c) == Extend(p, [if c == '*' then Star(x) else if c == '+' then Plus(x) else Opt(x)])
  {
    assert (p.top.cur + [x])[..|p.top.cur|] == p.top.cur;
  }

  lemma {:induction false} ReadsAtom(p: Parser, r: Re)
    requires Between(p)
    ensures FeedAll(p, PrintAtom(r)) == Extend(p, [ReadAtom(r)])
    decreases r, if IsAtom(r) then 0 else 2
  {
    var inner := Reading(p.open + [p.top], Level([], []), false);
    match r {
      case Lit(c) => ReadChar(p, c);
      case Any => FeedOne(p, '.');
      case Begin => FeedOne(p, '^');
      case End => FeedOne(p, '$');
      case Group(a) =>
        ReadsAlternatives(inner, a);
        ReadParentheses(p, PrintAlternatives(a), ReadAlternatives(a));
      case _ =>
        ReadsAlternatives(inner, r);
        ReadParentheses(p, PrintAlternatives(r), ReadAlternatives(r));
    }
  }

  lemma {:induction false} ReadsRepeated(p: Parser, a: Re, c: char)
    requires Between(p) && (c == '*' || c == '+' || c == '?')
    ensures var x := ReadAtom(a);
            FeedAll(p, PrintAtom(a) + [c])
            == Extend(p, [if c == '*' then Star(x) else if c == '+' then Plus(x) else Opt(x)])
    decreases a, 3
  {
    FeedAppend(p, PrintAtom(a), [c]);
    ReadsAtom(p, a);
    FeedOne(Extend(p, [ReadAtom(a)]), c);
    ReadOperator(p, ReadAtom(a), c);
  }

  lemma ExtendTwice(p: Parser, xs: seq<Re>, ys: seq<Re>)
    requires p.Reading?
    ensures Extend(Extend(p, xs), ys) == Extend(p, xs + ys)
  {
    assert p.top.cur + xs + ys == p.top.cur + (xs + ys);
  }

  lemma {:induction false} ReadsSequence(p: Parser, r: Re)
    requires Between(p)
    ensures FeedAll(p, PrintSequence(r)) == Extend(p, ReadSequence(r))
    decreases r, if r.Alt? || IsAtom(r) then 1 else 0
  {
    match r {
      case Eps => assert p.top.cur + [] == p.top.cur;
      case Cat(a, b) =>
        FeedAppend(p, PrintSequence(a), PrintSequence(b));
        ReadsSequence(p, a);
        ReadsSequence(Extend(p, ReadSequence(a)), b);
        ExtendTwice(p, ReadSequence(a), ReadSequence(b));
      case Alt(_, _) =>
        ReadsAlternatives(Reading(p.open + [p.top], Level([], []), false), r);
        ReadParentheses(p, PrintAlternatives(r), ReadAlternatives(r));
      case Star(a) => ReadsRepeated(p, a, '*');
      case Plus(a) => ReadsRepeated(p, a, '+');
      case Opt(a) => ReadsRepeated(p, a, '?');
      case _ => ReadsAtom(p, r);
    }
  }

  lemma {:induction false} ReadsAlternatives(p: Parser, r: Re)
    requires Between(p) && p.top.cur == []
    ensures FeedAll(p, PrintAlternatives(r)) == WithAlternatives(p, ReadAlternatives(r))
    decreases r, if r.Alt? then 0 else if IsAtom(r) then 2 else 1
  {
    if r.Alt? {
      var a, b := ReadAlternatives(r.left), ReadAlternatives(r.right);
      var p1 := WithAlternatives(p, a);
      var p2 := p.(top := Level(p.top.done + a, []));
      FeedAppend(p, PrintAlternatives(r.left) + "|", PrintAlternatives(r.right));
      FeedAppend(p, PrintAlternatives(r.left), "|");
      ReadsAlternatives(p, r.left);
      FeedOne(p1, '|');
      assert p.top.done + a[..|a| - 1] + [a[|a| - 1]] == p.top.done + a;
      ReadsAlternatives(p2, r.right);
      JoinAlternatives(p, a, b);
    } else {
      ReadsSequence(p, r);
      assert [] + ReadSequence(r) == ReadSequence(r);
      assert p.top.done + [ReadSequence(r)][..0] == p.top.done;
    }
  }

  lemma JoinAlternatives(p: Parser, a: seq<seq<Re>>, b: seq<seq<Re>>)
    requires p.Reading? && a != [] && b != []
    ensures WithAlternatives(p.(top := Level(p.top.done + a, [])), b) == WithAlternatives(p, a + b)
  {
    var n := |b| - 1;
    assert (a + b)[..|a + b| - 1] == a + b[..n];
    assert p.top.done + a + b[..n] == p.top.done + (a + b[..n]);
  }

  // ---- what it means -------------------------------------------------------------------

  /** Two expressions match the same spans of a subject. */
  ghost predicate Alike(a: Re, b: Re, s: string) {
    forall i: nat, j: nat :: i <= j <= |s| ==> (Spans(a, s, i, j) <==> Spans(b, s, i, j))
  }

  lemma {:induction false} RepeatAlike(a: Re, b: Re, s: string, i: nat, j: nat)
    requires Alike(a, b, s) && i <= j <= |s|
    ensures Spans(Star(a), s, i, j) <==> Spans(Star(b), s, i, j)
    ensures Spans(Plus(a), s, i, j) <==> Spans(Plus(b), s, i, j)
    decreases j - i
  {
    forall m: nat | i < m <= j
      ensures Spans(Star(a), s, m, j) <==> Spans(Star(b), s, m, j)
      ensures Spans(Plus(a), s, m, j) <==> Spans(Plus(b), s, m, j)
    {
      RepeatAlike(a, b, s, m, j);
    }
  }

  lemma {:induction false} AtomMeans(r: Re, s: string)
    ensures Alike(ReadAtom(r), r, s)
    decreases r, if IsAtom(r) then 0 else 2
  {
    match r {
      case Group(a) => AlternativesMean(a, s);
      case Lit(_) =>
      case Any =>
      case Begin =>
      case End =>
      case _ => AlternativesMean(r, s);
    }
  }

  lemma {:induction false} SequenceMeans(r: Re, s: string)
    ensures Alike(CatAll(ReadSequence(r)), r, s)
    decreases r, if r.Alt? || IsAtom(r) then 1 else 0
  {
    match r {
      case Eps =>
      case Cat(a, b) =>
        SequenceMeans(a, s);
        SequenceMeans(b, s);
        CatMeans(a, b, ReadSequence(a), ReadSequence(b), s);
      case Alt(_, _) =>
        AlternativesMean(r, s);
        SingleMeans(Group(AltAll(ReadAlternatives(r))), r, s);
      case Star(a) =>
        AtomMeans(a, s);
        RepeatedMeans(a, ReadAtom(a), s);
      case Plus(a) =>
        AtomMeans(a, s);
        RepeatedMeans(a, ReadAtom(a), s);
      case Opt(a) =>
        AtomMeans(a, s);
        RepeatedMeans(a, ReadAtom(a), s);
      case _ =>
        AtomMeans(r, s);
        SingleMeans(ReadAtom(r), r, s);
    }
  }

  lemma SingleMeans(x: Re, r: Re, s: string)
    requires Alike(x, r, s)
    ensures Alike(CatAll([x]), r, s)
  {
    forall i: nat, j: nat | i <= j <= |s| ensures Spans(CatAll([x]), s, i, j) <==> Spans(r, s, i, j) {
      CatSingle(x, s, i, j);
    }
  }

  lemma CatMeans(a: Re, b: Re, xs: seq<Re>, ys: seq<Re>, s: string)
    requires Alike(CatAll(xs), a, s) && Alike(CatAll(ys), b, s)
    ensures Alike(CatAll(xs + ys), Cat(a, b), s)
  {
    forall i: nat, j: nat | i <= j <= |s| ensures Spans(CatAll(xs + ys), s, i, j) <==> Spans(Cat(a, b), s, i, j) {
      if Spans(CatAll(xs + ys), s, i, j) {
        var m := ItemsSplit(xs, ys, s, i, j);
        CatJoin(a, b, s, i, m, j);
      }
      if Spans(Cat(a, b), s, i, j) {
        var m := CatSplit(a, b, s, i, j);
        ItemsJoin(xs, ys, s, i, m, j);
      }
    }
  }

  lemma RepeatedMeans(a: Re, x: Re, s: string)
    requires Alike(x, a, s)
    ensures Alike(CatAll([Star(x)]), Star(a), s)
    ensures Alike(CatAll([Plus(x)]), Plus(a), s)
    ensures Alike(CatAll([Opt(x)]), Opt(a), s)
  {
    assert Alike(Star(x), Star(a), s) && Alike(Plus(x), Plus(a), s) by {
      forall i: nat, j: nat | i <= j <= |s|
        ensures Spans(Star(x), s, i, j) <==> Spans(Star(a), s, i, j)
        ensures Spans(Plus(x), s, i, j) <==> Spans(Plus(a), s, i, j)
      {
        RepeatAlike(x, a, s, i, j);
      }
    }
    SingleMeans(Star(x), Star(a), s);
    SingleMeans(Plus(x), Plus(a), s);
    OptAlike(x, a, s);
    SingleMeans(Opt(x), Opt(a), s);
  }

  lemma OptAlike(x: Re, a: Re, s: string)
    requires Alike(x, a, s)
    ensures Alike(Opt(x), Opt(a), s)
  {
  }

  lemma {:induction false} AlternativesMean(r: Re, s: string)
    ensures Alike(AltAll(ReadAlternatives(r)), r, s)
    decreases r, if r.Alt? then 0 else if IsAtom(r) then 2 else 1
  {
    if r.Alt? {
      AlternativesMean(r.left, s);
      AlternativesMean(r.right, s);
      forall i: nat, j: nat | i <= j <= |s|
        ensures Spans(AltAll(ReadAlternatives(r)), s, i, j) <==> Spans(r, s, i, j)
      {
        AltJoin(ReadAlternatives(r.left), ReadAlternatives(r.right), s, i, j);
      }
    } else {
      SequenceMeans(r, s);
    }
  }

  lemma AltJoin(a: seq<seq<Re>>, b: seq<seq<Re>>, s: string, i: nat, j: nat)
    requires a != [] && b != [] && i <= j <= |s|
    ensures Spans(AltAll(a + b), s, i, j) <==> Spans(AltAll(a), s, i, j) || Spans(AltAll(b), s, i, j)
  {
    AltSpans(a, s, i, j);
    AltSpans(b, s, i, j);
    AltSpans(a + b, s, i, j);
    assert forall k :: 0 <= k < |a| ==> (a + b)[k] == a[k];
    assert forall k :: 0 <= k < |b| ==> (a + b)[|a| + k] == b[k];
    if k :| 0 <= k < |a + b| && Spans(CatAll((a + b)[k]), s, i, j) {
      assert k >= |a| ==> Spans(CatAll(b[k - |a|]), s, i, j);
    }
  }

  // ---- the round trip ------------------------------------------------------------------

  lemma ParsePrinted(r: Re)
    ensures InFragment(PrintAlternatives(r)) && Parse(PrintAlternatives(r)) == Some(ReadAlternatives(r))
  {
    var alts := ReadAlternatives(r);
    ReadsAlternatives(START, r);
    assert [] + alts[..|alts| - 1] == alts[..|alts| - 1];
    assert Level(alts[..|alts| - 1], alts[|alts| - 1]).Alternatives() == alts;
  }

  /** Every expression of the fragment, printed, compiles to one that matches the same spans of every
      subject: precedence, groups, alternation and operators are read as they were written. */
  lemma PrintedCompiles(r: Re, lib: Library, s: string)
    ensures InFragment(PrintAlternatives(r))
    ensures var re := Compile(PrintAlternatives(r), lib);
            re.Some? && Alike(re.value, r, s) && (MatchString(re.value, s) <==> MatchString(r, s))
  {
    ParsePrinted(r);
    AlternativesMean(r, s);
  }

  /** So a selector written without anchors and escapes accepts exactly the names its expression matches
      as a whole, as `(dev|prod)-.*` does. */
  lemma SelectorOfExpression(r: Re, lib: Library, name: string)
    requires var text := PrintSequence(r);
             text != "" && text[0] != '^' && text[|text| - 1] != '$' && '\\' !in text
    requires NoNewline(name)
    ensures var re := CompileSelector(PrintSequence(r), lib);
            re.Some? && (MatchString(re.value, name) <==> FullMatch(r, name))
  {
    var text := PrintSequence(r);
    Ends(text);
    ReadsSequence(START, r);
    assert START.top.cur + ReadSequence(r) == ReadSequence(r);
    assert Level([], ReadSequence(r)).Alternatives() == [ReadSequence(r)];
    SelectorIsFullMatch(text, lib, name);
    SequenceMeans(r, name);
  }

  // ---- what is malformed, and what is outside the fragment -----------------------------

  /** After a printed expression the parser is between two items, with nothing open. */
  lemma AfterPrinted(r: Re, more: string) returns (p: Parser)
    ensures Between(p) && p.open == [] && FeedAll(START, PrintAlternatives(r) + more) == FeedAll(p, more)
    ensures p.top.Alternatives() == ReadAlternatives(r)
  {
    p := FeedAll(START, PrintAlternatives(r));
    FeedAppend(START, PrintAlternatives(r), more);
    ParsePrinted(r);
  }

  lemma FeedThree(p: Parser, c: char, d: char, rest: string)
    ensures FeedAll(p, [c, d] + rest) == FeedAll(Feed(Feed(p, c), d), rest)
    ensures FeedAll(p, [c] + rest) == FeedAll(Feed(p, c), rest)
  {
    FeedAppend(p, [c, d], rest);
    FeedTwo(p, c, d);
    FeedAppend(p, [c], rest);
    FeedOne(p, c);
  }

  /** Behind any expression a bracket, a brace, an escaped letter or digit, or a group with flags takes the
      text out of the fragment, whatever follows. */
  lemma OutsideTexts(r: Re, c: char, rest: string)
    ensures c in {'[', ']', '{', '}'} ==> !InFragment(PrintAlternatives(r) + ([c] + rest))
    ensures '0' <= c <= '9' || 'a' <= c <= 'z' || 'A' <= c <= 'Z' ==>
              !InFragment(PrintAlternatives(r) + (['\\', c] + rest))
    ensures !InFragment(PrintAlternatives(r) + (['(', '?'] + rest))
  {
    BracketOutside(r, c, rest);
    EscapeOutside(r, c, rest);
    FlagsOutside(r, rest);
  }

  lemma BracketOutside(r: Re, c: char, rest: string)
    ensures c in {'[', ']', '{', '}'} ==> !InFragment(PrintAlternatives(r) + ([c] + rest))
  {
    var p := AfterPrinted(r, [c] + rest);
    FeedThree(p, c, c, rest);
    FailedStaysFailed(rest);
  }

  lemma EscapeOutside(r: Re, c: char, rest: string)
    ensures '0' <= c <= '9' || 'a' <= c <= 'z' || 'A' <= c <= 'Z' ==>
              !InFragment(PrintAlternatives(r) + (['\\', c] + rest))
  {
    var p := AfterPrinted(r, ['\\', c] + rest);
    FeedThree(p, '\\', c, rest);
    FailedStaysFailed(rest);
  }

  lemma FlagsOutside(r: Re, rest: string)
    ensures !InFragment(PrintAlternatives(r) + (['(', '?'] + rest))
  {
    var p := AfterPrinted(r, ['(', '?'] + rest);
    FeedThree(p, '(', '?', rest);
    FailedStaysFailed(rest);
  }

  /** A question mark behind a repetition makes it lazy, which is outside as well. */
  lemma LazyOutside(a: Re, rest: string)
    ensures !InFragment(PrintAlternatives(Star(a)) + (['?'] + rest))
  {
    var p := AfterPrinted(Star(a), ['?'] + rest);
    LastRead(p, Star(a));
    LazyStep(p, ReadAtom(a));
    FeedThree(p, '?', '?', rest);
    FailedStaysFailed(rest);
  }

  lemma LazyStep(p: Parser, x: Re)
    requires Between(p) && p.top.cur == [Star(x)]
    ensures Feed(p, '?') == Outside
  {
  }

  lemma LastRead(p: Parser, r: Re)
    requires p.Reading? && r.Star? && p.top.Alternatives() == ReadAlternatives(r)
    ensures p.top.done == [] && p.top.cur == [Star(ReadAtom(r.body))]
  {
    assert ReadAlternatives(r) == [[Star(ReadAtom(r.body))]];
    assert |p.top.done| + 1 == 1;
    assert p.top.Alternatives()[0] == p.top.cur;
  }

  /** Malformed whatever follows and whatever the library: a parenthesis too many, a second operator, an
      operator with nothing before it, an escaped character beyond ASCII. */
  lemma MalformedTexts(r: Re, c: char, lib: Library, rest: string)
    ensures Compile(PrintAlternatives(r) + ([')'] + rest), lib) == None
    ensures c == '*' || c == '+' ==> Compile(PrintAlternatives(Star(r)) + ([c] + rest), lib) == None
    ensures c == '*' || c == '+' || c == '?' ==> Compile(PrintAlternatives(r) + (['|', c] + rest), lib) == None
    ensures c as int >= 128 ==> Compile(PrintAlternatives(r) + (['\\', c] + rest), lib) == None
  {
    StrayParenthesis(r, lib, rest);
    SecondOperator(r, c, lib, rest);
    OperatorAlone(r, c, lib, rest);
    EscapedBeyondAscii(r, c, lib, rest);
  }

  lemma StrayParenthesis(r: Re, lib: Library, rest: string)
    ensures Compile(PrintAlternatives(r) + ([')'] + rest), lib) == None
  {
    var p := AfterPrinted(r, [')'] + rest);
    FeedThree(p, ')', ')', rest);
    FailedStaysFailed(rest);
  }

  lemma SecondOperator(r: Re, c: char, lib: Library, rest: string)
    ensures c == '*' || c == '+' ==> Compile(PrintAlternatives(Star(r)) + ([c] + rest), lib) == None
  {
    if c == '*' || c == '+' {
      var p := AfterPrinted(Star(r), [c] + rest);
      LastRead(p, Star(r));
      SecondStep(p, ReadAtom(r), c);
      FeedThree(p, c, c, rest);
      FailedStaysFailed(rest);
    }
  }

  lemma SecondStep(p: Parser, x: Re, c: char)
    requires Between(p) && p.top.cur == [Star(x)] && (c == '*' || c == '+')
    ensures Feed(p, c) == Failed
  {
  }

  lemma OperatorAlone(r: Re, c: char, lib: Library, rest: string)
    ensures c == '*' || c == '+' || c == '?' ==> Compile(PrintAlternatives(r) + (['|', c] + rest), lib) == None
  {
    var p := AfterPrinted(r, ['|', c] + rest);
    FeedThree(p, '|', c, rest);
    FailedStaysFailed(rest);
  }

  lemma EscapedBeyondAscii(r: Re, c: char, lib: Library, rest: string)
    ensures c as int >= 128 ==> Compile(PrintAlternatives(r) + (['\\', c] + rest), lib) == None
  {
    var p := AfterPrinted(r, ['\\', c] + rest);
    FeedThree(p, '\\', c, rest);
    FailedStaysFailed(rest);
  }

  /** Malformed at the end: a group left open, a backslash with nothing to escape. */
  lemma UnfinishedTexts(r: Re, lib: Library)
    ensures Compile("(" + PrintAlternatives(r), lib) == None
    ensures Compile(PrintAlternatives(r) + "\\", lib) == None
  {
    var inner := Feed(START, '(');
    FeedAppend(START, "(", PrintAlternatives(r));
    FeedOne(START, '(');
    ReadsAlternatives(inner, r);
    var p := AfterPrinted(r, "\\");
    FeedOne(p, '\\');
  }

  // ---- the operators -------------------------------------------------------------------

  /** `n` times in a row. */
  function Times(a: Re, n: nat): Re {
    if n == 0 then Eps else Cat(a, Times(a, n - 1))
  }

  lemma {:induction false} TimesIsStar(a: Re, n: nat, s: string, i: nat, j: nat)
    requires i <= j <= |s| && Spans(Times(a, n), s, i, j)
    ensures Spans(Star(a), s, i, j)
    decreases n
  {
    if n > 0 {
      var m := CatSplit(a, Times(a, n - 1), s, i, j);
      TimesIsStar(a, n - 1, s, m, j);
    }
  }

  lemma {:induction false} StarIsTimes(a: Re, s: string, i: nat, j: nat) returns (n: nat)
    requires i <= j <= |s| && Spans(Star(a), s, i, j)
    ensures Spans(Times(a, n), s, i, j)
    decreases j - i
  {
    if i == j {
      n := 0;
    } else {
      var m: nat :| i < m <= j && Spans(a, s, i, m) && Spans(Star(a), s, m, j);
      var k := StarIsTimes(a, s, m, j);
      n := k + 1;
      CatJoin(a, Times(a, k), s, i, m, j);
    }
  }

  /** A star is any number of repetitions, a plus at least one, a question mark at most one. */
  lemma OperatorsCount(a: Re, s: string, i: nat, j: nat)
    requires i <= j <= |s|
    ensures Spans(Star(a), s, i, j) <==> exists n: nat :: SpansTimes(a, n, s, i, j)
    ensures Spans(Plus(a), s, i, j) <==> Spans(Cat(a, Star(a)), s, i, j)
    ensures Spans(Opt(a), s, i, j) <==> Spans(Times(a, 0), s, i, j) || Spans(Times(a, 1), s, i, j)
  {
    StarCounts(a, s, i, j);
    PlusIsMore(a, s, i, j);
    OptCounts(a, s, i, j);
  }

  lemma StarCounts(a: Re, s: string, i: nat, j: nat)
    requires i <= j <= |s|
    ensures Spans(Star(a), s, i, j) <==> exists n: nat :: SpansTimes(a, n, s, i, j)
  {
    if Spans(Star(a), s, i, j) {
      var n := StarIsTimes(a, s, i, j);
      assert SpansTimes(a, n, s, i, j);
    } else {
      forall n: nat ensures !SpansTimes(a, n, s, i, j) {
        if SpansTimes(a, n, s, i, j) {
          TimesIsStar(a, n, s, i, j);
        }
      }
    }
  }

  predicate SpansTimes(a: Re, n: nat, s: string, i: nat, j: nat)
    requires i <= j <= |s|
  {
    Spans(Times(a, n), s, i, j)
  }

  lemma OptCounts(a: Re, s: string, i: nat, j: nat)
    requires i <= j <= |s|
    ensures Spans(Opt(a), s, i, j) <==> Spans(Times(a, 0), s, i, j) || Spans(Times(a, 1), s, i, j)
  {
    OnceIs(a, s, i, j);
  }

  lemma OnceIs(a: Re, s: string, i: nat, j: nat)
    requires i <= j <= |s|
    ensures Spans(Times(a, 1), s, i, j) <==> Spans(a, s, i, j)
  {
    assert Times(a, 1) == Cat(a, Eps);
    if Spans(a, s, i, j) {
      CatJoin(a, Eps, s, i, j, j);
    }
  }

  lemma {:induction false} PlusIsMore(a: Re, s: string, i: nat, j: nat)
    requires i <= j <= |s|
    ensures Spans(Plus(a), s, i, j) <==> Spans(Cat(a, Star(a)), s, i, j)
    decreases j - i
  {
    forall m: nat | i < m <= j ensures Spans(Plus(a), s, m, j) <==> Spans(Cat(a, Star(a)), s, m, j) {
      PlusIsMore(a, s, m, j);
    }
    if Spans(Plus(a), s, i, j) {
      if Spans(a, s, i, j) {
        CatJoin(a, Star(a), s, i, j, j);
      } else {
        var m := PlusSplit(a, s, i, j);
        MoreIsStar(a, s, m, j);
        CatJoin(a, Star(a), s, i, m, j);
      }
    }
    if Spans(Cat(a, Star(a)), s, i, j) {
      var m := CatSplit(a, Star(a), s, i, j);
      StarIsPlus(a, s, i, m, j);
    }
  }

  lemma PlusSplit(a: Re, s: string, i: nat, j: nat) returns (m: nat)
    requires i <= j <= |s| && Spans(Plus(a), s, i, j) && !Spans(a, s, i, j)
    ensures i < m <= j && Spans(a, s, i, m) && Spans(Plus(a), s, m, j)
  {
    m :| i < m <= j && Spans(a, s, i, m) && Spans(Plus(a), s, m, j);
  }

  lemma MoreIsStar(a: Re, s: string, i: nat, j: nat)
    requires i <= j <= |s| && Spans(Cat(a, Star(a)), s, i, j)
    ensures Spans(Star(a), s, i, j)
  {
    var m := CatSplit(a, Star(a), s, i, j);
    if m == i {
      assert Spans(Star(a), s, i, j);
    }
  }

  lemma {:induction false} StarIsPlus(a: Re, s: string, i: nat, m: nat, j: nat)
    requires i <= m <= j <= |s| && Spans(a, s, i, m) && Spans(Star(a), s, m, j)
    ensures Spans(Plus(a), s, i, j)
    decreases j - m
  {
    if m < j {
      var k: nat :| m < k <= j && Spans(a, s, m, k) && Spans(Star(a), s, k, j);
      StarIsPlus(a, s, m, k, j);
      if i == m {
        assert Spans(Plus(a), s, i, j);
      }
    }
  }
}
