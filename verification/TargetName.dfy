/** Target-name templates: each `$n` or `${n}` found in the template is replaced, one after the
    other, at its first occurrence in the name built so far. */
module TargetName {
  import opened Identifiers

  predicate IsDigit(c: char) {
    '0' <= c <= '9'
  }

  function DigitsLen(s: string): (n: nat)
    ensures n <= |s| && forall i :: 0 <= i < n ==> IsDigit(s[i])
    ensures n < |s| ==> !IsDigit(s[n])
  {
    if s != "" && IsDigit(s[0]) then 1 + DigitsLen(s[1..]) else 0
  }

  /** The length of the token `\$\d+|\$\{\d+\}` at the start of `t`, zero if there is none. */
  function TokenLen(t: string): (n: nat)
    ensures n <= |t| && (n > 0 ==> n >= 2 && t[0] == '$' && forall i :: 0 < i < n ==> t[i] != '$')
  {
    if |t| < 2 || t[0] != '$' then 0
    else
      var plain := DigitsLen(t[1..]);
      if plain > 0 then
        assert forall i :: 0 < i < 1 + plain ==> t[i] == t[1..][i - 1];
        1 + plain
      else if t[1] != '{' then 0
      else
        var braced := DigitsLen(t[2..]);
        assert forall i :: 2 <= i < 2 + braced ==> t[i] == t[2..][i - 2];
        if braced > 0 && 2 + braced < |t| && t[2 + braced] == '}' then 3 + braced else 0
  }

  predicate AllDigits(s: string) {
    s != "" && forall i :: 0 <= i < |s| ==> IsDigit(s[i])
  }

  /** What the pattern `\$\d+|\$\{\d+\}` describes. */
  predicate IsToken(s: string) {
    || (|s| >= 2 && s[0] == '$' && AllDigits(s[1..]))
    || (|s| >= 4 && s[0] == '$' && s[1] == '{' && s[|s| - 1] == '}' && AllDigits(s[2..|s| - 1]))
  }

  lemma FoundIsToken(t: string)
    requires TokenLen(t) > 0
    ensures IsToken(t[..TokenLen(t)])
  {
    var n := TokenLen(t);
    assert t[..n][1..] == t[1..][..n - 1];
    if t[1] == '{' {
      assert t[..n][2..n - 1] == t[2..][..n - 3];
    }
  }

  lemma PlainFound(t: string, m: nat)
    requires 2 <= m <= |t| && t[0] == '$' && AllDigits(t[..m][1..])
    ensures m <= TokenLen(t)
  {
    assert t[..m][1..] == t[1..][..m - 1];
    LongestDigits(t[1..], m - 1);
  }

  lemma BracedFound(t: string, m: nat)
    requires 4 <= m <= |t| && t[0] == '$' && t[1] == '{' && t[m - 1] == '}' && AllDigits(t[..m][2..m - 1])
    ensures m == TokenLen(t)
  {
    assert t[..m][2..m - 1] == t[2..][..m - 3];
    LongestDigits(t[2..], m - 3);
    assert t[2..][m - 3] == t[m - 1];
    assert t[1..][0] == '{';
  }

  /** The scanner finds the longest token there is, and none exactly if there is none. */
  lemma TokenLenMeaning(t: string, m: nat)
    requires m <= |t|
    ensures TokenLen(t) > 0 ==> IsToken(t[..TokenLen(t)])
    ensures IsToken(t[..m]) ==> m <= TokenLen(t)
  {
    if TokenLen(t) > 0 {
      FoundIsToken(t);
    }
    if IsToken(t[..m]) {
      if AllDigits(t[..m][1..]) {
        PlainFound(t, m);
      } else {
        BracedFound(t, m);
      }
    }
  }

  lemma LongestDigits(s: string, k: nat)
    requires k <= |s| && AllDigits(s[..k])
    ensures k <= DigitsLen(s)
    ensures k < |s| && !IsDigit(s[k]) ==> DigitsLen(s) == k
  {
    assert forall i :: 0 <= i < k ==> s[..k][i] == s[i];
  }

  /** Tokens hold one dollar, in front. */
  predicate IsMarker(s: string) {
    |s| >= 2 && s[0] == '$' && forall i :: 0 < i < |s| ==> s[i] != '$'
  }

  /** `FindAllString`: the tokens of the template, left to right. */
  function FindAll(t: string): (r: seq<string>)
    ensures forall i :: 0 <= i < |r| ==> IsMarker(r[i])
    decreases |t|
  {
    if t == "" then []
    else
      var n := TokenLen(t);
      if n > 0 then [t[..n]] + FindAll(t[n..]) else FindAll(t[1..])
  }

  function Decimal(digits: string): nat {
    if digits == "" then 0
    else
      var last := digits[|digits| - 1];
      10 * Decimal(digits[..|digits| - 1]) + if IsDigit(last) then last as int - '0' as int else 0
  }

  const MAX_INT := 0x7fff_ffff_ffff_ffff

  /** The group a token names; `None` when the number does not fit. */
  function GroupNumber(token: string): Option<nat>
    requires |token| >= 2
  {
    var digits := if token[1] == '{' && |token| > 2 then token[2..|token| - 1] else token[1..];
    if Decimal(digits) <= MAX_INT then Some(Decimal(digits)) else None
  }

  /** A group that the selector does not have is replaced by nothing. */
  function GroupText(groups: seq<string>, n: nat): string {
    if n < |groups| then groups[n] else ""
  }

  /** `strings.Replace` with a limit of one. */
  function ReplaceFirst(s: string, needle: string, text: string): string {
    if needle <= s then text + s[|needle|..]
    else if s == "" then s
    else [s[0]] + ReplaceFirst(s[1..], needle, text)
  }

  function ReplaceOne(result: string, token: string, groups: seq<string>): string
    requires |token| >= 2
  {
    match GroupNumber(token)
    case None => result
    case Some(n) => ReplaceFirst(result, token, GroupText(groups, n))
  }

  function ReplaceEach(result: string, tokens: seq<string>, groups: seq<string>): string
    requires forall i :: 0 <= i < |tokens| ==> |tokens[i]| >= 2
    decreases |tokens|
  {
    if tokens == [] then result else ReplaceEach(ReplaceOne(result, tokens[0], groups), tokens[1..], groups)
  }

  /** The groups are what the selector captured of the source's name. */
  method TransformTargetName(template: string, groups: seq<string>) returns (result: string)
    ensures result == ReplaceEach(template, FindAll(template), groups)
    ensures Safe(template) && DollarFree(groups) ==> result == Substitute(template, groups)
  {
    var tokens := FindAll(template);
    result := template;
    for i := 0 to |tokens|
      invariant ReplaceEach(template, tokens, groups) == ReplaceEach(result, tokens[i..], groups)
    {
      assert tokens[i..][0] == tokens[i] && tokens[i..][1..] == tokens[i + 1..];
      var number := GroupNumber(tokens[i]);
      if number == None {
        continue;
      }
      result := ReplaceFirst(result, tokens[i], GroupText(groups, number.value));
    }
    if Safe(template) && DollarFree(groups) {
      SequentialIsSimultaneous(template, groups);
    }
  }

  // ---- simultaneous substitution -------------------------------------------------------

  /** Every token replaced where it stands. */
  function Substitute(t: string, groups: seq<string>): string
    decreases |t|
  {
    if t == "" then ""
    else
      var n := TokenLen(t);
      if n > 0 && GroupNumber(t[..n]).Some? then
        GroupText(groups, GroupNumber(t[..n]).value) + Substitute(t[n..], groups)
      else if n > 0 then t[..n] + Substitute(t[n..], groups)
      else [t[0]] + Substitute(t[1..], groups)
  }

  ghost predicate Simultaneous(t: string, groups: seq<string>) {
    ReplaceEach(t, FindAll(t), groups) == Substitute(t, groups)
  }

  predicate DollarFree(groups: seq<string>) {
    forall i :: 0 <= i < |groups| ==> '$' !in groups[i]
  }

  // ---- pieces of a template ------------------------------------------------------------

  /** The template starts with a token whose number fits. */
  predicate AtToken(t: string) {
    TokenLen(t) > 0 && GroupNumber(t[..TokenLen(t)]).Some?
  }

  /** The length of the text up to the next dollar, the one at the start aside. */
  function TextLen(t: string): (d: nat)
    requires t != ""
    ensures 0 < d <= |t| && (forall i :: 0 < i < d ==> t[i] != '$') && (d < |t| ==> t[d] == '$')
  {
    if |t| == 1 || t[1] == '$' then 1 else 1 + TextLen(t[1..])
  }

  /** Templates are taken apart into tokens and stretches of text with at most one dollar, in front. */
  function PieceLen(t: string): (n: nat)
    requires t != ""
    ensures 0 < n <= |t| && forall i :: 0 < i < n ==> t[i] != '$'
  {
    if AtToken(t) then TokenLen(t) else TextLen(t)
  }

  /** The tokens that are replaced. */
  function Tokens(t: string): (r: seq<string>)
    ensures forall token :: token in r ==> IsMarker(token)
    decreases |t|
  {
    if t == "" then []
    else
      var n := PieceLen(t);
      if AtToken(t) then [t[..n]] + Tokens(t[n..]) else Tokens(t[n..])
  }

  function TextAt(t: string, groups: seq<string>): string
    requires AtToken(t)
  {
    GroupText(groups, GroupNumber(t[..TokenLen(t)]).value)
  }

  lemma Associate(a: string, b: string, c: string)
    ensures a + b + c == a + (b + c)
  {
  }

  lemma Tail(t: string, k: nat, d: nat)
    requires k <= d <= |t|
    ensures t[k..][d - k..] == t[d..] && t[..d] == t[..k] + t[k..][..d - k]
  {
  }

  lemma Halves(t: string, n: nat)
    requires n <= |t|
    ensures t == t[..n] + t[n..]
  {
  }

  lemma SkipToken(t: string, k: nat)
    requires k < |t| && t[k] != '$'
    ensures FindAll(t[k..]) == FindAll(t[k + 1..])
  {
    assert t[k..][0] == t[k] && t[k..][1..] == t[k + 1..];
  }

  /** Text without a dollar holds no token... */
  lemma {:induction false} SkipTokens(t: string, k: nat, d: nat)
    requires k <= d <= |t| && forall i :: k <= i < d ==> t[i] != '$'
    ensures FindAll(t[k..]) == FindAll(t[d..])
    decreases d - k
  {
    if k < d {
      SkipToken(t, k);
      SkipTokens(t, k + 1, d);
    }
  }

  /** ... and stays as it is. */
  lemma {:induction false} SkipText(t: string, d: nat, groups: seq<string>)
    requires d <= |t| && forall i :: 0 <= i < d ==> t[i] != '$'
    ensures Substitute(t, groups) == t[..d] + Substitute(t[d..], groups)
    decreases d
  {
    if d == 0 {
      assert t[0..] == t && t[..0] == "";
    } else {
      SkipText(t[1..], d - 1, groups);
      Tail(t, 1, d);
      assert t[..1] == [t[0]];
      Associate([t[0]], t[1..][..d - 1], Substitute(t[d..], groups));
    }
  }

  /** What a stretch of text starts with: a character, or a token with a number that does not fit. */
  function HeadLen(t: string): (k: nat)
    requires t != "" && !AtToken(t)
    ensures 0 < k <= PieceLen(t)
  {
    if TokenLen(t) > 0 then TokenLen(t) else 1
  }

  lemma HeadReplaced(result: string, t: string, groups: seq<string>)
    requires t != "" && !AtToken(t)
    ensures ReplaceEach(result, FindAll(t), groups) == ReplaceEach(result, FindAll(t[HeadLen(t)..]), groups)
  {
    var n := TokenLen(t);
    if n > 0 {
      assert ([t[..n]] + FindAll(t[n..]))[1..] == FindAll(t[n..]);
    }
  }

  lemma HeadSubstituted(t: string, groups: seq<string>)
    requires t != "" && !AtToken(t)
    ensures Substitute(t, groups) == t[..HeadLen(t)] + Substitute(t[HeadLen(t)..], groups)
  {
    assert t[..1] == [t[0]];
  }

  /** A stretch of text stays as it is, replacing one by one... */
  lemma TextReplaced(result: string, t: string, groups: seq<string>)
    requires t != "" && !AtToken(t)
    ensures ReplaceEach(result, FindAll(t), groups) == ReplaceEach(result, FindAll(t[PieceLen(t)..]), groups)
  {
    var d, k := PieceLen(t), HeadLen(t);
    HeadReplaced(result, t, groups);
    SkipTokens(t, k, d);
  }

  /** ... and all at once. */
  lemma TextSubstituted(t: string, groups: seq<string>)
    requires t != "" && !AtToken(t)
    ensures Substitute(t, groups) == t[..PieceLen(t)] + Substitute(t[PieceLen(t)..], groups)
  {
    var d, k := PieceLen(t), HeadLen(t);
    HeadSubstituted(t, groups);
    SkipText(t[k..], d - k, groups);
    Tail(t, k, d);
    Associate(t[..k], t[k..][..d - k], Substitute(t[d..], groups));
  }

  // ---- the first occurrence ------------------------------------------------------------

  predicate Occurs(token: string, s: string) {
    exists i :: 0 <= i < |s| && token <= s[i..]
  }

  /** A token occurs in the text before it, or is replaced where it stands: it cannot straddle. */
  lemma {:induction false} ReplacedInPlace(s: string, token: string, rest: string, text: string)
    requires IsMarker(token) && !Occurs(token, s)
    ensures ReplaceFirst(s + token + rest, token, text) == s + text + rest
    decreases |s|
  {
    var all := s + token + rest;
    if s == "" {
      assert all == token + rest;
    } else {
      NoStraddle(s, token, rest);
      ConsSum(s, token, rest);
      ConsSum(s, text, rest);
      OccursLater(token, s);
      ReplacedInPlace(s[1..], token, rest, text);
    }
  }

  lemma ConsSum(s: string, a: string, b: string)
    requires s != ""
    ensures (s + a + b)[0] == s[0] && (s + a + b)[1..] == s[1..] + a + b
    ensures s + a + b == [s[0]] + (s[1..] + a + b)
  {
    assert (s + a + b)[1..] == s[1..] + a + b;
  }

  lemma NoStraddle(s: string, token: string, rest: string)
    requires s != "" && IsMarker(token) && !Occurs(token, s)
    ensures !(token <= s + token + rest)
  {
    var all := s + token + rest;
    assert s[0..] == s;
    if |token| <= |s| {
      assert all[..|token|] == s[..|token|];
    } else {
      assert all[|s|] == '$' != token[|s|];
    }
  }

  lemma OccursLater(token: string, s: string)
    requires s != ""
    ensures Occurs(token, s[1..]) ==> Occurs(token, s)
  {
    if Occurs(token, s[1..]) {
      var i :| 0 <= i < |s[1..]| && token <= s[1..][i..];
      assert s[1..][i..] == s[i + 1..];
    }
  }

  // ---- clashes -------------------------------------------------------------------------

  /** With `done` in front of the rest of the template, no token that is still to be replaced occurs in what
      has been built so far. */
  ghost predicate NoClash(done: string, t: string, groups: seq<string>)
    decreases |t|
  {
    t != "" ==>
      var n := PieceLen(t);
      if AtToken(t) then !Occurs(t[..n], done) && NoClash(done + TextAt(t, groups), t[n..], groups)
      else NoClash(done + t[..n], t[n..], groups)
  }

  /** The text a piece of the template becomes. */
  function Filling(t: string, groups: seq<string>): string
    requires t != ""
  {
    if AtToken(t) then TextAt(t, groups) else t[..PieceLen(t)]
  }

  lemma SubstitutePiece(t: string, groups: seq<string>)
    requires t != ""
    ensures Substitute(t, groups) == Filling(t, groups) + Substitute(t[PieceLen(t)..], groups)
  {
    if !AtToken(t) {
      TextSubstituted(t, groups);
    }
  }

  lemma TokenReplaced(result: string, t: string, groups: seq<string>)
    requires t != "" && AtToken(t)
    ensures var n := PieceLen(t);
            ReplaceEach(result, FindAll(t), groups)
            == ReplaceEach(ReplaceFirst(result, t[..n], TextAt(t, groups)), FindAll(t[n..]), groups)
  {
    var n := PieceLen(t);
    assert ([t[..n]] + FindAll(t[n..]))[1..] == FindAll(t[n..]);
  }

  /** One piece of the template, its token not occurring earlier. */
  lemma ReplacePiece(done: string, t: string, groups: seq<string>)
    requires t != "" && (AtToken(t) ==> !Occurs(t[..PieceLen(t)], done))
    ensures var rest := t[PieceLen(t)..];
            ReplaceEach(done + t, FindAll(t), groups)
            == ReplaceEach(done + Filling(t, groups) + rest, FindAll(rest), groups)
  {
    var n := PieceLen(t);
    Halves(t, n);
    Associate(done, t[..n], t[n..]);
    if AtToken(t) {
      TokenReplaced(done + t, t, groups);
      ReplacedInPlace(done, t[..n], t[n..], TextAt(t, groups));
    } else {
      TextReplaced(done + t, t, groups);
    }
  }

  lemma NoClashPiece(done: string, t: string, groups: seq<string>)
    requires t != ""
    ensures NoClash(done, t, groups) <==>
            && (AtToken(t) ==> !Occurs(t[..PieceLen(t)], done))
            && NoClash(done + Filling(t, groups), t[PieceLen(t)..], groups)
  {
  }

  /** Without a clash the loop replaces every token where it stands. */
  lemma {:induction false} NoClashAgrees(done: string, t: string, groups: seq<string>)
    requires NoClash(done, t, groups)
    ensures ReplaceEach(done + t, FindAll(t), groups) == done + Substitute(t, groups)
    decreases |t|
  {
    if t == "" {
      assert done + t == done;
    } else {
      var text, rest := Filling(t, groups), t[PieceLen(t)..];
      NoClashPiece(done, t, groups);
      ReplacePiece(done, t, groups);
      SubstitutePiece(t, groups);
      NoClashAgrees(done + text, rest, groups);
      Associate(done, text, Substitute(rest, groups));
    }
  }

  // ---- safe templates ------------------------------------------------------------------

  /** The tokens that are replaced after more text has come to stand behind what precedes `t`. */
  function Later(t: string): (r: seq<string>)
    ensures forall token :: token in r ==> token in Tokens(t)
  {
    if t == "" then []
    else if AtToken(t) then Tokens(t[PieceLen(t)..])
    else if t[0] == '$' then []
    else Tokens(t)
  }

  /** A dollar with text `w` behind it, before the rest `t`: no token of the rest is there, and none can
      come to be there whatever is filled in. */
  predicate Calm(w: string, t: string) {
    && (forall token :: token in Tokens(t) ==> !(token <= w))
    && (forall token :: token in Later(t) ==> !(w <= token))
  }

  /** Every dollar that starts no token with a number that fits is calm. */
  predicate Safe(t: string)
    decreases |t|
  {
    t != "" ==>
      var n := PieceLen(t);
      (!AtToken(t) && t[0] == '$' ==> Calm(t[..n], t[n..])) && Safe(t[n..])
  }

  ghost predicate AllCalm(done: string, t: string) {
    forall i :: 0 <= i < |done| && done[i] == '$' ==> Calm(done[i..], t)
  }

  /** A prefix of an extended text is a prefix of the text, or extends it. */
  lemma PrefixOfSum(token: string, w: string, x: string)
    ensures token <= w + x ==> token <= w || w <= token
    ensures w + x <= token ==> w <= token
    ensures IsMarker(token) && w != "" && x != "" && x[0] == '$' ==>
              (token <= w + x ==> token <= w) && !(w + x <= token)
  {
    if token <= w + x {
      if |token| <= |w| {
        assert (w + x)[..|token|] == w[..|token|];
      } else {
        assert w == (w + x)[..|w|] == token[..|w|];
        assert token[|w|] == x[0];
      }
    }
    if w + x <= token {
      assert w == (w + x)[..|w|] == token[..|w|];
      assert x != "" ==> token[|w|] == x[0];
    }
  }

  lemma CalmAfterText(w: string, t: string)
    requires w != "" && t != "" && !AtToken(t) && Calm(w, t)
    ensures Calm(w + t[..PieceLen(t)], t[PieceLen(t)..])
  {
    var n := PieceLen(t);
    forall token | token in Tokens(t[n..])
      ensures !(token <= w + t[..n]) && !(w + t[..n] <= token)
    {
      assert token in Tokens(t) && IsMarker(token);
      assert t[0] != '$' ==> token in Later(t);
      assert t[..n] != "" && t[..n][0] == t[0];
      PrefixOfSum(token, w, t[..n]);
    }
  }

  lemma CalmAfterToken(w: string, t: string, text: string)
    requires t != "" && AtToken(t) && Calm(w, t)
    ensures Calm(w + text, t[PieceLen(t)..])
  {
    forall token | token in Tokens(t[PieceLen(t)..])
      ensures !(token <= w + text) && !(w + text <= token)
    {
      assert token in Later(t) && token in Tokens(t);
      PrefixOfSum(token, w, text);
    }
  }

  lemma AllCalmAfterToken(done: string, t: string, text: string)
    requires t != "" && AtToken(t) && AllCalm(done, t) && '$' !in text
    ensures AllCalm(done + text, t[PieceLen(t)..])
  {
    forall i | 0 <= i < |done + text| && (done + text)[i] == '$'
      ensures Calm((done + text)[i..], t[PieceLen(t)..])
    {
      assert forall j :: 0 <= j < |text| ==> text[j] in text;
      assert (done + text)[i..] == done[i..] + text;
      CalmAfterToken(done[i..], t, text);
    }
  }

  lemma AllCalmAfterText(done: string, t: string)
    requires t != "" && !AtToken(t) && AllCalm(done, t) && Safe(t)
    ensures AllCalm(done + t[..PieceLen(t)], t[PieceLen(t)..])
  {
    var text := t[..PieceLen(t)];
    forall i | 0 <= i < |done + text| && (done + text)[i] == '$'
      ensures Calm((done + text)[i..], t[PieceLen(t)..])
    {
      if i < |done| {
        assert (done + text)[i..] == done[i..] + text;
        CalmAfterText(done[i..], t);
      } else {
        assert i == |done|;
        assert (done + text)[i..] == text;
      }
    }
  }

  lemma CalmHasNoToken(done: string, t: string)
    requires t != "" && AtToken(t) && AllCalm(done, t)
    ensures !Occurs(t[..PieceLen(t)], done)
  {
    var token := t[..PieceLen(t)];
    assert token in Tokens(t);
    forall i | 0 <= i < |done| ensures !(token <= done[i..]) {
      assert done[i..][0] == done[i];
    }
  }

  lemma {:induction false} SafeNoClash(done: string, t: string, groups: seq<string>)
    requires Safe(t) && DollarFree(groups) && AllCalm(done, t)
    ensures NoClash(done, t, groups)
    decreases |t|
  {
    if t != "" {
      var n := PieceLen(t);
      if AtToken(t) {
        CalmHasNoToken(done, t);
        AllCalmAfterToken(done, t, TextAt(t, groups));
        SafeNoClash(done + TextAt(t, groups), t[n..], groups);
      } else {
        AllCalmAfterText(done, t);
        SafeNoClash(done + t[..n], t[n..], groups);
      }
    }
  }

  lemma EmptyPrefix(s: string)
    ensures "" + s == s
  {
  }

  /** Replacing token after token is replacing all at once, for any number of tokens, `$1` beside `$10` and
      `${1}` included, if the template is safe and no group brings in a dollar. */
  lemma SequentialIsSimultaneous(template: string, groups: seq<string>)
    requires Safe(template) && DollarFree(groups)
    ensures Simultaneous(template, groups)
  {
    SafeNoClash("", template, groups);
    NoClashAgrees("", template, groups);
    EmptyPrefix(template);
    EmptyPrefix(Substitute(template, groups));
  }

  /** Every dollar starts a token whose number fits. */
  predicate WellFormed(t: string)
    decreases |t|
  {
    t != "" ==>
      var n := TokenLen(t);
      if n > 0 then GroupNumber(t[..n]).Some? && WellFormed(t[n..]) else t[0] != '$' && WellFormed(t[1..])
  }

  lemma {:induction false} WellFormedText(t: string, d: nat)
    requires WellFormed(t) && d <= |t| && forall i :: 0 <= i < d ==> t[i] != '$'
    ensures WellFormed(t[d..])
    decreases d
  {
    if d == 0 {
      assert t[0..] == t;
    } else {
      WellFormedText(t[1..], d - 1);
      assert t[1..][d - 1..] == t[d..];
    }
  }

  /** In particular a template without stray dollars and oversized numbers is safe. */
  lemma {:induction false} WellFormedIsSafe(t: string)
    requires WellFormed(t)
    ensures Safe(t)
    decreases |t|
  {
    if t != "" {
      if !AtToken(t) {
        WellFormedText(t, PieceLen(t));
      }
      WellFormedIsSafe(t[PieceLen(t)..]);
    }
  }

  // ---- and no others -------------------------------------------------------------------

  lemma {:induction false} NotReplaced(s: string, token: string, text: string)
    requires token != "" && !Occurs(token, s)
    ensures ReplaceFirst(s, token, text) == s
    decreases |s|
  {
    if s != "" {
      assert s[0..] == s;
      OccursLater(token, s);
      NotReplaced(s[1..], token, text);
    }
  }

  /** The text before and after the first occurrence. */
  lemma {:induction false} FirstSplit(s: string, token: string) returns (a: string, b: string)
    requires token != "" && Occurs(token, s)
    ensures s == a + token + b && !Occurs(token, a)
    decreases |s|
  {
    if token <= s {
      a, b := "", s[|token|..];
    } else {
      OccursAfterFirst(token, s);
      var a', b' := FirstSplit(s[1..], token);
      a, b := [s[0]] + a', b';
      SplitInFront(s, a', token, b');
      NotInFront(s, a', token);
    }
  }

  lemma SplitInFront(s: string, a: string, token: string, b: string)
    requires s != "" && s[1..] == a + token + b
    ensures s == [s[0]] + a + token + b && [s[0]] + a <= s
  {
    assert s == [s[0]] + s[1..];
  }

  lemma NotInFront(s: string, a: string, token: string)
    requires s != "" && [s[0]] + a <= s && !(token <= s) && !Occurs(token, a)
    ensures !Occurs(token, [s[0]] + a)
  {
    var front := [s[0]] + a;
    forall i | 0 <= i < |front| ensures !(token <= front[i..]) {
      if i == 0 {
        assert front[0..] == front == s[..|front|];
      } else {
        assert front[i..] == a[i - 1..];
      }
    }
  }

  lemma OccursAfterFirst(token: string, s: string)
    requires Occurs(token, s) && !(token <= s)
    ensures s != "" && Occurs(token, s[1..])
  {
    var i :| 0 <= i < |s| && token <= s[i..];
    assert s[0..] == s;
    assert s[1..][i - 1..] == s[i..];
  }

  /** The two texts agree up to a dollar of the goal that the result has lost. */
  ghost predicate DivergedAt(result: string, goal: string, m: nat) {
    m < |result| && m < |goal| && result[..m] == goal[..m] && goal[m] == '$' && result[m] != '$'
  }

  lemma DivergedOnce(result: string, goal: string, m: nat, token: string, text: string) returns (m': nat)
    requires DivergedAt(result, goal, m) && IsMarker(token) && text != "" && '$' !in text
    ensures DivergedAt(ReplaceFirst(result, token, text), goal, m')
  {
    m' := m;
    if Occurs(token, result) {
      var a, b := FirstSplit(result, token);
      ReplacedInPlace(a, token, b, text);
      assert result[|a|] == '$';
      if |a| < m {
        m' := |a|;
        assert result[..m][|a|] == goal[..m][|a|];
        assert (a + text + b)[|a|] == text[0];
        assert (a + text + b)[..|a|] == result[..m][..|a|] == goal[..m][..|a|] == goal[..|a|];
      } else {
        assert (a + text + b)[..m] == a[..m] == result[..m];
      }
    } else {
      NotReplaced(result, token, text);
    }
  }

  /** Every token is given text, none of it a dollar. */
  ghost predicate Filled(tokens: seq<string>, groups: seq<string>) {
    && DollarFree(groups)
    && forall i :: 0 <= i < |tokens| ==>
         && IsMarker(tokens[i])
         && (GroupNumber(tokens[i]).Some? ==> GroupText(groups, GroupNumber(tokens[i]).value) != "")
  }

  lemma {:induction false} StaysDiverged(result: string, goal: string, m: nat, tokens: seq<string>, groups: seq<string>)
    requires DivergedAt(result, goal, m) && Filled(tokens, groups)
    ensures ReplaceEach(result, tokens, groups) != goal
    decreases |tokens|
  {
    if tokens != [] {
      var m' := m;
      if GroupNumber(tokens[0]).Some? {
        m' := DivergedOnce(result, goal, m, tokens[0], GroupText(groups, GroupNumber(tokens[0]).value));
      }
      StaysDiverged(ReplaceOne(result, tokens[0], groups), goal, m', tokens[1..], groups);
    }
  }

  /** The first clash takes a dollar away that the goal keeps. */
  lemma ClashDiverges(done: string, token: string, rest: string, text: string, goal: string) returns (m: nat)
    requires IsMarker(token) && Occurs(token, done) && text != "" && '$' !in text && done <= goal
    ensures DivergedAt(ReplaceFirst(done + token + rest, token, text), goal, m)
  {
    var a, b := FirstSplit(done, token);
    var tail := b + token + rest;
    assert done + token + rest == a + token + tail;
    ReplacedInPlace(a, token, tail, text);
    m := |a|;
    assert (a + text + tail)[m] == text[0] && (a + text + tail)[..m] == a;
    assert done[m] == token[0] && done[..m] == a && goal[..m] == done[..m];
  }

  /** For groups that give every token some text, a clash is exactly what goes wrong. */
  lemma {:induction false} ClashDisagrees(done: string, t: string, groups: seq<string>)
    requires Filled(FindAll(t), groups) && !NoClash(done, t, groups)
    ensures ReplaceEach(done + t, FindAll(t), groups) != done + Substitute(t, groups)
    decreases |t|
  {
    var n, text := PieceLen(t), Filling(t, groups);
    FilledRest(t, groups);
    SubstitutePiece(t, groups);
    NoClashPiece(done, t, groups);
    if AtToken(t) && Occurs(t[..n], done) {
      FirstClash(done, t, groups, done + Substitute(t, groups));
    } else {
      ReplacePiece(done, t, groups);
      ClashDisagrees(done + text, t[n..], groups);
      Associate(done, text, Substitute(t[n..], groups));
    }
  }

  lemma FirstClash(done: string, t: string, groups: seq<string>, goal: string)
    requires t != "" && AtToken(t) && Occurs(t[..PieceLen(t)], done) && done <= goal
    requires TextAt(t, groups) != "" && '$' !in TextAt(t, groups) && Filled(FindAll(t[PieceLen(t)..]), groups)
    ensures ReplaceEach(done + t, FindAll(t), groups) != goal
  {
    var n, text := PieceLen(t), TextAt(t, groups);
    Halves(t, n);
    Associate(done, t[..n], t[n..]);
    TokenReplaced(done + t, t, groups);
    var m := ClashDiverges(done, t[..n], t[n..], text, goal);
    StaysDiverged(ReplaceFirst(done + t, t[..n], text), goal, m, FindAll(t[n..]), groups);
  }

  lemma FilledRest(t: string, groups: seq<string>)
    requires t != "" && Filled(FindAll(t), groups)
    ensures Filled(FindAll(t[PieceLen(t)..]), groups)
    ensures AtToken(t) ==> TextAt(t, groups) != "" && '$' !in TextAt(t, groups)
  {
    if TokenLen(t) > 0 {
      FilledTail(t[..TokenLen(t)], FindAll(t[TokenLen(t)..]), groups);
    }
    if !AtToken(t) {
      var n, k := PieceLen(t), HeadLen(t);
      SkipTokens(t, k, n);
    }
  }

  lemma FilledTail(token: string, rest: seq<string>, groups: seq<string>)
    requires Filled([token] + rest, groups)
    ensures Filled(rest, groups) && IsMarker(token)
    ensures GroupNumber(token).Some? ==> GroupText(groups, GroupNumber(token).value) != ""
  {
    var tokens := [token] + rest;
    assert tokens[0] == token;
    assert forall i :: 0 <= i < |rest| ==> rest[i] == tokens[i + 1];
  }

  /** A token that is already there when its turn comes clashes. */
  lemma {:induction false} OccurringClashes(done: string, t: string, token: string, groups: seq<string>)
    requires token in Tokens(t) && Occurs(token, done)
    ensures !NoClash(done, t, groups)
    decreases |t|
  {
    var n := PieceLen(t);
    if !(AtToken(t) && t[..n] == token) {
      OccursInMore(token, done, Filling(t, groups));
      OccurringClashes(done + Filling(t, groups), t[n..], token, groups);
    }
  }

  lemma OccursInMore(token: string, s: string, more: string)
    requires Occurs(token, s)
    ensures Occurs(token, s + more)
  {
    var i :| 0 <= i < |s| && token <= s[i..];
    assert (s + more)[i..] == s[i..] + more;
  }

  lemma OccursAtEnd(token: string, s: string, end: string)
    requires token != "" && token <= end
    ensures Occurs(token, s + end)
  {
    assert (s + end)[|s|..] == end;
  }

  /** The characters of the names of Kubernetes objects. */
  predicate IsNameChar(c: char) {
    'a' <= c <= 'z' || IsDigit(c) || c == '-' || c == '.'
  }

  predicate NameLike(groups: seq<string>) {
    forall i :: 0 <= i < |groups| ==> forall c | c in groups[i] :: IsNameChar(c)
  }

  lemma NameLikeHasNoDollar(groups: seq<string>)
    requires NameLike(groups)
    ensures DollarFree(groups)
  {
  }

  /** No token of the list has a number that is not below `size`. */
  predicate Below(tokens: seq<string>, size: nat) {
    forall i :: 0 <= i < |tokens| ==>
      IsMarker(tokens[i]) && (GroupNumber(tokens[i]).Some? ==> GroupNumber(tokens[i]).value < size)
  }

  /** One more than the largest number in the list of tokens. */
  function Size(tokens: seq<string>): (n: nat)
    requires forall i :: 0 <= i < |tokens| ==> IsMarker(tokens[i])
    ensures n > 0 && Below(tokens, n)
  {
    if tokens == [] then 1
    else
      assert IsMarker(tokens[0]);
      var n, number := Size(tokens[1..]), GroupNumber(tokens[0]);
      assert forall i :: 0 < i < |tokens| ==> tokens[i] == tokens[1..][i - 1];
      if number.Some? && number.value >= n then number.value + 1 else n
  }

  lemma BelowTail(token: string, rest: seq<string>, size: nat)
    requires Below([token] + rest, size)
    ensures Below(rest, size) && IsMarker(token) && (GroupNumber(token).Some? ==> GroupNumber(token).value < size)
  {
    var tokens := [token] + rest;
    assert tokens[0] == token;
    assert forall i :: 0 <= i < |rest| ==> rest[i] == tokens[i + 1];
  }

  lemma BelowRest(t: string, size: nat)
    requires t != "" && Below(FindAll(t), size)
    ensures Below(FindAll(t[PieceLen(t)..]), size)
    ensures AtToken(t) ==> GroupNumber(t[..TokenLen(t)]).value < size
  {
    if TokenLen(t) > 0 {
      BelowTail(t[..TokenLen(t)], FindAll(t[TokenLen(t)..]), size);
    }
    if !AtToken(t) {
      SkipTokens(t, HeadLen(t), PieceLen(t));
    }
  }

  /** As many groups as asked for, all with some text, one of them chosen. */
  predicate Full(groups: seq<string>, size: nat) {
    |groups| == size && DollarFree(groups) && forall i :: 0 <= i < size ==> groups[i] != ""
  }

  lemma FullIsFilled(groups: seq<string>, tokens: seq<string>, size: nat)
    requires Full(groups, size) && Below(tokens, size)
    ensures Filled(tokens, groups)
  {
  }

  function Captures(size: nat, n: nat, text: string): (groups: seq<string>)
    requires text != "" && '$' !in text
    ensures Full(groups, size)
    ensures n < size ==> GroupText(groups, n) == text
    ensures (forall c | c in text :: IsNameChar(c)) ==> NameLike(groups)
  {
    seq(size, i => if i == n then text else "x")
  }

  /** In a template without braces tokens are a dollar and digits. */
  lemma {:induction false} PlainTokens(t: string, token: string)
    requires '{' !in t && token in Tokens(t)
    ensures forall i :: 0 < i < |token| ==> IsDigit(token[i])
    decreases |t|
  {
    var n := PieceLen(t);
    if AtToken(t) && token == t[..n] {
      assert t[1] in t;
      assert forall i :: 0 < i < n ==> t[i] == t[1..][i - 1];
    } else {
      assert forall c | c in t[n..] :: c in t;
      PlainTokens(t[n..], token);
    }
  }

  /** Whatever stands before an unsafe template, some groups make it clash: as many as the template asks
      for, each with some text, and name-like if the template has no braces. */
  lemma {:induction false} Witness(t: string, size: nat) returns (groups: seq<string>)
    requires !Safe(t) && Below(FindAll(t), size)
    ensures Full(groups, size) && ('{' !in t ==> NameLike(groups))
    ensures forall done :: !NoClash(done, t, groups)
    decreases |t|
  {
    var n := PieceLen(t);
    BelowRest(t, size);
    assert forall c | c in t[n..] :: c in t;
    if !AtToken(t) && t[0] == '$' && !Calm(t[..n], t[n..]) {
      groups := WitnessHere(t[..n], t[n..], size);
    } else {
      groups := Witness(t[n..], size);
    }
  }

  lemma WitnessHere(w: string, t: string, size: nat) returns (groups: seq<string>)
    requires w != "" && !Calm(w, t) && (t == "" || t[0] == '$') && Below(FindAll(t), size)
    ensures Full(groups, size) && ('{' !in t ==> NameLike(groups))
    ensures forall done :: !NoClash(done + w, t, groups)
  {
    if token :| token in Tokens(t) && token <= w {
      groups := Captures(size, 0, "x");
      forall done ensures !NoClash(done + w, t, groups) {
        OccursAtEnd(token, done, w);
        OccurringClashes(done + w, t, token, groups);
      }
    } else {
      var token :| token in Later(t) && w <= token;
      groups := WitnessCompletes(w, t, token, size);
    }
  }

  /** The group behind `w` is given what `w` lacks of a later token. */
  lemma WitnessCompletes(w: string, t: string, token: string, size: nat) returns (groups: seq<string>)
    requires w != "" && w <= token && w != token && t != "" && t[0] == '$' && token in Later(t)
    requires Below(FindAll(t), size)
    ensures Full(groups, size) && ('{' !in t ==> NameLike(groups))
    ensures forall done :: !NoClash(done + w, t, groups)
  {
    var n, text := PieceLen(t), token[|w|..];
    BelowRest(t, size);
    if '{' !in t {
      PlainTokens(t, token);
    }
    groups := Captures(size, GroupNumber(t[..n]).value, text);
    forall done ensures !NoClash(done + w, t, groups) {
      assert done + w + text == done + token;
      OccursAtEnd(token, done, token);
      OccurringClashes(done + w + text, t[n..], token, groups);
    }
  }

  lemma UnsafeFails(template: string) returns (groups: seq<string>)
    requires !Safe(template)
    ensures Full(groups, Size(FindAll(template))) && ('{' !in template ==> NameLike(groups))
    ensures !Simultaneous(template, groups)
  {
    groups := Witness(template, Size(FindAll(template)));
    FullIsFilled(groups, FindAll(template), Size(FindAll(template)));
    ClashDisagrees("", template, groups);
    EmptyPrefix(template);
    EmptyPrefix(Substitute(template, groups));
  }

  /** Exactly the safe templates can be filled in one token after the other, for all texts without a
      dollar. Groups up to the largest number in the template show it. */
  lemma SafeExactly(template: string)
    ensures Safe(template) <==> forall groups :: DollarFree(groups) ==> Simultaneous(template, groups)
    ensures !Safe(template) ==>
              exists groups :: Full(groups, Size(FindAll(template))) && !Simultaneous(template, groups)
  {
    if Safe(template) {
      forall groups | DollarFree(groups) ensures Simultaneous(template, groups) {
        SequentialIsSimultaneous(template, groups);
      }
    } else {
      var groups := UnsafeFails(template);
      assert Full(groups, Size(FindAll(template))) && DollarFree(groups) && !Simultaneous(template, groups);
    }
  }

  /** For templates without braces the same holds of the texts names are made of. With braces it need not:
      in `$$1${1}` the text to complete the second token would have to hold a brace. */
  lemma SafeExactlyForNames(template: string)
    requires '{' !in template
    ensures Safe(template) <==>
            forall groups :: NameLike(groups) && |groups| == Size(FindAll(template)) ==> Simultaneous(template, groups)
  {
    if Safe(template) {
      forall groups | NameLike(groups) ensures Simultaneous(template, groups) {
        NameLikeHasNoDollar(groups);
        SequentialIsSimultaneous(template, groups);
      }
    } else {
      var groups := UnsafeFails(template);
      assert NameLike(groups) && |groups| == Size(FindAll(template)) && !Simultaneous(template, groups);
    }
  }

  // ---- where it fails ------------------------------------------------------------------

  lemma TokenOne(c: char, rest: string)
    requires IsDigit(c) && (rest == "" || !IsDigit(rest[0]))
    ensures TokenLen(['$', c] + rest) == 2
    ensures GroupNumber(['$', c]) == Some(c as int - '0' as int)
  {
    var t := ['$', c] + rest;
    assert t[1..] == [c] + rest;
    assert t[1..][1..] == rest;
    assert ['$', c][1..] == [c];
    assert [c][..0] == "";
    assert Decimal("") == 0;
  }

  lemma DollarInGroupTokens()
    ensures FindAll("$1$2") == ["$1", "$2"] && TokenLen("$1$2") == 2 && TokenLen("$2") == 2
    ensures GroupNumber("$1") == Some(1) && GroupNumber("$2") == Some(2)
  {
    TokenOne('1', "$2");
    TokenOne('2', "");
    assert "$1$2" == ['$', '1'] + "$2" && "$2" == ['$', '2'] + "";
    assert "$1$2"[2..] == "$2" && "$1$2"[..2] == "$1" && "$2"[2..] == "" && "$2"[..2] == "$2";
    assert FindAll("$2") == ["$2"];
  }

  lemma DollarInGroupReplaced(groups: seq<string>)
    requires groups == ["", "$2", "x"]
    ensures ReplaceEach("$1$2", ["$1", "$2"], groups) == "x$2"
  {
    DollarInGroupTokens();
    assert "$1$2"[..2] == "$1" && "$1$2"[2..] == "$2";
    assert ReplaceOne("$1$2", "$1", groups) == "$2$2";
    assert "$2$2"[..2] == "$2" && "$2$2"[2..] == "$2";
    assert ReplaceOne("$2$2", "$2", groups) == "x$2";
    assert ["$1", "$2"][1..] == ["$2"] && ["$2"][1..] == [];
  }

  /** A group that holds a dollar is itself taken for a token. The names of Kubernetes objects hold none, so
      no capture is like this; the condition on the groups costs nothing. */
  lemma DollarInGroup()
    ensures var t, groups := "$1$2", ["", "$2", "x"];
            Safe(t) && ReplaceEach(t, FindAll(t), groups) == "x$2" && Substitute(t, groups) == "$2x"
  {
    var groups := ["", "$2", "x"];
    DollarInGroupTokens();
    DollarInGroupReplaced(groups);
    assert WellFormed("$2");
    WellFormedIsSafe("$1$2");
    assert "$1$2"[2..] == "$2" && "$1$2"[..2] == "$1" && "$2"[2..] == "" && "$2"[..2] == "$2";
    assert Substitute("$2", groups) == "x";
  }

  lemma StrayDollarTokens()
    ensures FindAll("$$1$1") == ["$1", "$1"] && FindAll("$1") == ["$1"]
    ensures TokenLen("$$1$1") == 0 && TokenLen("$1$1") == 2 && TokenLen("$1") == 2
    ensures GroupNumber("$1") == Some(1)
  {
    TokenOne('1', "$1");
    TokenOne('1', "");
    assert TokenLen("$$1$1") == 0 by {
      assert "$$1$1"[1..][0] == '$';
    }
    assert "$1$1" == ['$', '1'] + "$1" && "$1" == ['$', '1'] + "";
    assert "$$1$1"[1..] == "$1$1" && "$1$1"[2..] == "$1" && "$1$1"[..2] == "$1";
    assert "$1"[2..] == "" && "$1"[..2] == "$1";
  }

  lemma StrayDollarReplaced(groups: seq<string>)
    requires groups == ["1", "1"]
    ensures ReplaceEach("$$1$1", ["$1", "$1"], groups) == "1$1"
  {
    StrayDollarTokens();
    assert "$$1$1"[..2] == "$$" && "$$1$1"[1..] == "$1$1" && "$1$1"[..2] == "$1" && "$1$1"[2..] == "$1";
    assert ReplaceFirst("$1$1", "$1", "1") == "1$1";
    assert ReplaceOne("$$1$1", "$1", groups) == "$1$1";
    assert ReplaceOne("$1$1", "$1", groups) == "1$1";
    assert ["$1", "$1"][1..] == ["$1"] && ["$1"][1..] == [];
  }

  /** A dollar that starts no token can make one with the text that comes to stand after it. The groups are
      what a selector such as `(.)` captures of the name `1`. */
  lemma StrayDollar()
    ensures var t, groups := "$$1$1", ["1", "1"];
            && !Safe(t) && DollarFree(groups)
            && ReplaceEach(t, FindAll(t), groups) == "1$1" && Substitute(t, groups) == "$11"
  {
    var groups := ["1", "1"];
    StrayDollarTokens();
    StrayDollarReplaced(groups);
    assert "$$1$1"[1..] == "$1$1" && "$1$1"[2..] == "$1" && "$1$1"[..2] == "$1";
    assert "$1"[2..] == "" && "$1"[..2] == "$1";
    assert Substitute("$1", groups) == "1";
    assert Substitute("$1$1", groups) == "11";
    if Safe("$$1$1") {
      SequentialIsSimultaneous("$$1$1", groups);
    }
  }
}
