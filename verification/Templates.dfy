/** Templates as their authors think of them: pieces of text and references to groups. Printing such a
    template and filling it in with the loop of replacements puts every group where it is referred to. */
module Templates {
  import opened Identifiers
  import opened TargetName

  /** A piece of text, or a reference to a group, written `$n` or `${n}`. */
  datatype Part = Literal(text: string) | Ref(n: nat, braced: bool)

  function DigitOf(d: nat): char
    requires d < 10
  {
    "0123456789"[d]
  }

  /** A number in decimal. */
  function Decimals(n: nat): string {
    if n < 10 then [DigitOf(n)] else Decimals(n / 10) + [DigitOf(n % 10)]
  }

  function PrintPart(p: Part): string {
    match p
    case Literal(text) => text
    case Ref(n, true) => "${" + Decimals(n) + "}"
    case Ref(n, false) => "$" + Decimals(n)
  }

  function Print(parts: seq<Part>): string {
    if parts == [] then "" else PrintPart(parts[0]) + Print(parts[1..])
  }

  /** What the template is meant to give. A group the selector does not have gives nothing. */
  function Fill(parts: seq<Part>, groups: seq<string>): string {
    if parts == [] then ""
    else
      (match parts[0]
       case Literal(text) => text
       case Ref(n, _) => if n < |groups| then groups[n] else "")
      + Fill(parts[1..], groups)
  }

  predicate StartsWithDigit(s: string) {
    s != "" && '0' <= s[0] <= '9'
  }

  /** Text holds no dollar, numbers fit into 64 bits, and no digit follows a reference without braces. */
  ghost predicate Proper(parts: seq<Part>) {
    parts != [] ==>
      && Proper(parts[1..])
      && match parts[0]
         case Literal(text) => '$' !in text
         case Ref(n, braced) => n <= 9223372036854775807 && (braced || !StartsWithDigit(Print(parts[1..])))
  }

  // ---- numbers -------------------------------------------------------------------------

  lemma {:induction false} DecimalsAreDigits(n: nat)
    ensures AllDigits(Decimals(n))
    decreases n
  {
    if n >= 10 {
      DecimalsAreDigits(n / 10);
    }
  }

  lemma {:induction false} DecimalOfDecimals(n: nat)
    ensures Decimal(Decimals(n)) == n
    decreases n
  {
    var s := Decimals(n);
    if n < 10 {
      assert s[..0] == "" && Decimal("") == 0;
    } else {
      DecimalOfDecimals(n / 10);
      assert s[..|s| - 1] == Decimals(n / 10);
    }
  }

  /** A reference names the number it is printed from, with or without braces, if the number fits. */
  lemma ReferenceNumber(n: nat, braced: bool)
    ensures |PrintPart(Ref(n, braced))| >= 2
    ensures GroupNumber(PrintPart(Ref(n, braced))) == if n <= 9223372036854775807 then Some(n) else None
  {
    var digits, token := Decimals(n), PrintPart(Ref(n, braced));
    DecimalsAreDigits(n);
    DecimalOfDecimals(n);
    if braced {
      assert token[2..|token| - 1] == digits;
    } else {
      assert token[1..] == digits;
      assert IsDigit(digits[0]) && token[1] == digits[0];
    }
  }

  lemma CountDigits(digits: string, rest: string)
    requires AllDigits(digits) && !StartsWithDigit(rest)
    ensures DigitsLen(digits + rest) == |digits|
  {
    var s := digits + rest;
    assert s[..|digits|] == digits;
    LongestDigits(s, |digits|);
    if rest != "" {
      assert s[|digits|] == rest[0];
    }
  }

  lemma PlainToken(digits: string, rest: string)
    requires AllDigits(digits) && !StartsWithDigit(rest)
    ensures TokenLen("$" + digits + rest) == 1 + |digits|
  {
    var t := "$" + digits + rest;
    assert t[1..] == digits + rest;
    CountDigits(digits, rest);
  }

  lemma BracedToken(digits: string, rest: string)
    requires AllDigits(digits)
    ensures TokenLen("${" + digits + "}" + rest) == 3 + |digits|
  {
    var t := "${" + digits + "}" + rest;
    assert t[2..] == digits + ("}" + rest);
    CountDigits(digits, "}" + rest);
    assert t[1..][0] == '{';
  }

  /** The scanner finds the reference, all of it. */
  lemma ReferenceFound(n: nat, braced: bool, rest: string)
    requires braced || !StartsWithDigit(rest)
    ensures TokenLen(PrintPart(Ref(n, braced)) + rest) == |PrintPart(Ref(n, braced))|
  {
    DecimalsAreDigits(n);
    if braced {
      BracedToken(Decimals(n), rest);
    } else {
      PlainToken(Decimals(n), rest);
    }
  }

  // ---- the template --------------------------------------------------------------------

  lemma {:induction false} TextWellFormed(text: string, rest: string)
    requires '$' !in text && WellFormed(rest)
    ensures WellFormed(text + rest)
    decreases |text|
  {
    if text == "" {
      assert text + rest == rest;
    } else {
      assert text[0] in text;
      assert forall c | c in text[1..] :: c in text;
      assert (text + rest)[1..] == text[1..] + rest;
      TextWellFormed(text[1..], rest);
    }
  }

  lemma LiteralFilled(text: string, rest: string, groups: seq<string>)
    requires '$' !in text && WellFormed(rest)
    ensures WellFormed(text + rest) && Substitute(text + rest, groups) == text + Substitute(rest, groups)
  {
    var t := text + rest;
    TextWellFormed(text, rest);
    assert forall i :: 0 <= i < |text| ==> t[i] == text[i] && text[i] in text;
    SkipText(t, |text|, groups);
    assert t[..|text|] == text && t[|text|..] == rest;
  }

  lemma ReferenceFilled(n: nat, braced: bool, rest: string, groups: seq<string>)
    requires n <= 9223372036854775807 && (braced || !StartsWithDigit(rest)) && WellFormed(rest)
    ensures var t := PrintPart(Ref(n, braced)) + rest;
            && WellFormed(t)
            && Substitute(t, groups) == (if n < |groups| then groups[n] else "") + Substitute(rest, groups)
  {
    var token := PrintPart(Ref(n, braced));
    var t := token + rest;
    ReferenceFound(n, braced, rest);
    ReferenceNumber(n, braced);
    assert t[..|token|] == token && t[|token|..] == rest;
  }

  lemma {:induction false} PrintedMeans(parts: seq<Part>, groups: seq<string>)
    requires Proper(parts)
    ensures WellFormed(Print(parts)) && Substitute(Print(parts), groups) == Fill(parts, groups)
  {
    if parts != [] {
      PrintedMeans(parts[1..], groups);
      match parts[0] {
        case Literal(text) => LiteralFilled(text, Print(parts[1..]), groups);
        case Ref(n, braced) => ReferenceFilled(n, braced, Print(parts[1..]), groups);
      }
    }
  }

  /** The loop of replacements gives what the template means, for any number of references, repeated,
      adjacent, braced or not, of any number of digits. */
  lemma TemplateFilled(parts: seq<Part>, groups: seq<string>)
    requires Proper(parts) && DollarFree(groups)
    ensures ReplaceEach(Print(parts), FindAll(Print(parts)), groups) == Fill(parts, groups)
  {
    PrintedMeans(parts, groups);
    WellFormedIsSafe(Print(parts));
    SequentialIsSimultaneous(Print(parts), groups);
  }
}
