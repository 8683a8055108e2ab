/** Whitespace trimming. */
module Text {

  /** Unicode White_Space, what Go's `strings.TrimSpace` trims. */
  predicate IsSpace(c: char) {
    || c in "\t\n\r "
    || c == '\U{0b}' || c == '\U{0c}' || c == '\U{85}' || c == '\U{a0}' || c == '\U{1680}'
    || '\U{2000}' <= c <= '\U{200a}'
    || c == '\U{2028}' || c == '\U{2029}' || c == '\U{202f}' || c == '\U{205f}' || c == '\U{3000}'
  }

  /** The same by code point. */
  lemma SpaceCodePoints(c: char)
    ensures var n := c as int;
            IsSpace(c) <==>
            || 9 <= n <= 13 || n == 32 || n == 133 || n == 160 || n == 5760 || 8192 <= n <= 8202
            || n == 8232 || n == 8233 || n == 8239 || n == 8287 || n == 12288
  {
  }

  /** Space and tab, what the hand-written trimmer trims. */
  predicate IsBlank(c: char) {
    c == ' ' || c == '\t'
  }

  function TrimLeft(s: string, p: char -> bool): string {
    if s != "" && p(s[0]) then TrimLeft(s[1..], p) else s
  }

  function TrimRight(s: string, p: char -> bool): string {
    if s != "" && p(s[|s| - 1]) then TrimRight(s[..|s| - 1], p) else s
  }

  function Trim(s: string, p: char -> bool): string {
    TrimRight(TrimLeft(s, p), p)
  }

  function TrimSpace(s: string): string {
    Trim(s, IsSpace)
  }

  predicate Trimmed(s: string, p: char -> bool) {
    s != "" ==> !p(s[0]) && !p(s[|s| - 1])
  }

  ghost predicate All(s: string, p: char -> bool) {
    forall i :: 0 <= i < |s| ==> p(s[i])
  }

  lemma {:induction false} TrimLeftAt(s: string, p: char -> bool) returns (k: nat)
    ensures k <= |s| && TrimLeft(s, p) == s[k..] && All(s[..k], p)
    ensures k < |s| ==> !p(s[k])
  {
    if s != "" && p(s[0]) {
      k := TrimLeftAt(s[1..], p);
      assert s[1..][k..] == s[k + 1..];
      assert s[..k + 1] == [s[0]] + s[1..][..k];
      k := k + 1;
    } else {
      k := 0;
    }
  }

  lemma {:induction false} TrimRightAt(s: string, p: char -> bool) returns (k: nat)
    ensures k <= |s| && TrimRight(s, p) == s[..k] && All(s[k..], p)
    ensures 0 < k ==> !p(s[k - 1])
  {
    if s != "" && p(s[|s| - 1]) {
      var t := s[..|s| - 1];
      k := TrimRightAt(t, p);
      assert t[..k] == s[..k];
      assert s[k..] == t[k..] + [s[|s| - 1]];
    } else {
      k := |s|;
    }
  }

  /** Trimming leaves a trimmed piece of the input, with only trimmable characters around it. */
  lemma TrimAt(s: string, p: char -> bool) returns (i: nat, j: nat)
    ensures i <= j <= |s| && Trim(s, p) == s[i..j]
    ensures All(s[..i], p) && All(s[j..], p)
    ensures Trimmed(s[i..j], p)
    ensures i < j ==> !p(s[i]) && !p(s[j - 1])
  {
    i := TrimLeftAt(s, p);
    var n := TrimRightAt(s[i..], p);
    j := i + n;
    assert s[i..][..n] == s[i..j];
    assert s[i..][n..] == s[j..];
  }

  lemma TrimIsTrimmed(s: string, p: char -> bool)
    ensures Trimmed(Trim(s, p), p)
  {
    var _, _ := TrimAt(s, p);
  }

  lemma TrimOfTrimmed(s: string, p: char -> bool)
    requires Trimmed(s, p)
    ensures Trim(s, p) == s
  {
  }

  /** The trimmed piece is the only one. */
  lemma TrimUnique(s: string, p: char -> bool, i: nat, j: nat)
    requires i <= j <= |s|
    requires All(s[..i], p) && All(s[j..], p)
    requires Trimmed(s[i..j], p)
    ensures Trim(s, p) == s[i..j]
  {
    var a, b := TrimAt(s, p);
    OutsideTrimmable(s, p, i, j);
    OutsideTrimmable(s, p, a, b);
    if i < j {
      assert s[i] == s[i..j][0] && s[j - 1] == s[i..j][j - i - 1];
      assert a <= i && j <= b;
      assert a == i && b == j;
    } else {
      assert a == b;
    }
  }

  lemma OutsideTrimmable(s: string, p: char -> bool, i: nat, j: nat)
    requires i <= j <= |s| && All(s[..i], p) && All(s[j..], p)
    ensures forall k :: 0 <= k < i || j <= k < |s| ==> p(s[k])
  {
  }
}
