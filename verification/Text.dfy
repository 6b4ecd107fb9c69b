/** Python string operations the other modules share, on strings of Unicode scalar values.
    Upper-casing and white space are the ASCII ones. */
module Text {
  datatype Option<+T> = None | Some(value: T) {
    function GetOr(default: T): T {
      if Some? then value else default
    }
  }

  /** A record as the list that keeps it only when it is not empty. */
  function Kept(r: map<string, string>): seq<map<string, string>> {
    if r == map[] then [] else [r]
  }

  function UpperChar(c: char): char {
    if 'a' <= c <= 'z' then ((c as int) - 32) as char else c
  }

  function Upper(s: string): (u: string)
    ensures |u| == |s|
    ensures forall i :: 0 <= i < |s| ==> u[i] == UpperChar(s[i])
  {
    seq(|s|, i requires 0 <= i < |s| => UpperChar(s[i]))
  }

  lemma UpperIdempotent(s: string)
    ensures Upper(Upper(s)) == Upper(s)
  {
  }

  predicate Space(c: char) {
    '\t' <= c <= '\r' || c == ' '
  }

  function StripLeft(s: string): (t: string)
    ensures t != "" ==> !Space(t[0])
    ensures exists k :: 0 <= k <= |s| && t == s[k..]
  {
    if s != "" && Space(s[0]) then
      var t := StripLeft(s[1..]);
      assert exists k :: 0 <= k <= |s[1..]| && t == s[1..][k..] && t == s[k + 1..];
      t
    else assert s == s[0..]; s
  }

  function StripRight(s: string): (t: string)
    ensures t != "" ==> !Space(t[|t| - 1])
    ensures t <= s
  {
    if s != "" && Space(s[|s| - 1]) then StripRight(s[..|s| - 1]) else s
  }

  function Strip(s: string): string {
    StripRight(StripLeft(s))
  }

  /** The position of the first `c`, or the length when there is none. */
  function Find(s: string, c: char): (k: nat)
    ensures k <= |s| && (k < |s| ==> s[k] == c) && c !in s[..k]
  {
    if s == "" || s[0] == c then 0
    else
      var k := Find(s[1..], c);
      assert s[..k + 1] == [s[0]] + s[1..][..k];
      k + 1
  }

  lemma {:induction false} FindAt(s: string, c: char, tail: string)
    requires c !in s
    ensures Find(s + [c] + tail, c) == |s|
  {
    if s != "" {
      assert (s + [c] + tail)[1..] == s[1..] + [c] + tail;
      FindAt(s[1..], c, tail);
    }
  }

  predicate At(s: string, i: nat, needle: string) {
    i + |needle| <= |s| && s[i..i + |needle|] == needle
  }

  predicate Contains(s: string, needle: string) {
    exists i: nat :: i <= |s| && At(s, i, needle)
  }

  lemma ConcatAssoc(a: string, b: string, c: string)
    ensures a + b + c == a + (b + c)
  {
  }

  // ---------- decimal numbers ----------

  predicate Digit(c: char) {
    '0' <= c <= '9'
  }

  function DigitValue(c: char): nat
    requires Digit(c)
  {
    (c as int) - 48
  }

  function PrintNat(n: nat): (s: string)
    ensures s != "" && forall i :: 0 <= i < |s| ==> Digit(s[i])
  {
    if n < 10 then [(48 + n) as char] else PrintNat(n / 10) + [(48 + n % 10) as char]
  }

  /** The digits part of Python's `int()`: single underscores are allowed between digits. */
  function ParseDigits(s: string, acc: nat, afterDigit: bool): Option<nat> {
    if s == "" then if afterDigit then Some(acc) else None
    else if Digit(s[0]) then ParseDigits(s[1..], acc * 10 + DigitValue(s[0]), true)
    else if s[0] == '_' && afterDigit then ParseDigits(s[1..], acc, false)
    else None
  }

  /** `int(s)`: None is the ValueError. */
  function ParseInt(s: string): Option<int> {
    var t := Strip(s);
    if t != "" && t[0] == '-' then
      match ParseDigits(t[1..], 0, false)
      case Some(n) => Some((0 as int) - n)
      case None => None
    else
      match ParseDigits(if t != "" && t[0] == '+' then t[1..] else t, 0, false)
      case Some(n) => Some(n)
      case None => None
  }

  lemma {:induction false} ParseDigitsAppend(s: string, c: char, acc: nat, after: bool)
    requires forall i :: 0 <= i < |s| ==> Digit(s[i])
    requires Digit(c) && (s != "" || after)
    ensures ParseDigits(s, acc, after).Some?
    ensures ParseDigits(s + [c], acc, after) == Some(ParseDigits(s, acc, after).value * 10 + DigitValue(c))
  {
    if s == "" {
      assert s + [c] == [c];
    } else {
      assert (s + [c])[1..] == s[1..] + [c];
      ParseDigitsAppend(s[1..], c, acc * 10 + DigitValue(s[0]), true);
    }
  }

  lemma {:induction false} ParseDigitsPrint(n: nat)
    ensures ParseDigits(PrintNat(n), 0, false) == Some(n)
  {
    if n >= 10 {
      ParseDigitsPrint(n / 10);
      ParseDigitsAppend(PrintNat(n / 10), (48 + n % 10) as char, 0, false);
    } else {
      assert PrintNat(n)[1..] == "";
    }
  }

  /** `int(str(n)) == n`. */
  lemma ParsePrint(n: nat)
    ensures ParseInt(PrintNat(n)) == Some(n)
  {
    var s := PrintNat(n);
    assert StripLeft(s) == s;
    assert StripRight(s) == s;
    ParseDigitsPrint(n);
  }

  lemma PrintNatInjective(m: nat, n: nat)
    requires PrintNat(m) == PrintNat(n)
    ensures m == n
  {
    ParsePrint(m);
    ParsePrint(n);
  }
}
