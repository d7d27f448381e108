/** String primitives shared by the model: JavaScript's rendering of an integer
    as decimal text and its inverse, ASCII lower-casing, `includes` and `trim`. Strings are sequences of code units. */
module Strings {
  import opened Wrappers

  predicate IsDigit(c: char) {
    '0' <= c <= '9'
  }

  predicate AllDigits(s: string) {
    forall i :: 0 <= i < |s| ==> IsDigit(s[i])
  }

  function DigitChar(d: nat): (c: char)
    requires d < 10
    ensures IsDigit(c)
  {
    ('0' as int + d) as char
  }

  function DigitValue(c: char): (d: nat)
    requires IsDigit(c)
    ensures d < 10
  {
    c as int - '0' as int
  }

  /** Decimal text of a natural number, most significant digit first, with no
      leading zero. */
  function NatToDecimal(n: nat): (r: string)
    ensures |r| >= 1
    ensures AllDigits(r)
    ensures r[0] == '0' <==> n == 0
    decreases n
  {
    if n < 10 then [DigitChar(n)]
    else NatToDecimal(n / 10) + [DigitChar(n % 10)]
  }

  /** `${n}` for an integer-valued number: a minus sign before the magnitude
      when negative. */
  function IntToDecimal(n: int): (r: string)
    ensures |r| >= 1
    ensures n >= 0 <==> AllDigits(r)
    ensures n < 0 ==> r[0] == '-' && AllDigits(r[1..])
  {
    if n < 0 then
      var r := "-" + NatToDecimal(-n);
      assert !IsDigit(r[0]) && r[1..] == NatToDecimal(-n);
      r
    else NatToDecimal(n)
  }

  /** The value of a string of digits read in base ten. */
  function DecimalValue(s: string): nat
    requires AllDigits(s)
  {
    if |s| == 0 then 0
    else DecimalValue(s[..|s| - 1]) * 10 + DigitValue(s[|s| - 1])
  }

  lemma {:induction false} DecimalValueOfNat(n: nat)
    ensures DecimalValue(NatToDecimal(n)) == n
    decreases n
  {
    if n >= 10 {
      var r := NatToDecimal(n);
      var front := NatToDecimal(n / 10);
      assert r == front + [DigitChar(n % 10)];
      assert r[..|r| - 1] == front;
      DecimalValueOfNat(n / 10);
    }
  }

  /** Reads back what `IntToDecimal` writes: an optional minus sign followed by
      at least one digit. */
  function ParseInt(s: string): (r: Option<int>)
    ensures r.Some? && r.value < 0 ==> |s| >= 2 && s[0] == '-'
  {
    if |s| >= 2 && s[0] == '-' && AllDigits(s[1..]) then
      var magnitude: int := DecimalValue(s[1..]);
      Some(-magnitude)
    else if |s| >= 1 && AllDigits(s) then Some(DecimalValue(s))
    else None
  }

  /** Parsing inverts rendering, for every integer. */
  lemma IntDecimalRoundTrip(n: int)
    ensures ParseInt(IntToDecimal(n)) == Some(n)
  {
    var r := IntToDecimal(n);
    if n < 0 {
      var digits := NatToDecimal(-n);
      assert r == "-" + digits;
      assert |r| >= 2 && r[0] == '-' && r[1..] == digits;
      DecimalValueOfNat(-n);
      assert DecimalValue(r[1..]) == -n;
    } else {
      assert r == NatToDecimal(n);
      assert IsDigit(r[0]);
      DecimalValueOfNat(n);
    }
  }

  /** Distinct integers render as distinct text. */
  lemma IntToDecimalInjective(a: int, b: int)
    ensures IntToDecimal(a) == IntToDecimal(b) ==> a == b
  {
    IntDecimalRoundTrip(a);
    IntDecimalRoundTrip(b);
  }

  /** ASCII case mapping, as `toLowerCase` does on the ASCII range. */
  function LowerChar(c: char): char {
    if 'A' <= c <= 'Z' then (c as int + 32) as char else c
  }

  function Lower(s: string): (r: string)
    ensures |r| == |s|
    ensures forall i :: 0 <= i < |s| ==> r[i] == LowerChar(s[i])
  {
    seq(|s|, i requires 0 <= i < |s| => LowerChar(s[i]))
  }

  /** `kw` occurs in `text` starting at index `i`. */
  ghost predicate OccursAt(text: string, kw: string, i: int) {
    0 <= i && i + |kw| <= |text| && text[i..i + |kw|] == kw
  }

  /** `text.includes(kw)`, searching from the left. */
  function Includes(text: string, kw: string): (b: bool)
    ensures b <==> exists i :: OccursAt(text, kw, i)
    decreases |text|
  {
    if kw <= text then
      assert OccursAt(text, kw, 0);
      true
    else if |text| == 0 then
      assert forall i :: !OccursAt(text, kw, i);
      false
    else
      var rest := Includes(text[1..], kw);
      IncludesStep(text, kw);
      rest
  }

  /** An occurrence in `text` not at index 0 is an occurrence in `text[1..]`,
      one position to the left. */
  lemma IncludesStep(text: string, kw: string)
    requires |text| > 0 && !(kw <= text)
    ensures (exists i :: OccursAt(text, kw, i)) <==> (exists j :: OccursAt(text[1..], kw, j))
  {
    if exists i :: OccursAt(text, kw, i) {
      var i :| OccursAt(text, kw, i);
      assert text[1..][i - 1..i - 1 + |kw|] == text[i..i + |kw|];
      assert OccursAt(text[1..], kw, i - 1);
    }
    if exists j :: OccursAt(text[1..], kw, j) {
      var j :| OccursAt(text[1..], kw, j);
      assert text[1..][j..j + |kw|] == text[j + 1..j + 1 + |kw|];
      assert OccursAt(text, kw, j + 1);
    }
  }

  /** A keyword containing a character the text lacks does not occur in it. */
  lemma AbsentCharacter(text: string, kw: string, c: char)
    requires c in kw && c !in text
    ensures !Includes(text, kw)
  {
  }

  /** The index of the first occurrence of `c` in `s`, or `|s|` when absent. */
  function IndexOf(s: string, c: char): (k: nat)
    ensures k <= |s|
    ensures k < |s| ==> s[k] == c
    ensures forall i :: 0 <= i < k ==> s[i] != c
  {
    if |s| == 0 then 0
    else if s[0] == c then 0
    else 1 + IndexOf(s[1..], c)
  }

  /** The characters `String.prototype.trim` removes: white space (including
      every space separator) and line terminators. */
  predicate IsJsSpace(c: char) {
    c == '\t' || c == '\n' || c == '\U{B}' || c == '\U{C}' || c == '\r' || c == ' '
    || c == '\U{A0}' || c == '\U{1680}' || ('\U{2000}' <= c <= '\U{200A}')
    || c == '\U{2028}' || c == '\U{2029}' || c == '\U{202F}' || c == '\U{205F}'
    || c == '\U{3000}' || c == '\U{FEFF}'
  }

  function TrimStart(s: string): (r: string)
    ensures |r| <= |s| && r == s[|s| - |r|..]
    ensures |r| > 0 ==> !IsJsSpace(r[0])
    ensures forall i :: 0 <= i < |s| - |r| ==> IsJsSpace(s[i])
  {
    if |s| > 0 && IsJsSpace(s[0]) then TrimStart(s[1..]) else s
  }

  function TrimEnd(s: string): (r: string)
    ensures |r| <= |s| && r == s[..|r|]
    ensures |r| > 0 ==> !IsJsSpace(r[|r| - 1])
    ensures forall i :: |r| <= i < |s| ==> IsJsSpace(s[i])
  {
    if |s| > 0 && IsJsSpace(s[|s| - 1]) then TrimEnd(s[..|s| - 1]) else s
  }

  /** `r` is the infix of `s` at `lo`, and everything around it is white space. */
  ghost predicate TrimmedAt(s: string, r: string, lo: int) {
    && 0 <= lo <= |s| - |r|
    && r == s[lo..lo + |r|]
    && (forall i :: 0 <= i < lo ==> IsJsSpace(s[i]))
    && (forall i :: lo + |r| <= i < |s| ==> IsJsSpace(s[i]))
  }

  /** `s.trim()`: the longest infix without white space at either end. */
  function Trim(s: string): (r: string)
    ensures exists lo :: TrimmedAt(s, r, lo)
    ensures |r| > 0 ==> !IsJsSpace(r[0]) && !IsJsSpace(r[|r| - 1])
  {
    var t := TrimStart(s);
    var r := TrimEnd(t);
    var lo := |s| - |t|;
    assert TrimmedAt(s, r, lo);
    r
  }

  /** White space around text with non-white ends is exactly what `trim`
      removes. */
  lemma TrimDropsPadding(pre: string, s: string, post: string)
    requires |s| > 0 && !IsJsSpace(s[0]) && !IsJsSpace(s[|s| - 1])
    requires forall i :: 0 <= i < |pre| ==> IsJsSpace(pre[i])
    requires forall i :: 0 <= i < |post| ==> IsJsSpace(post[i])
    ensures Trim(pre + s + post) == s
  {
    assert pre + s + post == pre + (s + post);
    assert (s + post)[0] == s[0];
    TrimStartDrops(pre, s + post);
    TrimEndDrops(s, post);
  }

  lemma {:induction false} TrimStartDrops(pre: string, rest: string)
    requires |rest| > 0 && !IsJsSpace(rest[0])
    requires forall i :: 0 <= i < |pre| ==> IsJsSpace(pre[i])
    ensures TrimStart(pre + rest) == rest
    decreases |pre|
  {
    if |pre| > 0 {
      assert (pre + rest)[0] == pre[0];
      assert (pre + rest)[1..] == pre[1..] + rest;
      TrimStartDrops(pre[1..], rest);
    } else {
      assert pre + rest == rest;
    }
  }

  lemma {:induction false} TrimEndDrops(rest: string, post: string)
    requires |rest| > 0 && !IsJsSpace(rest[|rest| - 1])
    requires forall i :: 0 <= i < |post| ==> IsJsSpace(post[i])
    ensures TrimEnd(rest + post) == rest
    decreases |post|
  {
    var x := rest + post;
    if |post| > 0 {
      var shorter := post[..|post| - 1];
      assert x[|x| - 1] == post[|post| - 1];
      assert x[..|x| - 1] == rest + shorter;
      TrimEndDrops(rest, shorter);
    } else {
      assert x == rest;
    }
  }

  /** Text that neither starts nor ends with white space is its own trim. */
  lemma TrimKeepsUnpadded(s: string)
    requires |s| > 0 && !IsJsSpace(s[0]) && !IsJsSpace(s[|s| - 1])
    ensures Trim(s) == s
  {
    assert TrimStart(s) == s;
  }
}
