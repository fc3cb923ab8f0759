/** Character and string helpers shared by the beacon model: optional and
    result values, decimal digits with zero padding (Python's `{n:0Wd}`),
    ASCII case mapping (`str.lower` / `str.upper`), whitespace stripping
    (`str.strip`) and substring search (`in` on strings). */
module Text {

  datatype Option<T> = None | Some(value: T) {
    function GetOr(default: T): T {
      match this
      case Some(v) => v
      case None => default
    }
  }

  datatype Result<T, E> = Success(value: T) | Failure(error: E)

  // ---------------------------------------------------------------------
  // Decimal digits

  predicate IsDigit(c: char) {
    '0' <= c <= '9'
  }

  predicate AllDigits(s: string) {
    forall i :: 0 <= i < |s| ==> IsDigit(s[i])
  }

  function DigitChar(d: nat): (c: char)
    requires d < 10
    ensures IsDigit(c)
  {
    ('0' as int + d) as char
  }

  function DigitValue(c: char): (d: nat)
    requires IsDigit(c)
    ensures d < 10 && DigitChar(d) == c
  {
    c as int - '0' as int
  }

  function Pow10(k: nat): (p: nat)
    ensures p >= 1
  {
    if k == 0 then 1 else 10 * Pow10(k - 1)
  }

  /** The shortest decimal rendering of `n` (Python's `str(n)` for n >= 0). */
  function Digits(n: nat): (s: string)
    ensures 1 <= |s|
    ensures AllDigits(s)
    decreases n
  {
    if n < 10 then [DigitChar(n)] else Digits(n / 10) + [DigitChar(n % 10)]
  }

  /** The value of a string of decimal digits, leading zeros allowed. */
  function DigitsValue(s: string): nat
    requires AllDigits(s)
  {
    if s == [] then 0 else DigitsValue(s[..|s| - 1]) * 10 + DigitValue(s[|s| - 1])
  }

  function Repeat(c: char, k: nat): (s: string)
    ensures |s| == k
    ensures forall i :: 0 <= i < k ==> s[i] == c
  {
    if k == 0 then [] else Repeat(c, k - 1) + [c]
  }

  /** Python's `f"{n:0{width}d}"` for n >= 0: the digits of `n`, padded on
      the left with zeros to at least `width` characters. */
  function ZeroPad(n: nat, width: nat): (s: string)
    ensures |s| == if |Digits(n)| < width then width else |Digits(n)|
    ensures AllDigits(s)
  {
    var d := Digits(n);
    if |d| < width then Repeat('0', width - |d|) + d else d
  }

  /** `n` needs at most `w` digits exactly when it is below 10^w. */
  lemma {:induction false} DigitsFit(n: nat, w: nat)
    requires w >= 1
    ensures |Digits(n)| <= w <==> n < Pow10(w)
    decreases n
  {
    if n < 10 {
      PowAtLeast(w);
    } else if w > 1 {
      DigitsFit(n / 10, w - 1);
    } else {
      assert |Digits(n / 10)| >= 1;
    }
  }

  lemma {:induction false} PowAtLeast(w: nat)
    requires w >= 1
    ensures Pow10(w) >= 10
  {
    if w > 1 { PowAtLeast(w - 1); }
  }

  lemma {:induction false} DigitsValueOfDigits(n: nat)
    ensures DigitsValue(Digits(n)) == n
    decreases n
  {
    var s := Digits(n);
    if n >= 10 {
      assert s[..|s| - 1] == Digits(n / 10);
      DigitsValueOfDigits(n / 10);
    }
  }

  lemma {:induction false} DigitsValueLeadingZeros(k: nat, s: string)
    requires AllDigits(s)
    ensures AllDigits(Repeat('0', k) + s)
    ensures DigitsValue(Repeat('0', k) + s) == DigitsValue(s)
    decreases |s|
  {
    var z := Repeat('0', k);
    if s == [] {
      assert z + s == z;
      ZerosValue(k);
    } else {
      var t := z + s;
      assert t[..|t| - 1] == z + s[..|s| - 1];
      DigitsValueLeadingZeros(k, s[..|s| - 1]);
    }
  }

  lemma {:induction false} ZerosValue(k: nat)
    ensures AllDigits(Repeat('0', k))
    ensures DigitsValue(Repeat('0', k)) == 0
  {
    if k > 0 {
      var z := Repeat('0', k);
      assert z[..|z| - 1] == Repeat('0', k - 1);
      ZerosValue(k - 1);
    }
  }

  lemma ZeroPadTwo(n: nat)
    requires n < 100
    ensures ZeroPad(n, 2) == [DigitChar(n / 10), DigitChar(n % 10)]
  {
    if n < 10 {
      assert ZeroPad(n, 2) == Repeat('0', 1) + Digits(n);
    } else {
      assert Digits(n) == Digits(n / 10) + [DigitChar(n % 10)];
    }
  }

  lemma ZeroPadThree(n: nat)
    requires n < 1000
    ensures ZeroPad(n, 3) == [DigitChar(n / 100), DigitChar(n / 10 % 10), DigitChar(n % 10)]
  {
    if n < 10 {
      assert ZeroPad(n, 3) == Repeat('0', 2) + Digits(n);
    } else if n < 100 {
      assert Digits(n) == Digits(n / 10) + [DigitChar(n % 10)];
      assert ZeroPad(n, 3) == Repeat('0', 1) + Digits(n);
    } else {
      assert Digits(n) == Digits(n / 10) + [DigitChar(n % 10)];
      assert Digits(n / 10) == Digits(n / 100) + [DigitChar(n / 10 % 10)];
    }
  }

  /** Zero padding loses nothing: reading the padded digits back gives `n`. */
  lemma {:induction false} ZeroPadValue(n: nat, width: nat)
    ensures DigitsValue(ZeroPad(n, width)) == n
  {
    var d := Digits(n);
    DigitsValueOfDigits(n);
    if |d| < width {
      assert ZeroPad(n, width) == Repeat('0', width - |d|) + d;
      DigitsValueLeadingZeros(width - |d|, d);
    } else {
      assert ZeroPad(n, width) == d;
    }
  }

  // ---------------------------------------------------------------------
  // ASCII case mapping

  function LowerChar(c: char): char {
    if 'A' <= c <= 'Z' then (c as int + 32) as char else c
  }

  function UpperChar(c: char): (r: char)
    ensures !('a' <= r <= 'z')
    ensures !('a' <= c <= 'z') ==> r == c
    ensures IsSpace(r) == IsSpace(c)
  {
    if 'a' <= c <= 'z' then (c as int - 32) as char else c
  }

  function Lower(s: string): (r: string)
    ensures |r| == |s|
    ensures forall i :: 0 <= i < |s| ==> r[i] == LowerChar(s[i])
  {
    seq(|s|, i requires 0 <= i < |s| => LowerChar(s[i]))
  }

  function Upper(s: string): (r: string)
    ensures |r| == |s|
    ensures forall i :: 0 <= i < |s| ==> r[i] == UpperChar(s[i])
  {
    seq(|s|, i requires 0 <= i < |s| => UpperChar(s[i]))
  }

  lemma LowerAppend(s: string, t: string)
    ensures Lower(s + t) == Lower(s) + Lower(t)
  {
    assert forall i :: 0 <= i < |s + t| ==> Lower(s + t)[i] == (Lower(s) + Lower(t))[i];
  }

  // ---------------------------------------------------------------------
  // Substring search

  predicate OccursAt(s: string, t: string, i: nat) {
    i + |t| <= |s| && s[i..i + |t|] == t
  }

  /** Python's `t in s` for strings. */
  predicate Contains(s: string, t: string) {
    exists i: nat :: i <= |s| && OccursAt(s, t, i)
  }

  lemma ContainsExtend(s: string, t: string, u: string)
    requires Contains(s, t)
    ensures Contains(s + u, t)
  {
    var i: nat :| i <= |s| && OccursAt(s, t, i);
    assert (s + u)[i..i + |t|] == s[i..i + |t|];
    assert OccursAt(s + u, t, i);
  }

  // ---------------------------------------------------------------------
  // Whitespace stripping

  /** The characters Python's `str.isspace` accepts in the ASCII range. */
  predicate IsSpace(c: char) {
    // space, tab through carriage return (9..13), and the separators 28..31
    c == ' ' || '\t' <= c <= '\r' || '\U{1C}' <= c <= '\U{1F}'
  }

  function TrimStart(s: string): (r: string)
    ensures |r| <= |s| && r == s[|s| - |r|..]
    ensures r == [] || !IsSpace(r[0])
    ensures forall i :: 0 <= i < |s| - |r| ==> IsSpace(s[i])
  {
    if s != [] && IsSpace(s[0]) then TrimStart(s[1..]) else s
  }

  function TrimEnd(s: string): (r: string)
    ensures |r| <= |s| && r == s[..|r|]
    ensures r == [] || !IsSpace(r[|r| - 1])
    ensures forall i :: |r| <= i < |s| ==> IsSpace(s[i])
  {
    if s != [] && IsSpace(s[|s| - 1]) then TrimEnd(s[..|s| - 1]) else s
  }

  /** Python's `str.strip()` (ASCII whitespace). */
  function Strip(s: string): (r: string)
    ensures r == [] || (!IsSpace(r[0]) && !IsSpace(r[|r| - 1]))
    ensures exists i, j :: 0 <= i <= j <= |s| && r == s[i..j]
  {
    var a := TrimStart(s);
    var r := TrimEnd(a);
    assert r == s[|s| - |a|..|s| - |a| + |r|];
    r
  }

  lemma TrimStartNoop(s: string)
    requires s == [] || !IsSpace(s[0])
    ensures TrimStart(s) == s
  {
  }

  lemma TrimEndNoop(s: string)
    requires s == [] || !IsSpace(s[|s| - 1])
    ensures TrimEnd(s) == s
  {
  }
}
