/**
 * The Python built-ins the backend leans on for numbers written as text:
 * int(text) in base 10, str(number), str.zfill(width) and str.split(sep)
 * for a one-character separator.
 */
module PyInt {
  import opened Text
  import opened Wrappers

  predicate IsDigit(c: char) {
    '0' <= c <= '9'
  }

  function DigitValue(c: char): (v: nat)
    requires IsDigit(c)
    ensures v < 10
  {
    (c as int) - ('0' as int)
  }

  function DigitChar(v: nat): (c: char)
    requires v < 10
    ensures IsDigit(c) && DigitValue(c) == v
  {
    (('0' as int) + v) as char
  }

  predicate AllDigits(d: Str) {
    forall c :: c in d ==> IsDigit(c)
  }

  /** The value of a run of decimal digits, most significant first. */
  function DigitsValue(d: Str): nat
    requires AllDigits(d)
  {
    if d == [] then 0 else 10 * DigitsValue(d[..|d| - 1]) + DigitValue(d[|d| - 1])
  }

  /** Whitespace that int() strips around its argument: str.isspace() without U+001C to U+001F. */
  predicate IsIntSpace(c: char) {
    IsPySpace(c) && !('\U{001C}' <= c <= '\U{001F}')
  }

  /** The body int() accepts after the sign: digits, with single underscores between two digits. */
  predicate WellFormedDigits(d: Str) {
    && d != []
    && IsDigit(d[0]) && IsDigit(d[|d| - 1])
    && (forall c :: c in d ==> IsDigit(c) || c == '_')
    && (forall i :: 0 <= i < |d| - 1 ==> !(d[i] == '_' && d[i + 1] == '_'))
  }

  /** int(s): None stands for the ValueError int() raises. */
  function Parse(s: Str): Option<int> {
    ParseTrimmed(Trim(s, IsIntSpace))
  }

  /** int() once the surrounding whitespace is gone: an optional sign, then the digits. */
  function ParseTrimmed(t: Str): Option<int> {
    if t == [] then None
    else
      var body := if t[0] == '+' || t[0] == '-' then t[1..] else t;
      if !WellFormedDigits(body) then None
      else
        var v: int := DigitsValue(Remove(body, c => c == '_'));
        Some(if t[0] == '-' then -v else v)
  }

  /** The decimal digits of n, without leading zeros. */
  function Decimal(n: nat): (d: Str)
    ensures d != [] && AllDigits(d)
    ensures DigitsValue(d) == n
  {
    if n < 10 then [DigitChar(n)]
    else
      var d := Decimal(n / 10) + [DigitChar(n % 10)];
      assert d[..|d| - 1] == Decimal(n / 10);
      d
  }

  /** str(n). */
  function ToStr(n: int): Str {
    if n < 0 then "-" + Decimal(-n) else Decimal(n)
  }

  /** int(str(n)) == n. */
  lemma ParseToStr(n: int)
    ensures Parse(ToStr(n)) == Some(n)
  {
    if n < 0 {
      ParseSignedDigits(true, Decimal(-n));
    } else {
      assert ToStr(n) == [] + Decimal(n);
      ParseSignedDigits(false, Decimal(n));
    }
  }

  lemma DigitsWellFormed(d: Str)
    requires d != [] && AllDigits(d)
    ensures WellFormedDigits(d)
    ensures Remove(d, c => c == '_') == d
  {
    forall i | 0 <= i < |d| ensures IsDigit(d[i]) {
      assert d[i] in d;
    }
    RemoveNothing(d, c => c == '_');
  }

  /** A run of digits (no spaces, no underscores) reads as its value, with or without a minus sign. */
  lemma ParseDigits(d: Str)
    requires d != [] && AllDigits(d)
    ensures ParseTrimmed(d) == Some(DigitsValue(d))
    ensures ParseTrimmed("-" + d) == Some(-(DigitsValue(d) as int))
  {
    DigitsWellFormed(d);
    assert d[0] in d;
    assert d[0] != '+' && d[0] != '-';
    var t := "-" + d;
    assert t[0] == '-' && t[1..] == d;
  }

  function SignOf(neg: bool): Str {
    if neg then "-" else []
  }

  function Signed(neg: bool, v: nat): int {
    if neg then -(v as int) else v
  }

  lemma ParseSignedDigits(neg: bool, d: Str)
    requires d != [] && AllDigits(d)
    ensures Parse(SignOf(neg) + d) == Some(Signed(neg, DigitsValue(d)))
  {
    var s := SignOf(neg) + d;
    assert d[0] in d && d[|d| - 1] in d;
    assert s[0] == (if neg then '-' else d[0]);
    assert s[|s| - 1] == d[|d| - 1];
    assert !IsIntSpace(s[0]) && !IsIntSpace(s[|s| - 1]);
    TrimUntouched(s, IsIntSpace);
    ParseDigits(d);
    if !neg {
      assert s == d;
    }
  }

  function Zeros(k: nat): (z: Str)
    ensures |z| == k && AllDigits(z)
  {
    seq(k, _ => '0')
  }

  /** Leading zeros do not change the value of a run of digits. */
  lemma {:induction false} ZerosValue(k: nat, d: Str)
    requires AllDigits(d)
    ensures DigitsValue(Zeros(k) + d) == DigitsValue(d)
    decreases |d|, k
  {
    var s := Zeros(k) + d;
    if d == [] {
      assert s == Zeros(k);
      if k > 0 {
        assert s[..|s| - 1] == Zeros(k - 1) + [];
        assert s[|s| - 1] == '0';
        ZerosValue(k - 1, []);
      }
    } else {
      assert s[..|s| - 1] == Zeros(k) + d[..|d| - 1];
      assert s[|s| - 1] == d[|d| - 1];
      ZerosValue(k, d[..|d| - 1]);
    }
  }

  /** str.zfill(width): pads with zeros after an optional sign up to width characters. */
  function ZFill(s: Str, width: nat): (r: Str)
    ensures |r| == if |s| >= width then |s| else width
  {
    if |s| >= width then s
    else if |s| > 0 && (s[0] == '+' || s[0] == '-') then [s[0]] + Zeros(width - |s|) + s[1..]
    else Zeros(width - |s|) + s
  }

  /** Zero-padding a number keeps its value: int(str(n).zfill(width)) == n. */
  lemma ParseZFill(n: int, width: nat)
    ensures Parse(ZFill(ToStr(n), width)) == Some(n)
  {
    if n < 0 {
      ParseZFillDigits(true, Decimal(-n), width);
    } else {
      assert ToStr(n) == [] + Decimal(n);
      ParseZFillDigits(false, Decimal(n), width);
    }
  }

  lemma ParseZFillDigits(neg: bool, d: Str, width: nat)
    requires d != [] && AllDigits(d)
    ensures Parse(ZFill(SignOf(neg) + d, width)) == Some(Signed(neg, DigitsValue(d)))
  {
    var z := ZFillShape(neg, d, width);
    var e := z + d;
    ZerosValue(|z|, d);
    ParseSignedDigits(neg, e);
  }

  /** str.zfill on a signed run of digits inserts zeros between the sign and the digits. */
  lemma ZFillShape(neg: bool, d: Str, width: nat) returns (z: Str)
    requires d != [] && AllDigits(d)
    ensures z == Zeros(|z|) && AllDigits(z + d)
    ensures ZFill(SignOf(neg) + d, width) == SignOf(neg) + (z + d)
  {
    var s := SignOf(neg) + d;
    assert d[0] in d;
    if |s| >= width {
      z := [];
      assert Zeros(0) == [];
    } else {
      z := Zeros(width - |s|);
      assert ZFill(s, width) == SignOf(neg) + (z + d);
    }
  }

  /** str.split(sep) for a one-character separator: n separators give n + 1 pieces. */
  function SplitOn(s: Str, sep: char): (parts: seq<Str>)
    ensures |parts| >= 1
    ensures forall p :: p in parts ==> sep !in p
  {
    if s == [] then [[]]
    else
      var rest := SplitOn(s[1..], sep);
      assert rest[0] in rest;
      if s[0] == sep then [[]] + rest else [[s[0]] + rest[0]] + rest[1..]
  }

  /** Joining the pieces with the separator gives the text back. */
  lemma {:induction false} JoinSplitOn(s: Str, sep: char)
    ensures Join(SplitOn(s, sep), [sep]) == s
  {
    if s != [] {
      var rest := SplitOn(s[1..], sep);
      JoinSplitOn(s[1..], sep);
      if s[0] == sep {
        assert SplitOn(s, sep) == [[]] + rest;
        assert ([[]] + rest)[1..] == rest;
        assert Join(SplitOn(s, sep), [sep]) == [] + [sep] + Join(rest, [sep]);
      } else {
        var parts := [[s[0]] + rest[0]] + rest[1..];
        assert SplitOn(s, sep) == parts;
        if |rest| == 1 {
          assert Join(parts, [sep]) == [s[0]] + rest[0];
        } else {
          assert parts[1..] == rest[1..];
          assert Join(rest, [sep]) == rest[0] + [sep] + Join(rest[1..], [sep]);
          assert Join(parts, [sep]) == [s[0]] + rest[0] + [sep] + Join(rest[1..], [sep]);
        }
        assert s == [s[0]] + s[1..];
      }
    }
  }

  /** Splitting text free of the separator gives it whole; a separator after it starts the next piece. */
  lemma {:induction false} SplitOnFirst(s: Str, sep: char, rest: Str)
    requires sep !in s
    ensures SplitOn(s, sep) == [s]
    ensures SplitOn(s + [sep] + rest, sep) == [s] + SplitOn(rest, sep)
  {
    if s != [] {
      SplitOnFirst(s[1..], sep, rest);
      assert (s + [sep] + rest)[1..] == s[1..] + [sep] + rest;
      assert s == [s[0]] + s[1..];
    } else {
      assert s + [sep] + rest == [sep] + rest;
      assert ([sep] + rest)[1..] == rest;
    }
  }

  /** Splitting pieces joined by the separator, none containing it, gives the pieces back. */
  lemma {:induction false} SplitOnJoin(ps: seq<Str>, sep: char)
    requires |ps| >= 1
    requires forall i :: 0 <= i < |ps| ==> sep !in ps[i]
    ensures SplitOn(Join(ps, [sep]), sep) == ps
  {
    if |ps| == 1 {
      SplitOnFirst(ps[0], sep, []);
    } else {
      SplitOnJoin(ps[1..], sep);
      SplitOnFirst(ps[0], sep, Join(ps[1..], [sep]));
      assert ps == [ps[0]] + ps[1..];
    }
  }
}
