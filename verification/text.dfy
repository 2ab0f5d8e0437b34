/**
 * The few JavaScript string operations the three solvers rely on:
 * `String.prototype.split` with a one-character separator, `trim`, and
 * `Number` applied to a token of decimal digits.
 */
module Text {
  import opened Wrappers

  /** `s.split(sep)` for a one-character separator: the maximal runs between separators. */
  function Split(s: string, sep: char): (parts: seq<string>)
    ensures |parts| >= 1
    ensures forall i :: 0 <= i < |parts| ==> sep !in parts[i]
  {
    if |s| == 0 then [""]
    else
      var rest := Split(s[1..], sep);
      if s[0] == sep then [""] + rest
      else [[s[0]] + rest[0]] + rest[1..]
  }

  /** `parts.join(sep)`: the inverse of Split. */
  function Join(parts: seq<string>, sep: char): string
  {
    if |parts| == 0 then ""
    else if |parts| == 1 then parts[0]
    else parts[0] + [sep] + Join(parts[1..], sep)
  }

  /** Splitting a string that has no separator yields the string itself. */
  lemma {:induction false} SplitWithoutSeparator(s: string, sep: char)
    requires sep !in s
    ensures Split(s, sep) == [s]
  {
    if |s| > 0 {
      assert sep !in s[1..] by {
        forall i | 0 <= i < |s[1..]| ensures s[1..][i] != sep { assert s[1..][i] == s[i + 1]; }
      }
      SplitWithoutSeparator(s[1..], sep);
      assert [s[0]] + s[1..] == s;
    }
  }

  /** A separator cuts the string into the parts of what stands before it and after it. */
  lemma {:induction false} SplitAround(a: string, sep: char, b: string)
    ensures Split(a + [sep] + b, sep) == Split(a, sep) + Split(b, sep)
  {
    if |a| == 0 {
      assert a + [sep] + b == [sep] + b;
      assert ([sep] + b)[1..] == b;
    } else {
      assert (a + [sep] + b)[0] == a[0];
      assert (a + [sep] + b)[1..] == a[1..] + [sep] + b;
      SplitAround(a[1..], sep, b);
    }
  }

  /** Round trip: the parts of a string joined back give the string. */
  lemma {:induction false} JoinSplit(s: string, sep: char)
    ensures Join(Split(s, sep), sep) == s
  {
    if |s| > 0 {
      var rest := Split(s[1..], sep);
      JoinSplit(s[1..], sep);
      if s[0] == sep {
        assert Split(s, sep) == [""] + rest;
        assert ([""] + rest)[1..] == rest;
        assert s == [sep] + s[1..];
      } else {
        var parts := [[s[0]] + rest[0]] + rest[1..];
        assert Split(s, sep) == parts;
        if |rest| == 1 {
          assert s == [s[0]] + rest[0];
        } else {
          assert parts[1..] == rest[1..];
          assert Join(rest, sep) == rest[0] + [sep] + Join(rest[1..], sep);
          assert s == [s[0]] + s[1..];
        }
      }
    }
  }

  /** Round trip: joining separator-free parts and splitting again gives the parts back. */
  lemma {:induction false} SplitJoin(parts: seq<string>, sep: char)
    requires |parts| >= 1
    requires forall i :: 0 <= i < |parts| ==> sep !in parts[i]
    ensures Split(Join(parts, sep), sep) == parts
  {
    SplitWithoutSeparator(parts[0], sep);
    if |parts| > 1 {
      SplitJoin(parts[1..], sep);
      SplitAround(parts[0], sep, Join(parts[1..], sep));
      assert [parts[0]] + parts[1..] == parts;
    }
  }

  /** Joining brings in no character but the separator. */
  lemma {:induction false} JoinWithout(parts: seq<string>, sep: char, c: char)
    requires c != sep
    requires forall i :: 0 <= i < |parts| ==> c !in parts[i]
    ensures c !in Join(parts, sep)
  {
    if |parts| > 1 {
      JoinWithout(parts[1..], sep, c);
    }
  }

  /** The characters `String.prototype.trim` removes (the ASCII ones). */
  predicate IsBlank(c: char)
  {
    c == ' ' || c == '\t' || c == '\n' || c == '\r' || c == '\U{000B}' || c == '\U{000C}'
  }

  /** A string whose `trim()` is empty, that is, falsy. */
  predicate AllBlank(t: string)
  {
    forall i :: 0 <= i < |t| ==> IsBlank(t[i])
  }

  /** `t.trim()`: the string without leading and trailing blanks. */
  function Trim(t: string): (r: string)
    ensures |r| <= |t|
    ensures |r| > 0 ==> !IsBlank(r[0]) && !IsBlank(r[|r| - 1])
    ensures AllBlank(t) <==> r == ""
  {
    if |t| == 0 then ""
    else if IsBlank(t[0]) then
      var r := Trim(t[1..]);
      assert AllBlank(t) <==> AllBlank(t[1..]) by {
        if AllBlank(t[1..]) {
          forall i | 0 <= i < |t| ensures IsBlank(t[i]) { if i > 0 { assert t[i] == t[1..][i - 1]; } }
        }
      }
      r
    else if IsBlank(t[|t| - 1]) then
      var r := Trim(t[..|t| - 1]);
      assert !AllBlank(t[..|t| - 1]) by { assert t[..|t| - 1][0] == t[0]; }
      r
    else t
  }

  /** t[a..b] is t without a blank prefix of length a and a blank suffix from b on. */
  predicate BlankPadded(t: string, a: int, b: int)
  {
    0 <= a <= b <= |t| && AllBlank(t[..a]) && AllBlank(t[b..])
  }

  lemma PaddedFront(t: string, a: int, b: int)
    requires |t| > 0 && IsBlank(t[0]) && BlankPadded(t[1..], a, b)
    ensures BlankPadded(t, a + 1, b + 1) && t[a + 1..b + 1] == t[1..][a..b]
  {
    assert t[b + 1..] == t[1..][b..];
    assert t[..a + 1] == [t[0]] + t[1..][..a];
  }

  lemma PaddedBack(t: string, a: int, b: int)
    requires |t| > 0 && IsBlank(t[|t| - 1]) && BlankPadded(t[..|t| - 1], a, b)
    ensures BlankPadded(t, a, b) && t[a..b] == t[..|t| - 1][a..b]
  {
    assert t[..a] == t[..|t| - 1][..a];
    assert t[b..] == t[..|t| - 1][b..] + [t[|t| - 1]];
  }

  /** Trim removes exactly a blank prefix and a blank suffix: what it returns is a slice of its input. */
  lemma {:induction false} TrimSlice(t: string)
    ensures exists a, b :: BlankPadded(t, a, b) && Trim(t) == t[a..b]
  {
    if |t| == 0 {
      assert BlankPadded(t, 0, 0) && Trim(t) == t[0..0];
    } else if IsBlank(t[0]) {
      var u := t[1..];
      TrimFirstBlank(t);
      TrimSlice(u);
      var a, b :| BlankPadded(u, a, b) && Trim(u) == u[a..b];
      PaddedFront(t, a, b);
    } else if IsBlank(t[|t| - 1]) {
      var u := t[..|t| - 1];
      TrimLastBlank(t);
      TrimSlice(u);
      var a, b :| BlankPadded(u, a, b) && Trim(u) == u[a..b];
      PaddedBack(t, a, b);
    } else {
      assert BlankPadded(t, 0, |t|) && Trim(t) == t[0..|t|];
    }
  }

  lemma TrimFirstBlank(t: string)
    requires |t| > 0 && IsBlank(t[0])
    ensures Trim(t) == Trim(t[1..])
  {
  }

  lemma TrimLastBlank(t: string)
    requires |t| > 0 && !IsBlank(t[0]) && IsBlank(t[|t| - 1])
    ensures Trim(t) == Trim(t[..|t| - 1])
  {
  }

  /** Blanks around a string with non-blank ends are exactly what Trim removes. */
  lemma TrimPadded(a: string, m: string, b: string)
    requires AllBlank(a) && AllBlank(b)
    requires |m| > 0 && !IsBlank(m[0]) && !IsBlank(m[|m| - 1])
    ensures Trim(a + m + b) == m
    decreases |a| + |b|
  {
    var t := a + m + b;
    if |a| > 0 {
      assert t[0] == a[0];
      assert IsBlank(t[0]);
      assert t[1..] == a[1..] + m + b;
      TrimFirstBlank(t);
      TrimPadded(a[1..], m, b);
    } else if |b| > 0 {
      assert t == m + b;
      assert t[0] == m[0] && t[|t| - 1] == b[|b| - 1];
      assert !IsBlank(t[0]) && IsBlank(t[|t| - 1]);
      assert t[..|t| - 1] == [] + m + b[..|b| - 1];
      TrimLastBlank(t);
      TrimPadded([], m, b[..|b| - 1]);
    } else {
      assert t == m;
    }
  }

  /** Trimming a string of non-blank characters leaves it as it is. */
  lemma TrimNonBlank(t: string)
    requires forall i :: 0 <= i < |t| ==> !IsBlank(t[i])
    ensures Trim(t) == t
  {
  }

  predicate IsDigit(c: char)
  {
    '0' <= c <= '9'
  }

  /** A non-empty run of decimal digits. */
  predicate IsNumeral(t: string)
  {
    |t| > 0 && forall i :: 0 <= i < |t| ==> IsDigit(t[i])
  }

  /** The value of a string of decimal digits, most significant first. */
  function DigitsValue(t: string): nat
    requires forall i :: 0 <= i < |t| ==> IsDigit(t[i])
  {
    if |t| == 0 then 0
    else
      assert IsDigit(t[|t| - 1]);
      10 * DigitsValue(t[..|t| - 1]) + (t[|t| - 1] as int - '0' as int)
  }

  /**
   * `Number(t)` restricted to what the puzzle inputs contain: surrounding blanks are
   * ignored, a blank token is 0, a run of decimal digits is its value, and every other
   * token is NaN (None).
   */
  function ToNumber(t: string): (r: Option<nat>)
    ensures r.Some? <==> (Trim(t) == "" || IsNumeral(Trim(t)))
    ensures AllBlank(t) ==> r == Some(0)
  {
    var u := Trim(t);
    if u == "" then Some(0)
    else if IsNumeral(u) then Some(DigitsValue(u))
    else None
  }

  function DigitChar(d: nat): (c: char)
    requires d < 10
    ensures IsDigit(c) && c as int - '0' as int == d
  {
    (d + '0' as int) as char
  }

  /** The decimal representation of a natural number, without leading zeros. */
  function Numeral(n: nat): (t: string)
    ensures IsNumeral(t)
    ensures forall i :: 0 <= i < |t| ==> !IsBlank(t[i])
  {
    if n < 10 then [DigitChar(n)] else Numeral(n / 10) + [DigitChar(n % 10)]
  }

  /** Round trip: `Number` reads back the decimal representation of every natural number. */
  lemma {:induction false} NumeralValue(n: nat)
    ensures DigitsValue(Numeral(n)) == n
  {
    if n >= 10 {
      var t := Numeral(n);
      assert t[..|t| - 1] == Numeral(n / 10);
      NumeralValue(n / 10);
    }
  }

  lemma ToNumberNumeral(n: nat)
    ensures ToNumber(Numeral(n)) == Some(n)
  {
    TrimNonBlank(Numeral(n));
    NumeralValue(n);
  }

  predicate AllZeros(z: string)
  {
    forall i :: 0 <= i < |z| ==> z[i] == '0'
  }

  /** A run of zeros is worth 0. */
  lemma {:induction false} ZerosValue(z: string)
    requires AllZeros(z)
    ensures DigitsValue(z) == 0
  {
    if |z| > 0 {
      ZerosValue(z[..|z| - 1]);
    }
  }

  /** Leading zeros do not change the value of a string of digits. */
  lemma {:induction false} LeadingZerosValue(z: string, d: string)
    requires AllZeros(z)
    requires forall i :: 0 <= i < |d| ==> IsDigit(d[i])
    ensures DigitsValue(z + d) == DigitsValue(d)
  {
    if |d| == 0 {
      assert z + d == z;
      ZerosValue(z);
    } else {
      var zd := z + d;
      assert zd[..|zd| - 1] == z + d[..|d| - 1];
      assert zd[|zd| - 1] == d[|d| - 1];
      LeadingZerosValue(z, d[..|d| - 1]);
    }
  }

  /**
   * The value `Number` gives a token: blanks around it are ignored and leading zeros do
   * not count, so `" 007 "` is 7.
   */
  lemma ToNumberPadded(a: string, z: string, n: nat, b: string)
    requires AllBlank(a) && AllBlank(b) && AllZeros(z)
    ensures ToNumber(a + z + Numeral(n) + b) == Some(n)
  {
    var d := Numeral(n);
    var m := z + d;
    assert m[|m| - 1] == d[|d| - 1];
    assert !IsBlank(m[0]) by {
      if |z| > 0 { assert m[0] == z[0]; } else { assert m[0] == d[0]; }
    }
    assert a + z + d + b == a + m + b;
    TrimPadded(a, m, b);
    assert IsNumeral(m) by {
      forall i | 0 <= i < |m| ensures IsDigit(m[i]) {
        if i >= |z| { assert m[i] == d[i - |z|]; }
      }
    }
    LeadingZerosValue(z, d);
    NumeralValue(n);
  }
}
