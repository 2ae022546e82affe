/**
 * String helpers shared by the chaos controls: Python's ordering of `str`
 * values, `",".join(...)` and `str(int)`.
 */
module Text {
  import opened Wrappers

  /** Python's `a < b` on strings: lexicographic on code points, a proper prefix first. */
  predicate Below(a: string, b: string)
    decreases |a|
  {
    |b| > 0 && (|a| == 0 || a[0] < b[0] || (a[0] == b[0] && Below(a[1..], b[1..])))
  }

  lemma {:induction false} BelowIrreflexive(a: string)
    ensures !Below(a, a)
    decreases |a|
  {
    if |a| > 0 {
      BelowIrreflexive(a[1..]);
    }
  }

  lemma {:induction false} BelowTransitive(a: string, b: string, c: string)
    requires Below(a, b) && Below(b, c)
    ensures Below(a, c)
    decreases |a|
  {
    if |a| > 0 && a[0] == b[0] && b[0] == c[0] {
      BelowTransitive(a[1..], b[1..], c[1..]);
    }
  }

  lemma {:induction false} BelowTotal(a: string, b: string)
    requires a != b
    ensures Below(a, b) || Below(b, a)
    decreases |a|
  {
    if |a| > 0 && |b| > 0 && a[0] == b[0] {
      assert a == [a[0]] + a[1..] && b == [b[0]] + b[1..];
      BelowTotal(a[1..], b[1..]);
    }
  }

  lemma BelowAsymmetric(a: string, b: string)
    requires Below(a, b)
    ensures !Below(b, a)
  {
    if Below(b, a) {
      BelowTransitive(a, b, a);
      BelowIrreflexive(a);
    }
  }

  /** The strings of `xs` in strictly increasing order, so also without repetition. */
  ghost predicate StrictlySorted(xs: seq<string>) {
    forall i, j :: 0 <= i < j < |xs| ==> Below(xs[i], xs[j])
  }

  /** Python's `set(xs)`. */
  ghost function Elements(xs: seq<string>): set<string> {
    set x | x in xs
  }

  lemma ElementsConcat(a: seq<string>, b: seq<string>)
    ensures Elements(a + b) == Elements(a) + Elements(b)
  {
    forall x | x in Elements(a + b) ensures x in Elements(a) + Elements(b) {
      var i :| 0 <= i < |a + b| && (a + b)[i] == x;
      if i >= |a| { assert b[i - |a|] == x; }
    }
    forall x | x in Elements(a) + Elements(b) ensures x in Elements(a + b) {
      if x in Elements(a) {
        var i :| 0 <= i < |a| && a[i] == x;
        assert (a + b)[i] == x;
      } else {
        var i :| 0 <= i < |b| && b[i] == x;
        assert (a + b)[|a| + i] == x;
      }
    }
  }

  /** Two strictly sorted lists with the same elements are the same list: `sorted(s)` depends only on `s`. */
  lemma {:induction false} SortedUnique(a: seq<string>, b: seq<string>)
    requires StrictlySorted(a) && StrictlySorted(b)
    requires Elements(a) == Elements(b)
    ensures a == b
    decreases |a|
  {
    if b != [] {
      assert b[0] in Elements(a);
    }
    if a != [] {
      assert a[0] in Elements(b);
      assert b != [];
      assert b[0] in Elements(a);
      var k :| 0 <= k < |b| && b[k] == a[0];
      var m :| 0 <= m < |a| && a[m] == b[0];
      if k > 0 {
        assert Below(b[0], a[0]);
        assert m > 0 ==> Below(a[0], b[0]);
        if m > 0 { BelowAsymmetric(a[0], b[0]); }
        assert m == 0;
        BelowIrreflexive(a[0]);
        assert false;
      }
      forall x | x in Elements(a[1..]) ensures x in Elements(b[1..]) {
        var i :| 1 <= i < |a| && a[i] == x;
        assert Below(a[0], x);
        BelowIrreflexive(x);
        assert x in Elements(b) && x != b[0];
      }
      forall x | x in Elements(b[1..]) ensures x in Elements(a[1..]) {
        var i :| 1 <= i < |b| && b[i] == x;
        assert Below(b[0], x);
        BelowIrreflexive(x);
        assert x in Elements(a) && x != a[0];
      }
      SortedUnique(a[1..], b[1..]);
      assert a == [a[0]] + a[1..] && b == [b[0]] + b[1..];
    }
  }

  /** Python's `",".join(xs)`. */
  function Join(xs: seq<string>): string {
    if |xs| == 0 then ""
    else if |xs| == 1 then xs[0]
    else xs[0] + "," + Join(xs[1..])
  }

  /** Python's `s.split(",")`: the pieces between commas, always at least one. */
  function Split(s: string): (r: seq<string>)
    ensures |r| >= 1
    decreases |s|
  {
    if s == [] then [""]
    else
      var rest := Split(s[1..]);
      if s[0] == ',' then [""] + rest else [[s[0]] + rest[0]] + rest[1..]
  }

  /** No element of `xs` contains a comma. */
  predicate CommaFree(xs: seq<string>) {
    forall i :: 0 <= i < |xs| ==> ',' !in xs[i]
  }

  lemma {:induction false} SplitPiece(a: string, b: string)
    requires ',' !in a
    ensures Split(a + b) == [a + Split(b)[0]] + Split(b)[1..]
    decreases |a|
  {
    if a != [] {
      assert (a + b)[0] == a[0] && (a + b)[1..] == a[1..] + b;
      SplitPiece(a[1..], b);
      assert a[0] != ',' by { assert a[0] in a; }
      var rest := Split(a[1..] + b);
      assert Split(a + b) == [[a[0]] + rest[0]] + rest[1..];
      assert rest[0] == a[1..] + Split(b)[0] && rest[1..] == Split(b)[1..];
      assert [a[0]] + (a[1..] + Split(b)[0]) == a + Split(b)[0];
    } else {
      assert a + b == b;
      assert a + Split(b)[0] == Split(b)[0];
      assert Split(b) == [Split(b)[0]] + Split(b)[1..];
    }
  }

  /** Joining a non-empty list of comma-free names and splitting the result gives the names back. */
  lemma {:induction false} SplitJoin(xs: seq<string>)
    requires |xs| >= 1 && CommaFree(xs)
    ensures Split(Join(xs)) == xs
    decreases |xs|
  {
    if |xs| == 1 {
      SplitPiece(xs[0], "");
      assert xs[0] + "" == xs[0];
    } else {
      var rest := "," + Join(xs[1..]);
      SplitJoin(xs[1..]);
      assert Join(xs) == xs[0] + rest;
      SplitPiece(xs[0], rest);
      assert rest[0] == ',' && rest[1..] == Join(xs[1..]);
      assert Split(rest) == [""] + xs[1..];
      assert xs[0] + "" == xs[0];
      assert xs == [xs[0]] + xs[1..];
    }
  }

  /**
   * A name with a comma does not survive joining: `a,b` is stored exactly as
   * the two names `a` and `b` are, and reads back as those two.
   */
  lemma JoinConflatesCommas(a: string, b: string)
    requires ',' !in a && ',' !in b
    ensures Join([a + "," + b]) == Join([a, b])
    ensures Split(Join([a + "," + b])) == [a, b]
    ensures Split(Join([a + "," + b])) != [a + "," + b]
  {
    assert Join([a, b]) == a + "," + b by {
      assert [a, b][1..] == [b];
    }
    SplitJoin([a, b]);
  }

  /** Python's `str(c)` for a single decimal digit. */
  function DigitChar(d: nat): (c: char)
    requires d < 10
    ensures IsDigit(c) && DigitValue(c) == d
  {
    (('0' as int) + d) as char
  }

  /** Python's `str(n)` for a non-negative integer. */
  function Digits(n: nat): string
    decreases n
  {
    if n < 10 then [DigitChar(n)] else Digits(n / 10) + [DigitChar(n % 10)]
  }

  /** Python's `str(n)` for an integer. */
  function DecimalString(n: int): string {
    if n < 0 then "-" + Digits(-n) else Digits(n)
  }

  predicate IsDigit(c: char) {
    '0' <= c <= '9'
  }

  /** The value of a string of decimal digits. */
  function DigitsValue(s: string): nat
    requires forall i :: 0 <= i < |s| ==> IsDigit(s[i])
  {
    if s == [] then 0
    else DigitsValue(s[..|s| - 1]) * 10 + DigitValue(s[|s| - 1])
  }

  function DigitValue(c: char): (d: nat)
    requires IsDigit(c)
    ensures d < 10
  {
    (c as int) - ('0' as int)
  }

  /** Reading back a decimal string: an optional minus sign and at least one digit. */
  function ParseDecimal(s: string): (r: Option<int>)
    ensures r.Some? ==> |s| > 0
  {
    if |s| > 1 && s[0] == '-' && forall i :: 1 <= i < |s| ==> IsDigit(s[i]) then
      var v: int := DigitsValue(s[1..]); Some(-v)
    else if |s| > 0 && forall i :: 0 <= i < |s| ==> IsDigit(s[i]) then
      Some(DigitsValue(s))
    else
      None
  }

  lemma {:induction false} DigitsShape(n: nat)
    ensures |Digits(n)| > 0
    ensures forall i :: 0 <= i < |Digits(n)| ==> IsDigit(Digits(n)[i])
    ensures DigitsValue(Digits(n)) == n
    decreases n
  {
    if n >= 10 {
      DigitsShape(n / 10);
      var d, p, c := Digits(n), Digits(n / 10), DigitChar(n % 10);
      assert d == p + [c];
      assert d[..|d| - 1] == p && d[|d| - 1] == c;
      forall i | 0 <= i < |d| ensures IsDigit(d[i]) {
        if i < |p| { assert d[i] == p[i]; }
      }
      calc {
        DigitsValue(d);
        DigitsValue(p) * 10 + DigitValue(c);
        (n / 10) * 10 + n % 10;
        n;
      }
    }
  }

  /** What `str(n)` stores reads back as `n`. */
  lemma DecimalRoundTrip(n: int)
    ensures ParseDecimal(DecimalString(n)) == Some(n)
  {
    var s := DecimalString(n);
    if n < 0 {
      var d := Digits(-n);
      DigitsShape(-n);
      assert s == "-" + d;
      assert s[1..] == d;
      assert |s| > 1 && s[0] == '-';
      assert forall i :: 1 <= i < |s| ==> IsDigit(s[i]) by {
        forall i | 1 <= i < |s| ensures IsDigit(s[i]) {
          assert s[i] == d[i - 1];
        }
      }
    } else {
      DigitsShape(n);
      assert s == Digits(n);
      assert !(s[0] == '-') by { assert IsDigit(s[0]); }
    }
  }
}
