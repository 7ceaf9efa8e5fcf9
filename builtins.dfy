/**
 * The Python built-ins the scanner relies on, on `seq<char>`:
 * `" ".join(items)`, `str.lower()` (ASCII letters only), substring `in`,
 * `min`, and `str(n)` for the percentage cell together with the reading
 * that strips the `%` sign again.
 */
module Builtins {
  import opened Wrappers

  function Min(a: int, b: int): int
  {
    if a <= b then a else b
  }

  function Max(a: int, b: int): int
  {
    if a <= b then b else a
  }

  /** `" ".join(items)`: the items separated by single spaces. */
  function Join(items: seq<string>): string
  {
    if |items| == 0 then ""
    else if |items| == 1 then items[0]
    else items[0] + " " + Join(items[1..])
  }

  /** `[f(x) for x in xs]` */
  function MapSeq<T, R>(xs: seq<T>, f: T -> R): seq<R>
  {
    if |xs| == 0 then [] else MapSeq(xs[..|xs| - 1], f) + [f(xs[|xs| - 1])]
  }

  lemma MapSeqStep<T, R>(xs: seq<T>, k: nat, f: T -> R)
    requires k < |xs|
    ensures MapSeq(xs[..k + 1], f) == MapSeq(xs[..k], f) + [f(xs[k])]
  {
    assert xs[..k + 1][..k] == xs[..k];
  }

  /** The comprehension keeps one result per item, in order. */
  lemma {:induction false} MapSeqIndex<T, R>(xs: seq<T>, f: T -> R)
    ensures |MapSeq(xs, f)| == |xs|
    ensures forall j :: 0 <= j < |xs| ==> MapSeq(xs, f)[j] == f(xs[j])
  {
    if |xs| > 0 {
      var init := xs[..|xs| - 1];
      MapSeqIndex(init, f);
      forall j | 0 <= j < |xs| ensures MapSeq(xs, f)[j] == f(xs[j]) {
        if j < |init| {
          assert xs[j] == init[j];
        }
      }
    }
  }

  /** Lower-casing of one character, restricted to the ASCII letters. */
  function LowerChar(c: char): char
  {
    if 'A' <= c <= 'Z' then (c as int - 'A' as int + 'a' as int) as char else c
  }

  /** `s.lower()` on ASCII text. */
  function Lower(s: string): string
  {
    seq(|s|, i requires 0 <= i < |s| => LowerChar(s[i]))
  }

  /** Every item lower-cased, in order. */
  function LowerEach(items: seq<string>): seq<string>
  {
    seq(|items|, i requires 0 <= i < |items| => Lower(items[i]))
  }

  /** `p` occurs in `s` starting at index `i`. */
  predicate OccursAt(p: string, s: string, i: int)
  {
    0 <= i && i + |p| <= |s| && s[i..i + |p|] == p
  }

  /** Python's `p in s` on strings: `p` is a substring of `s`. */
  predicate Contains(p: string, s: string)
  {
    exists i :: 0 <= i <= |s| - |p| && OccursAt(p, s, i)
  }

  /** Lower-casing distributes over concatenation. */
  lemma LowerAppend(a: string, b: string)
    ensures Lower(a + b) == Lower(a) + Lower(b)
  {
  }

  /** Lower-casing distributes over the joined text. */
  lemma {:induction false} LowerJoin(items: seq<string>)
    ensures Lower(Join(items)) == Join(LowerEach(items))
  {
    if |items| > 1 {
      LowerJoin(items[1..]);
      assert LowerEach(items[1..]) == LowerEach(items)[1..];
      var a, b := items[0], Join(items[1..]);
      assert Lower(a + " " + b) == Lower(a) + " " + Lower(b);
    }
  }

  /** An occurrence that covers the separating space has a space in it. */
  lemma StraddleMeetsSpace(p: string, a: string, b: string, i: int)
    ensures OccursAt(p, a + " " + b, i) && i <= |a| < i + |p| ==> ' ' in p
  {
    var s := a + " " + b;
    if OccursAt(p, s, i) && i <= |a| < i + |p| {
      assert p[|a| - i] == s[i..i + |p|][|a| - i] == s[|a|];
    }
  }

  /** A slice lying in the right part of a concatenation is a slice of that part. */
  lemma SliceRight(x: string, y: string, i: int, n: nat)
    requires |x| <= i && i + n <= |x| + |y|
    ensures (x + y)[i..i + n] == y[i - |x|..i - |x| + n]
  {
  }

  /** A non-empty pattern without spaces cannot straddle the separating space. */
  lemma ContainsAroundSpace(p: string, a: string, b: string)
    requires |p| > 0 && ' ' !in p
    ensures Contains(p, a + " " + b) <==> Contains(p, a) || Contains(p, b)
  {
    var s := a + " " + b;
    if Contains(p, s) {
      var i :| 0 <= i <= |s| - |p| && OccursAt(p, s, i);
      StraddleMeetsSpace(p, a, b, i);
      if i + |p| <= |a| {
        assert s[i..i + |p|] == a[i..i + |p|];
        assert OccursAt(p, a, i);
      } else {
        var j := i - |a| - 1;
        SliceRight(a + " ", b, i, |p|);
        assert OccursAt(p, b, j);
      }
    }
    if Contains(p, a) {
      var i :| 0 <= i <= |a| - |p| && OccursAt(p, a, i);
      assert s[i..i + |p|] == a[i..i + |p|];
      assert OccursAt(p, s, i);
    }
    if Contains(p, b) {
      var j :| 0 <= j <= |b| - |p| && OccursAt(p, b, j);
      var i := j + |a| + 1;
      SliceRight(a + " ", b, i, |p|);
      assert OccursAt(p, s, i);
    }
  }

  /**
   * A non-empty pattern without spaces occurs in the joined text exactly
   * when it occurs in one of the items.
   */
  lemma {:induction false} ContainsJoin(p: string, items: seq<string>)
    requires |p| > 0 && ' ' !in p
    ensures Contains(p, Join(items)) <==> exists j :: 0 <= j < |items| && Contains(p, items[j])
  {
    if |items| == 0 {
      assert !OccursAt(p, "", 0);
    } else if |items| > 1 {
      ContainsJoin(p, items[1..]);
      ContainsAroundSpace(p, items[0], Join(items[1..]));
      if exists j :: 0 <= j < |items| && Contains(p, items[j]) {
        var j :| 0 <= j < |items| && Contains(p, items[j]);
        if j > 0 {
          assert items[1..][j - 1] == items[j];
        }
      }
    }
  }

  /** An occurrence in either part is an occurrence in the concatenation. */
  lemma ContainsInConcat(p: string, x: string, y: string)
    ensures Contains(p, x) || Contains(p, y) ==> Contains(p, x + y)
  {
    if Contains(p, x) {
      var i :| 0 <= i <= |x| - |p| && OccursAt(p, x, i);
      assert (x + y)[i..i + |p|] == x[i..i + |p|];
      assert OccursAt(p, x + y, i);
    } else if Contains(p, y) {
      var j :| 0 <= j <= |y| - |p| && OccursAt(p, y, j);
      assert (x + y)[|x| + j..|x| + j + |p|] == y[j..j + |p|];
      assert OccursAt(p, x + y, |x| + j);
    }
  }

  /** Every character of an occurring pattern is a character of the text. */
  lemma ContainsChar(p: string, s: string, c: char)
    requires c in p
    ensures Contains(p, s) ==> c in s
  {
    if Contains(p, s) {
      var i :| 0 <= i <= |s| - |p| && OccursAt(p, s, i);
      var k :| 0 <= k < |p| && p[k] == c;
      assert s[i + k] == s[i..i + |p|][k] == c;
    }
  }

  /** A pattern as long as the text occurs in it only when it is the text. */
  lemma ContainsSameLength(p: string, s: string)
    requires |p| == |s|
    ensures Contains(p, s) <==> p == s
  {
    if p == s {
      assert OccursAt(p, s, 0);
    }
  }

  function DigitChar(d: nat): char
    requires d < 10
  {
    (d + '0' as int) as char
  }

  predicate IsDigits(s: string)
  {
    forall i :: 0 <= i < |s| ==> '0' <= s[i] <= '9'
  }

  /** `str(n)` for a non-negative integer: its decimal digits. */
  function DecimalString(n: nat): (s: string)
    ensures |s| > 0 && IsDigits(s)
    ensures n > 0 ==> s[0] != '0'
    ensures |s| > 1 ==> s[0] != '0'
    decreases n
  {
    if n < 10 then [DigitChar(n)] else DecimalString(n / 10) + [DigitChar(n % 10)]
  }

  /** The number a string of decimal digits denotes. */
  function DigitsValue(s: string): nat
    requires IsDigits(s)
    decreases |s|
  {
    if |s| == 0 then 0
    else DigitsValue(s[..|s| - 1]) * 10 + (s[|s| - 1] as int - '0' as int)
  }

  /** `int(s)` restricted to non-empty digit strings; anything else is refused. */
  function ParseDecimal(s: string): Option<nat>
  {
    if |s| > 0 && IsDigits(s) then Some(DigitsValue(s)) else None
  }

  /** Reading a `"<n>%"` cell back as the number `n`. */
  function ParsePercent(cell: string): Option<nat>
  {
    if |cell| > 0 && cell[|cell| - 1] == '%' then ParseDecimal(cell[..|cell| - 1]) else None
  }

  /** Reading back the decimal digits of `n` gives `n`. */
  lemma {:induction false} DecimalRoundTrip(n: nat)
    ensures ParseDecimal(DecimalString(n)) == Some(n)
  {
    var s := DecimalString(n);
    if n < 10 {
      assert s[..|s| - 1] == [];
      assert DigitsValue(s) == DigitsValue([]) * 10 + (s[0] as int - '0' as int) == n;
    } else {
      DecimalRoundTrip(n / 10);
      assert s[..|s| - 1] == DecimalString(n / 10);
      assert s[|s| - 1] as int - '0' as int == n % 10;
    }
  }
}
