/**
 * The few pieces of Java's string library the Helios code relies on, written out:
 * `Integer.toString`, `Integer.parseInt` / `Long.parseLong` and `String.split`
 * on a one-character separator.
 */
module JavaText {
  import opened Wrappers

  /** n copies of x. */
  function Repeat<T>(x: T, n: nat): (s: seq<T>)
    ensures |s| == n
    ensures forall i :: 0 <= i < n ==> s[i] == x
  {
    if n == 0 then [] else [x] + Repeat(x, n - 1)
  }

  predicate IsDigit(c: char)
  {
    '0' <= c <= '9'
  }

  predicate AllDigits(s: string)
  {
    forall i :: 0 <= i < |s| ==> IsDigit(s[i])
  }

  function DigitChar(d: nat): (c: char)
    requires d < 10
    ensures IsDigit(c) && DigitValue(c) == d
  {
    ('0' as int + d) as char
  }

  function DigitValue(c: char): nat
    requires IsDigit(c)
  {
    c as int - '0' as int
  }

  /** The decimal digits of n, most significant first, without leading zeros. */
  function Digits(n: nat): (s: string)
    ensures 1 <= |s| && AllDigits(s)
    ensures s[0] == '0' <==> n == 0
    ensures n < 10 <==> |s| == 1
    decreases n
  {
    if n < 10 then [DigitChar(n)] else Digits(n / 10) + [DigitChar(n % 10)]
  }

  /** `Integer.toString(n)` and `Long.toString(n)`: a '-' for negative numbers, then the digits of |n|. */
  function DecimalString(n: int): string
  {
    if n < 0 then "-" + Digits(-n) else Digits(n)
  }

  function Pow10(k: nat): (p: nat)
    ensures p >= 1
  {
    if k == 0 then 1 else 10 * Pow10(k - 1)
  }

  /** A number has at most k digits exactly when it is below 10^k. */
  lemma {:induction false} DigitsFit(n: nat, k: nat)
    requires k >= 1
    ensures |Digits(n)| <= k <==> n < Pow10(k)
  {
    if k > 1 {
      assert Pow10(k) == 10 * Pow10(k - 1);
      assert Pow10(k - 1) >= 1;
      if n >= 10 {
        DigitsFit(n / 10, k - 1);
      } else {
        PowAtLeastTen(k);
      }
    }
  }

  lemma {:induction false} PowAtLeastTen(k: nat)
    requires k >= 1
    ensures Pow10(k) >= 10
  {
    if k > 1 {
      PowAtLeastTen(k - 1);
    }
  }

  /** The number a string of decimal digits denotes; leading zeros are allowed. */
  function ParseDigits(s: string): nat
    requires AllDigits(s)
  {
    if s == [] then 0 else ParseDigits(s[..|s| - 1]) * 10 + DigitValue(s[|s| - 1])
  }

  /** Reading the digits of n back gives n. */
  lemma {:induction false} ParseDigitsOfDigits(n: nat)
    ensures ParseDigits(Digits(n)) == n
  {
    if n >= 10 {
      var s := Digits(n);
      assert s[..|s| - 1] == Digits(n / 10);
      ParseDigitsOfDigits(n / 10);
    }
  }

  /** Zeros in front of a digit string do not change the number it denotes. */
  lemma {:induction false} LeadingZeros(k: nat, t: string)
    requires AllDigits(t)
    ensures AllDigits(Repeat('0', k) + t)
    ensures ParseDigits(Repeat('0', k) + t) == ParseDigits(t)
    decreases |t|, k
  {
    var z := Repeat('0', k);
    if t == [] {
      assert z + t == z;
      if k > 0 {
        assert z[..k - 1] == Repeat('0', k - 1) + [];
        LeadingZeros(k - 1, []);
      }
    } else {
      var t' := t[..|t| - 1];
      assert (z + t)[..|z + t| - 1] == z + t';
      LeadingZeros(k, t');
    }
  }

  /**
   * `Integer.parseInt(s)` (lo, hi the int range) or `Long.parseLong(s)` (the long range):
   * an optional '-' or '+', then at least one decimal digit, denoting a number in
   * [lo, hi]. None stands for the NumberFormatException thrown otherwise.
   */
  function ParseInteger(s: string, lo: int, hi: int): (r: Option<int>)
    ensures r.Some? ==> lo <= r.value <= hi
    ensures r.Some? ==> |s| >= 1 && AllDigits(if s[0] == '-' || s[0] == '+' then s[1..] else s)
  {
    if |s| == 0 then None
    else
      var body := if s[0] == '-' || s[0] == '+' then s[1..] else s;
      if |body| == 0 || !AllDigits(body) then None
      else
        var n := if s[0] == '-' then 0 - ParseDigits(body) as int else ParseDigits(body) as int;
        if lo <= n <= hi then Some(n) else None
  }

  /** Parsing the decimal string of a number in range gives the number back. */
  lemma ParseIntegerOfDecimalString(n: int, lo: int, hi: int)
    requires lo <= n <= hi
    ensures ParseInteger(DecimalString(n), lo, hi) == Some(n)
  {
    var m: nat := if n < 0 then -n else n;
    var d := Digits(m);
    ParseDigitsOfDigits(m);
    assert IsDigit(d[0]);
    if n < 0 {
      assert DecimalString(n)[0] == '-' && DecimalString(n)[1..] == d;
    } else {
      assert DecimalString(n) == d;
    }
  }

  /** A string that denotes a number in both ranges denotes the same number in each. */
  lemma ParseIntegerWiden(s: string, lo: int, hi: int, lo': int, hi': int)
    requires lo' <= lo && hi <= hi'
    requires ParseInteger(s, lo, hi).Some?
    ensures ParseInteger(s, lo', hi') == ParseInteger(s, lo, hi)
  {
  }

  /** The index of the first occurrence of c in s. */
  function IndexOf(s: string, c: char): (k: nat)
    requires c in s
    ensures k < |s| && s[k] == c && c !in s[..k]
  {
    if s[0] == c then 0
    else
      assert c in s[1..] by { var j :| 0 <= j < |s| && s[j] == c; assert s[1..][j - 1] == c; }
      var k := 1 + IndexOf(s[1..], c);
      assert s[..k] == [s[0]] + s[1..][..k - 1];
      k
  }

  /** An index holding c with no c before it is the first occurrence. */
  lemma IndexOfUnique(s: string, c: char, k: nat)
    requires k < |s| && s[k] == c && c !in s[..k]
    ensures IndexOf(s, c) == k
  {
  }

  /** Every piece of s between occurrences of sep, empty pieces included. */
  function Pieces(s: string, sep: char): (parts: seq<string>)
    ensures |parts| >= 1
    ensures forall i :: 0 <= i < |parts| ==> sep !in parts[i]
    decreases |s|
  {
    if sep !in s then [s]
    else
      var k := IndexOf(s, sep);
      [s[..k]] + Pieces(s[k + 1..], sep)
  }

  /** The pieces joined back with sep between them. */
  function Join(parts: seq<string>, sep: char): string
    requires |parts| >= 1
  {
    if |parts| == 1 then parts[0] else parts[0] + [sep] + Join(parts[1..], sep)
  }

  /** Joining the pieces of s gives s back. */
  lemma {:induction false} JoinPieces(s: string, sep: char)
    ensures Join(Pieces(s, sep), sep) == s
    decreases |s|
  {
    if sep in s {
      var k := IndexOf(s, sep);
      PiecesFirst(s, sep, k);
      hide Pieces, IndexOf;
      var p := Pieces(s[k + 1..], sep);
      JoinPieces(s[k + 1..], sep);
      assert ([s[..k]] + p)[1..] == p;
      assert s == s[..k] + [sep] + s[k + 1..];
    }
  }

  /** The pieces of s: what stands before its first separator, then the pieces of what follows it. */
  lemma PiecesFirst(s: string, sep: char, k: nat)
    requires sep in s && k == IndexOf(s, sep)
    ensures Pieces(s, sep) == [s[..k]] + Pieces(s[k + 1..], sep)
  {
  }

  /** A separator splits the pieces of what stands before it from those of what follows. */
  lemma {:induction false} PiecesAppend(a: string, b: string, sep: char)
    ensures Pieces(a + [sep] + b, sep) == Pieces(a, sep) + Pieces(b, sep)
    decreases |a|
  {
    hide Pieces, IndexOf;
    if sep !in a {
      PiecesAfterFirst(a, b, sep);
    } else {
      var k := IndexOf(a, sep);
      var rest := a[k + 1..];
      PiecesAtFirst(a, b, sep, k);
      PiecesAppend(rest, b, sep);
      var x, p, q := [a[..k]], Pieces(rest, sep), Pieces(b, sep);
      assert x + (p + q) == (x + p) + q;
    }
  }

  /** With no separator in a, the first piece of a + [sep] + b is a, and b's pieces follow. */
  lemma PiecesAfterFirst(a: string, b: string, sep: char)
    requires sep !in a
    ensures Pieces(a + [sep] + b, sep) == Pieces(a, sep) + Pieces(b, sep)
  {
    var s := a + [sep] + b;
    assert s[..|a|] == a;
    IndexOfUnique(s, sep, |a|);
    assert s[|a| + 1..] == b;
  }

  /** The first separator of a is the first of a + [sep] + b too. */
  lemma PiecesAtFirst(a: string, b: string, sep: char, k: nat)
    requires sep in a && k == IndexOf(a, sep)
    ensures Pieces(a + [sep] + b, sep) == [a[..k]] + Pieces(a[k + 1..] + [sep] + b, sep)
    ensures Pieces(a, sep) == [a[..k]] + Pieces(a[k + 1..], sep)
  {
    var s := a + [sep] + b;
    assert s[..k] == a[..k];
    IndexOfUnique(s, sep, k);
    assert s[k + 1..] == a[k + 1..] + [sep] + b;
  }

  /** n separators in a row hold n + 1 empty pieces. */
  lemma {:induction false} PiecesOfSeparators(n: nat, sep: char)
    ensures Pieces(Repeat(sep, n), sep) == Repeat("", n + 1)
  {
    if n > 0 {
      assert Pieces([], sep) == [""];
      hide Pieces;
      assert Repeat(sep, n) == [] + [sep] + Repeat(sep, n - 1);
      PiecesAppend([], Repeat(sep, n - 1), sep);
      PiecesOfSeparators(n - 1, sep);
      assert Repeat("", n + 1) == [""] + Repeat("", n);
    }
  }

  /** Joining a piece followed by m empty pieces appends m separators. */
  lemma {:induction false} JoinEmptyTail(v: string, m: nat, sep: char)
    ensures Join([v] + Repeat("", m), sep) == v + Repeat(sep, m)
    decreases m
  {
    if m > 0 {
      assert ([v] + Repeat("", m))[1..] == [""] + Repeat("", m - 1);
      JoinEmptyTail("", m - 1, sep);
      assert Repeat(sep, m) == [sep] + Repeat(sep, m - 1);
    } else {
      assert [v] + Repeat("", m) == [v];
    }
  }

  /** What `split` keeps of the pieces: everything up to the last non-empty piece. */
  function DropTrailingEmpty(parts: seq<string>): (r: seq<string>)
    ensures |r| <= |parts| && r == parts[..|r|]
    ensures forall i :: |r| <= i < |parts| ==> parts[i] == ""
    ensures |r| > 0 ==> r[|r| - 1] != ""
  {
    if |parts| > 0 && parts[|parts| - 1] == "" then DropTrailingEmpty(parts[..|parts| - 1]) else parts
  }

  /**
   * `s.split(sep)` for a separator that is not a regular-expression metacharacter:
   * without any separator the result is s itself; otherwise the pieces between the
   * separators, with the empty pieces at the end removed.
   */
  function Split(s: string, sep: char): (parts: seq<string>)
    ensures forall i :: 0 <= i < |parts| ==> sep !in parts[i]
  {
    if sep !in s then [s] else DropTrailingEmpty(Pieces(s, sep))
  }
}
