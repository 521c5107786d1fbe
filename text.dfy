/**
 * String helpers: PHP's conversion of an integer to its decimal text, and the
 * small scanning primitives the reference parsers in module Html are built from.
 */
module Text {
  import opened Wrappers

  /** A one-character string holding a double quote. */
  const Quote: string := ['"']

  predicate IsDigit(c: char) {
    '0' <= c <= '9'
  }

  /** `s` with the literal prefix `lit` removed, or None when `s` does not start with `lit`. */
  function Cut(s: string, lit: string): (rest: Option<string>)
    ensures rest.Some? ==> s == lit + rest.value
  {
    if |lit| <= |s| && s[..|lit|] == lit then Some(s[|lit|..]) else None
  }

  /** Regrouping of a concatenation, called explicitly so that long chains of appends stay cheap to verify. */
  lemma Assoc<T>(a: seq<T>, b: seq<T>, c: seq<T>)
    ensures (a + b) + c == a + (b + c)
  {
  }

  /** The concatenation of `f(x)` for each `x` of `xs`, in order: what a loop echoing `f(x)` per element leaves. */
  function Join<T>(xs: seq<T>, f: T -> string): string {
    if xs == [] then "" else f(xs[0]) + Join(xs[1..], f)
  }

  lemma {:induction false} JoinAppend<T>(a: seq<T>, b: seq<T>, f: T -> string)
    ensures Join(a + b, f) == Join(a, f) + Join(b, f)
  {
    if a == [] {
      assert a + b == b;
    } else {
      assert (a + b)[0] == a[0];
      assert (a + b)[1..] == a[1..] + b;
      JoinAppend(a[1..], b, f);
      Assoc(f(a[0]), Join(a[1..], f), Join(b, f));
    }
  }

  /** Echoing element j after the first j elements gives the join of the first j + 1. */
  lemma JoinSnoc<T>(xs: seq<T>, j: nat, f: T -> string)
    requires j < |xs|
    ensures Join(xs[..j + 1], f) == Join(xs[..j], f) + f(xs[j])
  {
    assert xs[..j + 1] == xs[..j] + [xs[j]];
    JoinAppend(xs[..j], [xs[j]], f);
    assert Join([xs[j]], f) == f(xs[j]) + Join([xs[j]][1..], f);
    assert [xs[j]][1..] == [];
  }

  lemma CutPrefix(lit: string, rest: string)
    ensures Cut(lit + rest, lit) == Some(rest)
  {
    assert (lit + rest)[..|lit|] == lit;
    assert (lit + rest)[|lit|..] == rest;
  }

  /**
   * Splits `s` before the first occurrence of `stop`: the first part holds no
   * `stop`, the second part is empty or starts with `stop`.
   */
  function Until(s: string, stop: char): (parts: (string, string))
    ensures parts.0 + parts.1 == s
    ensures stop !in parts.0
    ensures parts.1 == [] || parts.1[0] == stop
  {
    if s == [] then ([], [])
    else if s[0] == stop then ([], s)
    else
      var (before, after) := Until(s[1..], stop);
      assert s == [s[0]] + s[1..];
      ([s[0]] + before, after)
  }

  lemma {:induction false} UntilStops(x: string, rest: string, stop: char)
    requires stop !in x
    requires rest != [] && rest[0] == stop
    ensures Until(x + rest, stop) == (x, rest)
  {
    if x != [] {
      assert (x + rest)[0] == x[0];
      assert (x + rest)[1..] == x[1..] + rest;
      UntilStops(x[1..], rest, stop);
      assert [x[0]] + x[1..] == x;
    } else {
      assert x + rest == rest;
    }
  }

  /** The decimal digit character for `d`. */
  function DigitChar(d: nat): (c: char)
    requires d < 10
    ensures IsDigit(c)
  {
    ('0' as int + d) as char
  }

  function DigitValue(c: char): nat {
    if IsDigit(c) then c as int - '0' as int else 0
  }

  /**
   * PHP's decimal rendering of a non-negative integer (as `"Total: " . $n`
   * does): digits only, and no leading zero unless the number is zero.
   */
  function NatToString(n: nat): (s: string)
    ensures |s| >= 1
    ensures forall i :: 0 <= i < |s| ==> IsDigit(s[i])
    ensures s[0] == '0' ==> n == 0
  {
    if n < 10 then [DigitChar(n)] else NatToString(n / 10) + [DigitChar(n % 10)]
  }

  /** Reads a run of decimal digits back as a number (reference inverse of NatToString). */
  function ParseNat(s: string): nat {
    if s == [] then 0 else 10 * ParseNat(s[..|s| - 1]) + DigitValue(s[|s| - 1])
  }

  lemma {:induction false} NatRoundTrip(n: nat)
    ensures ParseNat(NatToString(n)) == n
  {
    var s := NatToString(n);
    if n < 10 {
      assert s[..|s| - 1] == [];
    } else {
      assert s[..|s| - 1] == NatToString(n / 10);
      NatRoundTrip(n / 10);
    }
  }
}
