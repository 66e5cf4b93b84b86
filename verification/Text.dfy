/** The string functions the parsers share: splitting, trimming, decimals, and
    the order strings are sorted in. */
module Text {
  import opened Types

  /** The fields of `s` between the separators; always at least one. */
  function Split(s: string, sep: char): (fields: seq<string>)
    ensures |fields| >= 1
  {
    if s == "" then [""]
    else if s[0] == sep then [""] + Split(s[1..], sep)
    else
      var rest := Split(s[1..], sep);
      [[s[0]] + rest[0]] + rest[1..]
  }

  lemma Regroup<T>(x: seq<T>, y: seq<T>, z: seq<T>)
    ensures x + (y + z) == x + y + z
    ensures x != [] ==> (x + y)[1..] == x[1..] + y
  {
  }

  lemma {:induction false} SplitAppend(a: string, b: string, sep: char)
    ensures Split(a + [sep] + b, sep) == Split(a, sep) + Split(b, sep)
  {
    if a == "" {
      assert (a + [sep] + b)[1..] == b;
    } else {
      SplitAppend(a[1..], b, sep);
      Regroup(a, [sep], b);
      Regroup(a, [sep] + b, "");
      Regroup(a[1..], [sep], b);
      var x, y := Split(a[1..], sep), Split(b, sep);
      Regroup(x, y, []);
      Regroup([""], x, y);
      Regroup([[a[0]] + x[0]], x[1..], y);
    }
  }

  lemma {:induction false} SplitWhole(s: string, sep: char)
    ensures |Split(s, sep)| == 1 <==> sep !in s
    ensures sep !in s ==> Split(s, sep) == [s]
  {
    if s != "" {
      SplitWhole(s[1..], sep);
      assert s == [s[0]] + s[1..];
    }
  }

  lemma SplitFirst(a: string, b: string, sep: char)
    requires sep !in a
    ensures Split(a + [sep] + b, sep) == [a] + Split(b, sep)
  {
    SplitAppend(a, b, sep);
    SplitWhole(a, sep);
  }

  predicate IsDigit(c: char) {
    '0' <= c <= '9'
  }

  predicate AllDigits(s: string) {
    forall i :: 0 <= i < |s| ==> IsDigit(s[i])
  }

  /** The value of a string of digits. */
  function Decimal(s: string): nat
    requires AllDigits(s)
  {
    if s == "" then 0 else Decimal(s[..|s| - 1]) * 10 + (s[|s| - 1] as int - '0' as int)
  }

  function Digits(n: nat): string {
    (if n < 10 then "" else Digits(n / 10)) + [('0' as int + n % 10) as char]
  }

  function ParseUint32(s: string): Option<Uint32> {
    if s != "" && AllDigits(s) && Decimal(s) < 0x1_0000_0000 then Some(Decimal(s)) else None
  }

  lemma DecimalOf(s: string, d: nat)
    requires AllDigits(s) && d < 10
    ensures var t := s + [('0' as int + d) as char]; AllDigits(t) && Decimal(t) == Decimal(s) * 10 + d
  {
    var t := s + [('0' as int + d) as char];
    assert t[..|t| - 1] == s;
  }

  /** A number written in decimal reads back. */
  lemma {:induction false} DigitsReadBack(n: nat)
    ensures Digits(n) != "" && AllDigits(Digits(n)) && Decimal(Digits(n)) == n
  {
    if n >= 10 {
      DigitsReadBack(n / 10);
      DecimalOf(Digits(n / 10), n % 10);
    } else {
      DecimalOf("", n);
    }
  }

  /* Order */

  /** Comparison character by character, a proper prefix first. */
  predicate Below(a: string, b: string) {
    b != "" && (a == "" || a[0] < b[0] || (a[0] == b[0] && Below(a[1..], b[1..])))
  }

  lemma {:induction false} BelowIsTotal(a: string, b: string)
    ensures Below(a, b) || a == b || Below(b, a)
    ensures !(Below(a, b) && Below(b, a)) && !Below(a, a)
  {
    if a != "" && b != "" {
      BelowIsTotal(a[1..], b[1..]);
      assert a == [a[0]] + a[1..] && b == [b[0]] + b[1..];
    }
    if a != "" {
      BelowIsTotal(a[1..], a[1..]);
    }
  }

  lemma {:induction false} BelowIsTransitive(a: string, b: string, c: string)
    requires Below(a, b) && Below(b, c)
    ensures Below(a, c)
  {
    if a != "" && a[0] == b[0] && b[0] == c[0] {
      BelowIsTransitive(a[1..], b[1..], c[1..]);
    }
  }

  ghost predicate Sorted(names: seq<string>) {
    forall i, j :: 0 <= i < j < |names| ==> Below(names[i], names[j])
  }

  /** The names in ascending order. */
  method SortedNames(names: set<string>) returns (sorted: seq<string>)
    ensures Sorted(sorted)
    ensures forall n :: n in sorted <==> n in names
  {
    sorted := [];
    var todo := names;
    while todo != {}
      invariant todo <= names
      invariant Sorted(sorted)
      invariant forall n :: n in sorted <==> n in names - todo
    {
      var n :| n in todo;
      todo := todo - {n};
      sorted := InsertSorted(sorted, n);
    }
  }

  method InsertSorted(s: seq<string>, n: string) returns (r: seq<string>)
    requires Sorted(s) && n !in s
    ensures Sorted(r) && forall m :: m in r <==> m in s || m == n
  {
    var i := 0;
    while i < |s| && Below(s[i], n)
      invariant 0 <= i <= |s|
      invariant forall k :: 0 <= k < i ==> Below(s[k], n)
    {
      i := i + 1;
    }
    forall k | i <= k < |s| ensures Below(n, s[k]) {
      BelowIsTotal(s[i], n);
      if i < k {
        BelowIsTransitive(n, s[i], s[k]);
      }
    }
    r := s[..i] + [n] + s[i..];
  }

  /** There is only one way to sort a set of names. */
  lemma {:induction false} SortedIsUnique(a: seq<string>, b: seq<string>)
    requires Sorted(a) && Sorted(b)
    requires forall n :: n in a <==> n in b
    ensures a == b
  {
    assert (|a| > 0 ==> a[0] in a) && (|b| > 0 ==> b[0] in b);
    if a != [] {
      SortedHead(a, b[0]);
      SortedHead(b, a[0]);
      BelowIsTotal(a[0], b[0]);
      forall n ensures n in a[1..] <==> n in b[1..] {
        SortedTail(a, n);
        SortedTail(b, n);
      }
      SortedIsUnique(a[1..], b[1..]);
      assert a == [a[0]] + a[1..] && b == [b[0]] + b[1..];
    }
  }

  lemma SortedHead(a: seq<string>, n: string)
    requires Sorted(a) && n in a
    ensures n == a[0] || Below(a[0], n)
  {
    var i :| 0 <= i < |a| && a[i] == n;
  }

  lemma SortedTail(a: seq<string>, n: string)
    requires Sorted(a) && a != []
    ensures n in a[1..] <==> n in a && n != a[0]
  {
    BelowIsTotal(a[0], a[0]);
    assert a == [a[0]] + a[1..];
  }
}
