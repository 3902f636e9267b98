/** Sorted directory listings and the zero-padded names of event files. */
module FileNames {
  import opened Wrappers

  // ---- Lexicographic order ----

  predicate Less(a: string, b: string) {
    b != [] && (a == [] || a[0] < b[0] || (a[0] == b[0] && Less(a[1..], b[1..])))
  }

  lemma {:induction false} LessIrreflexive(a: string)
    ensures !Less(a, a)
  {
    if a != [] { LessIrreflexive(a[1..]); }
  }

  lemma {:induction false} LessTransitive(a: string, b: string, c: string)
    requires Less(a, b) && Less(b, c)
    ensures Less(a, c)
  {
    if a != [] && a[0] == b[0] && b[0] == c[0] {
      LessTransitive(a[1..], b[1..], c[1..]);
    }
  }

  lemma {:induction false} LessTotal(a: string, b: string)
    ensures a == b || Less(a, b) || Less(b, a)
  {
    if a != [] && b != [] && a[0] == b[0] {
      LessTotal(a[1..], b[1..]);
      assert a == [a[0]] + a[1..] && b == [b[0]] + b[1..];
    }
  }

  /** A common prefix does not matter, and a difference between equally long prefixes decides. */
  lemma {:induction false} LessExtends(a: string, b: string, x: string, y: string)
    requires |a| == |b| && Less(a, b)
    ensures Less(a + x, b + y)
  {
    assert (a + x)[1..] == a[1..] + x && (b + y)[1..] == b[1..] + y;
    if a[0] == b[0] {
      LessExtends(a[1..], b[1..], x, y);
    }
  }

  lemma {:induction false} LessSuffix(a: string, x: string, y: string)
    requires Less(x, y)
    ensures Less(a + x, a + y)
  {
    if a == [] {
      assert a + x == x && a + y == y;
    } else {
      LessSuffix(a[1..], x, y);
      assert (a + x)[1..] == a[1..] + x && (a + y)[1..] == a[1..] + y;
    }
  }

  // ---- Sorted listings ----

  ghost predicate StrictlySorted(s: seq<string>) { forall i, j :: 0 <= i < j < |s| ==> Less(s[i], s[j]) }

  function Elements(s: seq<string>): set<string> { set x | x in s }

  predicate IsLeast(names: set<string>, m: string) { m in names && forall x :: x in names ==> x == m || Less(m, x) }

  method FindLeast(names: set<string>) returns (m: string)
    requires names != {}
    ensures IsLeast(names, m)
  {
    m :| m in names;
    var left := names - {m};
    while left != {}
      invariant m in names && left <= names
      invariant forall x :: x in names && x !in left ==> x == m || Less(m, x)
      decreases left
    {
      var y :| y in left;
      left := left - {y};
      LessTotal(m, y);
      if Less(y, m) {
        forall x | x in names && x !in left && x != y ensures Less(y, x) {
          if x != m { LessTransitive(y, m, x); }
        }
        m := y;
      }
    }
  }

  /** sorted(): the names in increasing order. */
  method SortedListing(names: set<string>) returns (s: seq<string>)
    ensures StrictlySorted(s) && Elements(s) == names
  {
    s := [];
    var left := names;
    while left != {}
      invariant StrictlySorted(s) && Elements(s) + left == names
      invariant forall i, x :: 0 <= i < |s| && x in left ==> Less(s[i], x)
      decreases left
    {
      var m := FindLeast(left);
      s := s + [m];
      left := left - {m};
      LessIrreflexive(m);
    }
  }

  lemma ElementsEmpty(s: seq<string>)
    ensures Elements(s) == {} <==> s == []
  {
    if s != [] { assert s[0] in Elements(s); }
  }

  /** A set of names has only one sorted listing. */
  lemma {:induction false} ListingUnique(s: seq<string>, t: seq<string>)
    requires StrictlySorted(s) && StrictlySorted(t) && Elements(s) == Elements(t)
    ensures s == t
    decreases |s|
  {
    ElementsEmpty(s);
    ElementsEmpty(t);
    if s != [] {
      assert s[0] in Elements(t);
      var j :| 0 <= j < |t| && t[j] == s[0];
      assert t[0] in Elements(s);
      var i :| 0 <= i < |s| && s[i] == t[0];
      if s[0] != t[0] {
        LessTransitive(s[0], t[0], s[0]);
        LessIrreflexive(s[0]);
      }
      TailElements(s);
      TailElements(t);
      ListingUnique(s[1..], t[1..]);
      assert s == [s[0]] + s[1..] && t == [t[0]] + t[1..];
    }
  }

  lemma TailElements(s: seq<string>)
    requires StrictlySorted(s) && s != []
    ensures StrictlySorted(s[1..]) && Elements(s[1..]) == Elements(s) - {s[0]}
  {
    LessIrreflexive(s[0]);
    forall x ensures x in Elements(s[1..]) <==> x in Elements(s) - {s[0]} {
      if x in Elements(s[1..]) {
        var i :| 0 <= i < |s[1..]| && s[1..][i] == x;
        assert x == s[i + 1];
      }
      if x in Elements(s) - {s[0]} {
        var i :| 0 <= i < |s| && s[i] == x;
        assert s[1..][i - 1] == x;
      }
    }
  }

  // ---- Event file names ----

  function Digit(d: nat): char
    requires d < 10
  {
    "0123456789"[d]
  }

  function Decimal(n: nat): string {
    if n < 10 then [Digit(n)] else Decimal(n / 10) + [Digit(n % 10)]
  }

  function Zeros(n: nat): string { seq(n, _ => '0') }

  /** f"{n:08d}": at least eight digits. */
  function Padded(n: nat): string {
    var d := Decimal(n);
    if |d| < 8 then Zeros(8 - |d|) + d else d
  }

  function EventName(n: nat): string { Padded(n) + ".json" }

  const POLICY_NAME: string := "consent_policy.json"

  /** Exactly k digits. */
  function Fixed(n: nat, k: nat): string {
    if k == 0 then [] else Fixed(n / 10, k - 1) + [Digit(n % 10)]
  }

  lemma {:induction false} FixedLength(n: nat, k: nat)
    ensures |Fixed(n, k)| == k
  {
    if k > 0 { FixedLength(n / 10, k - 1); }
  }

  lemma {:induction false} FixedOrder(m: nat, n: nat, k: nat)
    requires m < n < Pow10(k)
    ensures Less(Fixed(m, k), Fixed(n, k))
  {
    hide Less;
    FixedLength(m / 10, k - 1);
    FixedLength(n / 10, k - 1);
    if m / 10 < n / 10 {
      FixedOrder(m / 10, n / 10, k - 1);
      LessExtends(Fixed(m / 10, k - 1), Fixed(n / 10, k - 1), [Digit(m % 10)], [Digit(n % 10)]);
    } else {
      DigitOrder(m % 10, n % 10);
      LessSuffix(Fixed(m / 10, k - 1), [Digit(m % 10)], [Digit(n % 10)]);
    }
  }

  lemma DigitOrder(a: nat, b: nat)
    requires a < b < 10
    ensures Less([Digit(a)], [Digit(b)])
  {
  }

  lemma {:induction false} FixedOfZero(k: nat)
    ensures Fixed(0, k) == Zeros(k)
  {
    if k > 0 {
      FixedOfZero(k - 1);
      assert Zeros(k) == Zeros(k - 1) + ['0'];
    }
  }

  lemma {:induction false} DecimalFits(n: nat, k: nat)
    requires n < Pow10(k) && k > 0
    ensures 1 <= |Decimal(n)| <= k && Zeros(k - |Decimal(n)|) + Decimal(n) == Fixed(n, k)
  {
    hide Digit;
    if n < 10 {
      assert n / 10 == 0 && n % 10 == n;
      FixedOfZero(k - 1);
    } else {
      DecimalFits(n / 10, k - 1);
      var d, front := [Digit(n % 10)], Decimal(n / 10);
      assert Zeros(k - |Decimal(n)|) + (front + d) == (Zeros(k - 1 - |front|) + front) + d;
    }
  }

  lemma PaddedIsFixed(n: nat)
    requires n < 100_000_000
    ensures Padded(n) == Fixed(n, 8)
  {
    assert Pow10(4) == 10000 && Pow10(8) == 100_000_000;
    DecimalFits(n, 8);
    if |Decimal(n)| == 8 {
      assert Zeros(0) + Decimal(n) == Decimal(n);
    }
  }

  /** Below 10^8 the listing order of event files is their sequence order. */
  lemma NamesInOrder(m: nat, n: nat)
    requires m < n < 100_000_000
    ensures Less(EventName(m), EventName(n))
  {
    hide Fixed, Padded, Less;
    assert Pow10(4) == 10000 && Pow10(8) == 100_000_000;
    PaddedIsFixed(m);
    PaddedIsFixed(n);
    FixedOrder(m, n, 8);
    FixedLength(m, 8);
    FixedLength(n, 8);
    LessExtends(Fixed(m, 8), Fixed(n, 8), ".json", ".json");
  }

  lemma {:induction false} DecimalDigits(n: nat)
    ensures Decimal(n) != [] && '0' <= Decimal(n)[0] <= '9'
  {
    if n >= 10 { DecimalDigits(n / 10); }
  }

  lemma NameBeforePolicy(n: nat)
    ensures Less(EventName(n), POLICY_NAME) && EventName(n) != POLICY_NAME
  {
    DecimalDigits(n);
    assert '0' <= EventName(n)[0] <= '9';
  }

  /** At 10^8 the ninth digit breaks the order: that file is listed before its predecessor. */
  lemma OverflowListsEarlier()
    ensures Less(EventName(100_000_000), EventName(99_999_999))
  {
    DecimalHead(100_000_000, 1, 8);
    DecimalHead(99_999_999, 9, 7);
    assert Pow10(4) == 10000;
    assert Padded(100_000_000)[0] == '1' && Padded(99_999_999)[0] == '9';
  }

  /** The first digit of a number with k more digits after the leading d. */
  lemma {:induction false} DecimalHead(n: nat, d: nat, k: nat)
    requires 0 < d < 10 && d * Pow10(k) <= n < (d + 1) * Pow10(k)
    ensures |Decimal(n)| == k + 1 && Decimal(n)[0] == Digit(d)
  {
    if k > 0 {
      Pow10Positive(k - 1);
      DropDigit(n, d, Pow10(k - 1));
      DecimalHead(n / 10, d, k - 1);
    }
  }

  lemma DropDigit(n: nat, d: nat, p: nat)
    requires p >= 1 && d >= 1 && d * (10 * p) <= n < (d + 1) * (10 * p)
    ensures n >= 10 && d * p <= n / 10 < (d + 1) * p
  {
    assert d * (10 * p) == 10 * (d * p) && (d + 1) * (10 * p) == 10 * ((d + 1) * p);
    assert d * p >= 1 * p by { assert (d - 1) * p >= 0; }
  }

  // ---- Names are distinct ----

  function DigitValue(c: char): int { c as int - '0' as int }

  function Parse(s: string): int {
    if s == [] then 0 else 10 * Parse(s[..|s| - 1]) + DigitValue(s[|s| - 1])
  }

  lemma {:induction false} ParseDecimal(n: nat)
    ensures Parse(Decimal(n)) == n
  {
    if n >= 10 {
      ParseDecimal(n / 10);
      assert (Decimal(n / 10) + [Digit(n % 10)])[..|Decimal(n / 10)|] == Decimal(n / 10);
    }
  }

  lemma {:induction false} ParsePadding(k: nat, s: string)
    ensures Parse(Zeros(k) + s) == Parse(s)
    decreases |s|, k
  {
    if s == [] {
      assert Zeros(k) + s == Zeros(k);
      if k > 0 {
        assert Zeros(k)[..k - 1] == Zeros(k - 1);
        ParsePadding(k - 1, []);
        assert Zeros(k - 1) + [] == Zeros(k - 1);
      }
    } else {
      var n := |s| - 1;
      ParsePadding(k, s[..n]);
      assert (Zeros(k) + s)[..|Zeros(k) + s| - 1] == Zeros(k) + s[..n];
    }
  }

  lemma NamesDistinct(m: nat, n: nat)
    requires EventName(m) == EventName(n)
    ensures m == n
  {
    assert EventName(m)[..|Padded(m)|] == Padded(m);
    assert EventName(n)[..|Padded(n)|] == Padded(n);
    ParsePadded(m);
    ParsePadded(n);
  }

  lemma ParsePadded(n: nat)
    ensures Parse(Padded(n)) == n
  {
    ParseDecimal(n);
    if |Decimal(n)| < 8 {
      ParsePadding(8 - |Decimal(n)|, Decimal(n));
    }
  }
}
