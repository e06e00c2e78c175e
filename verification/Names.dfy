/** Names made free of those taken : the name wanted, else it with a number after it. */
module Names {
  import opened Graphs

  // ─── a number as text ────────────────────────────────────────────────────────

  const DIGITS := "0123456789"

  function Decimal(n: nat): string {
    if n < 10 then [DIGITS[n]] else Decimal(n / 10) + [DIGITS[n % 10]]
  }

  function DigitValue(c: char): nat {
    if '0' <= c <= '9' then (c - '0') as nat else 0
  }

  function ValueOf(s: string): nat {
    if s == "" then 0 else ValueOf(s[..|s| - 1]) * 10 + DigitValue(s[|s| - 1])
  }

  /** A number's digits, the first not 0 but for 0 itself, denote it. */
  lemma {:induction false} DecimalReadsBack(n: nat)
    ensures ValueOf(Decimal(n)) == n
    ensures forall i :: 0 <= i < |Decimal(n)| ==> '0' <= Decimal(n)[i] <= '9'
    ensures Decimal(n) != "" && (Decimal(n)[0] == '0' ==> n == 0)
  {
    assert forall d: nat :: d < 10 ==> DigitValue(DIGITS[d]) == d;
    if n < 10 {
      assert Decimal(n)[..0] == "";
    } else {
      DecimalReadsBack(n / 10);
      assert Decimal(n)[..|Decimal(n)| - 1] == Decimal(n / 10);
    }
  }

  function Numbered(base: string, n: nat): string {
    base + "_" + Decimal(n)
  }

  lemma NumberedApart(base: string, m: nat, n: nat)
    requires m != n
    ensures Numbered(base, m) != Numbered(base, n) && Numbered(base, m) != base
  {
    DecimalReadsBack(m);
    DecimalReadsBack(n);
    var p := base + "_";
    assert Numbered(base, m)[|p|..] == Decimal(m);
    assert Numbered(base, n)[|p|..] == Decimal(n);
  }

  // ─── a free name ─────────────────────────────────────────────────────────────

  /** The wanted name and those numbered from 2 up to before `n`. */
  ghost function Tried(base: string, n: nat): seq<string>
    requires 2 <= n
  {
    [base] + seq(n - 2, k requires 0 <= k => Numbered(base, k + 2))
  }

  lemma TriedAreDistinct(base: string, n: nat)
    requires 2 <= n
    ensures Distinct(Tried(base, n))
  {
    var t := Tried(base, n);
    forall i, j | 0 <= i < j < |t| ensures t[i] != t[j] {
      NumberedApart(base, j + 1, i + 1);
    }
  }

  lemma {:induction false} ElementsSize(s: seq<string>)
    ensures |Elements(s)| <= |s|
  {
    if s != [] {
      var front, last := s[..|s| - 1], s[|s| - 1];
      ElementsSize(front);
      assert Elements(s) == Elements(front) + {last};
    }
  }

  /** So many names tried and taken are so many names taken. */
  lemma TriedAreTaken(base: string, n: nat, taken: seq<string>)
    requires 2 <= n && base in taken && forall k :: 2 <= k < n ==> Numbered(base, k) in taken
    ensures n <= |taken| + 1
  {
    var t := Tried(base, n);
    TriedAreDistinct(base, n);
    DistinctSize(t);
    ElementsSize(taken);
    forall i | 0 <= i < |t| ensures t[i] in taken {
    }
    SubsetSize(Elements(t), Elements(taken));
  }

  /** The name itself when it is free, else the first numbered one that is : found within as many
      tries as there are names taken. */
  ghost predicate IsFreeName(base: string, taken: seq<string>, name: string) {
    && name !in taken
    && (base !in taken ==> name == base)
    && (base in taken ==> exists i :: FirstFree(base, taken, i) && name == base + "_" + Decimal(i))
  }

  ghost predicate FirstFree(base: string, taken: seq<string>, i: int) {
    2 <= i <= |taken| + 1 && forall k :: 2 <= k < i ==> base + "_" + Decimal(k) in taken
  }

  method FreeName(base: string, taken: seq<string>) returns (name: string)
    ensures IsFreeName(base, taken, name)
  {
    if base !in taken {
      return base;
    }
    var i: nat := 2;
    TriedAreTaken(base, i, taken);
    while Numbered(base, i) in taken
      invariant 2 <= i <= |taken| + 1
      invariant forall k :: 2 <= k < i ==> Numbered(base, k) in taken && base + "_" + Decimal(k) in taken
      decreases |taken| + 1 - i
    {
      TriedAreTaken(base, i + 1, taken);
      i := i + 1;
    }
    assert FirstFree(base, taken, i);
    return Numbered(base, i);
  }

  /** There is only one such name. */
  lemma OneFreeName(base: string, taken: seq<string>, name: string, name': string)
    requires IsFreeName(base, taken, name) && IsFreeName(base, taken, name')
    ensures name == name'
  {
    if base in taken {
      var i :| FirstFree(base, taken, i) && name == Numbered(base, i);
      var j :| FirstFree(base, taken, j) && name' == Numbered(base, j);
    }
  }
}
