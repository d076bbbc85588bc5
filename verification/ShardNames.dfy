/** The names of export shards: a counter padded with zeros to twelve digits, and how such names sort. */
module ShardNames {
  import opened Decimal

  function Repeat(c: char, n: nat): string { seq(n, _ => c) }

  /** The number, padded with zeros to at least `w` digits. */
  function Padded(i: nat, w: nat): (s: string)
    ensures AllDigits(s) && |s| >= w
  {
    var d := Dec(i);
    if |d| >= w then d else Repeat('0', w - |d|) + d
  }

  const WIDTH: nat := 12

  /** `f"{index:012d}"` */
  function ShardNumber(i: nat): string { Padded(i, WIDTH) }

  /** Code-point order of strings, as a sorted listing shows them. */
  predicate Before(a: string, b: string) {
    b != "" && (a == "" || a[0] < b[0] || (a[0] == b[0] && Before(a[1..], b[1..])))
  }

  function Pow10(w: nat): (p: nat)
    ensures p >= 1
  {
    if w == 0 then 1 else 10 * Pow10(w - 1)
  }

  /** The last `w` digits of `n`. */
  function Fixed(n: nat, w: nat): (s: string)
    ensures |s| == w && AllDigits(s)
  {
    if w == 0 then "" else Fixed(n / 10, w - 1) + [Digit(n % 10)]
  }

  lemma {:induction false} ValueOfFixed(n: nat, w: nat)
    requires n < Pow10(w)
    ensures Value(Fixed(n, w)) == n
    decreases w
  {
    if w > 0 {
      ValueOfFixed(n / 10, w - 1);
      assert Fixed(n, w)[..w - 1] == Fixed(n / 10, w - 1);
    }
  }

  lemma {:induction false} FixedOfZero(w: nat)
    ensures Fixed(0, w) == Repeat('0', w)
    decreases w
  {
    if w > 0 { FixedOfZero(w - 1); }
  }

  lemma {:induction false} ZerosAndDec(n: nat, w: nat)
    requires n < Pow10(w) && w >= 1
    ensures |Dec(n)| <= w && Repeat('0', w - |Dec(n)|) + Dec(n) == Fixed(n, w)
    decreases w
  {
    if n < 10 {
      FixedOfZero(w - 1);
    } else {
      ZerosAndDec(n / 10, w - 1);
      assert Repeat('0', w - |Dec(n)|) + Dec(n) == Repeat('0', w - 1 - |Dec(n / 10)|) + Dec(n / 10) + [Digit(n % 10)];
    }
  }

  /** A number below 10^w, padded to w digits, is its fixed-width form. */
  lemma PaddedIsFixed(n: nat, w: nat)
    requires n < Pow10(w) && w >= 1
    ensures Padded(n, w) == Fixed(n, w)
  {
    ZerosAndDec(n, w);
    if |Dec(n)| == w { assert Repeat('0', 0) + Dec(n) == Dec(n); }
  }

  lemma {:induction false} BeforeExtends(a: string, b: string, x: string, y: string)
    requires |a| == |b| && Before(a, b)
    ensures Before(a + x, b + y)
    decreases |a|
  {
    if a[0] == b[0] {
      BeforeExtends(a[1..], b[1..], x, y);
      assert (a + x)[1..] == a[1..] + x && (b + y)[1..] == b[1..] + y;
    }
  }

  lemma {:induction false} BeforeAfterPrefix(p: string, a: string, b: string)
    requires Before(a, b)
    ensures Before(p + a, p + b)
    decreases |p|
  {
    if p == "" {
      assert p + a == a && p + b == b;
    } else {
      BeforeAfterPrefix(p[1..], a, b);
      assert (p + a)[1..] == p[1..] + a && (p + b)[1..] == p[1..] + b;
    }
  }

  lemma {:induction false} FixedSorts(i: nat, j: nat, w: nat)
    requires i < j < Pow10(w)
    ensures Before(Fixed(i, w), Fixed(j, w))
    decreases w
  {
    var a, b := Fixed(i / 10, w - 1), Fixed(j / 10, w - 1);
    if i / 10 < j / 10 {
      FixedSorts(i / 10, j / 10, w - 1);
      BeforeExtends(a, b, [Digit(i % 10)], [Digit(j % 10)]);
    } else {
      BeforeAfterPrefix(a, [Digit(i % 10)], [Digit(j % 10)]);
    }
  }

  lemma PaddedSorts(i: nat, j: nat, w: nat)
    requires i < j < Pow10(w) && w >= 1
    ensures Before(Padded(i, w), Padded(j, w)) && |Padded(i, w)| == |Padded(j, w)| == w
  {
    PaddedIsFixed(i, w);
    PaddedIsFixed(j, w);
    FixedSorts(i, j, w);
  }

  lemma {:induction false} ValueOfPadded(k: nat, d: string)
    requires AllDigits(d)
    ensures AllDigits(Repeat('0', k) + d) && Value(Repeat('0', k) + d) == Value(d)
    decreases |d|, k
  {
    var s := Repeat('0', k) + d;
    if d == "" {
      if k > 0 {
        ValueOfPadded(k - 1, d);
        assert s[..|s| - 1] == Repeat('0', k - 1) + d;
      } else {
        assert s == d;
      }
    } else {
      ValueOfPadded(k, d[..|d| - 1]);
      assert s[..|s| - 1] == Repeat('0', k) + d[..|d| - 1];
    }
  }

  lemma ValueOfPaddedNumber(i: nat, w: nat)
    ensures Value(Padded(i, w)) == i
  {
    ValueOfDec(i);
    if |Dec(i)| < w { ValueOfPadded(w - |Dec(i)|, Dec(i)); }
  }

  /** No two shards share a number, however many there are. */
  lemma ShardNumbersDistinct(i: nat, j: nat)
    requires ShardNumber(i) == ShardNumber(j)
    ensures i == j
  {
    ValueOfPaddedNumber(i, WIDTH);
    ValueOfPaddedNumber(j, WIDTH);
  }

  // ---- Where the order ends ----

  lemma {:induction false} DecOfPow10(w: nat)
    ensures Dec(Pow10(w)) == "1" + Repeat('0', w)
    decreases w
  {
    if w > 0 {
      DecOfPow10(w - 1);
      assert Pow10(w) / 10 == Pow10(w - 1) && Pow10(w) % 10 == 0;
    }
  }

  lemma {:induction false} FixedNines(w: nat)
    ensures Fixed(Pow10(w) - 1, w) == Repeat('9', w)
    decreases w
  {
    if w > 0 {
      FixedNines(w - 1);
      assert (Pow10(w) - 1) / 10 == Pow10(w - 1) - 1 && (Pow10(w) - 1) % 10 == 9;
    }
  }

  /** The first number that needs an extra digit sorts before its predecessor. */
  lemma OrderEnds(w: nat)
    requires w >= 1
    ensures !Before(Padded(Pow10(w) - 1, w), Padded(Pow10(w), w))
  {
    PaddedIsFixed(Pow10(w) - 1, w);
    FixedNines(w);
    DecOfPow10(w);
    assert Padded(Pow10(w), w)[0] == '1' && Padded(Pow10(w) - 1, w)[0] == '9';
  }

  /** Listing order is index order for a whole export exactly when it has at most 10^12 shards. */
  lemma SortedExactly(shards: nat)
    ensures (forall i, j :: 0 <= i < j < shards ==> Before(ShardNumber(i), ShardNumber(j))) <==> shards <= Pow10(WIDTH)
  {
    if shards <= Pow10(WIDTH) {
      forall i, j | 0 <= i < j < shards ensures Before(ShardNumber(i), ShardNumber(j)) { PaddedSorts(i, j, WIDTH); }
    } else {
      OrderEnds(WIDTH);
      var last := Pow10(WIDTH) - 1;
      assert !Before(ShardNumber(last), ShardNumber(last + 1));
    }
  }

  lemma TenToTheTwelfth()
    ensures Pow10(12) == 1_000_000_000_000
  {
    assert Pow10(3) == 1000;
    assert Pow10(6) == 1_000_000 by { assert Pow10(5) == 100_000 && Pow10(4) == 10_000; }
    assert Pow10(9) == 1_000_000_000 by { assert Pow10(8) == 100_000_000 && Pow10(7) == 10_000_000; }
    assert Pow10(11) == 100_000_000_000 && Pow10(10) == 10_000_000_000;
  }

  /** Below 10^12 a shard number is twelve digits that read back as the index. */
  lemma TwelveDigits(i: nat)
    requires i < 1_000_000_000_000
    ensures |ShardNumber(i)| == 12 && AllDigits(ShardNumber(i)) && Value(ShardNumber(i)) == i
  {
    TenToTheTwelfth();
    PaddedIsFixed(i, 12);
    ValueOfFixed(i, 12);
  }
}
