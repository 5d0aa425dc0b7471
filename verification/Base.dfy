// Small shared vocabulary: optional values, first pages of lists, powers of two.
module Base {

  datatype Option<+T> = None | Some(value: T)

  /** Some element of a set, as one round of a Go range loop yields it. */
  method Pick<T>(s: set<T>) returns (x: T)
    requires s != {}
    ensures x in s
  {
    x :| x in s;
  }

  lemma UpdateTwice<K, V>(m: map<K, V>, k: K, v: V, w: V)
    ensures m[k := v][k := w] == m[k := w]
  {
  }

  ghost predicate Distinct<T>(s: seq<T>) {
    forall i, j :: 0 <= i < j < |s| ==> s[i] != s[j]
  }

  lemma AppendDistinct<T>(s: seq<T>, x: T)
    requires Distinct(s) && x !in s
    ensures Distinct(s + [x])
  {
  }

  function Elements<T>(s: seq<T>): set<T> {
    set x | x in s
  }

  lemma ElementsNext<T>(s: seq<T>, i: nat)
    requires Distinct(s) && i < |s|
    ensures s[i] !in Elements(s[..i]) && Elements(s[..i + 1]) == Elements(s[..i]) + {s[i]}
  {
    assert s[..i + 1] == s[..i] + [s[i]];
  }

  // ---- what a list request yields ----

  /** The VSD client asks for one page of this many objects and never for a second. */
  const PAGE: nat := 50

  /** The first page of a list, in whatever order the VSD lists the objects. */
  ghost predicate IsPage<T>(listed: set<T>, all: set<T>) {
    listed <= all && |listed| == if |all| <= PAGE then |all| else PAGE
  }

  method PickPage<T(==)>(all: set<T>) returns (page: seq<T>)
    ensures Distinct(page) && IsPage(Elements(page), all)
  {
    page := [];
    var rest := all;
    while rest != {} && |page| < PAGE
      invariant Distinct(page) && |page| <= PAGE && |page| + |rest| == |all|
      invariant rest <= all && forall x :: x in page <==> x in all && x !in rest
      decreases rest
    {
      var x := Pick(rest);
      page := page + [x];
      rest := rest - {x};
    }
    assert Elements(page) == all - rest;
  }

  lemma {:induction false} SubsetIsSmaller<T>(a: set<T>, b: set<T>)
    requires a <= b
    ensures |a| <= |b| && (|a| == |b| <==> a == b)
  {
    assert b == a + (b - a);
  }

  /** It is the whole list exactly when that fits. */
  lemma PageIsWholeIff<T>(listed: set<T>, all: set<T>)
    requires IsPage(listed, all)
    ensures listed == all <==> |all| <= PAGE
  {
    SubsetIsSmaller(listed, all);
  }

  /** Any page of at most PAGE elements can be filled up. */
  lemma {:induction false} PageWith<T>(some: set<T>, all: set<T>) returns (listed: set<T>)
    requires some <= all && |some| <= PAGE
    ensures some <= listed && IsPage(listed, all)
    decreases PAGE - |some|
  {
    SubsetIsSmaller(some, all);
    if |some| == PAGE || some == all {
      listed := some;
    } else {
      assert all - some != {} by {
        assert all == some + (all - some);
      }
      var x :| x in all - some;
      listed := PageWith(some + {x}, all);
    }
  }

  /** Any element can be missing from the first page of a list that does not fit. */
  lemma PageWithout<T>(x: T, all: set<T>) returns (listed: set<T>)
    requires x in all && |all| > PAGE
    ensures x !in listed && IsPage(listed, all)
  {
    listed := PageWith({}, all - {x});
  }

  function Min(a: int, b: int): int {
    if a < b then a else b
  }

  function Pow2(n: nat): (r: nat)
    ensures r >= 1
  {
    if n == 0 then 1 else 2 * Pow2(n - 1)
  }

  lemma {:induction false} Pow2Add(a: nat, b: nat)
    ensures Pow2(a + b) == Pow2(a) * Pow2(b)
  {
    if a != 0 {
      Pow2Add(a - 1, b);
      assert Pow2(a + b) == 2 * Pow2(a - 1 + b);
    }
  }

  lemma {:induction false} Pow2Increases(a: nat, b: nat)
    requires a < b
    ensures Pow2(a) < Pow2(b)
  {
    if a + 1 < b {
      Pow2Increases(a, b - 1);
    }
  }

  lemma Pow2Values()
    ensures Pow2(8) == 0x100 && Pow2(11) == 2048 && Pow2(16) == 0x1_0000
    ensures Pow2(32) == 0x1_0000_0000
  {
    assert Pow2(4) == 16;
    Pow2Add(4, 4);
    assert Pow2(11) == 2 * Pow2(10) == 4 * Pow2(9) == 8 * Pow2(8);
    Pow2Add(8, 8);
    Pow2Add(16, 16);
  }

  lemma {:induction false} MultipleIsLarge(d: nat, k: nat)
    requires k > 0
    ensures d * k >= d
  {
    if k > 1 {
      MultipleIsLarge(d, k - 1);
      assert d * k == d * (k - 1) + d;
    }
  }

  /** Division with remainder is unique. */
  lemma DivModUnique(a: int, d: int, q: int, r: int)
    requires 0 <= r < d && a == d * q + r
    ensures a / d == q && a % d == r
  {
    var q', r' := a / d, a % d;
    assert a == d * q' + r';
    assert d * (q' - q) == d * q' - d * q;
    assert d * (q - q') == d * q - d * q';
    if q' > q {
      MultipleIsLarge(d, q' - q);
    } else if q' < q {
      MultipleIsLarge(d, q - q');
    }
  }

  lemma MulMonotone(d: nat, i: nat, j: nat)
    requires i <= j
    ensures i * d <= j * d
  {
    assert (j - i) * d == j * d - i * d;
  }

  lemma BlockFits(d: nat, i: nat, k: nat)
    requires i < k
    ensures i * d + d <= k * d
  {
    MulMonotone(d, i + 1, k);
    assert (i + 1) * d == i * d + d;
  }

  lemma HalveMod(x: nat, d: nat)
    requires d >= 1
    ensures x % (2 * d) == 2 * (x / 2 % d) + x % 2
  {
    var q, r := x / 2 / d, x / 2 % d;
    assert x / 2 == d * q + r;
    assert x == 2 * (d * q + r) + x % 2;
    assert 2 * (d * q) == (2 * d) * q;
    DivModUnique(x, 2 * d, q, 2 * r + x % 2);
  }

  /** The low h bits of a are all zero. */
  predicate LowBitsZero(a: nat, h: nat) {
    h == 0 || (a % 2 == 0 && LowBitsZero(a / 2, h - 1))
  }

  lemma {:induction false} LowBitsZeroIsMultiple(a: nat, h: nat)
    ensures LowBitsZero(a, h) <==> a % Pow2(h) == 0
  {
    if h != 0 {
      LowBitsZeroIsMultiple(a / 2, h - 1);
      HalveMod(a, Pow2(h - 1));
    }
  }

  lemma {:induction false} FewerLowBits(a: nat, h: nat, k: nat)
    requires LowBitsZero(a, h) && k <= h
    ensures LowBitsZero(a, k)
  {
    if k != 0 {
      FewerLowBits(a / 2, h - 1, k - 1);
    }
  }

  lemma ShiftByMultiple(a: int, d: nat, i: nat)
    requires d > 0 && a % d == 0
    ensures (a + i * d) % d == 0
  {
    var q := a / d;
    assert d * (q + i) == d * q + d * i;
    DivModUnique(a + i * d, d, q + i, 0);
  }

  /** Carving a block of k * 2^h numbers, whose start has h zero low bits, into pieces of 2^h. */
  lemma Carve(base: nat, h: nat, k: nat, i: nat)
    requires LowBitsZero(base, h) && i < k
    ensures LowBitsZero(base + i * Pow2(h), h)
    ensures base <= base + i * Pow2(h) && base + i * Pow2(h) + Pow2(h) <= base + k * Pow2(h)
  {
    LowBitsZeroIsMultiple(base, h);
    ShiftByMultiple(base, Pow2(h), i);
    BlockFits(Pow2(h), i, k);
    MulMonotone(Pow2(h), 0, i);
    LowBitsZeroIsMultiple(base + i * Pow2(h), h);
  }

  /** The index of the block of length d that a falls into. */
  lemma Quotient(a: nat, d: nat, k: nat) returns (i: nat)
    requires d > 0 && a < k * d
    ensures i < k && i * d <= a < i * d + d
  {
    i := a / d;
    assert a == d * i + a % d;
    if i >= k {
      MulMonotone(d, k, i);
    }
  }
}
