/**
 Skip heights and the walk along skip pointers (GetSkipHeight and CBlockIndex::GetAncestor in
 src/chain.cpp): where each skip pointer leads (`Heights`), the walk as a function of heights, and a
 bound on its steps that is quadratic in the logarithm of the distance (`SkipWalk`).
 */
module Heights {
  import opened Basics

  function And(x: nat, y: nat): nat {
    if x == 0 || y == 0 then 0 else 2 * And(x / 2, y / 2) + if x % 2 == 1 && y % 2 == 1 then 1 else 0
  }

  lemma {:induction false} AndSame(x: nat)
    ensures And(x, x) == x
  {
    if x > 0 { AndSame(x / 2); }
  }

  function InvertLowestOne(n: nat): nat {
    if n == 0 then 0 else And(n, n - 1)
  }

  /** n & (n - 1) clears exactly the lowest one of n: what goes is 2^k, what stays is a multiple of 2^(k+1). */
  lemma {:induction false} InvertsLowestOne(n: nat) returns (k: nat)
    requires n > 0
    ensures InvertLowestOne(n) + Pow2(k) == n && InvertLowestOne(n) % Pow2(k + 1) == 0
  {
    if n % 2 == 1 {
      k := 0;
      AndSame(n / 2);
      assert (n - 1) / 2 == n / 2;
      assert n > 1 ==> InvertLowestOne(n) == 2 * And(n / 2, n / 2);
      assert Pow2(1) == 2;
    } else {
      var j := InvertsLowestOne(n / 2);
      k := j + 1;
      assert (n - 1) / 2 == n / 2 - 1;
      var r := InvertLowestOne(n / 2);
      assert InvertLowestOne(n) == 2 * r;
      EvenMultiple(r, Pow2(j + 1));
    }
  }

  lemma EvenMultiple(r: nat, p: nat)
    requires p > 0 && r % p == 0
    ensures (2 * r) % (2 * p) == 0
  {
    var q := r / p;
    assert 2 * r == q * (2 * p);
    MultipleMod(q, 2 * p);
  }

  lemma MultipleMod(q: nat, m: nat)
    requires m > 0
    ensures (q * m) % m == 0
  {
    var x := q * m;
    assert x == (x / m) * m + x % m;
    if x / m < q { SmallerMultiple(x / m, q, m); assert false; }
    if x / m > q { SmallerMultiple(q, x / m, m); assert false; }
  }

  lemma SmallerMultiple(a: nat, b: nat, m: nat)
    requires a < b
    ensures a * m + m <= b * m
  {
    assert (a + 1) * m <= b * m;
  }

  lemma InvertSmaller(n: nat)
    requires n > 0
    ensures InvertLowestOne(n) < n
  {
    var k := InvertsLowestOne(n);
  }

  /** The height a skip pointer jumps back to. */
  function GetSkipHeight(height: nat): (r: nat)
    ensures height > 0 ==> r < height
    ensures height < 2 ==> r == 0
  {
    if height < 2 then 0
    else
      InvertSmaller(if height % 2 == 1 then height - 1 else height);
      if height % 2 == 1 then
        var first := InvertLowestOne(height - 1);
        if first > 0 then
          InvertSmaller(first);
          InvertLowestOne(first) + 1
        else
          InvertLowestOne(first) + 1
      else
        InvertLowestOne(height)
  }
}

module SkipWalk {
  import opened Basics
  import opened Heights

  /** n is a multiple of 2^j. */
  predicate Mult(n: nat, j: nat) {
    j == 0 || (n % 2 == 0 && Mult(n / 2, j - 1))
  }

  /** Multiples of 2^j lie at least 2^j apart. */
  lemma {:induction false} MultGap(a: nat, b: nat, j: nat)
    requires Mult(a, j) && Mult(b, j) && a < b
    ensures a + Pow2(j) <= b
  {
    if j > 0 { MultGap(a / 2, b / 2, j - 1); }
  }

  lemma {:induction false} MultWeaker(n: nat, i: nat, j: nat)
    requires i <= j && Mult(n, j)
    ensures Mult(n, i)
  {
    if i > 0 { MultWeaker(n / 2, i - 1, j - 1); }
  }

  lemma {:induction false} MultZero(j: nat)
    ensures Mult(0, j)
  {
    if j > 0 { MultZero(j - 1); }
  }

  lemma MultDouble(n: nat, j: nat)
    requires Mult(n, j)
    ensures Mult(2 * n, j + 1)
  {
    assert (2 * n) / 2 == n;
  }

  lemma MultHalf(n: nat, j: nat)
    requires j > 0 && Mult(n, j)
    ensures n % 2 == 0 && Mult(n / 2, j - 1)
  {}

  lemma MultTwo(n: nat)
    ensures Mult(n, 1) <==> n % 2 == 0
  {}

  lemma MultFour(n: nat)
    ensures Mult(n, 2) <==> n % 4 == 0
  {
    hide Mult;
    MultTwo(n / 2);
    MultStep(n, 2);
    assert n % 4 == 2 * (n / 2 % 2) + n % 2;
  }

  lemma MultEight(n: nat)
    ensures Mult(n, 3) <==> n % 8 == 0
  {
    hide Mult;
    MultFour(n / 2);
    MultStep(n, 3);
    assert n % 8 == 2 * (n / 2 % 4) + n % 2;
  }

  lemma MultStep(n: nat, j: nat)
    requires j > 0
    ensures Mult(n, j) <==> n % 2 == 0 && Mult(n / 2, j - 1)
  {}

  lemma InvertedEven(n: nat)
    requires n > 0 && n % 2 == 0
    ensures InvertLowestOne(n) == 2 * InvertLowestOne(n / 2)
  {
    assert (n - 1) / 2 == n / 2 - 1;
  }

  lemma InvertedOdd(n: nat)
    requires n % 2 == 1
    ensures InvertLowestOne(n) == n - 1
  {
    AndSame(n / 2);
    assert (n - 1) / 2 == n / 2;
  }

  /** Clearing the lowest one of a multiple of 2^j leaves a multiple of 2^(j+1), at least 2^j lower. */
  lemma {:induction false} InvertedMult(n: nat, j: nat)
    requires n > 0 && Mult(n, j)
    ensures Mult(InvertLowestOne(n), j + 1) && InvertLowestOne(n) + Pow2(j) <= n
  {
    hide InvertLowestOne, Mult;
    InvertSmaller(n);
    MultTwo(InvertLowestOne(n));
    if n % 2 == 1 {
      InvertedOdd(n);
      if j > 0 { MultHalf(n, j); }
    } else {
      InvertedEven(n);
      if j > 0 {
        MultHalf(n, j);
        InvertedMult(n / 2, j - 1);
        MultDouble(InvertLowestOne(n / 2), j);
      }
    }
  }

  /** Within a block of 2^k heights clearing the lowest one does not leave the block. */
  lemma {:induction false} InvertedAbove(n: nat, mid: nat, k: nat)
    requires Mult(mid, k) && mid < n < mid + Pow2(k)
    ensures mid <= InvertLowestOne(n) < n
  {
    hide InvertLowestOne, Mult;
    InvertSmaller(n);
    if k > 0 { MultHalf(mid, k); }
    if n % 2 == 1 {
      InvertedOdd(n);
    } else {
      InvertedEven(n);
      if k > 0 { InvertedAbove(n / 2, mid / 2, k - 1); }
    }
  }

  lemma InvertedTwo(n: nat)
    requires n % 4 == 2
    ensures InvertLowestOne(n) == n - 2
  {
    hide InvertLowestOne;
    InvertedEven(n);
    InvertedOdd(n / 2);
  }

  lemma InvertedFour(n: nat)
    requires n % 8 == 4
    ensures InvertLowestOne(n) == n - 4
  {
    hide InvertLowestOne;
    InvertedEven(n);
    InvertedTwo(n / 2);
  }

  // ---------------------------------------------------------------- the walk

  lemma SkipEven(h: nat)
    requires h >= 2 && h % 2 == 0
    ensures GetSkipHeight(h) == InvertLowestOne(h)
  {}

  lemma SkipOdd(h: nat)
    requires h >= 2 && h % 2 == 1
    ensures GetSkipHeight(h) == InvertLowestOne(InvertLowestOne(h - 1)) + 1
  {}

  /** The height the walk to t goes to next from w. */
  function NextHeight(w: nat, t: nat): (r: nat)
    requires t < w
    ensures t <= r < w
  {
    var s, sp := GetSkipHeight(w), GetSkipHeight(w - 1);
    if s == t || (s > t && !(sp < s - 2 && sp >= t)) then s else w - 1
  }

  /** The number of steps. */
  function Hops(w: nat, t: nat): nat
    requires t <= w
    decreases w
  {
    if w == t then 0 else 1 + Hops(NextHeight(w, t), t)
  }

  /** From everywhere below mid the walk takes at most n steps. */
  ghost predicate Quick(t: nat, mid: nat, n: nat) {
    forall w :: t <= w < mid ==> Hops(w, t) <= n
  }

  /** A block of 2^k heights from mid on, with the target in the block before it. */
  ghost predicate Above(w: nat, t: nat, mid: nat, k: nat) {
    && 1 <= k && Mult(mid, k) && t < mid <= t + Pow2(k) && mid <= w < mid + Pow2(k)
  }

  lemma AboveEven(w: nat, t: nat, mid: nat, k: nat)
    requires Above(w, t, mid, k)
    ensures mid % 2 == 0 && mid >= 2
  {}

  lemma HopsFrom(w: nat, t: nat, mid: nat, n: nat)
    requires t < w <= mid && Quick(t, mid, n)
    ensures Hops(w, t) <= n + 1
  {
    hide NextHeight;
    assert Hops(NextHeight(w, t), t) <= n;
  }

  /** A skip that is declined is followed by the better one from the block before. */
  lemma DeclinedJumps(w: nat, t: nat)
    requires t < w && w % 2 == 0
    requires var s, sp := GetSkipHeight(w), GetSkipHeight(w - 1); s > t && sp < s - 2 && sp >= t
    ensures t < w - 1 && NextHeight(w, t) == w - 1 && NextHeight(w - 1, t) == GetSkipHeight(w - 1)
  {
    hide InvertLowestOne;
    SkipEven(w);
    SkipBefore(w);
    SkipEven(w - 2);
    var y := InvertLowestOne(w - 2);
    if y > 0 { InvertSmaller(y); } else { InvertedZero(); }
  }

  lemma InvertedZero()
    ensures InvertLowestOne(0) == 0
  {}

  /** When a skip is declined the block it then goes to is even further, and well aligned. */
  lemma DeclinedIsAligned(w: nat, j: nat)
    requires w >= 2 && w % 2 == 0 && Mult(w, j)
    requires GetSkipHeight(w - 1) < GetSkipHeight(w) - 2
    ensures j <= 2 && GetSkipHeight(w - 1) >= 1 && Mult(GetSkipHeight(w - 1) - 1, 4)
  {
    hide InvertLowestOne, GetSkipHeight, Mult, Pow2;
    SkipEven(w);
    InvertSmaller(w);
    SkipBefore(w);
    EvenCases(w);
    if w % 8 == 0 {
      NotDeclined(w);
    } else {
      if w % 8 == 4 { AlignedFour(w); } else { AlignedTwo(w); }
      if j > 2 { NotMultEight(w, j); }
    }
  }

  lemma SkipBefore(w: nat)
    requires w >= 4 && w % 2 == 0
    ensures GetSkipHeight(w - 1) == InvertLowestOne(InvertLowestOne(w - 2)) + 1
  {
    hide InvertLowestOne, GetSkipHeight;
    SkipOdd(w - 1);
  }

  lemma EvenCases(w: nat)
    requires w % 2 == 0
    ensures w % 8 == 0 || w % 8 == 4 || w % 4 == 2
  {}

  lemma NotMultEight(w: nat, j: nat)
    requires j > 2 && w % 8 != 0
    ensures !Mult(w, j)
  {
    hide Mult;
    if Mult(w, j) {
      MultWeaker(w, 3, j);
      MultEight(w);
    }
  }

  lemma NotDeclined(w: nat)
    requires w > 0 && w % 8 == 0
    ensures InvertLowestOne(InvertLowestOne(w - 2)) + 1 > InvertLowestOne(w)
  {
    hide InvertLowestOne, Mult;
    InvertedTwo(w - 2);
    InvertedFour(w - 4);
    MultEight(w);
    InvertedMult(w, 3);
    assert Pow2(3) == 8;
  }

  lemma AlignedFour(w: nat)
    requires w % 8 == 4
    ensures Mult(InvertLowestOne(InvertLowestOne(w - 2)), 4)
  {
    hide InvertLowestOne, Mult;
    FourBelow(w);
    MultEight(w - 4);
    if w == 4 {
      InvertedZero();
      MultZero(4);
    } else {
      InvertedMult(w - 4, 3);
    }
  }

  lemma AlignedTwo(w: nat)
    requires w % 4 == 2
    ensures Mult(InvertLowestOne(InvertLowestOne(w - 2)), 4)
  {
    hide InvertLowestOne, Mult;
    MultFour(w - 2);
    TwiceInverted(w - 2, 2);
  }

  lemma TwiceInverted(n: nat, j: nat)
    requires Mult(n, j)
    ensures Mult(InvertLowestOne(InvertLowestOne(n)), j + 2)
  {
    hide InvertLowestOne;
    if n == 0 {
      InvertedZero();
      MultZero(j + 2);
    } else {
      InvertedMult(n, j);
      var m := InvertLowestOne(n);
      if m == 0 {
        InvertedZero();
        MultZero(j + 2);
      } else {
        InvertedMult(m, j + 1);
      }
    }
  }

  // ---------------------------------------------------------------- down through one block

  /** Every step from an even height doubles what the height is a multiple of. */
  lemma {:induction false} EvenRun(w: nat, t: nat, mid: nat, k: nat, j: nat, n: nat)
    requires Above(w, t, mid, k) && Quick(t, mid, n) && 1 <= j <= k && Mult(w, j)
    ensures Hops(w, t) <= n + (k - j) + 2
    decreases w
  {
    hide InvertLowestOne, GetSkipHeight, Mult, Pow2, Quick, Hops, NextHeight;
    if w == mid {
      HopsFrom(mid, t, mid, n);
    } else {
      EvenFacts(w, t, mid, k, j);
      var s, sp := GetSkipHeight(w), GetSkipHeight(w - 1);
      if sp < s - 2 && sp >= t {
        DeclinedJumps(w, t);
        HopsTwice(w, t);
        if sp < mid {
          QuickAt(t, mid, n, sp);
        } else {
          DeclinedFacts(w, t, mid, k, j);
          OddRun(sp, t, mid, k, j + 2, n);
        }
      } else {
        TakenSkip(w, t);
        HopsOnce(w, t);
        EvenRun(s, t, mid, k, j + 1, n);
      }
    }
  }

  lemma QuickAt(t: nat, mid: nat, n: nat, w: nat)
    requires Quick(t, mid, n) && t <= w < mid
    ensures Hops(w, t) <= n
  {}

  lemma HopsOnce(w: nat, t: nat)
    requires t < w
    ensures Hops(w, t) == 1 + Hops(NextHeight(w, t), t)
  {}

  lemma HopsTwice(w: nat, t: nat)
    requires t < w && t < NextHeight(w, t)
    ensures Hops(w, t) == 2 + Hops(NextHeight(NextHeight(w, t), t), t)
  {
    HopsOnce(w, t);
    HopsOnce(NextHeight(w, t), t);
  }

  lemma TakenSkip(w: nat, t: nat)
    requires t < w && GetSkipHeight(w) > t && !(GetSkipHeight(w - 1) < GetSkipHeight(w) - 2 && GetSkipHeight(w - 1) >= t)
    ensures NextHeight(w, t) == GetSkipHeight(w)
  {}

  /** A multiple of 2^j inside the block and above its start. */
  lemma InsideBlock(w: nat, mid: nat, k: nat, j: nat)
    requires Mult(mid, k) && mid < w < mid + Pow2(k) && j <= k && Mult(w, j)
    ensures j < k && Mult(mid, j) && mid + Pow2(j) <= w
  {
    hide Mult;
    MultWeaker(mid, j, k);
    MultGap(mid, w, j);
  }

  lemma EvenFacts(w: nat, t: nat, mid: nat, k: nat, j: nat)
    requires Above(w, t, mid, k) && w != mid && 1 <= j <= k && Mult(w, j)
    ensures j < k && w % 2 == 0 && t < mid <= GetSkipHeight(w) < w && Mult(GetSkipHeight(w), j + 1)
  {
    hide InvertLowestOne, GetSkipHeight, Mult, Pow2;
    InsideBlock(w, mid, k, j);
    MultHalf(w, j);
    SkipEven(w);
    InvertedAbove(w, mid, k);
    InvertedMult(w, j);
  }

  lemma DeclinedFacts(w: nat, t: nat, mid: nat, k: nat, j: nat)
    requires Above(w, t, mid, k) && w != mid && 1 <= j <= k && Mult(w, j)
    requires mid <= GetSkipHeight(w - 1) < GetSkipHeight(w) - 2
    ensures var sp := GetSkipHeight(w - 1);
            sp < w && j + 2 <= k && Above(sp, t, mid, k) && sp % 2 == 1 && Mult(sp - 1, j + 2)
  {
    hide InvertLowestOne, GetSkipHeight, Mult, Pow2;
    EvenFacts(w, t, mid, k, j);
    DeclinedIsAligned(w, j);
    var s, sp := GetSkipHeight(w), GetSkipHeight(w - 1);
    InsideBlock(s, mid, k, j + 1);
    OddAbove(sp, 4);
    AboveEven(w, t, mid, k);
    MultWeaker(sp - 1, j + 2, 4);
  }

  lemma OddAbove(n: nat, j: nat)
    requires n >= 1 && j > 0 && Mult(n - 1, j)
    ensures n % 2 == 1
  {
    MultHalf(n - 1, j);
  }

  /** From an odd height every step does so twice, until the start of the block is near. */
  lemma {:induction false} OddRun(w: nat, t: nat, mid: nat, k: nat, j: nat, n: nat)
    requires Above(w, t, mid, k) && Quick(t, mid, n) && w % 2 == 1 && 1 <= j <= k && Mult(w - 1, j)
    ensures Hops(w, t) <= n + (k - j) + 2
    decreases w
  {
    hide InvertLowestOne, GetSkipHeight, Mult, Pow2, Quick, Hops, NextHeight;
    AboveEven(w, t, mid, k);
    HopsOnce(w, t);
    if w - 1 == mid {
      var next := NextHeight(w, t);
      if next < mid { QuickAt(t, mid, n, next); } else { HopsFrom(mid, t, mid, n); }
    } else {
      InsideBlock(w - 1, mid, k, j);
      InvertedAbove(w - 1, mid, k);
      InvertedMult(w - 1, j);
      var y := InvertLowestOne(w - 1);
      if y > mid {
        OddJumps(w, t, mid, k, j);
        OddRun(InvertLowestOne(y) + 1, t, mid, k, j + 2, n);
      } else {
        LastBit(w, t, mid, k, n);
      }
    }
  }

  lemma OddJumps(w: nat, t: nat, mid: nat, k: nat, j: nat)
    requires Above(w, t, mid, k) && w % 2 == 1 && w >= 3 && 1 <= j < k && Mult(InvertLowestOne(w - 1), j + 1)
    requires mid < InvertLowestOne(w - 1) < w - 1
    ensures var r := InvertLowestOne(InvertLowestOne(w - 1)) + 1;
            NextHeight(w, t) == r && j + 2 <= k && r < w && Above(r, t, mid, k) && r % 2 == 1 && Mult(r - 1, j + 2)
  {
    hide InvertLowestOne, Mult, GetSkipHeight, Pow2;
    SkipOdd(w);
    SkipEven(w - 1);
    var y := InvertLowestOne(w - 1);
    InsideBlock(y, mid, k, j + 1);
    InvertedAbove(y, mid, k);
    InvertedMult(y, j + 1);
    OddAbove(InvertLowestOne(y) + 1, j + 2);
    TakenSkip(w, t);
  }

  /** One more bit above the start of the block: at most two steps down to it. */
  lemma LastBit(w: nat, t: nat, mid: nat, k: nat, n: nat)
    requires Above(w, t, mid, k) && Quick(t, mid, n) && w % 2 == 1 && w - 1 > mid && InvertLowestOne(w - 1) == mid
    ensures Hops(w, t) <= n + 3
  {
    hide InvertLowestOne, Mult, GetSkipHeight, Pow2, Quick, Hops;
    AboveEven(w, t, mid, k);
    SkipOdd(w);
    SkipEven(w - 1);
    InvertedMult(mid, k);
    HopsOnce(w, t);
    var s := GetSkipHeight(w);
    assert s == InvertLowestOne(mid) + 1 <= t + 1;
    var next := NextHeight(w, t);
    if next == t {
      HopsNone(t);
    } else if next <= mid {
      HopsFrom(next, t, mid, n);
    } else {
      assert next == w - 1 && s < t;
      LastBitEven(w - 1, t, mid);
      HopsOnce(w - 1, t);
      HopsFrom(mid, t, mid, n);
    }
  }

  lemma HopsNone(t: nat)
    ensures Hops(t, t) == 0
  {}

  lemma LastBitEven(v: nat, t: nat, mid: nat)
    requires v % 2 == 0 && 2 <= mid < v && t < mid && InvertLowestOne(v) == mid && InvertLowestOne(mid) + 1 < t
    ensures NextHeight(v, t) == mid
  {
    hide InvertLowestOne, GetSkipHeight;
    SkipEven(v);
    SkipBefore(v);
    TwoBelow(v);
  }

  /** Where the odd height below an even one skips to, against where the even one does. */
  lemma TwoBelow(v: nat)
    requires v % 2 == 0 && v > 0
    ensures var two, one := InvertLowestOne(InvertLowestOne(v - 2)), InvertLowestOne(v);
            two + 1 > one || two <= InvertLowestOne(one)
  {
    hide InvertLowestOne;
    EvenCases(v);
    if v % 8 == 0 {
      NotDeclined(v);
    } else if v % 8 == 4 {
      FourBelow(v);
    } else {
      InvertedTwo(v);
      var y := InvertLowestOne(v - 2);
      if y > 0 { InvertSmaller(y); } else { InvertedZero(); }
    }
  }

  lemma FourBelow(v: nat)
    requires v % 8 == 4
    ensures InvertLowestOne(v - 2) == v - 4 == InvertLowestOne(v)
  {
    hide InvertLowestOne;
    InvertedFour(v);
    InvertedTwo(v - 2);
  }

  /** Out of a block of 2^k heights in k + 1 steps. */
  lemma Descend(w: nat, t: nat, mid: nat, k: nat, n: nat)
    requires Mult(mid, k) && t < mid <= t + Pow2(k) && mid <= w < mid + Pow2(k) && Quick(t, mid, n)
    ensures Hops(w, t) <= n + k + 1
  {
    hide Mult, Quick, Hops;
    if k == 0 {
      HopsFrom(w, t, mid, n);
    } else if w % 2 == 0 {
      MultTwo(w);
      EvenRun(w, t, mid, k, 1, n);
    } else {
      MultTwo(w - 1);
      OddRun(w, t, mid, k, 1, n);
    }
  }

  // ---------------------------------------------------------------- the bound

  /** 1 + 2 + ... + k */
  function Triangle(k: nat): nat { if k == 0 then 0 else Triangle(k - 1) + k }

  lemma {:induction false} TriangleIs(k: nat)
    ensures 2 * Triangle(k) == k * (k + 1)
  {
    if k > 0 { TriangleIs(k - 1); }
  }

  lemma {:induction false} MultNext(n: nat, j: nat)
    requires Mult(n, j)
    ensures Mult(n + Pow2(j), j)
  {
    if j > 0 { MultNext(n / 2, j - 1); }
  }

  lemma {:induction false} MultBefore(n: nat, j: nat)
    requires Mult(n, j) && n >= Pow2(j)
    ensures Mult(n - Pow2(j), j)
  {
    if j > 0 { MultBefore(n / 2, j - 1); }
  }

  /** Within one aligned block of 2^k heights. */
  lemma {:induction false} InBlock(w: nat, t: nat, base: nat, k: nat)
    requires Mult(base, k) && base <= t <= w < base + Pow2(k)
    ensures Hops(w, t) <= Triangle(k)
    decreases k
  {
    hide Mult, Hops, NextHeight, Quick;
    if k == 0 {
      HopsNone(t);
    } else {
      MultWeaker(base, k - 1, k);
      MultNext(base, k - 1);
      var mid := base + Pow2(k - 1);
      if w < mid {
        InBlock(w, t, base, k - 1);
      } else if t >= mid {
        InBlock(w, t, mid, k - 1);
      } else {
        forall v | t <= v < mid ensures Hops(v, t) <= Triangle(k - 1) { InBlock(v, t, base, k - 1); }
        QuickFrom(t, mid, Triangle(k - 1));
        Descend(w, t, mid, k - 1, Triangle(k - 1));
      }
    }
  }

  lemma QuickFrom(t: nat, mid: nat, n: nat)
    requires forall v :: t <= v < mid ==> Hops(v, t) <= n
    ensures Quick(t, mid, n)
  {}

  /** The start of the aligned block of 2^j heights around n. */
  function Floor(n: nat, j: nat): (r: nat)
    ensures Mult(r, j) && r <= n < r + Pow2(j)
  {
    if j == 0 then n
    else
      MultDouble(Floor(n / 2, j - 1), j - 1);
      2 * Floor(n / 2, j - 1)
  }

  /** Going back less than 2^k heights takes at most (k + 1)(k + 2) / 2 steps, however high the chain. */
  lemma HopsBound(w: nat, t: nat, k: nat)
    requires t <= w < t + Pow2(k)
    ensures 2 * Hops(w, t) <= (k + 1) * (k + 2)
  {
    hide Mult, Hops, NextHeight, Quick, Floor;
    TriangleIs(k + 1);
    var mid := Floor(w, k);
    if mid <= t {
      InBlock(w, t, mid, k);
    } else {
      MultZero(k);
      MultGap(0, mid, k);
      MultBefore(mid, k);
      forall v | t <= v < mid ensures Hops(v, t) <= Triangle(k) { InBlock(v, t, mid - Pow2(k), k); }
      QuickFrom(t, mid, Triangle(k));
      Descend(w, t, mid, k, Triangle(k));
    }
  }

  /** At most (k + 1)(k + 2) / 2 steps for a distance below 2^k. */
  ghost predicate FewSteps(steps: nat, distance: nat) {
    forall k: nat {:trigger Pow2(k)} :: distance < Pow2(k) ==> 2 * steps <= (k + 1) * (k + 2)
  }

  lemma HopsAreFew(w: nat, t: nat)
    requires t <= w
    ensures FewSteps(Hops(w, t), w - t)
  {
    hide Hops;
    forall k: nat {:trigger Pow2(k)} | w - t < Pow2(k) ensures 2 * Hops(w, t) <= (k + 1) * (k + 2) { HopsBound(w, t, k); }
  }

  lemma NextIs(w: nat, t: nat)
    requires t < w
    ensures var s, sp := GetSkipHeight(w), GetSkipHeight(w - 1);
            NextHeight(w, t) == if s == t || (s > t && !(sp < s - 2 && sp >= t)) then s else w - 1
  {}
}
