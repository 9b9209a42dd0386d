/**
 256-bit arithmetic on 32-bit limbs (src/arith_uint256.h, src/arith_uint256.cpp)
 against the integers.
 */
module Arith {
  import opened Basics

  const B: nat := 0x1_0000_0000
  const WIDTH: nat := 8

  type U32 = x: nat | x < 0x1_0000_0000

  // ---------------------------------------------------------------- powers and values

  function PowB(n: nat): (r: nat)
    ensures r >= 1
  {
    if n == 0 then 1 else B * PowB(n - 1)
  }

  lemma {:induction false} Pow2Add(a: nat, b: nat)
    ensures Pow2(a + b) == Pow2(a) * Pow2(b)
  {
    if a == 0 {
    } else {
      hide Pow2;
      Pow2Add(a - 1, b);
      Pow2Step(a - 1);
      Pow2Step(a - 1 + b);
      MulSwap(2, Pow2(a - 1), Pow2(b));
    }
  }

  lemma Pow2Of32()
    ensures Pow2(32) == B
  {
    assert Pow2(8) == 256;
    Pow2Add(8, 8);
    Pow2Add(16, 16);
  }

  lemma {:induction false} PowBIsPow2(n: nat)
    ensures PowB(n) == Pow2(32 * n)
  {
    if n > 0 {
      PowBIsPow2(n - 1);
      Pow2Of32();
      Pow2Add(32, 32 * (n - 1));
    }
  }

  /** The integer that limbs stand for, least significant first. */
  ghost function Val(s: seq<U32>): nat {
    if s == [] then 0 else Val(s[..|s| - 1]) + s[|s| - 1] * PowB(|s| - 1)
  }

  ghost const M: nat := PowB(WIDTH)

  lemma ValPush(s: seq<U32>, v: U32)
    ensures Val(s + [v]) == Val(s) + v * PowB(|s|)
  {
    assert (s + [v])[..|s|] == s;
  }

  lemma ValSnoc(s: seq<U32>, i: nat)
    requires i < |s|
    ensures Val(s[..i + 1]) == Val(s[..i]) + s[i] * PowB(i)
  {
    assert s[..i + 1] == s[..i] + [s[i]];
    ValPush(s[..i], s[i]);
  }

  lemma {:induction false} ValBound(s: seq<U32>)
    ensures Val(s) < PowB(|s|)
  {
    if s != [] {
      var n := |s| - 1;
      ValBound(s[..n]);
      MulLe(s[n], B - 1, PowB(n));
      assert (B - 1) * PowB(n) + PowB(n) == B * PowB(n);
    }
  }

  lemma MulLe(a: nat, b: nat, c: nat)
    requires a <= b
    ensures a * c <= b * c
  {}

  lemma {:induction false} ValUpdate(s: seq<U32>, i: nat, v: U32)
    requires i < |s|
    ensures Val(s[i := v]) == Val(s) + (v - s[i]) * PowB(i)
  {
    var n := |s| - 1;
    var s' := s[i := v];
    if i == n {
      assert s'[..n] == s[..n];
      assert v * PowB(n) == s[n] * PowB(n) + (v - s[n]) * PowB(n);
    } else {
      assert s'[..n] == s[..n][i := v];
      ValUpdate(s[..n], i, v);
    }
  }

  lemma {:induction false} ValZero(s: seq<U32>)
    requires forall i :: 0 <= i < |s| ==> s[i] == 0
    ensures Val(s) == 0
  {
    if s != [] { ValZero(s[..|s| - 1]); }
  }

  /** Splitting a partial sum into the limb that is kept and the carry that moves on. */
  lemma CarryStep(n: nat, p: nat)
    ensures (n % B) * p + (n / B) * (B * p) == n * p
  {
    var q, r := n / B, n % B;
    assert n == q * B + r;
    assert (q * B + r) * p == q * (B * p) + r * p;
  }

  lemma MulSign(d: int, m: int)
    requires m > 0
    ensures d >= 1 ==> d * m >= m
    ensures d <= -1 ==> d * m <= -m
  {
    if d >= 1 { MulLe(1, d, m); }
    if d <= -1 { MulLe(1, -d, m); }
  }

  lemma MulSmall(d: int, m: int)
    requires m > 0 && -m < d * m < m
    ensures d == 0
  {
    MulSign(d, m);
  }

  lemma ModUnique(x: int, m: nat, q: int, r: nat)
    requires m > 0 && r < m && x == q * m + r
    ensures x % m == r && x / m == q
  {
    var q', r' := x / m, x % m;
    assert x == q' * m + r';
    assert (q - q') * m == q * m - q' * m == r' - r;
    MulSmall(q - q', m);
  }

  lemma {:induction false} ValSplit(s: seq<U32>, k: nat)
    requires k <= |s|
    ensures Val(s) == Val(s[..k]) + PowB(k) * Val(s[k..])
  {
    hide PowB;
    if k == |s| {
      assert s[..k] == s && s[k..] == [];
    } else {
      var n := |s| - 1;
      ValSplit(s[..n], k);
      assert s[..n][..k] == s[..k] && s[..n][k..] == s[k..][..n - k];
      PowBAdd(k, n - k);
      SplitStep(PowB(k), Val(s[k..][..n - k]), s[n], PowB(n - k));
    }
  }

  lemma SplitStep(p: nat, v: nat, x: nat, q: nat)
    ensures p * (v + x * q) == p * v + x * (p * q)
  {
    assert p * (v + x * q) == p * v + p * (x * q);
    assert p * (x * q) == x * (p * q);
  }

  lemma {:induction false} PowBAdd(a: nat, b: nat)
    ensures PowB(a + b) == PowB(a) * PowB(b)
  {
    PowBIsPow2(a);
    PowBIsPow2(b);
    PowBIsPow2(a + b);
    Pow2Add(32 * a, 32 * b);
  }

  /** The highest limb that differs decides. */
  lemma {:induction false} ValLess(s: seq<U32>, t: seq<U32>, i: nat)
    requires i < |s| == |t| && s[i] < t[i] && s[i + 1..] == t[i + 1..]
    ensures Val(s) < Val(t)
  {
    var n := |s| - 1;
    if i == n {
      ValBound(s[..n]);
      MulLe(s[n] + 1, t[n], PowB(n));
      assert (s[n] + 1) * PowB(n) == s[n] * PowB(n) + PowB(n);
    } else {
      assert s[n] == s[i + 1..][n - i - 1] == t[n];
      assert s[..n][i + 1..] == s[i + 1..][..n - i - 1] == t[..n][i + 1..];
      ValLess(s[..n], t[..n], i);
    }
  }

  lemma {:induction false} ComplementVal(s: seq<U32>, t: seq<U32>)
    requires |s| == |t| && forall i :: 0 <= i < |s| ==> t[i] == B - 1 - s[i]
    ensures Val(s) + Val(t) + 1 == PowB(|s|)
  {
    if s != [] {
      var n := |s| - 1;
      ComplementVal(s[..n], t[..n]);
      assert s[n] * PowB(n) + (B - 1 - s[n]) * PowB(n) == (B - 1) * PowB(n);
      assert (B - 1) * PowB(n) + PowB(n) == B * PowB(n);
    }
  }

  // ---------------------------------------------------------------- bitwise or

  function Or(x: nat, y: nat): nat {
    if x == 0 && y == 0 then 0 else 2 * Or(x / 2, y / 2) + if x % 2 == 1 || y % 2 == 1 then 1 else 0
  }

  lemma {:induction false} OrZero(y: nat)
    ensures Or(0, y) == y && Or(y, 0) == y
  {
    if y > 0 { OrZero(y / 2); }
  }

  /** Numbers without a common bit position are added. */
  lemma {:induction false} OrDisjoint(x: nat, y: nat, s: nat)
    requires x < Pow2(s) && y % Pow2(s) == 0
    ensures Or(x, y) == x + y && Or(y, x) == x + y
    decreases s
  {
    if s == 0 {
      OrZero(y);
    } else {
      var p := Pow2(s - 1);
      var q := y / Pow2(s);
      assert y == q * (2 * p);
      assert y == 2 * (q * p);
      assert y / 2 == q * p;
      MulMod(q, p);
      OrDisjoint(x / 2, y / 2, s - 1);
      if x == 0 && y == 0 {} else {}
    }
  }

  lemma MulMod(q: nat, p: nat)
    requires p > 0
    ensures (q * p) % p == 0 && (q * p) / p == q
  {
    ModUnique(q * p, p, q, 0);
  }

  // ---------------------------------------------------------------- the limb class

  /** carry + limb + limb * limb in 64 bits, split into the low limb and the next carry. */
  method MulAdd(carry: U32, add: U32, a: U32, b: U32) returns (lo: U32, hi: U32)
    ensures lo + hi * B == carry + add + Times(a, b)
  {
    ProductFits(a, b);
    var n := carry + add + Times(a, b);
    assert n < U64;
    SplitWord(n);
    lo, hi := n % B, n / B;
  }

  class BaseUint {
    const pn: array<U32>

    ghost predicate Valid() { pn.Length == WIDTH }

    ghost function V(): nat
      reads pn
    {
      Val(pn[..])
    }

    /** base_uint(uint64_t) */
    constructor (b: nat)
      requires b < U64
      ensures Valid() && fresh(pn) && V() == b
    {
      pn := new U32[WIDTH](_ => 0);
      new;
      pn[0] := b % B;
      pn[1] := b / B;
      FromLow(pn[..], b);
    }

    constructor Copy(a: BaseUint)
      requires a.Valid()
      ensures Valid() && fresh(pn) && V() == a.V() && pn[..] == a.pn[..]
    {
      pn := new U32[WIDTH];
      new;
      for i := 0 to WIDTH
        invariant forall k :: 0 <= k < i ==> pn[k] == a.pn[k]
      {
        pn[i] := a.pn[i];
      }
      assert pn[..] == a.pn[..];
    }

    method AddAssign(b: BaseUint)
      requires Valid() && b.Valid()
      modifies pn
      ensures V() == (old(V()) + old(b.V())) % M
    {
      hide Val, PowB;
      ghost var x, y := pn[..], b.pn[..];
      var carry: nat := 0;
      var i := 0;
      ValStart(pn[..], x, y);
      while i < WIDTH
        invariant 0 <= i <= WIDTH && carry <= 1
        invariant Val(pn[..i]) + carry * PowB(i) == Val(x[..i]) + Val(y[..i])
        invariant forall k :: i <= k < WIDTH ==> pn[k] == x[k] && b.pn[k] == y[k]
      {
        var n := carry + pn[i] + b.pn[i];
        assert n < U64;
        ghost var low := pn[..i];
        pn[i] := n % B;
        assert pn[..i] == low && pn[..i + 1] == low + [pn[i]];
        ValPush(low, pn[i]);
        ValSnoc(x, i);
        ValSnoc(y, i);
        PowBStep(i);
        AddLimb(Val(low), carry, x[i], y[i], PowB(i));
        carry := n / B;
        i := i + 1;
      }
      assert x[..WIDTH] == x && y[..WIDTH] == y && pn[..WIDTH] == pn[..];
      ValBound(pn[..]);
      ModUnique(Val(x) + Val(y), M, carry, Val(pn[..]));
    }

    /** Prefix ++, which stops at the first limb that does not wrap. */
    method Increment()
      requires Valid()
      modifies pn
      ensures V() == (old(V()) + 1) % M
    {
      hide Val, PowB;
      ghost var x: int := V();
      var i := 0;
      PowBZero();
      while i < WIDTH
        invariant 0 <= i <= WIDTH
        invariant V() + PowB(i) == x + 1
      {
        ghost var s := pn[..];
        ghost var d: int := (s[i] + 1) % B - s[i] as int;
        ValUpdate(s, i, (pn[i] + 1) % B);
        pn[i] := (pn[i] + 1) % B;
        assert pn[..] == s[i := pn[i]];
        PowBStep(i);
        WrapStep(d, PowB(i));
        if pn[i] != 0 {
          assert d == 1;
          ValBound(pn[..]);
          ModUnique(x + 1, M, 0, V());
          return;
        }
        assert d == 1 - B;
        i := i + 1;
      }
      ValBound(pn[..]);
      ModUnique(x + 1, M, 1, V());
    }

    /** Prefix --. */
    method Decrement()
      requires Valid()
      modifies pn
      ensures V() == (old(V()) - 1) % M
    {
      hide Val, PowB;
      ghost var x: int := V();
      var i := 0;
      PowBZero();
      while i < WIDTH
        invariant 0 <= i <= WIDTH
        invariant V() - PowB(i) == x - 1
      {
        ghost var s := pn[..];
        ghost var d: int := (s[i] + B - 1) % B - s[i] as int;
        ValUpdate(s, i, (pn[i] + B - 1) % B);
        pn[i] := (pn[i] + B - 1) % B;
        assert pn[..] == s[i := pn[i]];
        PowBStep(i);
        WrapStep(d, PowB(i));
        if pn[i] != B - 1 {
          assert d == -1;
          ValBound(pn[..]);
          ModUnique(x - 1, M, 0, V());
          return;
        }
        assert d == B - 1;
        i := i + 1;
      }
      ValBound(pn[..]);
      ModUnique(x - 1, M, -1, V());
    }

    /** Unary minus: complement and add one. */
    method Negated() returns (r: BaseUint)
      requires Valid()
      ensures r.Valid() && fresh(r) && fresh(r.pn) && r.V() == (M - V()) % M
    {
      r := new BaseUint(0);
      for i := 0 to WIDTH
        invariant forall k :: 0 <= k < i ==> r.pn[k] == B - 1 - pn[k]
      {
        r.pn[i] := B - 1 - pn[i];
      }
      ComplementVal(pn[..], r.pn[..]);
      r.Increment();
    }

    method SubAssign(b: BaseUint)
      requires Valid() && b.Valid()
      modifies pn
      ensures V() == (old(V()) - old(b.V())) % M
    {
      hide Val, PowB;
      var neg := b.Negated();
      ghost var x, y := V(), b.V();
      ValBound(b.pn[..]);
      AddAssign(neg);
      SubAsAdd(x, y, M);
    }

    method MulAssign32(b32: U32)
      requires Valid()
      modifies pn
      ensures V() == (old(V()) * b32) % M
    {
      hide Val, PowB;
      ghost var x := pn[..];
      var carry: U32 := 0;
      var i := 0;
      ValStart(pn[..], x, x);
      while i < WIDTH
        invariant 0 <= i <= WIDTH
        invariant Val(pn[..i]) + carry * PowB(i) == Val(x[..i]) * b32
        invariant forall k :: i <= k < WIDTH ==> pn[k] == x[k]
      {
        var lo, hi := MulAdd(carry, 0, b32, pn[i]);
        TimesIs(b32, x[i]);
        ghost var low := pn[..i];
        pn[i] := lo;
        assert pn[..i] == low && pn[..i + 1] == low + [lo];
        ValPush(low, lo);
        ValSnoc(x, i);
        PowBStep(i);
        MulLimb(Val(low), carry, lo, hi, x[i], b32, Val(x[..i]), PowB(i));
        carry := hi;
        i := i + 1;
      }
      assert x[..WIDTH] == x && pn[..WIDTH] == pn[..];
      ValBound(pn[..]);
      ModUnique(Val(x) * b32, M, carry, Val(pn[..]));
    }

    /** One row of the schoolbook product: adds a_j * b, shifted j limbs, and drops what leaves the width. */
    method AddRow(aj: U32, b: BaseUint, j: nat) returns (carry: U32)
      requires Valid() && b.Valid() && j < WIDTH
      requires b.pn == pn ==> forall m :: 0 <= m < WIDTH ==> pn[m] == 0
      modifies pn
      ensures b.pn[..] == old(b.pn[..])
      ensures V() + Times(carry, M) == old(V()) + Times(Times(aj, Val(old(b.pn[..])[..WIDTH - j])), PowB(j))
    {
      hide Val, PowB, Times;
      ghost var y := b.pn[..];
      ghost var start := V();
      carry := 0;
      var i := 0;
      RowStart(y, aj, j);
      while i + j < WIDTH
        invariant 0 <= i <= WIDTH - j && b.pn[..] == y && (b.pn == pn ==> carry == 0)
        invariant V() + Times(carry, PowB(i + j)) == start + Times(Times(aj, Val(y[..i])), PowB(j))
      {
        ghost var s := pn[..];
        assert y[i] == b.pn[i];
        var lo, hi := MulAdd(carry, pn[i + j], aj, b.pn[i]);
        assert b.pn == pn ==> lo == hi == 0 by { if b.pn == pn { TimesZero(aj); } }
        pn[i + j] := lo;
        assert pn[..] == s[i + j := lo];
        RowNext(s, y, i, j, aj, carry, lo, hi, start);
        carry := hi;
        i := i + 1;
      }
    }

    /**
     * The full product, modulo the width. The receiver is cleared before the other factor is read,
     * so multiplying a number by itself in place gives zero and not its square.
     */
    method MulAssign(b: BaseUint)
      requires Valid() && b.Valid()
      modifies pn
      ensures V() == if b.pn == pn then 0 else (old(V()) * old(b.V())) % M
    {
      hide Val, PowB, Times;
      ghost var x := pn[..];
      var a := new BaseUint.Copy(this);
      Clear();
      ghost var y := b.pn[..];
      ghost var v := Val(y);
      ProductStart(x, v);
      ghost var k: nat := 0;
      var j := 0;
      while j < WIDTH
        invariant 0 <= j <= WIDTH && a.pn[..] == x && b.pn[..] == y
        invariant V() + Times(k, M) == Times(Val(x[..j]), v)
        invariant b.pn == pn ==> V() == 0
      {
        assert b.pn == pn ==> forall m :: 0 <= m < WIDTH ==> pn[m] == y[m];
        ghost var before := V();
        var carry := AddRow(a.pn[j], b, j);
        k := MulStep(x, y, j, before, V(), k, carry);
        j := j + 1;
      }
      assert x[..WIDTH] == x;
      ValBound(pn[..]);
      ProductEnd(Val(x), v, M, k, V());
    }

    method CompareTo(b: BaseUint) returns (c: int)
      requires Valid() && b.Valid()
      ensures c == if V() < b.V() then -1 else if V() > b.V() then 1 else 0
    {
      var i := WIDTH - 1;
      while i >= 0
        invariant -1 <= i < WIDTH
        invariant pn[i + 1..] == b.pn[i + 1..]
      {
        if pn[i] < b.pn[i] {
          ValLess(pn[..], b.pn[..], i);
          return -1;
        }
        if pn[i] > b.pn[i] {
          ValLess(b.pn[..], pn[..], i);
          return 1;
        }
        i := i - 1;
      }
      assert pn[..] == pn[0..] == b.pn[0..] == b.pn[..];
      c := 0;
    }

    /** The position of the highest bit set plus one. */
    method Bits() returns (r: nat)
      requires Valid()
      ensures r <= 32 * WIDTH
      ensures V() < Pow2(r) && (r > 0 ==> Pow2(r - 1) <= V())
    {
      hide Val, PowB, Pow2;
      Pow2Of32();
      Pow2Small();
      var pos := WIDTH - 1;
      while pos >= 0
        invariant -1 <= pos < WIDTH
        invariant forall k :: pos < k < WIDTH ==> pn[k] == 0
      {
        if pn[pos] != 0 {
          ghost var v := pn[pos];
          var nbits := 31;
          while nbits > 0
            invariant 0 <= nbits <= 31 && v < Pow2(nbits + 1)
          {
            HighBit(v, nbits);
            if (pn[pos] / Pow2(nbits)) % 2 == 1 {
              TopLimb(pn[..], pos, nbits);
              return 32 * pos + nbits + 1;
            }
            nbits := nbits - 1;
          }
          TopLimb(pn[..], pos, 0);
          return 32 * pos + 1;
        }
        pos := pos - 1;
      }
      ValZero(pn[..]);
      r := 0;
    }

    method Clear()
      requires Valid()
      modifies pn
      ensures V() == 0 && forall k :: 0 <= k < WIDTH ==> pn[k] == 0
    {
      for k := 0 to WIDTH
        invariant forall l :: 0 <= l < k ==> pn[l] == 0
      {
        pn[k] := 0;
      }
      ValZero(pn[..]);
    }

    /** Assignment from a 64-bit number. */
    method Assign64(b: nat)
      requires Valid() && b < U64
      modifies pn
      ensures V() == b
    {
      Clear();
      pn[0] := b % B;
      pn[1] := b / B;
      FromLow(pn[..], b);
    }

    method GetLow64() returns (r: nat)
      requires Valid()
      ensures r == Low64(V()) && r < U64 && (V() < U64 ==> r == V())
    {
      hide Or, Val;
      Pow2Of32();
      MulMod(pn[1], B);
      OrDisjoint(pn[0], pn[1] * B, 32);
      r := Or(pn[0], pn[1] * B);
      LowWords(pn[..]);
    }

    /** pn[m] |= y, where the bits do not meet. */
    method OrLimb(m: nat, y: U32, ghost n: nat)
      requires Valid() && m < WIDTH && n <= 32
      requires (pn[m] < Pow2(n) && y % Pow2(n) == 0 && y <= B - Pow2(n)) || (y < Pow2(n) && pn[m] % Pow2(n) == 0 && pn[m] <= B - Pow2(n))
      modifies pn
      ensures pn[m] == old(pn[m]) + y && forall k :: 0 <= k < WIDTH && k != m ==> pn[k] == old(pn[k])
      ensures V() == old(V()) + Times(y, PowB(m))
    {
      hide Val, PowB, Pow2;
      ghost var s := pn[..];
      if pn[m] < Pow2(n) && y % Pow2(n) == 0 { OrDisjoint(pn[m], y, n); } else { OrDisjoint(y, pn[m], n); }
      ValUpdate(s, m, s[m] + y);
      pn[m] := Or(pn[m], y);
      assert pn[..] == s[m := s[m] + y];
    }

    /** One limb of a left shift by 32k + s bits; `lost` counts what falls off the top. */
    method ShlLimb(a: U32, i: nat, k: nat, s: nat) returns (ghost lost: nat)
      requires Valid() && i < WIDTH && s < 32
      requires forall m :: i + k < m < WIDTH ==> pn[m] == 0
      requires i + k < WIDTH ==> pn[i + k] < Pow2(s)
      modifies pn
      ensures V() + Times(lost, M) == old(V()) + Times(Times(a, Pow2(s)), PowB(i + k))
      ensures forall m :: i + 1 + k < m < WIDTH ==> pn[m] == 0
      ensures i + 1 + k < WIDTH ==> pn[i + 1 + k] < Pow2(s)
    {
      hide Val, PowB, Pow2, Times, Upper, Lower;
      ShiftParts(a, s);
      ZeroMod(s);
      if i + k + 1 < WIDTH && s != 0 {
        OrLimb(i + k + 1, Upper(a, s), s);
      }
      if i + k < WIDTH {
        OrLimb(i + k, Lower(a, s), s);
      }
      lost := ShlParts(a, s, i + k);
    }

    method ShlAssign(shift: nat)
      requires Valid()
      modifies pn
      ensures V() == (old(V()) * Pow2(shift)) % M
    {
      hide Val, PowB, Pow2, Times;
      ghost var x := pn[..];
      var a := new BaseUint.Copy(this);
      Clear();
      var k, s := shift / 32, shift % 32;
      ProductStart(x, Pow2(shift));
      ghost var lost: nat := 0;
      var i := 0;
      while i < WIDTH
        invariant 0 <= i <= WIDTH && a.pn[..] == x
        invariant V() + Times(lost, M) == Times(Val(x[..i]), Pow2(shift))
        invariant forall m :: i + k < m < WIDTH ==> pn[m] == 0
        invariant i + k < WIDTH ==> pn[i + k] < Pow2(s)
      {
        ghost var more := ShlLimb(a.pn[i], i, k, s);
        ShlStep(x, i, shift, lost, more);
        lost := lost + more;
        i := i + 1;
      }
      assert x[..WIDTH] == x;
      ValBound(pn[..]);
      ProductEnd(Val(x), Pow2(shift), M, lost, V());
    }

    /** One limb of a right shift by 32k + s bits. */
    method ShrLimb(a: U32, i: nat, k: nat, s: nat)
      requires Valid() && k <= i < WIDTH && s < 32
      requires forall m :: i - k <= m < WIDTH ==> pn[m] == 0
      requires i > k ==> pn[i - k - 1] < Pow2(32 - s)
      modifies pn
      ensures V() == old(V()) + Times(Upper(a, 32 - s), PowB(i - k)) + if i > k then Times(Lower(a, 32 - s), PowB(i - k - 1)) else 0
      ensures forall m :: i + 1 - k <= m < WIDTH ==> pn[m] == 0
      ensures pn[i - k] < Pow2(32 - s)
    {
      hide Val, PowB, Pow2, Times, Upper, Lower;
      ShiftParts(a, 32 - s);
      ZeroMod(32 - s);
      if i - k - 1 >= 0 && s != 0 {
        OrLimb(i - k - 1, Lower(a, 32 - s), 32 - s);
      }
      OrLimb(i - k, Upper(a, 32 - s), 32 - s);
      ghost var rest := Times(Lower(a, 32 - s), PowB(i - k - 1 + if i > k then 0 else 1));
      assert s == 0 ==> rest == 0 by { ZeroTimes(PowB(i - k - 1 + if i > k then 0 else 1)); }
    }

    method ShrAssign(shift: nat)
      requires Valid()
      modifies pn
      ensures V() == old(V()) / Pow2(shift)
    {
      hide Val, PowB, Pow2, Shifted;
      ghost var x := pn[..];
      var a := new BaseUint.Copy(this);
      Clear();
      var k, s := shift / 32, shift % 32;
      ghost var r := ShrStart(x, shift);
      var i := 0;
      while i < WIDTH
        invariant 0 <= i <= WIDTH && a.pn[..] == x
        invariant Shifted(V(), x, i, shift, r)
        invariant forall m :: 0 <= m < WIDTH && i - k <= m ==> pn[m] == 0
        invariant i > k ==> pn[i - k - 1] < Pow2(32 - s)
      {
        ghost var before := V();
        if i >= k {
          ShrLimb(a.pn[i], i, k, s);
        }
        r := ShrNext(before, x, i, shift, r);
        i := i + 1;
      }
      ShrEnd(V(), x, shift, r);
    }

    /** Sets bit `t` of the receiver, whose bits up to and including t are clear. */
    method SetBit(t: nat)
      requires Valid() && t < 32 * WIDTH && LowClear(pn[..], t + 1)
      modifies pn
      ensures V() == old(V()) + Pow2(t) && LowClear(pn[..], t)
    {
      hide Val, PowB, Pow2, Times, LowClear;
      ghost var s := pn[..];
      BitFits(s, t);
      OrLimb(t / 32, Pow2(t % 32), t % 32 + 1);
      assert pn[..] == s[t / 32 := s[t / 32] + Pow2(t % 32)];
    }

    /** One step of the long division at bit position t. */
    method DivStep(num: BaseUint, div: BaseUint, t: nat, ghost d: nat)
      requires Valid() && num.Valid() && div.Valid() && t < 32 * WIDTH
      requires num.pn != pn && div.pn != pn && num.pn != div.pn
      requires LowClear(pn[..], t + 1)
      requires div.V() == Times(d, Pow2(t)) && num.V() < Times(d, Pow2(t + 1))
      modifies pn, num.pn, div.pn
      ensures LowClear(pn[..], t)
      ensures num.V() < Times(d, Pow2(t)) && (t > 0 ==> div.V() == Times(d, Pow2(t - 1)))
      ensures num.V() + Times(V(), d) == old(num.V() + Times(V(), d))
    {
      hide Val, PowB, Pow2, Times, LowClear;
      ghost var n, v, q := num.V(), div.V(), V();
      DivDoubles(d, t);
      var c := num.CompareTo(div);
      if c >= 0 {
        ValBound(num.pn[..]);
        num.SubAssign(div);
        ModSmall(n - v, M);
        SetBit(t);
        TimesAdd(q, Pow2(t), d);
      } else {
        LowClearLess(pn[..], t);
      }
      div.ShrAssign(1);
      DivHalves(d, t);
    }

    /** Long division: false is the division-by-zero error, which leaves the receiver cleared. */
    method DivAssign(b: BaseUint) returns (ok: bool)
      requires Valid() && b.Valid()
      modifies pn
      ensures ok <==> old(b.V()) != 0
      ensures V() == if ok then old(V()) / old(b.V()) else 0
    {
      hide Val, PowB, Pow2, Times, LowClear;
      ghost var n, d := V(), b.V();
      var div := new BaseUint.Copy(b);
      var num := new BaseUint.Copy(this);
      ValBound(num.pn[..]);
      Clear();
      var numBits := num.Bits();
      var divBits := div.Bits();
      DivBits(n, d, numBits, divBits);
      if divBits == 0 {
        return false;
      }
      if divBits > numBits {
        return true;
      }
      var shift := numBits - divBits;
      div.ShlAssign(shift);
      TimesIs(d, Pow2(shift));
      ModSmall(d * Pow2(shift), M);
      AllClear(pn[..], shift + 1);
      TimesZero(d);
      var t: int := shift;
      while t >= 0
        invariant -1 <= t <= shift
        invariant LowClear(pn[..], t + 1)
        invariant num.V() < Times(d, Pow2(t + 1)) && (t >= 0 ==> div.V() == Times(d, Pow2(t)))
        invariant num.V() + Times(V(), d) == n
        decreases t
      {
        DivStep(num, div, t, d);
        t := t - 1;
      }
      DivEnd(n, d, V(), num.V());
      return true;
    }
  }

  /** Bits 0..t-1 of the number are zero. */
  ghost predicate LowClear(s: seq<U32>, t: nat)
  {
    forall m {:trigger s[m]} :: 0 <= m < |s| ==> ClearBelow(s[m], t - 32 * m)
  }

  ghost predicate ClearBelow(x: U32, c: int)
  {
    c <= 0 || (if c >= 32 then x == 0 else x % Pow2(c) == 0)
  }

  lemma ClearLess(x: U32, c: int)
    requires ClearBelow(x, c + 1)
    ensures ClearBelow(x, c)
  {
    if 0 < c {
      hide Pow2;
      if c + 1 < 32 {
        Pow2Step(c);
        ModHalf(x, Pow2(c));
      } else {
        ZeroMod(c);
      }
    }
  }

  lemma ModHalf(x: nat, p: nat)
    requires p > 0 && x % (2 * p) == 0
    ensures x % p == 0
  {
    var q := x / (2 * p);
    assert x == q * (2 * p) == (2 * q) * p;
    MulMod(2 * q, p);
  }

  lemma LowClearLess(s: seq<U32>, t: nat)
    requires LowClear(s, t + 1)
    ensures LowClear(s, t)
  {
    forall m | 0 <= m < |s|
      ensures ClearBelow(s[m], t - 32 * m)
    {
      ClearLess(s[m], t - 32 * m);
    }
  }

  lemma AllClear(s: seq<U32>, t: nat)
    requires forall m :: 0 <= m < |s| ==> s[m] == 0
    ensures LowClear(s, t)
  {
    forall m | 0 <= m < |s|
      ensures ClearBelow(s[m], t - 32 * m)
    {
      if 0 < t - 32 * m { ZeroMod(t - 32 * m); }
    }
  }

  lemma BitFits(s: seq<U32>, t: nat)
    requires |s| == WIDTH && t < 32 * WIDTH && LowClear(s, t + 1)
    ensures s[t / 32] % Pow2(t % 32 + 1) == 0 && Pow2(t % 32) < Pow2(t % 32 + 1)
    ensures s[t / 32] <= B - Pow2(t % 32 + 1)
    ensures Pow2(t % 32) < B && Times(Pow2(t % 32), PowB(t / 32)) == Pow2(t)
    ensures LowClear(s[t / 32 := s[t / 32] + Pow2(t % 32)], t)
  {
    hide Pow2, PowB, LowClear, ClearBelow, Times;
    var q, r := t / 32, t % 32;
    ShiftPower(t);
    TimesIs(Pow2(r), PowB(q));
    Pow2Step(r);
    LowClearAt(s, t + 1, q);
    LimbFits(s[q], r);
    LowClearLess(s, t);
    LowClearSet(s, t, q, s[q] + Pow2(r));
  }

  lemma LowClearAt(s: seq<U32>, t: nat, m: nat)
    requires m < |s| && LowClear(s, t)
    ensures ClearBelow(s[m], t - 32 * m)
  {
  }

  lemma LowClearSet(s: seq<U32>, t: nat, m: nat, x: U32)
    requires m < |s| && LowClear(s, t) && ClearBelow(x, t - 32 * m)
    ensures LowClear(s[m := x], t)
  {
  }

  lemma LimbFits(x: U32, r: nat)
    requires r < 32 && ClearBelow(x, r + 1)
    ensures x % Pow2(r + 1) == 0 && x <= B - Pow2(r + 1) && x + Pow2(r) < B
    ensures ClearBelow(x + Pow2(r), r)
  {
    hide Pow2;
    var p := Pow2(r + 1);
    Pow2Zero();
    Pow2Step(r);
    Pow2Add(r + 1, 31 - r);
    if r == 31 {
      ZeroMod(32);
      MulMod(1, Pow2(31));
    } else {
      var k := x / p;
      assert x == k * p;
      MultipleBelow(k, p, Pow2(31 - r));
      assert x + Pow2(r) == (2 * k + 1) * Pow2(r);
      MulMod(2 * k + 1, Pow2(r));
    }
  }

  lemma MultipleBelow(k: nat, p: nat, c: nat)
    requires k * p < p * c
    ensures k * p <= p * c - p
  {
    if k >= c {
      MulLe(c, k, p);
      assert false;
    }
    MulLe(k, c - 1, p);
    assert (c - 1) * p == p * c - p;
  }

  lemma ModSmall(x: int, m: nat)
    requires 0 <= x < m
    ensures x % m == x
  {
    ModUnique(x, m, 0, x);
  }

  lemma TimesAdd(x: nat, y: nat, d: nat)
    ensures Times(x + y, d) == Times(x, d) + Times(d, y)
  {
  }

  lemma TimesIs(x: nat, y: nat)
    ensures Times(x, y) == x * y
  {
  }

  lemma TimesZero(d: nat)
    ensures Times(0, d) == Times(d, 0) == 0
  {
  }

  lemma DivDoubles(d: nat, t: nat)
    ensures Times(d, Pow2(t + 1)) == 2 * Times(d, Pow2(t))
  {
  }

  lemma DivHalves(d: nat, t: nat)
    ensures t > 0 ==> Times(d, Pow2(t)) / Pow2(1) == Times(d, Pow2(t - 1))
  {
    if t > 0 { DivDoubles(d, t - 1); }
  }

  /** The bit lengths decide whether the quotient is zero, and leave room to align the divisor. */
  lemma DivBits(n: nat, d: nat, nb: nat, db: nat)
    requires nb <= 32 * WIDTH
    requires n < Pow2(nb) && (nb > 0 ==> Pow2(nb - 1) <= n)
    requires d < Pow2(db) && (db > 0 ==> Pow2(db - 1) <= d)
    ensures db == 0 <==> d == 0
    ensures db > nb ==> n / d == 0
    ensures 0 < db <= nb ==> Times(d, Pow2(nb - db)) < M && n < Times(d, Pow2(nb - db + 1))
  {
    hide Pow2, PowB, Times;
    Pow2Zero();
    if db > nb {
      Pow2Monotone(nb, db - 1);
      ModUnique(n, d, 0, n);
    } else if db > 0 {
      DivAligned(n, d, nb - db, db);
      PowBIsPow2(WIDTH);
      Pow2Monotone(nb, 32 * WIDTH);
    }
  }

  lemma DivAligned(n: nat, d: nat, s: nat, db: nat)
    requires db > 0 && n < Pow2(db + s) && Pow2(db - 1) <= d < Pow2(db)
    ensures Times(d, Pow2(s)) < Pow2(db + s) && n < Times(d, Pow2(s + 1))
  {
    hide Pow2;
    Pow2Add(db, s);
    Pow2Add(db - 1, s + 1);
    MulLe(Pow2(db - 1), d, Pow2(s + 1));
    MulLe(d + 1, Pow2(db), Pow2(s));
    MulAddOne(d, Pow2(s));
  }

  lemma MulAddOne(x: nat, p: nat)
    ensures (x + 1) * p == x * p + p
  {
  }

  lemma DivEnd(n: nat, d: nat, q: nat, r: nat)
    requires d > 0 && r < Times(d, Pow2(0)) && r + Times(q, d) == n
    ensures q == n / d
  {
    ModUnique(n, d, q, r);
  }

  /** v holds the bits of x[..i] from position `shift` up, and r those below. */
  ghost predicate Shifted(v: nat, x: seq<U32>, i: nat, shift: nat, r: nat)
    requires i <= |x|
  {
    && Times(v, Pow2(shift)) + r == Val(x[..i])
    && (i <= shift / 32 ==> v == 0)
    && (i > shift / 32 ==> r < Pow2(shift))
  }

  lemma ShrStart(x: seq<U32>, shift: nat) returns (r: nat)
    ensures Shifted(0, x, 0, shift, r)
  {
    r := 0;
  }

  lemma ShrNext(v: nat, x: seq<U32>, i: nat, shift: nat, r: nat) returns (r': nat)
    requires i < |x| && Shifted(v, x, i, shift, r)
    ensures var k, s := shift / 32, shift % 32;
            Shifted(if i < k then v
                    else v + Times(Upper(x[i], 32 - s), PowB(i - k)) +
                         if i > k then Times(Lower(x[i], 32 - s), PowB(i - k - 1)) else 0,
                    x, i + 1, shift, r')
  {
    hide Val, PowB, Pow2, Upper, Lower, Times, RightRest;
    var k, s := shift / 32, shift % 32;
    ValNext(x, i);
    if i < k {
      r' := r + Times(x[i], PowB(i));
    } else if i > k {
      ShrAbove(v, x[i], i, shift);
      r' := r;
    } else {
      ValBound(x[..i]);
      ShrAt(x[i], shift, r);
      TimesZero(Pow2(shift));
      r' := r + Times(RightRest(x[i], s), PowB(k));
    }
  }

  lemma ValNext(x: seq<U32>, i: nat)
    requires i < |x|
    ensures Val(x[..i + 1]) == Val(x[..i]) + Times(x[i], PowB(i))
  {
    ValSnoc(x, i);
  }

  lemma ShrAbove(v: nat, a: U32, i: nat, shift: nat)
    requires i > shift / 32
    ensures var k, s := shift / 32, shift % 32;
            Times(v + Times(Upper(a, 32 - s), PowB(i - k)) + Times(Lower(a, 32 - s), PowB(i - k - 1)), Pow2(shift))
            == Times(v, Pow2(shift)) + Times(a, PowB(i))
  {
    hide PowB, Pow2, Upper, Lower, RightRest;
    var k, s := shift / 32, shift % 32;
    RightParts(a, s);
    ShiftPower(shift);
    PowBAdd(i - k, k);
    PowBAdd(i - k - 1, k);
    PowBStep(i - 1);
    ShrStep(v, a, PowB(i - k), PowB(i - k - 1), PowB(k), PowB(i), PowB(i - 1), Pow2(s), Pow2(32 - s), Pow2(shift), Upper(a, 32 - s), RightRest(a, s));
  }

  lemma ShrAt(a: U32, shift: nat, r: nat)
    requires r < PowB(shift / 32)
    ensures var k, s := shift / 32, shift % 32;
            && Times(Times(Upper(a, 32 - s), PowB(0)), Pow2(shift)) + Times(RightRest(a, s), PowB(k)) == Times(a, PowB(k))
            && r + Times(RightRest(a, s), PowB(k)) < Pow2(shift)
  {
    hide PowB, Pow2, Upper, Lower, RightRest;
    var k, s := shift / 32, shift % 32;
    RightParts(a, s);
    ShiftPower(shift);
    PowBZero();
    ShrFirst(a, PowB(k), Pow2(s), Pow2(shift), r, Upper(a, 32 - s), RightRest(a, s));
  }

  lemma ShrEnd(v: nat, x: seq<U32>, shift: nat, r: nat)
    requires |x| == WIDTH && Shifted(v, x, WIDTH, shift, r)
    ensures v == Val(x) / Pow2(shift)
  {
    hide Val, PowB, Pow2;
    assert x[..WIDTH] == x;
    ValBound(x);
    if shift / 32 >= WIDTH {
      PowBIsPow2(WIDTH);
      Pow2Monotone(32 * WIDTH, shift);
    }
    ModUnique(Val(x), Pow2(shift), v, r);
  }

  lemma Pow2Zero()
    ensures Pow2(0) == 1 && Pow2(32) == B
  {
    Pow2Of32();
  }

  lemma ZeroMod(s: nat)
    ensures 0 % Pow2(s) == 0
  {
  }

  lemma ZeroTimes(p: nat)
    ensures Times(0, p) == 0
  {
  }

  /** What leaves a limb at the top when it is shifted left by s bits: a >> (32 - s). */
  function Upper(a: U32, s: nat): (r: U32)
    requires s <= 32
  {
    DivSmaller(a, Pow2(32 - s));
    a / Pow2(32 - s)
  }

  /** What stays in a limb shifted left by s bits: the low word of a << s. */
  function Lower(a: U32, s: nat): (r: U32)
  {
    (a * Pow2(s)) % B
  }

  ghost function RightRest(a: U32, s: nat): (r: nat)
  {
    a % Pow2(s)
  }

  lemma DivSmaller(a: nat, d: nat)
    requires d > 0
    ensures 0 <= a / d <= a
  {
    QuotientBound(a, d, a + 1);
  }

  lemma ShiftParts(a: U32, s: nat)
    requires s <= 32
    ensures Upper(a, s) < Pow2(s) && Lower(a, s) % Pow2(s) == 0 && Lower(a, s) <= B - Pow2(s)
    ensures Lower(a, s) + B * Upper(a, s) == Times(a, Pow2(s))
    ensures Lower(a, s) == Times(RightRest(a, 32 - s), Pow2(s))
    ensures s == 0 ==> Upper(a, s) == 0
    ensures s == 32 ==> Lower(a, s) == 0
  {
    hide Pow2;
    Pow2Add(s, 32 - s);
    Pow2Zero();
    ShiftNumbers(a, Pow2(s), Pow2(32 - s));
  }

  lemma ShiftNumbers(a: nat, p: nat, p': nat)
    requires p > 0 && p' > 0 && p * p' == B && a < B
    ensures (a * p) / B == a / p' < p && (a * p) % B == (a % p') * p <= B - p && ((a % p') * p) % p == 0
    ensures p == 1 ==> a / p' == 0
    ensures p' == 1 ==> a % p' == 0
  {
    var q, r := a / p', a % p';
    DivMod(a, p');
    ShiftSplit(q, r, p, p');
    MulLe(r, p' - 1, p);
    MulAddOne(p' - 1, p);
    ModUnique(a * p, B, q, r * p);
    MulMod(r, p);
    QuotientBound(a, p', p);
  }

  lemma ShiftSplit(q: nat, r: nat, p: nat, p': nat)
    ensures (q * p' + r) * p == q * (p * p') + r * p
  {
  }

  lemma RightParts(a: U32, s: nat)
    requires s < 32
    ensures a == Upper(a, 32 - s) * Pow2(s) + RightRest(a, s) && RightRest(a, s) < Pow2(s)
    ensures Lower(a, 32 - s) == Times(RightRest(a, s), Pow2(32 - s))
    ensures Pow2(s) * Pow2(32 - s) == B
  {
    hide Pow2;
    ShiftParts(a, 32 - s);
    Pow2Add(s, 32 - s);
    Pow2Of32();
    DivMod(a, Pow2(s));
  }

  lemma DivMod(a: nat, d: nat)
    requires d > 0
    ensures a == (a / d) * d + a % d && a % d < d
  {
  }

  /** What shifting one limb into position p adds, and what of it falls off the top. */
  lemma ShlParts(a: U32, s: nat, p: nat) returns (lost: nat)
    requires s < 32
    ensures Times(Times(a, Pow2(s)), PowB(p)) ==
            Times(lost, M) + (if p < WIDTH then Times(Lower(a, s), PowB(p)) else 0) +
            if p + 1 < WIDTH && s != 0 then Times(Upper(a, s), PowB(p + 1)) else 0
  {
    hide PowB, Pow2, Upper, Lower;
    ShiftParts(a, s);
    PowBStep(p);
    lost := if p + 1 < WIDTH then 0 else if p < WIDTH then Upper(a, s) else Times(a, Pow2(s)) * PowB(p - WIDTH);
    LimbSplit(Lower(a, s), Upper(a, s), Times(a, Pow2(s)), PowB(p));
    if p >= WIDTH {
      PowBAdd(p - WIDTH, WIDTH);
      MulSwap(Times(a, Pow2(s)), PowB(p - WIDTH), M);
    }
  }

  lemma MulSwap(x: nat, y: nat, z: nat)
    ensures x * y * z == x * (y * z)
  {
  }

  lemma ProductStart(x: seq<U32>, p: nat)
    ensures 0 + Times(0, M) == Times(Val(x[..0]), p)
  {
    assert x[..0] == [];
  }

  lemma ShlStep(x: seq<U32>, i: nat, shift: nat, lost: nat, more: nat)
    requires i < |x|
    ensures Times(Val(x[..i + 1]), Pow2(shift)) ==
            Times(Val(x[..i]), Pow2(shift)) + Times(Times(x[i], Pow2(shift % 32)), PowB(i + shift / 32))
    ensures Times(lost + more, M) == Times(lost, M) + Times(more, M)
  {
    hide Val, PowB, Pow2;
    ShiftPower(shift);
    ValSnoc(x, i);
    PowBAdd(i, shift / 32);
    ShlProduct(Val(x[..i]), x[i], PowB(i), PowB(shift / 32), Pow2(shift % 32), Pow2(shift));
  }

  lemma ProductEnd(v: nat, p: nat, m: nat, lost: nat, r: nat)
    requires r + Times(lost, m) == Times(v, p) && r < m
    ensures r == (v * p) % m
  {
    ModUnique(v * p, m, lost, r);
  }

  lemma QuotientBound(a: nat, d: nat, p: nat)
    requires d > 0 && a < p * d
    ensures a / d < p
  {
    var q := a / d;
    assert a == q * d + a % d;
    if q >= p {
      MulLe(p, q, d);
      assert false;
    }
  }

  lemma LimbSplit(low: nat, high: nat, w: nat, p: nat)
    requires low + B * high == w
    ensures low * p + high * (B * p) == w * p
  {
    assert (low + B * high) * p == low * p + B * high * p;
    assert B * high * p == high * (B * p);
  }

  lemma ShiftPower(shift: nat)
    ensures Pow2(shift) == PowB(shift / 32) * Pow2(shift % 32)
  {
    PowBIsPow2(shift / 32);
    Pow2Add(32 * (shift / 32), shift % 32);
  }

  lemma ShlProduct(v: nat, x: nat, pi: nat, pk: nat, ps: nat, p: nat)
    requires p == pk * ps
    ensures (v + x * pi) * p == v * p + x * ps * (pi * pk)
  {
    assert (v + x * pi) * p == v * p + x * pi * (pk * ps);
    assert x * pi * (pk * ps) == x * ps * (pi * pk);
  }

  lemma ShrStep(v: nat, x: nat, pik: nat, pik1: nat, pk: nat, pi: nat, pi1: nat, ps: nat, ps': nat, p: nat, h: nat, l: nat)
    requires x == h * ps + l
    requires p == pk * ps && pi == pik * pk && pi1 == pik1 * pk && pi == B * pi1 && ps * ps' == B
    ensures Times(v + Times(h, pik) + Times(Times(l, ps'), pik1), p) == Times(v, p) + Times(x, pi)
  {
    assert (v + h * pik + l * ps' * pik1) * p == v * p + h * pik * p + l * ps' * pik1 * p;
    ShrHigh(h, pik, pk, ps);
    ShrLow(l, ps', pik1, pk, ps);
    assert l * B * pi1 == l * (B * pi1);
    assert (h * ps + l) * pi == h * ps * pi + l * pi;
  }

  lemma ShrHigh(h: nat, pik: nat, pk: nat, ps: nat)
    ensures h * pik * (pk * ps) == h * ps * (pik * pk)
  {
  }

  lemma ShrLow(l: nat, ps': nat, pik1: nat, pk: nat, ps: nat)
    ensures l * ps' * pik1 * (pk * ps) == l * (ps * ps') * (pik1 * pk)
  {
  }

  lemma ShrFirst(x: nat, pk: nat, ps: nat, p: nat, r: nat, h: nat, l: nat)
    requires x == h * ps + l && l < ps && p == pk * ps && r < pk
    ensures Times(Times(h, 1), p) + Times(l, pk) == Times(x, pk)
    ensures r + Times(l, pk) < p
  {
    assert (h * ps + l) * pk == h * (pk * ps) + l * pk;
    MulLe(l + 1, ps, pk);
    assert (l + 1) * pk == l * pk + pk;
    assert ps * pk == pk * ps;
  }

  lemma Pow2Small()
    ensures Pow2(0) == 1 && Pow2(1) == 2
  {}

  lemma HighBit(v: nat, n: nat)
    requires v < Pow2(n + 1)
    ensures (v / Pow2(n)) % 2 == 1 <==> v >= Pow2(n)
  {
    var p := Pow2(n);
    if v >= p { ModUnique(v, p, 1, v - p); } else { ModUnique(v, p, 0, v); }
  }

  /** The highest non-zero limb fixes the size of the number. */
  lemma TopLimb(s: seq<U32>, pos: nat, n: nat)
    requires pos < |s| && n < 32 && Pow2(n) <= s[pos] < Pow2(n + 1) && forall k :: pos < k < |s| ==> s[k] == 0
    ensures Pow2(32 * pos + n) <= Val(s) < Pow2(32 * pos + n + 1)
  {
    hide Val, PowB, Pow2;
    ValSplit(s, pos + 1);
    ValZero(s[pos + 1..]);
    ValSnoc(s, pos);
    ValBound(s[..pos]);
    PowBIsPow2(pos);
    Pow2Add(32 * pos, n);
    Pow2Add(32 * pos, n + 1);
    var p := PowB(pos);
    MulLe(Pow2(n), s[pos], p);
    var v: nat := s[pos];
    MulLe(v + 1, Pow2(n + 1), p);
    assert (v + 1) * p == v * p + p;
    assert Pow2(n) * p == p * Pow2(n) && Pow2(n + 1) * p == p * Pow2(n + 1);
    assert PowB(pos + 1) * 0 == 0;
  }

  lemma RowStep(v: nat, carry: nat, was: nat, lo: nat, hi: nat, a: nat, y: nat, ys: nat, pi: nat, pj: nat, start: nat)
    requires v + carry * (pi * pj) == start + a * ys * pj
    requires lo + hi * B == carry + was + a * y
    ensures v + (lo - was as int) * (pi * pj) + hi * (B * (pi * pj)) == start + a * (ys + y * pi) * pj
  {
    var p := pi * pj;
    assert (lo - was as int) * p + hi * (B * p) == (lo + hi * B) * p - was * p;
    assert (carry + was + a * y) * p == carry * p + was * p + a * y * p;
    assert a * (ys + y * pi) * pj == a * ys * pj + a * (y * pi) * pj;
    assert a * (y * pi) * pj == a * y * p;
  }

  lemma RowStart(y: seq<U32>, aj: nat, j: nat)
    ensures Times(0, PowB(0 + j)) == Times(Times(aj, Val(y[..0])), PowB(j))
  {
    assert y[..0] == [];
  }

  lemma RowNext(s: seq<U32>, y: seq<U32>, i: nat, j: nat, aj: nat, carry: nat, lo: U32, hi: nat, start: nat)
    requires |s| == |y| == WIDTH && i + j < WIDTH
    requires Val(s) + Times(carry, PowB(i + j)) == start + Times(Times(aj, Val(y[..i])), PowB(j))
    requires lo + hi * B == carry + s[i + j] + Times(aj, y[i])
    ensures Val(s[i + j := lo]) + Times(hi, PowB(i + j + 1)) == start + Times(Times(aj, Val(y[..i + 1])), PowB(j))
  {
    hide Val, PowB;
    ValUpdate(s, i + j, lo);
    ValSnoc(y, i);
    PowBAdd(i, j);
    PowBStep(i + j);
    RowStep(Val(s), carry, s[i + j], lo, hi, aj, y[i], Val(y[..i]), PowB(i), PowB(j), start);
  }

  lemma MulRow(v: nat, before: nat, k: nat, carry: nat, x: nat, low: nat, plow: nat, rest: nat, pj: nat, xs: nat, y: nat, m: nat)
    requires v + carry * m == before + x * low * pj
    requires before + k * m == xs * y
    requires y == low + plow * rest && m == plow * pj
    ensures v + (k + carry + x * rest) * m == (xs + x * pj) * y
  {
    assert (xs + x * pj) * y == xs * y + x * pj * y;
    assert x * pj * y == x * pj * low + x * pj * (plow * rest);
    assert x * pj * low == x * low * pj;
    assert x * pj * (plow * rest) == x * rest * (plow * pj);
    assert (k + carry + x * rest) * m == k * m + carry * m + x * rest * m;
  }

  lemma MulStep(x: seq<U32>, y: seq<U32>, j: nat, before: nat, after: nat, k: nat, carry: nat) returns (k': nat)
    requires |x| == |y| == WIDTH && j < WIDTH
    requires before + Times(k, M) == Times(Val(x[..j]), Val(y))
    requires after + Times(carry, M) == before + Times(Times(x[j], Val(y[..WIDTH - j])), PowB(j))
    ensures after + Times(k', M) == Times(Val(x[..j + 1]), Val(y))
  {
    hide Val, PowB;
    ValSnoc(x, j);
    ValSplit(y, WIDTH - j);
    PowBAdd(WIDTH - j, j);
    var rest := Val(y[WIDTH - j..]);
    MulRow(after, before, k, carry, x[j], Val(y[..WIDTH - j]), PowB(WIDTH - j), rest, PowB(j), Val(x[..j]), Val(y), M);
    k' := k + carry + x[j] * rest;
  }

  lemma ValStart(s: seq<U32>, x: seq<U32>, y: seq<U32>)
    ensures Val(s[..0]) == Val(x[..0]) == Val(y[..0]) == 0 && PowB(0) == 1
  {}

  lemma PowBZero()
    ensures PowB(0) == 1
  {}

  lemma PowBStep(i: nat)
    ensures PowB(i + 1) == B * PowB(i)
  {}

  lemma AddLimb(low: nat, carry: nat, x: nat, y: nat, p: nat)
    ensures var n := carry + x + y;
            low + (n % B) * p + (n / B) * (B * p) == (low + carry * p) + x * p + y * p
  {
    CarryStep(carry + x + y, p);
    assert (carry + x + y) * p == carry * p + x * p + y * p;
  }

  lemma WrapStep(d: int, p: int)
    ensures d == 1 ==> d * p == p
    ensures d == -1 ==> d * p == -p
    ensures d == 1 - B ==> d * p == p - B * p
    ensures d == B - 1 ==> d * p == B * p - p
  {}

  lemma MulLimb(low: nat, carry: nat, lo: nat, hi: nat, x: nat, b: nat, v: nat, p: nat)
    requires low + carry * p == v * b && lo + hi * B == carry + 0 + b * x
    ensures low + lo * p + hi * (B * p) == (v + x * p) * b
  {
    assert lo * p + hi * (B * p) == (lo + hi * B) * p;
    assert (carry + b * x) * p == carry * p + b * x * p;
    assert (v + x * p) * b == v * b + x * p * b;
    assert x * p * b == b * x * p;
  }

  lemma SubAsAdd(x: nat, y: nat, m: nat)
    requires y < m
    ensures (x + (m - y) % m) % m == (x - y) % m
  {
    var q, r := (x - y) / m, (x - y) % m;
    assert x - y == q * m + r;
    if y == 0 {
      ModUnique(m, m, 1, 0);
    } else {
      ModUnique(m - y, m, 0, m - y);
      assert x + (m - y) == (q + 1) * m + r;
      ModUnique(x + (m - y), m, q + 1, r);
    }
  }

  function Times(a: nat, b: nat): nat { a * b }

  /** A product of limbs leaves room for two more limbs in 64 bits. */
  lemma ProductFits(a: nat, b: nat)
    requires a < B && b < B
    ensures Times(a, b) <= U64 - 2 * B + 1
  {
    MulLe(a, B - 1, b);
    MulLe(b, B - 1, B - 1);
    assert (B - 1) * b == b * (B - 1);
  }

  lemma SplitWord(n: nat)
    requires n < U64
    ensures n / B < B && n % B + (n / B) * B == n
  {}

  /** The low 64 bits of a number. */
  function Low64(x: nat): nat { x % U64 }

  lemma LowWords(s: seq<U32>)
    requires |s| == WIDTH
    ensures s[0] + s[1] * B < U64 && Val(s) % U64 == s[0] + s[1] * B
  {
    hide Val, PowB;
    LowPair(s);
    ValSplit(s, 2);
    ModUnit(s[0] + s[1] * B, Val(s[2..]));
  }

  lemma LowPair(s: seq<U32>)
    requires |s| >= 2
    ensures Val(s[..2]) == s[0] + s[1] * B && PowB(2) == U64
  {
    assert PowB(0) == 1 && PowB(1) == B && PowB(2) == U64;
    ValStart(s, s, s);
    hide Val, PowB;
    ValSnoc(s, 1);
    ValSnoc(s, 0);
  }

  lemma ModUnit(low: nat, x: nat)
    requires low < U64
    ensures (low + U64 * x) % U64 == low
  {
  }

  lemma FromLow(s: seq<U32>, b: nat)
    requires |s| == WIDTH && b < U64 && s[0] == b % B && s[1] == b / B && forall i :: 2 <= i < WIDTH ==> s[i] == 0
    ensures Val(s) == b
  {
    hide PowB, Val;
    LowPair(s);
    ValSplit(s, 2);
    ValZero(s[2..]);
  }
}
