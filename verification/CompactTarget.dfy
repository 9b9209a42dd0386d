/**
 The compact ("nBits") form of a 256-bit number: a 23-bit mantissa, a sign bit and
 a base-256 exponent in one 32-bit word (src/arith_uint256.cpp).
 */
module CompactTarget {
  import opened Basics
  import opened Arith

  const SIGN: nat := 0x80_0000
  const UNIT: nat := 0x100_0000

  function Exponent(c: U32): nat { c / UNIT }

  function Mantissa(c: U32): nat { c % SIGN }

  predicate Signed(c: U32) { (c / SIGN) % 2 == 1 }

  /** The number a compact word stands for, without any width. */
  function Expand(c: U32): nat {
    var e := Exponent(c);
    if e <= 3 then Quotient(Mantissa(c), Pow2(8 * (3 - e))) else Times(Mantissa(c), Pow2(8 * (e - 3)))
  }

  function Quotient(a: nat, d: nat): nat
    requires d > 0
  {
    DivSmaller(a, d);
    a / d
  }

  /** The number of base-256 digits. */
  function ByteLen(v: nat): nat {
    if v == 0 then 0 else 1 + ByteLen(v / 256)
  }

  /** The three leading base-256 digits. */
  function Top(v: nat): nat {
    var n := ByteLen(v);
    if n <= 3 then Times(v, Pow2(8 * (3 - n))) else Quotient(v, Pow2(8 * (n - 3)))
  }

  function Word(m: nat, e: nat): (c: U32)
    requires m < SIGN && e < 256
    ensures Exponent(c) == e && Mantissa(c) == m && !Signed(c)
  {
    m + e * UNIT
  }

  ghost function Compact(v: nat): (c: U32)
    requires v < M
  {
    TopBound(v);
    if Top(v) >= SIGN then Word(Top(v) / 256, ByteLen(v) + 1) else Word(Top(v), ByteLen(v))
  }

  ghost predicate HasBytes(v: nat, n: nat) {
    v < Pow2(8 * n) && (n > 0 ==> Pow2(8 * (n - 1)) <= v)
  }

  lemma Pow2Byte(n: nat)
    ensures Pow2(8 * (n + 1)) == 256 * Pow2(8 * n)
  {
    hide Pow2;
    Pow2Add(8, 8 * n);
    assert Pow2(8) == 256 by { SmallPowers(); }
  }

  lemma SmallPowers()
    ensures Pow2(0) == 1 && Pow2(8) == 256 && Pow2(15) == 0x8000 && Pow2(16) == 0x1_0000
    ensures Pow2(23) == SIGN && Pow2(24) == UNIT
  {
    assert Pow2(8) == 256;
    Pow2Add(8, 8);
    assert Pow2(7) == 128;
    Pow2Add(8, 7);
    Pow2Add(16, 7);
    Pow2Add(16, 8);
  }

  lemma {:induction false} ByteLenHas(v: nat)
    ensures HasBytes(v, ByteLen(v))
  {
    if v == 0 {
      SmallPowers();
    } else {
      hide Pow2;
      SmallPowers();
      ByteLenHas(v / 256);
      var n := ByteLen(v / 256);
      Pow2Byte(n);
      if n > 0 { Pow2Byte(n - 1); }
    }
  }

  lemma BytesUnique(v: nat, n: nat, k: nat)
    requires HasBytes(v, n) && HasBytes(v, k)
    ensures n == k
  {
    hide Pow2;
    if n < k { Pow2Monotone(8 * n, 8 * (k - 1)); }
    if k < n { Pow2Monotone(8 * k, 8 * (n - 1)); }
  }

  /** The digit count of a 256-bit number, and the range of its three leading digits. */
  lemma TopBound(v: nat)
    requires v < M
    ensures ByteLen(v) <= 32 && Top(v) < UNIT && (v > 0 ==> Top(v) >= 0x1_0000)
  {
    hide Pow2, PowB;
    var n := ByteLen(v);
    ByteLenHas(v);
    SmallPowers();
    PowBIsPow2(WIDTH);
    if n > 32 { Pow2Monotone(256, 8 * (n - 1)); }
    if 0 < n <= 3 {
      TopSmall(v, n);
    } else if n > 3 {
      TopLarge(v, n);
    }
  }

  lemma TopSmall(v: nat, n: nat)
    requires 0 < n <= 3 && HasBytes(v, n)
    ensures 0x1_0000 <= v * Pow2(8 * (3 - n)) < UNIT
  {
    hide Pow2;
    SmallPowers();
    Pow2Add(8 * n, 8 * (3 - n));
    Pow2Add(8 * (n - 1), 8 * (3 - n));
    MulLe(Pow2(8 * (n - 1)), v, Pow2(8 * (3 - n)));
    MulLe(v + 1, Pow2(8 * n), Pow2(8 * (3 - n)));
    MulAddOne(v, Pow2(8 * (3 - n)));
  }

  lemma TopLarge(v: nat, n: nat)
    requires n > 3 && HasBytes(v, n)
    ensures 0x1_0000 <= v / Pow2(8 * (n - 3)) < UNIT
  {
    hide Pow2;
    SmallPowers();
    Pow2Add(24, 8 * (n - 3));
    Pow2Add(16, 8 * (n - 3));
    QuotientBound(v, Pow2(8 * (n - 3)), UNIT);
    QuotientFloor(v, Pow2(8 * (n - 3)), 0x1_0000);
  }

  lemma QuotientFloor(a: nat, d: nat, q: nat)
    requires d > 0 && q * d <= a
    ensures q <= a / d
  {
    DivMod(a, d);
    if a / d < q {
      MulLe(a / d + 1, q, d);
      MulAddOne(a / d, d);
      assert false;
    }
  }

  lemma DivTwice(v: nat, p: nat)
    requires p > 0
    ensures v / p / 256 == v / (256 * p)
  {
    DivMod(v, p);
    var q := v / p;
    assert q == 256 * (q / 256) + q % 256;
    MulLe(q % 256, 255, p);
    assert v == (q / 256) * (256 * p) + ((q % 256) * p + v % p) by { SplitQuotient(q / 256, q % 256, p); }
    ModUnique(v, 256 * p, q / 256, (q % 256) * p + v % p);
  }

  lemma SplitQuotient(h: nat, l: nat, p: nat)
    ensures (256 * h + l) * p == h * (256 * p) + l * p
  {
  }

  // ---------------------------------------------------------------- what the word stands for

  /**
   The shape of an encoding: exact when the exponent is at most three, otherwise the number
   rounded down to a multiple of its unit, with a mantissa of at least 2^15.
   */
  lemma CompactShape(v: nat)
    requires v < M
    ensures var c := Compact(v);
            && !Signed(c)
            && (Exponent(c) <= 3 ==> Expand(c) == v)
            && (Exponent(c) > 3 ==> Mantissa(c) == v / Pow2(8 * (Exponent(c) - 3)) && Mantissa(c) >= 0x8000)
  {
    hide Pow2, PowB, ByteLen;
    TopBound(v);
    var c, n, e := Compact(v), ByteLen(v), Exponent(Compact(v));
    SmallPowers();
    if n <= 3 {
      var p := Pow2(8 * (3 - n));
      if Top(v) < SIGN {
        MulMod(v, p);
      } else if n < 3 {
        Pow2Byte(2 - n);
        ScaledDown(v, Pow2(8 * (2 - n)));
      }
    } else {
      ByteLenZero();
      Pow2Byte(n - 3);
      DivTwice(v, Pow2(8 * (n - 3)));
    }
  }

  lemma ByteLenZero()
    ensures ByteLen(0) == 0
  {
  }

  lemma ScaledDown(v: nat, p: nat)
    requires p > 0
    ensures v * (256 * p) / 256 == v * p && (v * p) / p == v
  {
    MulMod(v * p, 256);
    assert v * (256 * p) == v * p * 256;
    MulMod(v, p);
  }

  /** No compact word stands for a larger number that is still at most v. */
  lemma CompactIsGreatest(v: nat, c': U32)
    requires v < M && Expand(c') <= v
    ensures Expand(c') <= Expand(Compact(v)) <= v
  {
    hide Pow2, PowB, ByteLen, Compact;
    CompactShape(v);
    var c := Compact(v);
    var e := Exponent(c);
    if e > 3 {
      var u := Pow2(8 * (e - 3));
      DivMod(v, u);
      if Exponent(c') >= e {
        CoarserWord(v, c', e);
      } else {
        FinerWord(c', e);
        MulLe(0x8000, Mantissa(c), u);
      }
    }
  }

  /** A word with a larger exponent stands for a multiple of the unit. */
  lemma CoarserWord(v: nat, c': U32, e: nat)
    requires 3 < e <= Exponent(c') && Expand(c') <= v
    ensures Expand(c') <= (v / Pow2(8 * (e - 3))) * Pow2(8 * (e - 3))
  {
    hide Pow2;
    var u, d := Pow2(8 * (e - 3)), 8 * (Exponent(c') - e);
    Pow2Add(d, 8 * (e - 3));
    var k := Mantissa(c') * Pow2(d);
    MulSwap(Mantissa(c'), Pow2(d), u);
    QuotientFloor(v, u, k);
    MulLe(k, v / u, u);
  }

  /** A word with a smaller exponent stands for less than 2^15 units. */
  lemma FinerWord(c': U32, e: nat)
    requires 3 < e && Exponent(c') < e
    ensures Expand(c') <= 0x8000 * Pow2(8 * (e - 3))
  {
    hide Pow2;
    SmallPowers();
    var e' := Exponent(c');
    if e' <= 3 {
      DivSmaller(Mantissa(c'), Pow2(8 * (3 - e')));
      Pow2Monotone(8, 8 * (e - 3));
    } else {
      Pow2Byte(e' - 3);
      Pow2Monotone(8 * (e' - 2), 8 * (e - 3));
      MulLe(Mantissa(c'), SIGN, Pow2(8 * (e' - 3)));
    }
  }

  /** Decoding loses less than one part in 2^15, and sets neither the sign nor the overflow flag. */
  lemma CompactIsPrecise(v: nat)
    requires v < M
    ensures var y := Expand(Compact(v)); y <= v && (v - y) * 0x8000 <= v && y < M
    ensures !Signed(Compact(v))
  {
    hide Pow2, PowB, ByteLen, Compact;
    CompactShape(v);
    var c := Compact(v);
    if Exponent(c) > 3 {
      var u := Pow2(8 * (Exponent(c) - 3));
      DivMod(v, u);
      MulLe(0x8000, Mantissa(c), u);
    }
  }

  /** Encoding, decoding and encoding again gives the same word. */
  lemma CompactIsStable(v: nat)
    requires v < M
    ensures Expand(Compact(v)) < M && Compact(Expand(Compact(v))) == Compact(v)
  {
    hide Pow2, PowB, ByteLen, Compact;
    CompactShape(v);
    CompactIsPrecise(v);
    if Exponent(Compact(v)) > 3 {
      StableDigits(v);
    }
  }

  lemma StableDigits(v: nat)
    requires v < M && Exponent(Compact(v)) > 3 && Expand(Compact(v)) < M
    ensures Compact(Expand(Compact(v))) == Compact(v)
  {
    hide Pow2, PowB, ByteLen, HasBytes, Times, Quotient;
    CompactShape(v);
    CompactIsPrecise(v);
    TopBound(v);
    ByteLenHas(v);
    ByteLenZero();
    var c, n := Compact(v), ByteLen(v);
    var y := Expand(c);
    SmallPowers();
    QuotientByOne(y);
    if Top(v) < SIGN {
      StablePlain(v, n, Mantissa(c));
    } else {
      StableMoved(v, n, Mantissa(c));
    }
    ByteLenHas(y);
    BytesUnique(y, ByteLen(y), n);
  }

  lemma QuotientByOne(y: nat)
    ensures Quotient(y, 1) == Times(y, 1) == y
  {
  }

  lemma StablePlain(v: nat, n: nat, m: nat)
    requires n > 3 && HasBytes(v, n) && m >= 0x1_0000 && Times(m, Pow2(8 * (n - 3))) <= v
    ensures HasBytes(Times(m, Pow2(8 * (n - 3))), n)
    ensures Quotient(Times(m, Pow2(8 * (n - 3))), Pow2(8 * (n - 3))) == m
  {
    hide Pow2;
    SmallPowers();
    MulMod(m, Pow2(8 * (n - 3)));
    Pow2Add(16, 8 * (n - 3));
    MulLe(0x1_0000, m, Pow2(8 * (n - 3)));
  }

  lemma StableMoved(v: nat, n: nat, m: nat)
    requires n >= 3 && HasBytes(v, n) && m >= 0x8000 && Times(m, Pow2(8 * (n - 2))) <= v
    ensures HasBytes(Times(m, Pow2(8 * (n - 2))), n)
    ensures Quotient(Times(m, Pow2(8 * (n - 2))), Pow2(8 * (n - 3))) == 256 * m
  {
    hide Pow2;
    SmallPowers();
    Pow2Byte(n - 3);
    var p := Pow2(8 * (n - 3));
    assert m * (256 * p) == 256 * m * p;
    MulMod(256 * m, p);
    Pow2Byte(n - 2);
    MulLe(256, m, Pow2(8 * (n - 2)));
  }

  // ---------------------------------------------------------------- the two conversions

  lemma FitsIff(w: nat, k: nat)
    requires k <= 256
    ensures w * Pow2(k) >= Pow2(256) <==> w >= Pow2(256 - k)
  {
    hide Pow2;
    Pow2Add(256 - k, k);
    if w >= Pow2(256 - k) {
      MulLe(Pow2(256 - k), w, Pow2(k));
    } else {
      MulLe(w + 1, Pow2(256 - k), Pow2(k));
      MulAddOne(w, Pow2(k));
    }
  }

  /** The overflow test on mantissa and exponent decides whether the shifted mantissa fits. */
  lemma OverflowIff(w: nat, e: nat)
    requires 3 < e && w < SIGN
    ensures w * Pow2(8 * (e - 3)) >= M
       <==> w != 0 && (e > 34 || (w > 0xff && e > 33) || (w > 0xffff && e > 32))
  {
    hide Pow2, PowB;
    PowBIsPow2(WIDTH);
    SmallPowers();
    if w == 0 {
    } else if e > 34 {
      Pow2Monotone(256, 8 * (e - 3));
      MulLe(1, w, Pow2(8 * (e - 3)));
    } else {
      FitsIff(w, 8 * (e - 3));
      if e <= 32 { Pow2Monotone(24, 256 - 8 * (e - 3)); }
    }
  }

  /** Assigns from a compact word. */
  method SetCompact(target: BaseUint, nCompact: U32) returns (negative: bool, overflow: bool)
    requires target.Valid()
    modifies target.pn
    ensures target.V() == Expand(nCompact) % M
    ensures overflow <==> Expand(nCompact) >= M
    ensures negative <==> Signed(nCompact) && Expand(nCompact) != 0
  {
    hide Pow2, PowB;
    var size, word := nCompact / UNIT, nCompact % SIGN;
    if size <= 3 {
      DivSmaller(word, Pow2(8 * (3 - size)));
      word := word / Pow2(8 * (3 - size));
      target.Assign64(word);
      SmallFits(word);
      ModSmall(word, M);
    } else {
      target.Assign64(word);
      target.ShlAssign(8 * (size - 3));
      OverflowIff(word, size);
      NonZeroProduct(word, Pow2(8 * (size - 3)));
    }
    negative := word != 0 && (nCompact / SIGN) % 2 == 1;
    overflow := word != 0 && (size > 34 || (word > 0xff && size > 33) || (word > 0xffff && size > 32));
  }

  lemma SmallFits(w: nat)
    requires w < SIGN
    ensures w < M
  {
    hide Pow2, PowB;
    PowBIsPow2(WIDTH);
    SmallPowers();
    Pow2Monotone(24, 256);
  }

  lemma NonZeroProduct(w: nat, p: nat)
    requires p > 0
    ensures w * p == 0 <==> w == 0
  {
  }

  /** The compact word of a number; a sign is recorded only beside a non-zero mantissa. */
  method GetCompact(x: BaseUint, fNegative: bool) returns (c: U32)
    requires x.Valid()
    ensures x.V() < M
    ensures c == Compact(x.V()) + if fNegative && Mantissa(Compact(x.V())) != 0 then SIGN else 0
  {
    hide Pow2, PowB, ByteLen, Val, Top, Or;
    ghost var v := x.V();
    ValBound(x.pn[..]);
    TopBound(v);
    var word, size := TopDigits(x);
    HighBit24(word);
    if (word / SIGN) % 2 == 1 {
      word := word / 256;
      size := size + 1;
    }
    OrWord(word, size);
    c := Or(word, size * UNIT);
    assert c == Compact(v) == Word(word, size);
    if fNegative && c % SIGN != 0 {
      OrSign(word, size);
      c := Or(c, SIGN);
    }
  }

  /** The digit count and the three leading digits, by way of the bit length and a shift. */
  method TopDigits(x: BaseUint) returns (word: nat, size: nat)
    requires x.Valid()
    ensures size == ByteLen(x.V()) && word == Top(x.V())
  {
    hide Pow2, PowB, ByteLen, Val, Low64;
    ghost var v := x.V();
    ValBound(x.pn[..]);
    TopBound(v);
    var bits := x.Bits();
    size := (bits + 7) / 8;
    SizeIsByteLen(v, bits);
    if size <= 3 {
      word := x.GetLow64();
      LowIsAll(v, size);
      word := Times(word, Pow2(8 * (3 - size)));
    } else {
      var bn := new BaseUint.Copy(x);
      bn.ShrAssign(8 * (size - 3));
      word := bn.GetLow64();
    }
  }

  lemma HighBit24(word: nat)
    requires word < UNIT
    ensures (word / SIGN) % 2 == 1 <==> word >= SIGN
  {
  }

  lemma SizeIsByteLen(v: nat, bits: nat)
    requires v < Pow2(bits) && (bits > 0 ==> Pow2(bits - 1) <= v)
    ensures (bits + 7) / 8 == ByteLen(v)
  {
    hide Pow2, ByteLen;
    var n := (bits + 7) / 8;
    Pow2Monotone(bits, 8 * n);
    if n > 0 { Pow2Monotone(8 * (n - 1), bits - 1); }
    ByteLenHas(v);
    BytesUnique(v, n, ByteLen(v));
  }

  lemma LowIsAll(v: nat, size: nat)
    requires size <= 3 && size == ByteLen(v)
    ensures v < UNIT
  {
    hide Pow2, ByteLen;
    ByteLenHas(v);
    SmallPowers();
    Pow2Monotone(8 * size, 24);
  }

  lemma OrWord(m: nat, e: nat)
    requires m < SIGN
    ensures Or(m, e * UNIT) == m + e * UNIT
  {
    hide Pow2, Or;
    SmallPowers();
    MulMod(e, UNIT);
    OrDisjoint(m, e * UNIT, 24);
  }

  lemma OrSign(m: nat, e: nat)
    requires m < SIGN
    ensures Or(m + e * UNIT, SIGN) == m + e * UNIT + SIGN
  {
    hide Pow2, Or;
    SmallPowers();
    OrSplit(m, 2 * e, 0, 1, 23);
    OrZero(m);
    assert Pow2(1) == 2 by { Pow2Step(0); }
    OrDisjoint(1, 2 * e, 1);
  }

  /** A bitwise or acts on the parts above and below a position separately. */
  lemma {:induction false} OrSplit(a: nat, h: nat, b: nat, k: nat, s: nat)
    requires a < Pow2(s) && b < Pow2(s)
    ensures Or(a + Pow2(s) * h, b + Pow2(s) * k) == Or(a, b) + Pow2(s) * Or(h, k)
  {
    if s == 0 {
      OrZero(0);
    } else {
      hide Or, Pow2;
      Pow2Step(s - 1);
      OrSplit(a / 2, h, b / 2, k, s - 1);
      OrDoubled(a, h, b, k, Pow2(s - 1), Pow2(s));
    }
  }

  lemma OrDoubled(a: nat, h: nat, b: nat, k: nat, p: nat, p2: nat)
    requires p2 == 2 * p && Or(a / 2 + p * h, b / 2 + p * k) == Or(a / 2, b / 2) + p * Or(h, k)
    ensures Or(a + p2 * h, b + p2 * k) == Or(a, b) + p2 * Or(h, k)
  {
    hide Or;
    HalfParts(a, p, h);
    HalfParts(b, p, k);
    OrStep(a + p2 * h, b + p2 * k);
    OrStep(a, b);
    Distribute(Or(a / 2, b / 2), p, Or(h, k));
  }

  lemma Distribute(x: nat, p: nat, y: nat)
    ensures 2 * (x + p * y) == 2 * x + 2 * p * y
  {
  }

  lemma HalfParts(a: nat, p: nat, h: nat)
    ensures (a + 2 * p * h) / 2 == a / 2 + p * h && (a + 2 * p * h) % 2 == a % 2
  {
    assert 2 * p * h == 2 * (p * h);
  }

  lemma OrStep(x: nat, y: nat)
    ensures Or(x, y) == 2 * Or(x / 2, y / 2) + if x % 2 == 1 || y % 2 == 1 then 1 else 0
  {
    OrZero(0);
  }
}
