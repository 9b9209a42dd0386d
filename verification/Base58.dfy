/**
 Base58 (src/base58.cpp): big-endian base conversion in a fixed buffer, with leading zero bytes
 written as leading ones.
 */
module Base58 {
  import opened Basics

  /** Digits, capitals and small letters in order, without '0', 'I', 'O' and 'l'. */
  function Letter(k: nat): char
    requires k < 58
  {
    if k < 9 then From('1', k)            // 1-9
    else if k < 17 then From('A', k - 9)  // A-H
    else if k < 22 then From('J', k - 17) // J-N
    else if k < 33 then From('P', k - 22) // P-Z
    else if k < 44 then From('a', k - 33) // a-k
    else From('m', k - 44)                // m-z
  }

  function From(c: char, k: nat): char
    requires c <= 'z' && k < 26
  {
    (c as int + k) as char
  }

  // ---------------------------------------------------------------- numbers in a base

  function Pow(b: nat, n: nat): (r: nat)
  {
    if n == 0 then 1 else Mul(b, Pow(b, n - 1))
  }

  function Mul(a: nat, b: nat): nat { a * b }

  /** The number a big-endian digit sequence stands for. */
  ghost function Num(d: seq<nat>, base: nat): nat {
    if d == [] then 0 else Mul(Num(d[..|d| - 1], base), base) + d[|d| - 1]
  }

  predicate Below(d: seq<nat>, base: nat) {
    forall i {:trigger d[i]} :: 0 <= i < |d| ==> d[i] < base
  }

  predicate NoLeadingZero(d: seq<nat>) { d != [] ==> d[0] != 0 }

  /** The shortest digits of a number: none for zero. */
  ghost function Digits(n: nat, base: nat): (d: seq<nat>)
    requires base >= 2
  {
    if n == 0 then [] else Smaller(n, base); Digits(n / base, base) + [n % base]
  }

  lemma Smaller(n: nat, base: nat)
    requires n > 0 && base >= 2
    ensures 0 <= n / base < n && 0 <= n % base < base
  {
    DivMod(n, base);
    if n / base >= n { MulGrows(n, n / base, base); assert false; }
  }

  lemma MulGrows(n: nat, q: nat, base: nat)
    requires q >= n > 0 && base >= 2
    ensures q * base > n
  {
    assert q * base >= q * 2;
  }

  lemma DivMod(n: nat, b: nat)
    requires b > 0
    ensures n == Mul(n / b, b) + n % b && 0 <= n % b < b && n / b >= 0
  {
  }

  lemma DivModUnique(q: nat, r: nat, b: nat)
    requires r < b
    ensures (Mul(q, b) + r) / b == q && (Mul(q, b) + r) % b == r
  {
    var x := q * b + r;
    DivMod(x, b);
    var q', r' := x / b, x % b;
    if q' < q { Gap(q', q, b); assert false; }
    if q' > q { Gap(q, q', b); assert false; }
  }

  lemma Gap(a: nat, c: nat, b: nat)
    requires a < c
    ensures a * b + b <= c * b
  {
    assert (a + 1) * b <= c * b;
  }

  /** Writing a number in its shortest digits and reading it back. */
  lemma {:induction false} NumOfDigits(n: nat, base: nat)
    requires base >= 2
    ensures Num(Digits(n, base), base) == n
    ensures Below(Digits(n, base), base) && NoLeadingZero(Digits(n, base)) && (n > 0 ==> Digits(n, base) != [])
  {
    if n > 0 {
      hide Mul;
      Smaller(n, base);
      var hi := n / base;
      NumOfDigits(hi, base);
      var d := Digits(hi, base);
      assert (d + [n % base])[..|d|] == d;
      DivMod(n, base);
      if hi == 0 { MulZero(base); }
    }
  }

  lemma MulZero(b: nat)
    ensures Mul(0, b) == 0
  {
  }

  /** Digits without a leading zero are the shortest digits of their number. */
  lemma {:induction false} DigitsOfNum(d: seq<nat>, base: nat)
    requires base >= 2 && Below(d, base) && NoLeadingZero(d)
    ensures Digits(Num(d, base), base) == d && (d != [] ==> Num(d, base) > 0)
  {
    if d != [] {
      hide Mul;
      var k := |d| - 1;
      var front := d[..k];
      DigitsOfNum(front, base);
      var q := Num(front, base);
      DivModUnique(q, d[k], base);
      NonZero(q, base, d[k]);
      assert d == front + [d[k]];
    }
  }

  lemma NonZero(q: nat, base: nat, r: nat)
    requires base > 0
    ensures Mul(q, base) + r > 0 <==> q > 0 || r > 0
  {
  }

  lemma {:induction false} NumCons(x: nat, d: seq<nat>, base: nat)
    ensures Num([x] + d, base) == Mul(x, Pow(base, |d|)) + Num(d, base)
  {
    if d == [] {
      assert [x] + d == [x];
      assert Num([x], base) == Mul(Num([], base), base) + x;
    } else {
      hide Mul;
      var k := |d| - 1;
      NumCons(x, d[..k], base);
      assert ([x] + d)[..k + 1] == [x] + d[..k];
      ConsStep(x, Pow(base, k), Num(d[..k], base), base);
    }
  }

  lemma ConsStep(x: nat, p: nat, y: nat, base: nat)
    ensures Mul(Mul(x, p) + y, base) == Mul(x, Mul(base, p)) + Mul(y, base)
  {
    assert (x * p + y) * base == x * p * base + y * base;
    assert x * p * base == x * (base * p);
  }

  lemma {:induction false} NumBound(d: seq<nat>, base: nat)
    requires base > 0 && Below(d, base)
    ensures Num(d, base) < Pow(base, |d|)
  {
    if d != [] {
      hide Mul;
      NumBound(d[..|d| - 1], base);
      BoundStep(Num(d[..|d| - 1], base), Pow(base, |d| - 1), base, d[|d| - 1]);
    }
  }

  lemma BoundStep(v: nat, p: nat, base: nat, r: nat)
    requires v < p && r < base
    ensures Mul(v, base) + r < Mul(base, p)
  {
    Gap(v, p, base);
  }

  /** Leading zeros do not count. */
  lemma {:induction false} NumDropZeros(d: seq<nat>, k: nat, base: nat)
    requires k <= |d| && forall i :: 0 <= i < k ==> d[i] == 0
    ensures Num(d, base) == Num(d[k..], base)
  {
    if k > 0 {
      NumDropZeros(d[1..], k - 1, base);
      assert d[1..][k - 1..] == d[k..];
      assert d == [0] + d[1..];
      NumCons(0, d[1..], base);
      MulZero(Pow(base, |d| - 1));
    } else {
      assert d[0..] == d;
    }
  }

  // ---------------------------------------------------------------- multiply and add in place

  /**
   buf := buf * mult + add, from the last digit on, stopping once nothing is carried past the digits in
   use. Returns how many digits are now in use; the carry is zero as the original asserts.
   */
  method MulAdd(buf: array<nat>, base: nat, mult: nat, add: nat, length: nat) returns (used: nat)
    requires base >= 2 && Below(buf[..], base) && length <= buf.Length
    requires forall i :: 0 <= i < buf.Length - length ==> buf[i] == 0
    requires Mul(Num(buf[..], base), mult) + add < Pow(base, buf.Length)
    modifies buf
    ensures Num(buf[..], base) == Mul(Num(old(buf[..]), base), mult) + add && Below(buf[..], base)
    ensures length <= used <= buf.Length && forall i :: 0 <= i < buf.Length - used ==> buf[i] == 0
  {
    hide Num, Pow, Mul;
    ghost var s := buf[..];
    var n := buf.Length;
    var carry: nat, i := add, 0;
    EmptySuffix(s, base, mult, add);
    assert buf[n..] == s[n..];
    while (carry != 0 || i < length) && i < n
      invariant 0 <= i <= n && Below(buf[..], base) && |s| == n
      invariant forall j :: 0 <= j < n - i ==> buf[j] == s[j]
      invariant Num(buf[n - i..], base) + Mul(carry, Pow(base, i)) == Mul(Num(s[n - i..], base), mult) + add
    {
      var at := n - 1 - i;
      ghost var low := buf[at + 1..];
      var total: nat := carry + Mul(mult, buf[at]);
      DivMod(total, base);
      buf[at] := total % base;
      carry := total / base;
      assert buf[at..] == [total % base] + low;
      assert s[at..] == [s[at]] + s[at + 1..];
      CarryStep(low, s[at + 1..], s[at], total, carry, base, mult, add, i);
      i := i + 1;
    }
    Finished(s, buf[..], i, carry, base, mult, add, length);
    assert carry == 0;
    used := i;
  }

  lemma EmptySuffix(s: seq<nat>, base: nat, mult: nat, add: nat)
    ensures Num(s[|s|..], base) + Mul(add, Pow(base, 0)) == Mul(Num(s[|s|..], base), mult) + add
  {
    assert s[|s|..] == [];
  }

  lemma CarryStep(low: seq<nat>, was: seq<nat>, x: nat, total: nat, carry: nat, base: nat, mult: nat, add: nat, i: nat)
    requires base > 0 && |low| == |was| == i && total >= Mul(mult, x)
    requires carry == total / base && Num(low, base) + Mul(total - Mul(mult, x), Pow(base, i)) == Mul(Num(was, base), mult) + add
    ensures Num([total % base] + low, base) + Mul(carry, Pow(base, i + 1)) == Mul(Num([x] + was, base), mult) + add
  {
    hide Num;
    NumCons(total % base, low, base);
    NumCons(x, was, base);
    DivMod(total, base);
    CarryNumbers(total, base, Pow(base, i), mult, x, Num(low, base), Num(was, base), add);
  }

  lemma CarryNumbers(total: nat, base: nat, p: nat, mult: nat, x: nat, low: nat, was: nat, add: nat)
    requires base > 0 && total >= Mul(mult, x) && low + Mul(total - Mul(mult, x), p) == Mul(was, mult) + add
    ensures Mul(total % base, p) + low + Mul(total / base, Mul(base, p)) == Mul(Mul(x, p) + was, mult) + add
  {
    DivMod(total, base);
    var q, r := total / base, total % base;
    assert (q * base + r) * p == q * (base * p) + r * p;
    assert (total - mult * x) * p == total * p - mult * x * p;
    assert (x * p + was) * mult == x * p * mult + was * mult;
    assert x * p * mult == mult * x * p;
  }

  lemma Finished(s: seq<nat>, t: seq<nat>, i: nat, carry: nat, base: nat, mult: nat, add: nat, length: nat)
    requires |s| == |t| && i <= |s| && base >= 2 && length <= |s| && Below(t, base)
    requires forall j :: 0 <= j < |s| - i ==> t[j] == s[j]
    requires forall j :: 0 <= j < |s| - length ==> s[j] == 0
    requires Num(t[|s| - i..], base) + Mul(carry, Pow(base, i)) == Mul(Num(s[|s| - i..], base), mult) + add
    requires Mul(Num(s, base), mult) + add < Pow(base, |s|)
    requires (carry == 0 && i >= length) || i == |s|
    ensures carry == 0 && i >= length && Num(t, base) == Mul(Num(s, base), mult) + add
  {
    hide Num, Pow;
    if i == |s| {
      assert s[0..] == s && t[0..] == t;
      if carry > 0 { AtLeast(carry, Pow(base, i)); assert false; }
    } else {
      NumDropZeros(s, |s| - i, base);
      NumDropZeros(t, |s| - i, base);
    }
  }

  lemma AtLeast(c: nat, p: nat)
    requires c > 0
    ensures Mul(c, p) >= p
  {
    assert c * p >= 1 * p;
  }

  // ---------------------------------------------------------------- the buffers are large enough

  lemma {:induction false} PowAdd(b: nat, m: nat, n: nat)
    ensures Pow(b, m + n) == Mul(Pow(b, m), Pow(b, n))
  {
    if m == 0 {
    } else {
      PowAdd(b, m - 1, n);
      assert Pow(b, m + n) == Mul(b, Pow(b, m - 1 + n));
      hide Pow, Mul;
      MulAssoc(b, Pow(b, m - 1), Pow(b, n));
    }
  }

  lemma MulAssoc(a: nat, b: nat, c: nat)
    ensures Mul(a, Mul(b, c)) == Mul(Mul(a, b), c)
  {
  }

  lemma {:induction false} PowGrows(b: nat, m: nat, n: nat)
    requires b >= 1 && m <= n
    ensures 1 <= Pow(b, m) <= Pow(b, n)
  {
    if n == 0 {
    } else if m == n {
      PowGrows(b, n - 1, n - 1);
      assert b * Pow(b, n - 1) >= 1;
    } else {
      PowGrows(b, m, n - 1);
      assert b * Pow(b, n - 1) >= Pow(b, n - 1);
    }
  }

  /** If a^i < b^j and a^m < b^n then a^(i+m) < b^(j+n). */
  lemma PowChain(a: nat, i: nat, m: nat, b: nat, j: nat, n: nat)
    requires Pow(a, i) < Pow(b, j) && Pow(a, m) < Pow(b, n)
    ensures Pow(a, i + m) < Pow(b, j + n)
  {
    hide Pow;
    PowAdd(a, i, m);
    PowAdd(b, j, n);
    ProductLess(Pow(a, i), Pow(b, j), Pow(a, m), Pow(b, n));
  }

  lemma ProductLess(a: nat, b: nat, c: nat, d: nat)
    requires a < b && c < d
    ensures Mul(a, c) < Mul(b, d)
  {
    assert a * c <= a * d;
    Gap(a, b, d);
  }

  function Size58(n: nat): nat { n * 138 / 100 + 1 }

  function Size256(n: nat): nat { n * 733 / 1000 + 1 }

  lemma PowZero(b: nat)
    ensures Pow(b, 0) == 1
  {
  }

  lemma PowStep(b: nat, n: nat, p: nat)
    requires Pow(b, n) == p
    ensures Pow(b, n + 1) == b * p
  {
  }

  lemma PowDouble(b: nat, n: nat, p: nat)
    requires Pow(b, n) == p
    ensures Pow(b, n + n) == p * p
  {
    PowAdd(b, n, n);
  }

  lemma PowersOf58()
    ensures Pow(58, 0) == 1
    ensures Pow(58, 1) == 58
    ensures Pow(58, 2) == 3364
    ensures Pow(58, 3) == 195112
    ensures Pow(58, 4) == 11316496
    ensures Pow(58, 5) == 656356768
    ensures Pow(58, 6) == 38068692544
    ensures Pow(58, 7) == 2207984167552
    ensures Pow(58, 8) == 128063081718016
    ensures Pow(58, 9) == 7427658739644928
    ensures Pow(58, 10) == 430804206899405824
    ensures Pow(58, 11) == 24986644000165537792
    ensures Pow(58, 12) == 1449225352009601191936
    ensures Pow(58, 13) == 84055070416556869132288
    ensures Pow(58, 14) == 4875194084160298409672704
    ensures Pow(58, 15) == 282761256881297307761016832
  {
    PowZero(58);
    hide Pow;
    PowStep(58, 0, 1);
    PowStep(58, 1, 58);
    PowStep(58, 2, 3364);
    PowStep(58, 3, 195112);
    PowStep(58, 4, 11316496);
    PowStep(58, 5, 656356768);
    PowStep(58, 6, 38068692544);
    PowStep(58, 7, 2207984167552);
    PowStep(58, 8, 128063081718016);
    PowStep(58, 9, 7427658739644928);
    PowStep(58, 10, 430804206899405824);
    PowStep(58, 11, 24986644000165537792);
    PowStep(58, 12, 1449225352009601191936);
    PowStep(58, 13, 84055070416556869132288);
    PowStep(58, 14, 4875194084160298409672704);
  }

  lemma PowersOf256()
    ensures Pow(256, 0) == 1
    ensures Pow(256, 1) == 256
    ensures Pow(256, 2) == 65536
    ensures Pow(256, 3) == 16777216
    ensures Pow(256, 4) == 4294967296
    ensures Pow(256, 5) == 1099511627776
    ensures Pow(256, 6) == 281474976710656
    ensures Pow(256, 7) == 72057594037927936
    ensures Pow(256, 8) == 18446744073709551616
    ensures Pow(256, 9) == 4722366482869645213696
    ensures Pow(256, 10) == 1208925819614629174706176
    ensures Pow(256, 11) == 309485009821345068724781056
  {
    PowZero(256);
    hide Pow;
    PowStep(256, 0, 1);
    PowStep(256, 1, 256);
    PowStep(256, 2, 65536);
    PowStep(256, 3, 16777216);
    PowStep(256, 4, 4294967296);
    PowStep(256, 5, 1099511627776);
    PowStep(256, 6, 281474976710656);
    PowStep(256, 7, 72057594037927936);
    PowStep(256, 8, 18446744073709551616);
    PowStep(256, 9, 4722366482869645213696);
    PowStep(256, 10, 1208925819614629174706176);
  }

  lemma SmallEncode(n: nat)
    requires n < 8
    ensures Pow(256, n) < Pow(58, Size58(n))
  {
    hide Pow;
    PowersOf58();
    PowersOf256();
    assert Pow(256, 0) < Pow(58, 1);
    assert Pow(256, 1) < Pow(58, 2);
    assert Pow(256, 2) < Pow(58, 3);
    assert Pow(256, 3) < Pow(58, 5);
    assert Pow(256, 4) < Pow(58, 6);
    assert Pow(256, 5) < Pow(58, 7);
    assert Pow(256, 6) < Pow(58, 9);
    assert Pow(256, 7) < Pow(58, 10);
  }

  /** n bytes fit in n * 138 / 100 + 1 base-58 digits. */
  lemma {:induction false} EncodeFits(n: nat)
    ensures Pow(256, n) < Pow(58, Size58(n))
  {
    if n < 8 {
      SmallEncode(n);
    } else {
      hide Pow;
      EncodeFits(n - 8);
      assert Pow(256, 8) < Pow(58, 11) by { PowersOf58(); PowersOf256(); }
      PowChain(256, 8, n - 8, 58, 11, Size58(n - 8));
      PowGrows(58, 11 + Size58(n - 8), Size58(n));
    }
  }

  lemma SmallDecode(n: nat)
    requires n < 16
    ensures Pow(58, n) < Pow(256, Size256(n))
  {
    hide Pow;
    PowersOf58();
    PowersOf256();
    assert Pow(58, 0) < Pow(256, 1);
    assert Pow(58, 1) < Pow(256, 1);
    assert Pow(58, 2) < Pow(256, 2);
    assert Pow(58, 3) < Pow(256, 3);
    assert Pow(58, 4) < Pow(256, 3);
    assert Pow(58, 5) < Pow(256, 4);
    assert Pow(58, 6) < Pow(256, 5);
    assert Pow(58, 7) < Pow(256, 6);
    assert Pow(58, 8) < Pow(256, 6);
    assert Pow(58, 9) < Pow(256, 7);
    assert Pow(58, 10) < Pow(256, 8);
    assert Pow(58, 11) < Pow(256, 9);
    assert Pow(58, 12) < Pow(256, 9);
    assert Pow(58, 13) < Pow(256, 10);
    assert Pow(58, 14) < Pow(256, 11);
    assert Pow(58, 15) < Pow(256, 11);
  }

  lemma DecodeStep(n: nat, a: nat, b: nat)
    requires a <= n && Pow(58, a) < Pow(256, b) && Pow(58, n - a) < Pow(256, Size256(n - a))
    requires b + Size256(n - a) <= Size256(n)
    ensures Pow(58, n) < Pow(256, Size256(n))
  {
    hide Pow, Size256;
    PowChain(58, a, n - a, 256, b, Size256(n - a));
    PowGrows(256, b + Size256(n - a), Size256(n));
  }

  /** 733 times a number up to 55 leaves at least 5 when divided by 1000. */
  lemma LargeRest(k: nat, q: nat, r: nat)
    requires 1 <= k <= 55 && 733 * k == 1000 * q + r
    ensures r >= 5
  {
    var t := 397 * q - 291 * k;
    assert k == 397 * r + 1000 * t;
  }

  lemma ThousandsIs(x: nat, a: nat, b: nat)
    requires x == 1000 * a + b && b < 1000
    ensures x / 1000 == a
  {}

  lemma SizeGap15(n: nat)
    requires 16 <= n < 71
    ensures 11 + Size256(n - 15) <= Size256(n)
  {
    var k := n - 15;
    var q, r := k * 733 / 1000, k * 733 % 1000;
    LargeRest(k, q, r);
    ThousandsIs(n * 733, q + 11, r - 5);
  }

  lemma SizeGap(n: nat, a: nat, b: nat)
    requires a <= n && 1000 * b <= 733 * a
    ensures b + Size256(n - a) <= Size256(n)
  {
  }

  lemma {:induction false} MediumDecode(n: nat)
    requires n < 71
    ensures Pow(58, n) < Pow(256, Size256(n))
  {
    if n < 16 {
      SmallDecode(n);
    } else {
      hide Pow, Size256;
      MediumDecode(n - 15);
      assert Pow(58, 15) < Pow(256, 11) by { PowersOf58(); PowersOf256(); }
      SizeGap15(n);
      DecodeStep(n, 15, 11);
    }
  }

  lemma ChunkFits()
    ensures Pow(58, 71) < Pow(256, 52)
  {
    hide Pow;
    PowersOf58();
    PowersOf256();
    PowDouble(58, 8, 128063081718016);
    PowDouble(58, 16, 16400152899115243850138976256);
    PowDouble(58, 32, 268965015114358137726910587140455987105619365599731777536);
    PowAdd(58, 64, 7);
    PowDouble(256, 8, 18446744073709551616);
    PowDouble(256, 16, 340282366920938463463374607431768211456);
    PowAdd(256, 32, 16);
    PowAdd(256, 48, 4);
    assert Pow(58, 71) == 159730386663078066345306447337161584696769904898410078913243029577507397293846405390982563136983769384625594118558891106107392;
    assert Pow(256, 52) == 169230328010303641331690318856389386196071598838855992136870091590247882556495704531248437872567112920983350278405979725889536;
  }

  /** Groups of a digits go into b bytes each; what is left is short. */
  lemma {:induction false} DecodeByGroups(n: nat, a: nat, b: nat)
    requires 0 < a <= 71 && 1000 * b <= 733 * a && Pow(58, a) < Pow(256, b)
    ensures Pow(58, n) < Pow(256, Size256(n))
  {
    hide Pow, Size256;
    if n < a {
      MediumDecode(n);
    } else {
      DecodeByGroups(n - a, a, b);
      SizeGap(n, a, b);
      DecodeStep(n, a, b);
    }
  }

  /** n base-58 digits fit in n * 733 / 1000 + 1 bytes. */
  lemma DecodeFits(n: nat)
    ensures Pow(58, n) < Pow(256, Size256(n))
  {
    hide Pow, Size256;
    ChunkFits();
    DecodeByGroups(n, 71, 52);
  }

  // ---------------------------------------------------------------- characters

  lemma AlphabetRises(i: nat)
    requires i + 1 < 58
    ensures Letter(i) < Letter(i + 1)
  {
  }

  lemma {:induction false} AlphabetOrder(i: nat, j: nat)
    requires i < j < 58
    ensures Letter(i) < Letter(j)
  {
    AlphabetRises(j - 1);
    if i < j - 1 { AlphabetOrder(i, j - 1); }
  }

  /** strchr: where a character first stands from position k on. */
  function Find(c: char, k: nat): (r: Option<nat>)
    requires k <= 58
    ensures r.Some? ==> k <= r.value < 58 && Letter(r.value) == c
    ensures r.None? ==> forall i :: k <= i < 58 ==> Letter(i) != c
    decreases 58 - k
  {
    if k == 58 then None else if Letter(k) == c then Some(k) else Find(c, k + 1)
  }

  predicate InAlphabet(c: char) { Find(c, 0).Some? }

  function ValueOf(c: char): (r: nat)
    requires InAlphabet(c)
    ensures r < 58 && Letter(r) == c
  {
    Find(c, 0).value
  }

  lemma ValueOfChar(k: nat)
    requires k < 58
    ensures InAlphabet(Letter(k)) && ValueOf(Letter(k)) == k
  {
    var v := ValueOf(Letter(k));
    if v < k { AlphabetOrder(v, k); }
    if k < v { AlphabetOrder(k, v); }
  }

  predicate IsSpace(c: char) {
    c == ' ' || (9 as char <= c <= 13 as char)
  }

  lemma AlphabetHasNoSpace(c: char)
    requires InAlphabet(c)
    ensures !IsSpace(c)
  {
    var v := ValueOf(c);
    if v > 0 { AlphabetOrder(0, v); }
  }

  function Chars(d: seq<nat>): (s: string)
    requires Below(d, 58)
    ensures |s| == |d| && forall i :: 0 <= i < |d| ==> s[i] == Letter(d[i])
  {
    seq(|d|, i requires 0 <= i < |d| => Letter(d[i]))
  }

  predicate AllIn(s: string) {
    forall i {:trigger s[i]} :: 0 <= i < |s| ==> InAlphabet(s[i])
  }

  function Values(s: string): (d: seq<nat>)
    requires AllIn(s)
    ensures |d| == |s| && Below(d, 58) && forall i {:trigger d[i]} :: 0 <= i < |d| ==> d[i] == ValueOf(s[i])
  {
    seq<nat>(|s|, i requires 0 <= i < |s| => ValueOf(s[i]))
  }

  lemma ValuesOfChars(d: seq<nat>)
    requires Below(d, 58)
    ensures AllIn(Chars(d)) && Values(Chars(d)) == d
  {
    hide Find;
    forall i {:trigger Chars(d)[i]} | 0 <= i < |d|
      ensures InAlphabet(Chars(d)[i]) && ValueOf(Chars(d)[i]) == d[i]
    {
      ValueOfChar(d[i]);
    }
  }

  lemma CharsOfValues(s: string)
    requires AllIn(s)
    ensures Chars(Values(s)) == s
  {
  }

  // ---------------------------------------------------------------- the two conversions

  function Repeat<T>(x: T, n: nat): (s: seq<T>)
    ensures |s| == n && forall i :: 0 <= i < n ==> s[i] == x
  {
    seq(n, _ => x)
  }

  /** The end of the run of zero bytes that starts at i. */
  function SkipZeros(v: seq<nat>, i: nat): (r: nat)
    requires i <= |v|
    ensures i <= r <= |v| && (forall j :: i <= j < r ==> v[j] == 0) && (r < |v| ==> v[r] != 0)
    decreases |v| - i
  {
    if i < |v| && v[i] == 0 then SkipZeros(v, i + 1) else i
  }

  function SkipSpaces(s: string, i: nat): (r: nat)
    requires i <= |s|
    ensures i <= r <= |s| && (forall j :: i <= j < r ==> IsSpace(s[j])) && (r < |s| ==> !IsSpace(s[r]))
    decreases |s| - i
  {
    if i < |s| && IsSpace(s[i]) then SkipSpaces(s, i + 1) else i
  }

  function SkipOnes(s: string, i: nat): (r: nat)
    requires i <= |s|
    ensures i <= r <= |s| && (forall j :: i <= j < r ==> s[j] == '1') && (r < |s| ==> s[r] != '1')
    decreases |s| - i
  {
    if i < |s| && s[i] == '1' then SkipOnes(s, i + 1) else i
  }

  function SkipWord(s: string, i: nat): (r: nat)
    requires i <= |s|
    ensures i <= r <= |s| && (forall j :: i <= j < r ==> !IsSpace(s[j])) && (r < |s| ==> IsSpace(s[r]))
    decreases |s| - i
  {
    if i < |s| && !IsSpace(s[i]) then SkipWord(s, i + 1) else i
  }

  /** Leading zero bytes as ones, then the rest as one number in base 58. */
  ghost function Encoded(v: seq<nat>): string
    requires Below(v, 256)
  {
    var z := SkipZeros(v, 0);
    var n := Num(v[z..], 256);
    NumOfDigits(n, 58);
    Repeat('1', z) + Chars(Digits(n, 58))
  }

  /** Leading ones as zero bytes, then the rest as one number in base 256, with spaces around ignored. */
  ghost function Decoded(s: string): Option<seq<nat>> {
    var a := SkipSpaces(s, 0);
    var b := SkipOnes(s, a);
    var c := SkipWord(s, b);
    if !AllIn(s[b..c]) || SkipSpaces(s, c) != |s| then None
    else Some(Repeat(0, b - a) + Digits(Num(Values(s[b..c]), 58), 256))
  }

  lemma OneIsZero()
    ensures Letter(0) == '1' && InAlphabet('1') && ValueOf('1') == 0
  {
    ValueOfChar(0);
  }

  /** Decoding what was encoded gives the bytes back. */
  lemma DecodeEncode(v: seq<nat>)
    requires Below(v, 256)
    ensures Decoded(Encoded(v)) == Some(v)
  {
    hide Digits, Num, Find;
    var z := SkipZeros(v, 0);
    var rest := v[z..];
    var n := Num(rest, 256);
    NumOfDigits(n, 58);
    DigitsOfNum(rest, 256);
    var d := Digits(n, 58);
    ValuesOfChars(d);
    var s := Encoded(v);
    assert s == Repeat('1', z) + Chars(d);
    EncodedIsWord(z, d);
    assert s[z..|s|] == Chars(d);
    assert Repeat(0, z) + rest == v;
  }

  lemma EncodedIsWord(z: nat, d: seq<nat>)
    requires Below(d, 58) && NoLeadingZero(d)
    ensures var s := Repeat('1', z) + Chars(d);
            SkipSpaces(s, 0) == 0 && SkipOnes(s, 0) == z && SkipWord(s, z) == |s| && SkipSpaces(s, |s|) == |s|
  {
    hide Find;
    var s := Repeat('1', z) + Chars(d);
    OneIsZero();
    ValuesOfChars(d);
    forall i | 0 <= i < |s|
      ensures InAlphabet(s[i]) && !IsSpace(s[i])
    {
      if i >= z { assert s[i] == Chars(d)[i - z]; }
      AlphabetHasNoSpace(s[i]);
    }
    if d != [] {
      assert s[z] == Chars(d)[0] == Letter(d[0]);
      AlphabetOrder(0, d[0]);
    }
    OnesEnd(s, 0, z);
  }

  lemma {:induction false} OnesEnd(s: string, i: nat, z: nat)
    requires i <= z <= |s| && (forall j :: i <= j < z ==> s[j] == '1') && (z < |s| ==> s[z] != '1')
    ensures SkipOnes(s, i) == z
  {
  }

  lemma ZerosEnd(v: seq<nat>, i: nat, z: nat)
    requires i <= z <= |v| && (forall j :: i <= j < z ==> v[j] == 0) && (z < |v| ==> v[z] != 0)
    ensures SkipZeros(v, i) == z
  {
  }

  /** Every string over the alphabet decodes, and encoding the result gives the string back. */
  lemma EncodeDecode(s: string)
    requires AllIn(s)
    ensures Decoded(s).Some? && Below(Decoded(s).value, 256) && Encoded(Decoded(s).value) == s
  {
    hide Digits, Num, Find, Letter;
    forall i | 0 <= i < |s|
      ensures !IsSpace(s[i])
    {
      AlphabetHasNoSpace(s[i]);
    }
    var z := SkipOnes(s, 0);
    var w := s[z..];
    assert s[z..|s|] == w;
    var d := Values(w);
    OneIsZero();
    assert w != [] ==> Letter(d[0]) == w[0] != '1';
    var n := Num(d, 58);
    NumOfDigits(n, 256);
    DigitsOfNum(d, 58);
    var b := Digits(n, 256);
    var v := Repeat(0, z) + b;
    assert Decoded(s) == Some(v);
    ZerosEnd(v, 0, z);
    assert v[z..] == b;
    CharsOfValues(w);
    assert Repeat('1', z) + w == s;
  }

  /** A string decodes exactly when it is a word over the alphabet with only spaces around it. */
  lemma DecodesIff(s: string)
    ensures Decoded(s).Some? <==> exists a: nat, c: nat :: IsPadded(s, a, c)
  {
    hide Digits, Num, Find;
    var a := SkipSpaces(s, 0);
    var b := SkipOnes(s, a);
    var c := SkipWord(s, b);
    OneIsZero();
    if Decoded(s).Some? {
      forall i {:trigger s[i]} | a <= i < c
        ensures InAlphabet(s[i])
      {
        if i >= b { assert s[b..c][i - b] == s[i]; }
      }
      assert IsPadded(s, a, c);
    }
    if x: nat, y: nat :| IsPadded(s, x, y) {
      PaddedDecodes(s, x, y);
    }
  }

  ghost predicate IsPadded(s: string, a: nat, c: nat) {
    && a <= c <= |s|
    && (forall i {:trigger s[i]} :: 0 <= i < a || c <= i < |s| ==> IsSpace(s[i]))
    && (forall i {:trigger s[i]} :: a <= i < c ==> InAlphabet(s[i]))
  }

  lemma PaddedDecodes(s: string, x: nat, y: nat)
    requires IsPadded(s, x, y)
    ensures Decoded(s).Some?
  {
    hide Digits, Num, Find;
    forall i | x <= i < y
      ensures !IsSpace(s[i])
    {
      AlphabetHasNoSpace(s[i]);
    }
    var a := SkipSpaces(s, 0);
    var b := SkipOnes(s, a);
    OneIsZero();
    AlphabetHasNoSpace('1');
    var c := SkipWord(s, b);
    forall i {:trigger s[b..c][i]} | 0 <= i < c - b
      ensures InAlphabet(s[b..c][i])
    {
      assert s[b..c][i] == s[b + i];
    }
  }

  /** The digits in use, without leading zeros, are the shortest ones of the number. */
  method Significant(buf: array<nat>, length: nat, base: nat) returns (d: seq<nat>)
    requires base >= 2 && Below(buf[..], base) && length <= buf.Length
    requires forall i :: 0 <= i < buf.Length - length ==> buf[i] == 0
    ensures d == Digits(Num(buf[..], base), base)
  {
    hide Num, Digits;
    var it := buf.Length - length;
    while it < buf.Length && buf[it] == 0
      invariant 0 <= it <= buf.Length && forall i :: 0 <= i < it ==> buf[i] == 0
    {
      it := it + 1;
    }
    d := buf[it..];
    ghost var s := buf[..];
    assert s[it..] == d;
    NumDropZeros(s, it, base);
    DigitsOfNum(d, base);
  }

  /** One more digit of the input fits the buffer as long as the whole input does. */
  lemma StepFits(d: seq<nat>, k: nat, base: nat, limit: nat)
    requires base > 0 && Below(d, base) && k < |d| && Pow(base, |d|) < limit
    ensures Num(d[..k + 1], base) == Mul(Num(d[..k], base), base) + d[k] < limit
  {
    assert d[..k + 1][..k] == d[..k];
    hide Num, Pow;
    NumBound(d[..k + 1], base);
    PowGrows(base, k + 1, |d|);
  }

  lemma NumZeros(s: seq<nat>, base: nat)
    requires forall i :: 0 <= i < |s| ==> s[i] == 0
    ensures Num(s, base) == 0
  {
    NumDropZeros(s, |s|, base);
    assert s[|s|..] == [];
  }

  method EncodeBase58(v: seq<nat>) returns (str: string)
    requires Below(v, 256)
    ensures str == Encoded(v)
  {
    hide Num, Digits, Pow, Mul;
    var zeroes := 0;
    while zeroes < |v| && v[zeroes] == 0
      invariant 0 <= zeroes <= |v| && SkipZeros(v, zeroes) == SkipZeros(v, 0)
    {
      zeroes := zeroes + 1;
    }
    var rest := v[zeroes..];
    var size := |rest| * 138 / 100 + 1;
    var b58 := new nat[size](_ => 0);
    EncodeFits(|rest|);
    NumZeros(b58[..], 58);
    NumZeros(rest[..0], 256);
    var length, p := 0, 0;
    while p < |rest|
      invariant 0 <= p <= |rest| && length <= size && Below(b58[..], 58)
      invariant forall i :: 0 <= i < size - length ==> b58[i] == 0
      invariant Num(b58[..], 58) == Num(rest[..p], 256)
    {
      StepFits(rest, p, 256, Pow(58, size));
      length := MulAdd(b58, 58, 256, rest[p], length);
      p := p + 1;
    }
    assert rest[..p] == rest;
    var d := Significant(b58, length, 58);
    NumOfDigits(Num(rest, 256), 58);
    str := Repeat('1', zeroes);
    var i := 0;
    while i < |d|
      invariant 0 <= i <= |d| && str == Repeat('1', zeroes) + Chars(d[..i])
    {
      str := str + [Letter(d[i])];
      assert Chars(d[..i + 1]) == Chars(d[..i]) + [Letter(d[i])];
      i := i + 1;
    }
    assert d[..i] == d;
  }

  /** Reads characters up to a space or the end as one number, in a buffer sized by the rest of the string. */
  method DecodeWord(s: string, start: nat) returns (ok: bool, psz: nat, d: seq<nat>)
    requires start <= |s|
    ensures psz <= |s| && (ok <==> AllIn(s[start..SkipWord(s, start)]))
    ensures ok ==> psz == SkipWord(s, start) && d == Digits(Num(Values(s[start..psz]), 58), 256)
  {
    hide Num, Digits, Pow, Mul, Find;
    psz, d := start, [];
    ghost var c := SkipWord(s, start);
    var size := (|s| - psz) * 733 / 1000 + 1;
    var b256 := new nat[size](_ => 0);
    NumZeros(b256[..], 256);
    NumZeros(Values(s[start..start]), 58);
    var length := 0;
    while psz < |s| && !IsSpace(s[psz])
      invariant start <= psz <= c && SkipWord(s, psz) == c && length <= size && Below(b256[..], 256)
      invariant forall i :: 0 <= i < size - length ==> b256[i] == 0
      invariant AllIn(s[start..psz]) && Num(b256[..], 256) == Num(Values(s[start..psz]), 58)
    {
      var ch := Find(s[psz], 0);
      if ch.None? {
        assert s[start..c][psz - start] == s[psz];
        return false, psz, [];
      }
      WordStep(s, start, psz, size);
      length := MulAdd(b256, 256, 58, ch.value, length);
      psz := psz + 1;
    }
    d := Significant(b256, length, 256);
    ok := true;
  }

  method DecodeBase58(s: string) returns (vch: Option<seq<nat>>)
    ensures vch == Decoded(s)
  {
    hide Num, Digits, Find, AllIn;
    var psz := 0;
    while psz < |s| && IsSpace(s[psz])
      invariant 0 <= psz <= |s| && SkipSpaces(s, psz) == SkipSpaces(s, 0)
    {
      psz := psz + 1;
    }
    ghost var a := psz;
    var zeroes := 0;
    while psz < |s| && s[psz] == '1'
      invariant a <= psz <= |s| && SkipOnes(s, psz) == SkipOnes(s, a) && zeroes == psz - a
    {
      zeroes := zeroes + 1;
      psz := psz + 1;
    }
    var ok, end, d := DecodeWord(s, psz);
    if !ok {
      return None;
    }
    psz := end;
    while psz < |s| && IsSpace(s[psz])
      invariant end <= psz <= |s| && SkipSpaces(s, psz) == SkipSpaces(s, end)
    {
      psz := psz + 1;
    }
    if psz != |s| {
      return None;
    }
    vch := Some(Repeat(0, zeroes) + d);
  }

  lemma WordStep(s: string, b: nat, p: nat, size: nat)
    requires b <= p < |s| && AllIn(s[b..p]) && InAlphabet(s[p]) && size == (|s| - b) * 733 / 1000 + 1
    ensures AllIn(s[b..p + 1])
    ensures Num(Values(s[b..p + 1]), 58) == Mul(Num(Values(s[b..p]), 58), 58) + ValueOf(s[p]) < Pow(256, size)
  {
    hide Num, Pow, Find, Mul;
    assert s[b..p + 1] == s[b..p] + [s[p]];
    var d := Values(s[b..p + 1]);
    assert d[..p - b] == Values(s[b..p]) && d[..p + 1 - b] == d;
    var n := |s| - b;
    DecodeFits(n);
    PowGrows(58, |d|, n);
    StepFits(d, p - b, 58, Pow(256, size));
  }
}
