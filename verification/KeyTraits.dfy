/** The default key traits of the concurrent map: the MurmurHash3 finalizers and their inverses. */
module KeyTraits {
  import opened Arithmetic

  // The layers: xor-shifts, and multiplications by odd constants modulo the word size.

  function XorShift16(x: bv32): bv32 { x ^ (x >> 16) }
  function XorShift13(x: bv32): bv32 { x ^ (x >> 13) }
  function UnXorShift13(x: bv32): bv32 { x ^ ((x ^ (x >> 13)) >> 13) }
  function XorShift33(x: bv64): bv64 { x ^ (x >> 33) }

  function Times32(x: bv32, c: bv32): bv32 { x * c }
  function Times64(x: bv64, c: bv64): bv64 { x * c }

  function Avalanche32(h: bv32): bv32
  {
    XorShift16(Times32(XorShift13(Times32(XorShift16(h), 0x85ebca6b)), 0xc2b2ae35))
  }

  function Deavalanche32(h: bv32): bv32
  {
    XorShift16(Times32(UnXorShift13(Times32(XorShift16(h), 0x7ed1b41d)), 0xa5cb9243))
  }

  function Avalanche64(h: bv64): bv64
  {
    XorShift33(Times64(XorShift33(Times64(XorShift33(h), 0xff51afd7ed558ccd)), 0xc4ceb9fe1a85ec53))
  }

  function Deavalanche64(h: bv64): bv64
  {
    XorShift33(Times64(XorShift33(Times64(XorShift33(h), 0x9cb4b2f8129337db)), 0x4f74430c22a54005))
  }

  // ---- each layer has an inverse ----

  lemma Xor16(x: bv32)
    ensures (x ^ (x >> 16)) ^ ((x ^ (x >> 16)) >> 16) == x
  {
  }

  lemma Xor13(x: bv32)
    ensures var y := x ^ (x >> 13); y ^ ((y ^ (y >> 13)) >> 13) == x
  {
  }

  lemma UnXor13(x: bv32)
    ensures var y := x ^ ((x ^ (x >> 13)) >> 13); y ^ (y >> 13) == x
  {
  }

  lemma Xor33(x: bv64)
    ensures (x ^ (x >> 33)) ^ ((x ^ (x >> 33)) >> 33) == x
  {
  }

  lemma XorShift16Inverse(x: bv32)
    ensures XorShift16(XorShift16(x)) == x
  {
    Xor16(x);
    assert XorShift16(x) == x ^ (x >> 16);
  }

  lemma XorShift13Inverse(x: bv32)
    ensures UnXorShift13(XorShift13(x)) == x
  {
    Xor13(x);
    assert XorShift13(x) == x ^ (x >> 13);
  }

  lemma UnXorShift13Inverse(x: bv32)
    ensures XorShift13(UnXorShift13(x)) == x
  {
    UnXor13(x);
    assert UnXorShift13(x) == x ^ ((x ^ (x >> 13)) >> 13);
  }

  lemma XorShift33Inverse(x: bv64)
    ensures XorShift33(XorShift33(x)) == x
  {
    Xor33(x);
    assert XorShift33(x) == x ^ (x >> 33);
  }

  lemma Regroup32(x: bv32, a: bv32, b: bv32)
    ensures (x * a) * b == x * (a * b)
  {
  }

  lemma Regroup64(x: bv64, a: bv64, b: bv64)
    ensures (x * a) * b == x * (a * b)
  {
  }

  lemma TimesTwice32(x: bv32, a: bv32, b: bv32)
    ensures Times32(Times32(x, a), b) == Times32(x, Times32(a, b))
  {
    Regroup32(x, a, b);
    assert Times32(x, a) == x * a && Times32(a, b) == a * b;
  }

  lemma TimesTwice64(x: bv64, a: bv64, b: bv64)
    ensures Times64(Times64(x, a), b) == Times64(x, Times64(a, b))
  {
    Regroup64(x, a, b);
    assert Times64(x, a) == x * a && Times64(a, b) == a * b;
  }

  lemma TimesOne(x: bv32, y: bv64)
    ensures Times32(x, 1) == x && Times64(y, 1) == y
  {
  }

  /** The constants of the inverse finalizers are the modular inverses of those of the finalizers. */
  lemma ModularInverses()
    ensures Times32(0x85ebca6b, 0xa5cb9243) == Times32(0xa5cb9243, 0x85ebca6b) == 1
    ensures Times32(0xc2b2ae35, 0x7ed1b41d) == Times32(0x7ed1b41d, 0xc2b2ae35) == 1
    ensures Times64(0xff51afd7ed558ccd, 0x4f74430c22a54005) == Times64(0x4f74430c22a54005, 0xff51afd7ed558ccd) == 1
    ensures Times64(0xc4ceb9fe1a85ec53, 0x9cb4b2f8129337db) == Times64(0x9cb4b2f8129337db, 0xc4ceb9fe1a85ec53) == 1
  {
  }

  /** Multiplication by a constant is undone by multiplication by its modular inverse. */
  lemma TimesInverse32(x: bv32, a: bv32, b: bv32)
    requires Times32(a, b) == 1
    ensures Times32(Times32(x, a), b) == x
  {
    hide Times32;
    TimesTwice32(x, a, b);
    TimesOne(x, 1);
  }

  lemma TimesInverse64(x: bv64, a: bv64, b: bv64)
    requires Times64(a, b) == 1
    ensures Times64(Times64(x, a), b) == x
  {
    hide Times64;
    TimesTwice64(x, a, b);
    TimesOne(1, x);
  }

  // ---- the finalizers are bijections ----

  lemma Deavalanche32OfAvalanche32(h: bv32)
    ensures Deavalanche32(Avalanche32(h)) == h
  {
    hide XorShift16, XorShift13, UnXorShift13, Times32;
    var a := XorShift16(h);
    var b := Times32(a, 0x85ebca6b);
    var c := XorShift13(b);
    ModularInverses();
    XorShift16Inverse(Times32(c, 0xc2b2ae35));
    TimesInverse32(c, 0xc2b2ae35, 0x7ed1b41d);
    XorShift13Inverse(b);
    TimesInverse32(a, 0x85ebca6b, 0xa5cb9243);
    XorShift16Inverse(h);
  }

  lemma Avalanche32OfDeavalanche32(h: bv32)
    ensures Avalanche32(Deavalanche32(h)) == h
  {
    hide XorShift16, XorShift13, UnXorShift13, Times32;
    var a := XorShift16(h);
    var b := Times32(a, 0x7ed1b41d);
    var c := UnXorShift13(b);
    ModularInverses();
    XorShift16Inverse(Times32(c, 0xa5cb9243));
    TimesInverse32(c, 0xa5cb9243, 0x85ebca6b);
    UnXorShift13Inverse(b);
    TimesInverse32(a, 0x7ed1b41d, 0xc2b2ae35);
    XorShift16Inverse(h);
  }

  lemma Deavalanche64OfAvalanche64(h: bv64)
    ensures Deavalanche64(Avalanche64(h)) == h
  {
    hide XorShift33, Times64;
    var a := XorShift33(h);
    var b := Times64(a, 0xff51afd7ed558ccd);
    var c := XorShift33(b);
    ModularInverses();
    XorShift33Inverse(Times64(c, 0xc4ceb9fe1a85ec53));
    TimesInverse64(c, 0xc4ceb9fe1a85ec53, 0x9cb4b2f8129337db);
    XorShift33Inverse(b);
    TimesInverse64(a, 0xff51afd7ed558ccd, 0x4f74430c22a54005);
    XorShift33Inverse(h);
  }

  lemma Avalanche64OfDeavalanche64(h: bv64)
    ensures Avalanche64(Deavalanche64(h)) == h
  {
    hide XorShift33, Times64;
    var a := XorShift33(h);
    var b := Times64(a, 0x9cb4b2f8129337db);
    var c := XorShift33(b);
    ModularInverses();
    XorShift33Inverse(Times64(c, 0x4f74430c22a54005));
    TimesInverse64(c, 0x4f74430c22a54005, 0xff51afd7ed558ccd);
    XorShift33Inverse(b);
    TimesInverse64(a, 0x9cb4b2f8129337db, 0xc4ceb9fe1a85ec53);
    XorShift33Inverse(h);
  }

  /** The finalizers are those of MurmurHash3. */
  lemma AvalancheOfOne()
    ensures Avalanche32(1) == 0x514e28b7
    ensures Avalanche64(1) == 0xb456bcfc34c2cb2c
  {
  }

  /** dehash inverts hash, distinct keys have distinct hashes, and only the null key has the null hash. */
  lemma HashIsInjective(j: bv64, k: bv64)
    ensures Deavalanche64(Avalanche64(k)) == k
    ensures Avalanche64(j) == Avalanche64(k) <==> j == k
    ensures Avalanche64(k) == 0 <==> k == 0
  {
    hide Avalanche64, Deavalanche64;
    Deavalanche64OfAvalanche64(j);
    Deavalanche64OfAvalanche64(k);
    AvalancheOfNull();
    Deavalanche64OfAvalanche64(0);
  }

  lemma AvalancheOfNull()
    ensures Avalanche64(0) == 0 && Avalanche32(0) == 0
  {
  }

  // ---- masking with capacity - 1 ----

  /** Bitwise and of two unsigned words of any width. */
  function BitAnd(x: nat, y: nat): nat
  {
    if x == 0 || y == 0 then 0 else (x % 2) * (y % 2) + 2 * BitAnd(x / 2, y / 2)
  }

  /** The source's test; the constructor of the map asserts it of the capacity. */
  predicate IsPowerOf2(v: nat)
    requires v > 0
  {
    BitAnd(v, v - 1) == 0
  }

  lemma {:induction false} BitAndSelf(x: nat)
    ensures BitAnd(x, x) == x
  {
    if x > 0 {
      BitAndSelf(x / 2);
      assert (x % 2) * (x % 2) == x % 2;
    }
  }

  /** A power of two is one, or twice a power of two. */
  lemma HalfPower(c: nat)
    requires c > 1 && IsPowerOf2(c)
    ensures c % 2 == 0 && IsPowerOf2(c / 2)
  {
    BitAndSelf(c / 2);
    var half := (c - 1) / 2;
    assert half == c / 2 || (c % 2 == 0 && half == c / 2 - 1);
    assert BitAnd(c, c - 1) == 2 * BitAnd(c / 2, (c - 1) / 2);
  }

  lemma RemainderByHalves(x: nat, c: nat)
    requires c > 0
    ensures x % (2 * c) == x % 2 + 2 * (x / 2 % c)
  {
    var q, r := x / 2 / c, x / 2 % c;
    assert x / 2 == c * q + r;
    assert x == (2 * c) * q + (x % 2 + 2 * r) by {
      assert x == 2 * (x / 2) + x % 2;
      assert (2 * c) * q == 2 * (c * q);
    }
    UniqueRemainder(x, 2 * c, q, x % 2 + 2 * r);
  }

  /** For a power-of-two capacity, masking with capacity - 1 is the remainder. */
  lemma {:induction false} MaskIsRemainder(x: nat, c: nat)
    requires c > 0 && IsPowerOf2(c)
    ensures BitAnd(x, c - 1) == x % c
  {
    hide IsPowerOf2;
    if c > 1 {
      HalfPower(c);
      MaskIsRemainder(x / 2, c / 2);
      RemainderByHalves(x, c / 2);
      assert (c - 1) % 2 == 1 && (c - 1) / 2 == c / 2 - 1;
    }
  }

  lemma {:induction false} PowerDivides(c: nat, n: nat)
    requires c > 0 && n > 0 && IsPowerOf2(c) && IsPowerOf2(n) && c <= n
    ensures n % c == 0
  {
    if c > 1 {
      HalfPower(c);
      HalfPower(n);
      PowerDivides(c / 2, n / 2);
      RemainderByHalves(n, c / 2);
    }
  }

  function Pow2(n: nat): (p: nat)
    ensures p > 0
  {
    if n == 0 then 1 else 2 * Pow2(n - 1)
  }

  lemma {:induction false} PowersOfTwo(n: nat)
    ensures IsPowerOf2(Pow2(n))
  {
    if n > 0 {
      PowersOfTwo(n - 1);
      var half := Pow2(n - 1);
      assert (2 * half - 1) / 2 == half - 1;
    }
  }

  /** The source's (hash - 1) & mask, in unsigned words of the given width (64 there), is the cell before
      the key's home. */
  lemma PredecessorIsPrevious(hash: nat, c: nat, width: nat)
    requires 0 < c <= Pow2(width) && IsPowerOf2(c) && hash < Pow2(width)
    ensures BitAnd((hash - 1) % Pow2(width), c - 1) == (if hash % c == 0 then c - 1 else hash % c - 1)
  {
    PowersOfTwo(width);
    hide BitAnd, IsPowerOf2, Pow2;
    var word := Pow2(width);
    UniqueRemainder(hash - 1, word, if hash == 0 then -1 else 0, if hash == 0 then word - 1 else hash - 1);
    MaskIsRemainder((hash - 1) % word, c);
    if hash == 0 {
      PowerDivides(c, word);
      PredecessorRemainder(word, c);
    } else {
      PredecessorRemainder(hash, c);
    }
  }

  lemma PredecessorRemainder(x: nat, c: nat)
    requires x > 0 && c > 0
    ensures (x - 1) % c == (if x % c == 0 then c - 1 else x % c - 1)
  {
    var q, r := x / c, x % c;
    assert x == c * q + r;
    if r == 0 {
      assert x - 1 == c * (q - 1) + (c - 1);
      assert q > 0;
      UniqueRemainder(x - 1, c, q - 1, c - 1);
    } else {
      UniqueRemainder(x - 1, c, q, r - 1);
    }
  }
}
