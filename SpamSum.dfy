/** The SpamSum (ssdeep-style) context-triggered piecewise hash: a rolling
    hash over a 7-byte window decides where the input is cut, two FNV-style
    accumulators digest each piece into one Base64 letter of the "left"
    (block size B) and "right" (block size 2B) signatures, and the block
    size is chosen from the input length and halved while the left
    signature comes out too short. */
module SpamSumHash {
  import opened Basics

  type byte = b: int | 0 <= b < 256

  const HASH_PRIME: int := 0x01000193
  const HASH_INIT: int := 0x28021967
  /** Size of the Base64 alphabet `A-Z a-z 0-9 + /`, whose letters
      `Letter` spells out. */
  const ALPHABET_SIZE: int := 64
  const ROLLING_WINDOW: int := 7
  const TWO_32: int := 0x1_0000_0000

  const DEFAULT_SPAMSUM_LENGTH: int := 64
  const DEFAULT_LETTERS: int := 64
  const DEFAULT_MIN_BLOCKSIZE: int := 3

  /** The knobs the hash reads: the left signature's capacity, how many
      letters of the alphabet are used, and the smallest block size. */
  datatype Config = Config(spamsumLength: int, letters: int, minBlockSize: int) {
    /** What the code assumes without checking: an even capacity of at
        least 2 (so that half of it is a whole number), between 1 and 64
        letters (so that the alphabet index is in range), and a positive
        minimum block size (so that the doubling loop terminates). */
    predicate Valid() {
      spamsumLength >= 2 && spamsumLength % 2 == 0 &&
      1 <= letters <= ALPHABET_SIZE && minBlockSize >= 1
    }
  }

  /** The `x`-th letter of the Base64 alphabet. */
  function Letter(x: int): (ch: char)
    requires 0 <= x < 64
    ensures LetterIndex(ch) == x
  {
    if x < 26 then ('A' as int + x) as char
    else if x < 52 then ('a' as int + x - 26) as char
    else if x < 62 then ('0' as int + x - 52) as char
    else if x == 62 then '+'
    else '/'
  }

  /** The position of `ch` in the Base64 alphabet, or -1 when it is not a
      Base64 letter. */
  function LetterIndex(ch: char): (x: int)
    ensures -1 <= x < 64
  {
    if 'A' <= ch <= 'Z' then ch as int - 'A' as int
    else if 'a' <= ch <= 'z' then ch as int - 'a' as int + 26
    else if '0' <= ch <= '9' then ch as int - '0' as int + 52
    else if ch == '+' then 62
    else if ch == '/' then 63
    else -1
  }

  // ---------------------------------------------------------------------
  // Unsigned 32-bit arithmetic

  function Pow2(e: nat): (r: nat)
    ensures r >= 1
  {
    if e == 0 then 1 else 2 * Pow2(e - 1)
  }

  lemma Pow2Of32()
    ensures Pow2(32) == TWO_32
  {
    assert Pow2(4) == 0x10;
    assert Pow2(8) == 0x100;
    assert Pow2(12) == 0x1000;
    assert Pow2(16) == 0x1_0000;
    assert Pow2(20) == 0x10_0000;
    assert Pow2(24) == 0x100_0000;
    assert Pow2(28) == 0x1000_0000;
  }

  /** Bitwise exclusive or of the low `n` bits of `a` and `b`, bit by bit
      from the least significant one. */
  function XorBits(a: nat, b: nat, n: nat): (r: nat)
    ensures r < Pow2(n)
  {
    if n == 0 then 0
    else (if a % 2 != b % 2 then 1 else 0) + 2 * XorBits(a / 2, b / 2, n - 1)
  }

  /** Exclusive or of two unsigned 32-bit values. */
  function Xor32(a: int, b: int): (r: int)
    requires 0 <= a < TWO_32 && 0 <= b < TWO_32
    ensures 0 <= r < TWO_32
  {
    Pow2Of32();
    XorBits(a, b, 32)
  }

  /** Multiplication by the FNV prime, modulo 2^32. */
  function MulPrime32(h: int): (m: int)
    ensures 0 <= m < TWO_32
  {
    (h * HASH_PRIME) % TWO_32
  }

  /** Exclusive or of a 32-bit value with a byte: the bits above the low
      eight are kept, the low eight are xored. */
  function XorByte(a: int, c: byte): (r: int)
    requires 0 <= a < TWO_32
    ensures 0 <= r < TWO_32
    ensures r / 256 == a / 256
  {
    var x := XorBits(a % 256, c, 8);
    ModUnique(a - a % 256 + x, 256, a / 256, x);
    a - a % 256 + x
  }

  /** Xoring the same value in twice gives back the original. */
  lemma {:induction false} XorBitsCancel(a: nat, b: nat, n: nat)
    requires a < Pow2(n)
    ensures XorBits(XorBits(a, b, n), b, n) == a
  {
    if n > 0 {
      var x := XorBits(a, b, n);
      XorBitsHalves(a, b, n);
      XorBitsCancel(a / 2, b / 2, n - 1);
      XorBitsHalves(x, b, n);
      BitAndHalf(a % 2, a / 2);
    }
  }

  /** The lowest bit of `XorBits(a, b, n)` is the xor of the lowest bits,
      and the rest is the xor of the halves. */
  lemma XorBitsHalves(a: nat, b: nat, n: nat)
    requires n > 0
    ensures XorBits(a, b, n) % 2 == (if a % 2 != b % 2 then 1 else 0)
    ensures XorBits(a, b, n) / 2 == XorBits(a / 2, b / 2, n - 1)
  {
    BitAndHalf(if a % 2 != b % 2 then 1 else 0, XorBits(a / 2, b / 2, n - 1));
  }

  lemma BitAndHalf(bit: int, t: int)
    requires 0 <= bit < 2
    ensures (bit + 2 * t) % 2 == bit && (bit + 2 * t) / 2 == t
  {
  }

  /** Reducing modulo `2^m` keeps the lowest bit and halves to the
      reduction of the half modulo `2^(m-1)`. */
  lemma LowBits(a: nat, m: nat)
    requires m >= 1
    ensures (a % Pow2(m)) % 2 == a % 2
    ensures (a % Pow2(m)) / 2 == (a / 2) % Pow2(m - 1)
  {
    var p := Pow2(m - 1);
    var q, r := a / Pow2(m), a % Pow2(m);
    assert a == q * (2 * p) + r;
    assert a == 2 * (q * p + r / 2) + r % 2;
    ModUnique(a, 2, q * p + r / 2, r % 2);
    ModUnique(a / 2, p, q, r / 2);
  }

  /** Dividing by 2 and then by `2^(m-1)` is dividing by `2^m`. */
  lemma HalfDiv(a: nat, m: nat)
    requires m >= 1
    ensures (a / 2) / Pow2(m - 1) == a / Pow2(m)
  {
    var p := Pow2(m - 1);
    var q, r := (a / 2) / p, (a / 2) % p;
    assert a == 2 * (a / 2) + a % 2;
    assert a == q * (2 * p) + (2 * r + a % 2);
    ModUnique(a, 2 * p, q, 2 * r + a % 2);
  }

  /** Only the low `m` bits of `a` take part in `XorBits(a, b, m)`. */
  lemma {:induction false} XorBitsLow(a: nat, b: nat, m: nat)
    ensures XorBits(a % Pow2(m), b, m) == XorBits(a, b, m)
  {
    if m > 0 {
      LowBits(a, m);
      XorBitsLow(a / 2, b, m - 1);
      XorBitsLow(a / 2, b / 2, m - 1);
    }
  }

  /** Xoring with zero keeps the low `n` bits. */
  lemma {:induction false} XorBitsZero(a: nat, n: nat)
    ensures XorBits(a, 0, n) == a % Pow2(n)
  {
    if n > 0 {
      XorBitsZero(a / 2, n - 1);
      LowBits(a, n);
      var r := a % Pow2(n);
      assert r == 2 * (r / 2) + r % 2;
    } else {
      ModUnique(a, 1, a, 0);
    }
  }

  /** When `b` has no bits at or above position `m`, the bits of `a`
      from position `m` up to `n` pass through unchanged. */
  lemma {:induction false} XorBitsSplit(a: nat, b: nat, m: nat, n: nat)
    requires m <= n && b < Pow2(m)
    ensures XorBits(a, b, n) == XorBits(a, b, m) + Pow2(m) * ((a / Pow2(m)) % Pow2(n - m))
  {
    if m == 0 {
      XorBitsZero(a, n);
      ModUnique(a, 1, a, 0);
    } else {
      var p := Pow2(m - 1);
      assert Pow2(m) == 2 * p;
      assert b / 2 < p;
      HalfDiv(a, m);
      var t := (a / Pow2(m)) % Pow2(n - m);
      assert (n - 1) - (m - 1) == n - m;
      XorBitsSplit(a / 2, b / 2, m - 1, n - 1);
      assert XorBits(a / 2, b / 2, n - 1) == XorBits(a / 2, b / 2, m - 1) + p * t;
      DoubleProduct(p, t);
    }
  }

  lemma DoubleProduct(p: int, t: int)
    ensures 2 * (p * t) == (2 * p) * t
  {
  }

  /** The byte xor agrees with the full 32-bit xor. */
  lemma XorByteIsXor32(a: int, c: byte)
    requires 0 <= a < TWO_32
    ensures XorByte(a, c) == Xor32(a, c)
  {
    Pow2Of32();
    assert Pow2(8) == 256;
    assert Pow2(24) == 0x100_0000 by {
      assert Pow2(16) == 0x1_0000;
    }
    XorBitsSplit(a, c, 8, 32);
    XorBitsLow(a, c, 8);
    ModUnique(a / 256, 0x100_0000, 0, a / 256);
  }

  lemma SmallMod32(x: int)
    requires 0 <= x < TWO_32
    ensures x % TWO_32 == x
  {
  }

  /** The non-rolling FNV-style hash: multiply by the prime modulo 2^32,
      then xor in the byte. The second reduction modulo 2^32 the code
      applies after the xor changes nothing. */
  function SumHash(c: byte, h: int): (r: int)
    requires 0 <= h < TWO_32
    ensures 0 <= r < TWO_32
    ensures r == XorByte(MulPrime32(h), c)
  {
    SmallMod32(XorByte(MulPrime32(h), c));
    XorByte(MulPrime32(h), c) % TWO_32
  }

  /** Xoring the byte back out of a step of the hash gives the multiplied
      accumulator: no bit of the byte is lost. */
  lemma SumHashUndo(c: byte, h: int)
    requires 0 <= h < TWO_32
    ensures XorByte(SumHash(c, h), c) == MulPrime32(h)
  {
    var a := MulPrime32(h);
    var r := SumHash(c, h);
    var x := XorBits(a % 256, c, 8);
    XorBitsCancel(a % 256, c, 8);
    ModUnique(r, 256, a / 256, x);
  }

  // ---------------------------------------------------------------------
  // The rolling hash, as functions of the bytes fed in since the reset

  /** The byte fed in `age` steps before the newest one, or 0 before the start. */
  function Recent(hist: seq<byte>, age: nat): byte
  {
    if age < |hist| then hist[|hist| - 1 - age] else 0
  }

  /** Sum of the last seven bytes. */
  function WindowSum(hist: seq<byte>): (r: int)
    ensures 0 <= r <= 7 * 255
  {
    Recent(hist, 0) + Recent(hist, 1) + Recent(hist, 2) + Recent(hist, 3) +
    Recent(hist, 4) + Recent(hist, 5) + Recent(hist, 6)
  }

  /** The last seven bytes weighted by recency: 7 for the newest, 1 for the oldest. */
  function WeightedSum(hist: seq<byte>): (r: int)
    ensures 0 <= r <= 28 * 255
  {
    7 * Recent(hist, 0) + 6 * Recent(hist, 1) + 5 * Recent(hist, 2) + 4 * Recent(hist, 3) +
    3 * Recent(hist, 4) + 2 * Recent(hist, 5) + 1 * Recent(hist, 6)
  }

  /** The shift/xor component: shifted left by 5 within 32 bits, then the
      byte xored in, for every byte since the reset. */
  function ShiftXor(hist: seq<byte>): (r: int)
    ensures 0 <= r < TWO_32
    decreases |hist|
  {
    if hist == [] then 0
    else XorByte((ShiftXor(hist[..|hist| - 1]) * 32) % TWO_32, hist[|hist| - 1])
  }

  /** The value the rolling hash returns after `hist`: the plain sum of the
      three components, not reduced modulo 2^32. */
  function RollingValue(hist: seq<byte>): (r: int)
    ensures 0 <= r < TWO_32 + 35 * 255
  {
    WindowSum(hist) + WeightedSum(hist) + ShiftXor(hist)
  }

  /** The incremental updates the rolling hash performs keep the window
      sums: the oldest byte leaves the plain sum, and every byte in the
      weighted sum loses one unit of weight while the new one enters with 7. */
  lemma RollingStep(hist: seq<byte>, c: byte)
    ensures WindowSum(hist + [c]) == WindowSum(hist) + c - Recent(hist, 6)
    ensures WeightedSum(hist + [c]) == WeightedSum(hist) - WindowSum(hist) + ROLLING_WINDOW * c
  {
    var h := hist + [c];
    assert Recent(h, 0) == c;
    assert Recent(h, 1) == Recent(hist, 0);
    assert Recent(h, 2) == Recent(hist, 1);
    assert Recent(h, 3) == Recent(hist, 2);
    assert Recent(h, 4) == Recent(hist, 3);
    assert Recent(h, 5) == Recent(hist, 4);
    assert Recent(h, 6) == Recent(hist, 5);
  }

  // ---------------------------------------------------------------------
  // Resynchronisation: the rolling value forgets all but the last 7 bytes

  lemma {:induction false} Pow2Split(m: nat, n: nat)
    requires m <= n
    ensures Pow2(n) == Pow2(m) * Pow2(n - m)
    decreases n - m
  {
    if m < n {
      Pow2Split(m, n - 1);
      assert Pow2(n - m) == 2 * Pow2(n - 1 - m);
      assert Pow2(n) == 2 * (Pow2(m) * Pow2(n - 1 - m));
    }
  }

  /** Reducing modulo `p * d` and then modulo `p` is reducing modulo `p`. */
  lemma ModModMultiple(z: int, p: int, d: int)
    requires z >= 0 && p >= 1 && d >= 1
    ensures (z % (p * d)) % p == z % p
  {
    var q, r := z / (p * d), z % (p * d);
    var q', r' := r / p, r % p;
    assert z == (p * d) * q + r;
    assert r == p * q' + r';
    assert (p * d) * q + p * q' == p * (d * q + q');
    ModUnique(z, p, d * q + q', r');
  }

  /** Reducing modulo `2^n` and then modulo `2^m`, for `m <= n`, is
      reducing modulo `2^m`. */
  lemma ModPow2Twice(z: nat, m: nat, n: nat)
    requires m <= n
    ensures (z % Pow2(n)) % Pow2(m) == z % Pow2(m)
  {
    Pow2Split(m, n);
    ModModMultiple(z, Pow2(m), Pow2(n - m));
  }

  /** Prepending a bit: `(bit + 2y) mod 2p` is `bit + 2 (y mod p)`. */
  lemma ModLowBit(y: int, bit: int, p: int)
    requires y >= 0 && p >= 1 && 0 <= bit <= 1
    ensures (bit + 2 * y) % (2 * p) == bit + 2 * (y % p)
  {
    var q, r := y / p, y % p;
    assert y == p * q + r;
    assert bit + 2 * y == (2 * p) * q + (bit + 2 * r);
    ModUnique(bit + 2 * y, 2 * p, q, bit + 2 * r);
  }

  /** Scaling by `c` scales the remainder: `(x c) mod (p c)` is `c (x mod p)`. */
  lemma ModScale(x: int, p: int, c: int)
    requires x >= 0 && p >= 1 && c >= 1
    ensures (x * c) % (p * c) == c * (x % p)
  {
    var q, r := x / p, x % p;
    assert x == p * q + r;
    assert x * c == (p * c) * q + c * r;
    assert c * r < p * c;
    ModUnique(x * c, p * c, q, c * r);
  }

  /** The low `k` bits of a xor over `n >= k` bits are the xor over `k` bits. */
  lemma {:induction false} XorBitsTruncate(a: nat, b: nat, n: nat, k: nat)
    requires k <= n
    ensures XorBits(a, b, n) % Pow2(k) == XorBits(a, b, k)
  {
    if k == 0 {
      ModUnique(XorBits(a, b, n), 1, XorBits(a, b, n), 0);
    } else {
      XorBitsTruncate(a / 2, b / 2, n - 1, k - 1);
      ModLowBit(XorBits(a / 2, b / 2, n - 1), if a % 2 != b % 2 then 1 else 0, Pow2(k - 1));
    }
  }

  /** Two values that agree on their low `k` bits still do after the same
      byte is xored into both. */
  lemma XorByteAgree(u: int, v: int, c: byte, k: nat)
    requires 0 <= u < TWO_32 && 0 <= v < TWO_32 && k <= 32
    requires u % Pow2(k) == v % Pow2(k)
    ensures XorByte(u, c) % Pow2(k) == XorByte(v, c) % Pow2(k)
  {
    Pow2Of32();
    XorByteIsXor32(u, c);
    XorByteIsXor32(v, c);
    XorBitsTruncate(u, c, 32, k);
    XorBitsTruncate(v, c, 32, k);
    XorBitsLow(u, c, k);
    XorBitsLow(v, c, k);
  }

  /** Shifting left by 5 within 32 bits moves the low `k` bits to the low
      `k + 5`. */
  lemma ShiftLow(x: nat, k: nat)
    requires k + 5 <= 32
    ensures ((x * 32) % TWO_32) % Pow2(k + 5) == 32 * (x % Pow2(k))
  {
    Pow2Of32();
    ModPow2Twice(x * 32, k + 5, 32);
    Pow2Split(k, k + 5);
    assert Pow2(5) == 32;
    ModScale(x, Pow2(k), 32);
  }

  /** Whatever came before `s`, the shift/xor component after `p + s`
      agrees with the one after `s` alone on the low `5 * |s|` bits (all
      32 once `|s| >= 7`). */
  lemma {:induction false} ShiftXorAgree(p: seq<byte>, s: seq<byte>)
    ensures ShiftXor(p + s) % Pow2(Min(5 * |s|, 32)) == ShiftXor(s) % Pow2(Min(5 * |s|, 32))
    decreases |s|
  {
    if s == [] {
      assert p + s == p;
      ModUnique(ShiftXor(p), 1, ShiftXor(p), 0);
      ModUnique(ShiftXor(s), 1, ShiftXor(s), 0);
    } else {
      var s' := s[..|s| - 1];
      assert (p + s)[..|p + s| - 1] == p + s';
      assert (p + s)[|p + s| - 1] == s[|s| - 1];
      var k, k' := Min(5 * |s|, 32), Min(5 * |s'|, 32);
      var u, v := ShiftXor(p + s'), ShiftXor(s');
      ShiftXorAgree(p, s');
      ModPow2Twice(u, k - 5, k');
      ModPow2Twice(v, k - 5, k');
      ShiftLow(u, k - 5);
      ShiftLow(v, k - 5);
      XorByteAgree((u * 32) % TWO_32, (v * 32) % TWO_32, s[|s| - 1], k);
    }
  }

  /** Seven bytes shift everything fed in before them out of the 32-bit
      shift/xor component. */
  lemma ShiftXorResync(p: seq<byte>, s: seq<byte>)
    requires |s| >= ROLLING_WINDOW
    ensures ShiftXor(p + s) == ShiftXor(s)
  {
    ShiftXorAgree(p, s);
    assert Min(5 * |s|, 32) == 32;
    Pow2Of32();
    SmallMod32(ShiftXor(p + s));
    SmallMod32(ShiftXor(s));
  }

  /** The rolling hash resynchronises: after seven bytes its value no
      longer depends on anything fed in before them. */
  lemma RollingResync(p: seq<byte>, s: seq<byte>)
    requires |s| >= ROLLING_WINDOW
    ensures RollingValue(p + s) == RollingValue(s)
  {
    forall age: nat | age < ROLLING_WINDOW
      ensures Recent(p + s, age) == Recent(s, age)
    {
    }
    ShiftXorResync(p, s);
  }

  // ---------------------------------------------------------------------
  // One scan over the input at block size b

  /** The output alphabet's letter for an accumulator value. */
  function Emit(cfg: Config, acc: int): (ch: char)
    requires cfg.Valid() && acc >= 0
    ensures LetterIndex(ch) == acc % cfg.letters
  {
    Letter(acc % cfg.letters)
  }

  /** `$a[$i] = $ch` on a PHP list whose keys are `0 .. |s| - 1`: overwrite
      an existing slot, or append when `i` is the next key. */
  function Put(s: string, i: nat, ch: char): (r: string)
    requires i <= |s|
    ensures |r| == Max(|s|, i + 1) && r[i] == ch
    ensures forall p :: 0 <= p < |s| && p != i ==> r[p] == s[p]
  {
    if i < |s| then s[i := ch] else s + [ch]
  }

  /** Every character of `s` is one of the first `letters` letters of the
      alphabet. */
  predicate InAlphabet(s: string, letters: int)
  {
    forall i :: 0 <= i < |s| ==> 0 <= LetterIndex(s[i]) < letters
  }

  /** The scan's variables: the last rolling value `h`, the two
      accumulators, the two signature indices and the two signatures. */
  datatype ScanState = ScanState(h: int, h2: int, h3: int, j: nat, k: nat, left: string, right: string)

  /** The state at the start of every attempt. */
  function Start(): (r: ScanState)
    ensures forall cfg: Config :: cfg.Valid() ==> ScanInv(cfg, r)
  {
    ScanState(0, HASH_INIT, HASH_INIT, 0, 0, [], [])
  }

  /** What holds between two bytes of the scan: the accumulators are 32-bit
      values, `j` stays below the left capacity and `k` below half of it
      (and never passes `j`), and each signature has a letter at every
      index below its index and, once saturated, at the index too. */
  predicate ScanInv(cfg: Config, st: ScanState)
    requires cfg.Valid()
  {
    var L := cfg.spamsumLength;
    && 0 <= st.h && 0 <= st.h2 < TWO_32 && 0 <= st.h3 < TWO_32
    && st.j <= L - 1 && st.k <= L / 2 - 1 && st.k <= st.j
    && (|st.left| == st.j || (st.j == L - 1 && |st.left| == L))
    && (|st.right| == st.k || (st.k == L / 2 - 1 && |st.right| == L / 2))
  }

  /** A left reset point: emit the letter at `j`; while there is room,
      restart the accumulator and move to the next index, otherwise keep
      folding into the last letter. */
  function LeftTrigger(cfg: Config, st: ScanState): (r: ScanState)
    requires cfg.Valid() && ScanInv(cfg, st)
    ensures ScanInv(cfg, r) && (r.k < r.j || r.k == cfg.spamsumLength / 2 - 1)
  {
    var left := Put(st.left, st.j, Emit(cfg, st.h2));
    if st.j < cfg.spamsumLength - 1 then st.(left := left, h2 := HASH_INIT, j := st.j + 1)
    else st.(left := left)
  }

  /** A right reset point: the same at half the capacity. */
  function RightTrigger(cfg: Config, st: ScanState): (r: ScanState)
    requires cfg.Valid() && ScanInv(cfg, st)
    requires st.k < st.j || st.k == cfg.spamsumLength / 2 - 1
    ensures ScanInv(cfg, r)
  {
    var right := Put(st.right, st.k, Emit(cfg, st.h3));
    if st.k < cfg.spamsumLength / 2 - 1 then st.(right := right, h3 := HASH_INIT, k := st.k + 1)
    else st.(right := right)
  }

  /** A value that hits the right reset condition (period 2b) also hits
      the left one (period b). */
  lemma RightTriggerImpliesLeft(h: int, b: int)
    requires h >= 0 && b >= 1
    requires h % (b * 2) == b * 2 - 1
    ensures h % b == b - 1
  {
    var q := h / (b * 2);
    assert h == q * (b * 2) + (b * 2 - 1);
    assert q * (b * 2) + (b * 2 - 1) == (2 * q + 1) * b + (b - 1);
    ModUnique(h, b, 2 * q + 1, b - 1);
  }

  lemma MulSign(d: int, b: int)
    requires b >= 1
    ensures d >= 1 ==> d * b >= b
    ensures d <= -1 ==> d * b <= -b
  {
  }

  /** The remainder is determined by any quotient/remainder decomposition. */
  lemma ModUnique(h: int, b: int, q: int, r: int)
    requires b >= 1 && 0 <= r < b && h == q * b + r
    ensures h % b == r && h / b == q
  {
    var q' := h / b;
    var d := q - q';
    assert d * b == q * b - q' * b;
    MulSign(d, b);
  }

  /** The reset points at rolling value `st.h`: a left one when it is
      `b - 1` modulo `b`, a right one when it is `2b - 1` modulo `2b`. */
  function ResetPoints(cfg: Config, b: int, st: ScanState): (r: ScanState)
    requires cfg.Valid() && b >= 1 && st.h >= 0 && ScanInv(cfg, st)
    ensures ScanInv(cfg, r)
  {
    var leftHit := st.h % b == b - 1;
    var rightHit := st.h % (b * 2) == b * 2 - 1;
    assert rightHit ==> leftHit by {
      if rightHit { RightTriggerImpliesLeft(st.h, b); }
    }
    var st2 := if leftHit then LeftTrigger(cfg, st) else st;
    if rightHit then RightTrigger(cfg, st2) else st2
  }

  /** One byte of the scan: update both accumulators, then look at the
      rolling value `h` for reset points. */
  function Step(cfg: Config, b: int, st: ScanState, c: byte, h: int): (r: ScanState)
    requires cfg.Valid() && b >= 1 && h >= 0 && ScanInv(cfg, st)
    ensures ScanInv(cfg, r)
  {
    ResetPoints(cfg, b, st.(h := h, h2 := SumHash(c, st.h2), h3 := SumHash(c, st.h3)))
  }

  /** The scan state after the first `i` bytes of `data`. */
  function ScanUpTo(cfg: Config, b: int, data: seq<byte>, i: nat): (r: ScanState)
    requires cfg.Valid() && b >= 1 && i <= |data|
    ensures ScanInv(cfg, r)
  {
    if i == 0 then Start()
    else Step(cfg, b, ScanUpTo(cfg, b, data, i - 1), data[i - 1], RollingValue(data[..i]))
  }

  /** The state after byte `i` from the state before it: the accumulators
      take the byte, then the reset points at the new rolling value. */
  lemma ScanUpToNext(cfg: Config, b: int, data: seq<byte>, i: nat, st: ScanState, hashed: ScanState)
    requires cfg.Valid() && b >= 1 && i < |data|
    requires ScanUpTo(cfg, b, data, i) == st
    requires hashed == st.(h := RollingValue(data[..i + 1]), h2 := SumHash(data[i], st.h2), h3 := SumHash(data[i], st.h3))
    ensures ScanInv(cfg, hashed) && ScanUpTo(cfg, b, data, i + 1) == ResetPoints(cfg, b, hashed)
  {
  }

  lemma PrefixNext<T>(s: seq<T>, i: nat)
    requires i < |s|
    ensures s[..i + 1] == s[..i] + [s[i]]
  {
  }

  /** Unless the last rolling value is 0, the unfinished pieces are written
      at the current indices. */
  function Flush(cfg: Config, st: ScanState): (r: ScanState)
    requires cfg.Valid() && ScanInv(cfg, st)
    ensures r.(left := st.left, right := st.right) == st
    ensures st.h == 0 ==> r == st
    ensures st.h != 0 ==> |r.left| == st.j + 1 && |r.right| == st.k + 1
    ensures |r.left| <= cfg.spamsumLength && |r.right| <= cfg.spamsumLength / 2
    ensures st.j <= |r.left|
  {
    if st.h != 0 then
      st.(left := Put(st.left, st.j, Emit(cfg, st.h2)), right := Put(st.right, st.k, Emit(cfg, st.h3)))
    else st
  }

  /** One attempt at block size `b`: its signatures fit their capacities,
      and the left one has a letter at every index below `j`. */
  function Attempt(cfg: Config, b: int, data: seq<byte>): (r: ScanState)
    requires cfg.Valid() && b >= 1
    ensures |r.left| <= cfg.spamsumLength && |r.right| <= cfg.spamsumLength / 2
    ensures r.j <= |r.left|
  {
    Flush(cfg, ScanUpTo(cfg, b, data, |data|))
  }

  // ---------------------------------------------------------------------
  // Block-size selection

  /** The block size after `e` doublings of the minimum. */
  function Scaled(cfg: Config, e: nat): (b: int)
    requires cfg.Valid()
    ensures b >= cfg.minBlockSize
  {
    if e == 0 then cfg.minBlockSize else 2 * Scaled(cfg, e - 1)
  }

  lemma ScaledDouble(cfg: Config, e: nat)
    requires cfg.Valid()
    ensures Scaled(cfg, e + 1) == 2 * Scaled(cfg, e)
    ensures Scaled(cfg, e + 1) * cfg.spamsumLength == 2 * (Scaled(cfg, e) * cfg.spamsumLength)
  {
  }

  /** The number of doublings the automatic guess makes from exponent `e`:
      the least exponent not below `e` whose block size times the capacity
      reaches the input length. */
  function InitialExponent(cfg: Config, length: nat, e: nat): (r: nat)
    requires cfg.Valid()
    ensures r >= e
    ensures Scaled(cfg, r) * cfg.spamsumLength >= length
    ensures forall e' :: e <= e' < r ==> Scaled(cfg, e') * cfg.spamsumLength < length
    decreases length - Scaled(cfg, e) * cfg.spamsumLength
  {
    if Scaled(cfg, e) * cfg.spamsumLength < length then
      ScaledDouble(cfg, e);
      InitialExponent(cfg, length, e + 1)
    else e
  }

  /** The final hash: block size and the two signatures. */
  datatype Fingerprint = Fingerprint(blockSize: int, left: string, right: string)

  /** The automatic search from block size `Scaled(cfg, e)`: attempt, and
      while the block size is above the minimum and the left index has not
      reached half the capacity, halve it and start over. */
  function AutoSearch(cfg: Config, data: seq<byte>, e: nat): (r: Fingerprint)
    requires cfg.Valid()
    ensures cfg.minBlockSize <= r.blockSize <= Scaled(cfg, e)
    decreases e
  {
    var b := Scaled(cfg, e);
    var st := Attempt(cfg, b, data);
    if b > cfg.minBlockSize && st.j < cfg.spamsumLength / 2 then AutoSearch(cfg, data, e - 1)
    else Fingerprint(b, st.left, st.right)
  }

  /** When the attempt at `Scaled(cfg, e)` asks for a retry, the search
      goes on one exponent lower, at half the block size. */
  lemma AutoSearchRetries(cfg: Config, data: seq<byte>, e: nat)
    requires cfg.Valid()
    requires Scaled(cfg, e) > cfg.minBlockSize && Attempt(cfg, Scaled(cfg, e), data).j < cfg.spamsumLength / 2
    ensures e > 0 && AutoSearch(cfg, data, e) == AutoSearch(cfg, data, e - 1)
    ensures Scaled(cfg, e - 1) == Scaled(cfg, e) / 2
  {
  }

  /** When the attempt at `Scaled(cfg, e)` is accepted, it is the result. */
  lemma AutoSearchStops(cfg: Config, data: seq<byte>, e: nat)
    requires cfg.Valid()
    requires !(Scaled(cfg, e) > cfg.minBlockSize && Attempt(cfg, Scaled(cfg, e), data).j < cfg.spamsumLength / 2)
    ensures var st := Attempt(cfg, Scaled(cfg, e), data);
      AutoSearch(cfg, data, e) == Fingerprint(Scaled(cfg, e), st.left, st.right)
  {
  }

  /** The hash of `data`: with automatic block size, the search from the
      initial guess; with a block size set by hand, one attempt at it. */
  function Digest(cfg: Config, auto: bool, fixedBlockSize: int, data: seq<byte>): (r: Fingerprint)
    requires cfg.Valid() && (auto || fixedBlockSize >= 1)
    ensures auto ==> cfg.minBlockSize <= r.blockSize <= Scaled(cfg, InitialExponent(cfg, |data|, 0))
    ensures !auto ==> r.blockSize == fixedBlockSize
  {
    if auto then AutoSearch(cfg, data, InitialExponent(cfg, |data|, 0))
    else
      var st := Attempt(cfg, fixedBlockSize, data);
      Fingerprint(fixedBlockSize, st.left, st.right)
  }

  /** The signatures of one attempt use only the first `letters` letters
      of the alphabet. */
  lemma AttemptAlphabet(cfg: Config, b: int, data: seq<byte>)
    requires cfg.Valid() && b >= 1
    ensures var st := Attempt(cfg, b, data);
      InAlphabet(st.left, cfg.letters) && InAlphabet(st.right, cfg.letters)
  {
    var st := ScanUpTo(cfg, b, data, |data|);
    ScanAlphabet(cfg, b, data, |data|);
    PutAlphabet(st.left, st.j, Emit(cfg, st.h2), cfg.letters);
    PutAlphabet(st.right, st.k, Emit(cfg, st.h3), cfg.letters);
  }

  /** Writing a letter of the alphabet keeps a signature in the alphabet. */
  lemma PutAlphabet(s: string, i: nat, ch: char, letters: int)
    requires i <= |s| && InAlphabet(s, letters) && 0 <= LetterIndex(ch) < letters
    ensures InAlphabet(Put(s, i, ch), letters)
  {
  }

  /** The reset points write only letters of the alphabet. */
  lemma ResetPointsAlphabet(cfg: Config, b: int, st: ScanState)
    requires cfg.Valid() && b >= 1 && st.h >= 0 && ScanInv(cfg, st)
    requires InAlphabet(st.left, cfg.letters) && InAlphabet(st.right, cfg.letters)
    ensures var r := ResetPoints(cfg, b, st);
      InAlphabet(r.left, cfg.letters) && InAlphabet(r.right, cfg.letters)
  {
    var st2 := if st.h % b == b - 1 then LeftTrigger(cfg, st) else st;
    PutAlphabet(st.left, st.j, Emit(cfg, st.h2), cfg.letters);
    PutAlphabet(st2.right, st2.k, Emit(cfg, st2.h3), cfg.letters);
  }

  /** Every letter the scan emits is one of the first `letters` letters. */
  lemma {:induction false} ScanAlphabet(cfg: Config, b: int, data: seq<byte>, i: nat)
    requires cfg.Valid() && b >= 1 && i <= |data|
    ensures var st := ScanUpTo(cfg, b, data, i);
      InAlphabet(st.left, cfg.letters) && InAlphabet(st.right, cfg.letters)
  {
    if i > 0 {
      var prev := ScanUpTo(cfg, b, data, i - 1);
      ScanAlphabet(cfg, b, data, i - 1);
      ResetPointsAlphabet(cfg, b, prev.(h := RollingValue(data[..i]), h2 := SumHash(data[i - 1], prev.h2), h3 := SumHash(data[i - 1], prev.h3)));
    }
  }

  /** Once the left index sits at the last slot, a left reset point
      overwrites that slot and neither restarts the accumulator nor moves
      the index; the same holds for the right signature at half the
      capacity. */
  lemma SaturatedTriggers(cfg: Config, st: ScanState)
    requires cfg.Valid() && ScanInv(cfg, st)
    ensures st.j == cfg.spamsumLength - 1 ==>
      var r := LeftTrigger(cfg, st);
      r == st.(left := Put(st.left, st.j, Emit(cfg, st.h2))) && |r.left| == cfg.spamsumLength
    ensures st.k == cfg.spamsumLength / 2 - 1 ==>
      var r := RightTrigger(cfg, st);
      r == st.(right := Put(st.right, st.k, Emit(cfg, st.h3))) && |r.right| == cfg.spamsumLength / 2
  {
  }

  /** Before the last slot, a reset point writes the next letter, restarts
      the accumulator and moves the index on by one. */
  lemma UnsaturatedTriggers(cfg: Config, st: ScanState)
    requires cfg.Valid() && ScanInv(cfg, st)
    ensures st.j < cfg.spamsumLength - 1 ==>
      var r := LeftTrigger(cfg, st);
      r.j == st.j + 1 && r.h2 == HASH_INIT && r.left == st.left + [Emit(cfg, st.h2)]
    ensures st.k < cfg.spamsumLength / 2 - 1 && (st.k < st.j || st.k == cfg.spamsumLength / 2 - 1) ==>
      var r := RightTrigger(cfg, st);
      r.k == st.k + 1 && r.h3 == HASH_INIT && r.right == st.right + [Emit(cfg, st.h3)]
  {
  }

  /** The indices and the signatures' lengths never go back during a scan. */
  lemma {:induction false} ScanMonotone(cfg: Config, b: int, data: seq<byte>, i: nat, i': nat)
    requires cfg.Valid() && b >= 1 && i <= i' <= |data|
    ensures var st, st' := ScanUpTo(cfg, b, data, i), ScanUpTo(cfg, b, data, i');
      st.j <= st'.j && st.k <= st'.k && |st.left| <= |st'.left| && |st.right| <= |st'.right|
    decreases i' - i
  {
    if i < i' {
      var p := i' - 1;
      ScanMonotone(cfg, b, data, i, p);
      ScanStepMonotone(cfg, b, data, p);
      assert p + 1 == i';
    }
  }

  lemma ScanStepMonotone(cfg: Config, b: int, data: seq<byte>, i: nat)
    requires cfg.Valid() && b >= 1 && i < |data|
    ensures var st, st' := ScanUpTo(cfg, b, data, i), ScanUpTo(cfg, b, data, i + 1);
      st.j <= st'.j && st.k <= st'.k && |st.left| <= |st'.left| && |st.right| <= |st'.right|
  {
    var st := ScanUpTo(cfg, b, data, i);
    var hashed := st.(h := RollingValue(data[..i + 1]), h2 := SumHash(data[i], st.h2), h3 := SumHash(data[i], st.h3));
    ScanUpToNext(cfg, b, data, i, st, hashed);
    ResetPointsMonotone(cfg, b, hashed);
  }

  lemma ResetPointsMonotone(cfg: Config, b: int, st: ScanState)
    requires cfg.Valid() && b >= 1 && st.h >= 0 && ScanInv(cfg, st)
    ensures var r := ResetPoints(cfg, b, st);
      st.j <= r.j && st.k <= r.k && |st.left| <= |r.left| && |st.right| <= |r.right|
  {
  }

  /** The block size after `e` doublings is the minimum times `2^e`. */
  lemma {:induction false} ScaledPow2(cfg: Config, e: nat)
    requires cfg.Valid()
    ensures Scaled(cfg, e) == cfg.minBlockSize * Pow2(e)
  {
    if e > 0 {
      ScaledPow2(cfg, e - 1);
    }
  }

  /** Doubling never makes the block size smaller. */
  lemma {:induction false} ScaledMonotone(cfg: Config, e: nat, e': nat)
    requires cfg.Valid() && e <= e'
    ensures Scaled(cfg, e) <= Scaled(cfg, e')
    decreases e' - e
  {
    if e < e' {
      ScaledMonotone(cfg, e, e' - 1);
    }
  }

  /** `f` is the outcome of the attempt at its block size, and that
      attempt is not retried: the block size is the minimum or the left
      index reached half the capacity. */
  predicate AttemptAccepted(cfg: Config, data: seq<byte>, f: Fingerprint)
    requires cfg.Valid()
  {
    f.blockSize >= cfg.minBlockSize &&
    var st := Attempt(cfg, f.blockSize, data);
    f.left == st.left && f.right == st.right &&
    (f.blockSize == cfg.minBlockSize || st.j >= cfg.spamsumLength / 2)
  }

  /** The search from exponent `e` ends, at some exponent `e' <= e`, with
      the attempt at block size `Scaled(cfg, e')`, which it does not retry:
      the block size is the minimum or the left index reached half the
      capacity. */
  lemma {:induction false} AutoSearchResult(cfg: Config, data: seq<byte>, e: nat) returns (e': nat)
    requires cfg.Valid()
    ensures e' <= e && AutoSearch(cfg, data, e).blockSize == Scaled(cfg, e')
    ensures AttemptAccepted(cfg, data, AutoSearch(cfg, data, e))
    decreases e
  {
    var b := Scaled(cfg, e);
    if b > cfg.minBlockSize && Attempt(cfg, b, data).j < cfg.spamsumLength / 2 {
      AutoSearchRetries(cfg, data, e);
      e' := AutoSearchResult(cfg, data, e - 1);
    } else {
      AutoSearchStops(cfg, data, e);
      e' := e;
    }
  }

  /** What the hash of `data` is: one of the attempts, with a block size
      of at least the minimum (exactly the one set by hand, in manual
      mode), signatures within their capacities and the alphabet, and in
      automatic mode either the minimum block size or a left signature at
      least half full. */
  lemma DigestResult(cfg: Config, auto: bool, fixedBlockSize: int, data: seq<byte>)
    requires cfg.Valid() && (auto || fixedBlockSize >= 1)
    ensures var f := Digest(cfg, auto, fixedBlockSize, data);
      && (if auto then f.blockSize >= cfg.minBlockSize else f.blockSize == fixedBlockSize)
      && f.left == Attempt(cfg, f.blockSize, data).left
      && f.right == Attempt(cfg, f.blockSize, data).right
      && |f.left| <= cfg.spamsumLength && |f.right| <= cfg.spamsumLength / 2
      && InAlphabet(f.left, cfg.letters) && InAlphabet(f.right, cfg.letters)
      && (auto ==> f.blockSize == cfg.minBlockSize || |f.left| >= cfg.spamsumLength / 2)
  {
    var f := Digest(cfg, auto, fixedBlockSize, data);
    if auto {
      var e' := AutoSearchResult(cfg, data, InitialExponent(cfg, |data|, 0));
    }
    AttemptAlphabet(cfg, f.blockSize, data);
  }

  /** An input no longer than the minimum block size times the capacity is
      hashed at the minimum block size in automatic mode; the empty input
      gives empty signatures in either mode. */
  lemma DigestShortInput(cfg: Config, auto: bool, fixedBlockSize: int, data: seq<byte>)
    requires cfg.Valid() && (auto || fixedBlockSize >= 1)
    ensures auto && |data| <= cfg.minBlockSize * cfg.spamsumLength ==>
      Digest(cfg, auto, fixedBlockSize, data).blockSize == cfg.minBlockSize
    ensures data == [] ==>
      Digest(cfg, auto, fixedBlockSize, data) == Fingerprint(if auto then cfg.minBlockSize else fixedBlockSize, [], [])
  {
    if auto && |data| <= cfg.minBlockSize * cfg.spamsumLength {
      assert InitialExponent(cfg, |data|, 0) == 0;
    }
    if data == [] {
      assert cfg.minBlockSize * cfg.spamsumLength >= 0 by {
        MulSign(cfg.minBlockSize, cfg.spamsumLength);
      }
      assert InitialExponent(cfg, 0, 0) == 0;
    }
  }


  // ---------------------------------------------------------------------
  // The text form `blocksize:left:right`

  function DigitChar(d: int): (ch: char)
    requires 0 <= d < 10
    ensures '0' <= ch <= '9' && ch as int - '0' as int == d
  {
    ('0' as int + d) as char
  }

  /** The decimal digits of `n`, without leading zeros. */
  function Decimal(n: nat): (r: string)
    ensures |r| >= 1 && forall i :: 0 <= i < |r| ==> '0' <= r[i] <= '9'
    ensures n < 10 ==> |r| == 1
    ensures n >= 1 ==> r[0] != '0'
  {
    if n < 10 then [DigitChar(n)] else Decimal(n / 10) + [DigitChar(n % 10)]
  }

  /** The value of a string of decimal digits. */
  function DigitsValue(s: string): nat
    requires forall i :: 0 <= i < |s| ==> '0' <= s[i] <= '9'
  {
    if s == [] then 0
    else 10 * DigitsValue(s[..|s| - 1]) + (s[|s| - 1] as int - '0' as int)
  }

  lemma {:induction false} DecimalValue(n: nat)
    ensures DigitsValue(Decimal(n)) == n
  {
    if n >= 10 {
      DecimalValue(n / 10);
      var r := Decimal(n);
      assert r[..|r| - 1] == Decimal(n / 10);
    }
  }

  /** The position of the first `c` in `s`, if any. */
  function IndexOf(s: string, c: char): (r: Option<nat>)
    ensures r.Some? ==> r.value < |s| && s[r.value] == c && forall i :: 0 <= i < r.value ==> s[i] != c
    ensures r.None? ==> forall i :: 0 <= i < |s| ==> s[i] != c
  {
    if s == [] then None
    else if s[0] == c then Some(0)
    else match IndexOf(s[1..], c)
      case None => None
      case Some(i) => Some(i + 1)
  }

  /** `s` split around its first `c`, if it has one. */
  function SplitAt(s: string, c: char): Option<(string, string)>
  {
    match IndexOf(s, c)
    case None => None
    case Some(p) => Some((s[..p], s[p + 1..]))
  }

  /** The value of a non-empty string of decimal digits. */
  function ParseDecimal(s: string): Option<nat>
  {
    if s != [] && forall i :: 0 <= i < |s| ==> '0' <= s[i] <= '9' then Some(DigitsValue(s)) else None
  }

  /** Reads `blocksize:left:right` back: a decimal block size, then the two
      signatures split at the first two colons. */
  function Parse(s: string): Option<Fingerprint>
  {
    match SplitAt(s, ':')
    case None => None
    case Some((digits, rest)) =>
      match (ParseDecimal(digits), SplitAt(rest, ':'))
      case (Some(b), Some((left, right))) => Some(Fingerprint(b, left, right))
      case _ => None
  }

  /** The text form of a fingerprint: `Parse` reads it back whenever the
      left signature holds no colon. */
  function Render(f: Fingerprint): (r: string)
    requires f.blockSize >= 0
    ensures (forall i :: 0 <= i < |f.left| ==> f.left[i] != ':') ==> Parse(r) == Some(f)
  {
    var r := Decimal(f.blockSize) + ":" + f.left + ":" + f.right;
    if forall i :: 0 <= i < |f.left| ==> f.left[i] != ':' then
      ParsePieces(f.blockSize, f.left, f.right);
      r
    else r
  }

  /** The block size's digits, a colon, a left signature without colons,
      a colon and anything at all are read back as those three parts. */
  lemma ParsePieces(b: nat, left: string, right: string)
    requires forall i :: 0 <= i < |left| ==> left[i] != ':'
    ensures Parse(Decimal(b) + ":" + left + ":" + right) == Some(Fingerprint(b, left, right))
  {
    var d := Decimal(b);
    var rest := left + ":" + right;
    assert d + ":" + left + ":" + right == d + [':'] + rest;
    SplitAtSeparator(d, ':', rest);
    DecimalValue(b);
    assert ParseDecimal(d) == Some(b);
    SplitAtSeparator(left, ':', right);
  }

  /** The first `c` in `a + [c] + b` is the one after `a` when `a` has none. */
  lemma {:induction false} IndexOfSeparator(a: string, c: char, b: string)
    requires forall i :: 0 <= i < |a| ==> a[i] != c
    ensures IndexOf(a + [c] + b, c) == Some(|a|)
  {
    if a != [] {
      assert (a + [c] + b)[1..] == a[1..] + [c] + b;
      IndexOfSeparator(a[1..], c, b);
    }
  }

  lemma SplitAtSeparator(a: string, c: char, b: string)
    requires forall i :: 0 <= i < |a| ==> a[i] != c
    ensures SplitAt(a + [c] + b, c) == Some((a, b))
  {
    IndexOfSeparator(a, c, b);
    assert (a + [c] + b)[..|a|] == a && (a + [c] + b)[|a| + 1..] == b;
  }

  /** A fingerprint whose block size is not negative and whose left
      signature is drawn from the alphabet (which has no colon) is read
      back from its text form. */
  lemma RenderParse(f: Fingerprint, letters: int)
    requires f.blockSize >= 0 && InAlphabet(f.left, letters)
    ensures Parse(Render(f)) == Some(f)
  {
    assert forall i :: 0 <= i < |f.left| ==> LetterIndex(f.left[i]) >= 0;
  }

  // ---------------------------------------------------------------------
  // The hasher object

  class SpamSum {
    const spamsumLength: int
    const letters: int
    const minBlockSize: int
    const autoBlockSize: bool
    var blockSize: int
    var left: string
    var right: string

    const rollingWindow: array<int>
    var rollingH1: int
    var rollingH2: int
    var rollingH3: int
    var rollingN: nat
    /** The bytes fed to the rolling hash since its last reset. */
    ghost var history: seq<byte>

    function Cfg(): Config
    {
      Config(spamsumLength, letters, minBlockSize)
    }

    /** The rolling hash's fields hold the window functions of `history`:
        slot `(n - 1 - age) mod 7` holds the byte `age` steps back, `h1`
        the window sum, `h2` the weighted sum and `h3` the shift/xor value. */
    ghost predicate RollingValid()
      reads this`rollingH1, this`rollingH2, this`rollingH3, this`rollingN, this`history, rollingWindow
    {
      rollingWindow.Length == ROLLING_WINDOW &&
      rollingN == |history| &&
      WindowHolds(rollingWindow[..], rollingN, history) &&
      rollingH1 == WindowSum(history) &&
      rollingH2 == WeightedSum(history) &&
      rollingH3 == ShiftXor(history)
    }

    ghost predicate Valid()
      reads this, rollingWindow
    {
      Cfg().Valid() &&
      (if autoBlockSize then blockSize >= 0 else blockSize >= 1) &&
      |left| <= spamsumLength && |right| <= spamsumLength / 2 &&
      InAlphabet(left, letters) && InAlphabet(right, letters) &&
      rollingWindow.Length == ROLLING_WINDOW
    }

    /** A hasher that chooses the block size from the input length
        (the defaults are 64, 64 and 3). */
    constructor Auto(spamsumLength: int, letters: int, minBlockSize: int)
      requires Config(spamsumLength, letters, minBlockSize).Valid()
      ensures Valid() && fresh(rollingWindow)
      ensures this.spamsumLength == spamsumLength && this.letters == letters && this.minBlockSize == minBlockSize
      ensures autoBlockSize && blockSize == 0 && left == [] && right == []
    {
      this.spamsumLength, this.letters, this.minBlockSize := spamsumLength, letters, minBlockSize;
      autoBlockSize, blockSize := true, 0;
      left, right := [], [];
      rollingWindow := new int[ROLLING_WINDOW](_ => 0);
      rollingH1, rollingH2, rollingH3, rollingN := 0, 0, 0, 0;
      history := [];
    }

    /** A hasher with a block size set by hand: one attempt, no search. */
    constructor Fixed(spamsumLength: int, letters: int, minBlockSize: int, blockSize: int)
      requires Config(spamsumLength, letters, minBlockSize).Valid() && blockSize >= 1
      ensures Valid() && fresh(rollingWindow)
      ensures this.spamsumLength == spamsumLength && this.letters == letters && this.minBlockSize == minBlockSize
      ensures !autoBlockSize && this.blockSize == blockSize && left == [] && right == []
    {
      this.spamsumLength, this.letters, this.minBlockSize := spamsumLength, letters, minBlockSize;
      autoBlockSize, this.blockSize := false, blockSize;
      left, right := [], [];
      rollingWindow := new int[ROLLING_WINDOW](_ => 0);
      rollingH1, rollingH2, rollingH3, rollingN := 0, 0, 0, 0;
      history := [];
    }

    /** Hashes `data` with the default parameters and an automatic block
        size. */
    static method Hash(data: seq<byte>) returns (ss: SpamSum)
      ensures fresh(ss) && ss.Valid() && ss.autoBlockSize
      ensures ss.Cfg() == Config(DEFAULT_SPAMSUM_LENGTH, DEFAULT_LETTERS, DEFAULT_MIN_BLOCKSIZE)
      ensures var f := Digest(ss.Cfg(), true, 0, data);
        ss.blockSize == f.blockSize && ss.left == f.left && ss.right == f.right
    {
      ss := new SpamSum.Auto(DEFAULT_SPAMSUM_LENGTH, DEFAULT_LETTERS, DEFAULT_MIN_BLOCKSIZE);
      ss.HashString(data);
    }

    /** The block size of the last hash (0 before any hash in automatic
        mode). */
    function BlockSize(): (r: int)
      reads this, rollingWindow
      requires Valid()
      ensures if autoBlockSize then r >= 0 else r >= 1
    {
      blockSize
    }

    /** The left signature as one string: at most `spamsumLength` letters,
        all among the first `letters` of the alphabet. */
    function Left(): (r: string)
      reads this, rollingWindow
      requires Valid()
      ensures |r| <= spamsumLength && InAlphabet(r, letters)
    {
      left
    }

    /** The right signature: at most half the capacity. */
    function Right(): (r: string)
      reads this, rollingWindow
      requires Valid()
      ensures |r| <= spamsumLength / 2 && InAlphabet(r, letters)
    {
      right
    }

    /** `blocksize:left:right`; the three parts are read back from it. */
    function ToString(): (r: string)
      reads this, rollingWindow
      requires Valid()
      ensures Parse(r) == Some(Fingerprint(BlockSize(), Left(), Right()))
    {
      RenderParse(Fingerprint(blockSize, left, right), letters);
      Render(Fingerprint(blockSize, left, right))
    }

    /** Feeds one byte: the leaving byte is taken out of `h1`, every weight
        in `h2` drops by one, the byte overwrites exactly the window slot
        `n mod 7`, and the sum of the three components is returned. */
    method RollingHash(c: byte) returns (h: int)
      requires RollingValid()
      modifies this`rollingH1, this`rollingH2, this`rollingH3, this`rollingN, this`history, rollingWindow
      ensures RollingValid()
      ensures history == old(history) + [c]
      ensures rollingWindow[..] == old(rollingWindow[..])[old(rollingN) % ROLLING_WINDOW := c]
      ensures h == rollingH1 + rollingH2 + rollingH3 == RollingValue(history)
    {
      ghost var hist, win, n := history, rollingWindow[..], rollingN;
      WindowOldest(win, n, hist);
      RollingStep(hist, c);
      WindowWrite(win, n, hist, c);

      rollingH2 := rollingH2 - rollingH1;
      rollingH2 := rollingH2 + ROLLING_WINDOW * c;

      rollingH1 := rollingH1 + c;
      rollingH1 := rollingH1 - rollingWindow[rollingN % ROLLING_WINDOW];

      rollingWindow[rollingN % ROLLING_WINDOW] := c;
      rollingN := rollingN + 1;

      // The shift by five bits, kept to 32 bits, then the byte
      rollingH3 := (rollingH3 * 32) % TWO_32;
      rollingH3 := XorByte(rollingH3, c);

      history := hist + [c];
      assert history[..|history| - 1] == hist;
      assert rollingWindow[..] == win[n % ROLLING_WINDOW := c];
      h := rollingH1 + rollingH2 + rollingH3;
    }

    /** Hashes `data`: guess the block size (or keep the one set by hand),
        scan, and while the automatic block size is above the minimum and
        the left index is below half the capacity, halve it and scan again
        from freshly reset state. */
    method HashString(data: seq<byte>)
      requires Valid()
      modifies this, rollingWindow
      ensures Valid()
      ensures var f := Digest(Cfg(), autoBlockSize, old(blockSize), data);
        blockSize == f.blockSize && left == f.left && right == f.right
      ensures !autoBlockSize ==> blockSize == old(blockSize)
    {
      var cfg := Cfg();
      ghost var fingerprint := Digest(cfg, autoBlockSize, blockSize, data);
      ghost var e: nat := 0;

      // The automatic block size starts from the doubling guess
      if autoBlockSize {
        e := GuessBlockSize(|data|);
      }

      var j := Scan(data);
      while autoBlockSize && blockSize > minBlockSize && j < spamsumLength / 2
        invariant Valid() && blockSize >= 1
        invariant autoBlockSize ==> blockSize == Scaled(cfg, e) && AutoSearch(cfg, data, e) == fingerprint
        invariant !autoBlockSize ==> blockSize == old(blockSize) && fingerprint == Fingerprint(blockSize, left, right)
        invariant var st := Attempt(cfg, blockSize, data); left == st.left && right == st.right && j == st.j
        decreases blockSize
      {
        // Too few left letters at this block size: halve it and rescan
        j, e := Retry(data, e);
      }
      if autoBlockSize {
        AutoSearchStops(cfg, data, e);
      }
    }

    /** Another attempt at half the block size, when the automatic block
        size is above the minimum and the last attempt ended with the left
        index `j` below half the capacity. The search from the
        halved block size gives the same result. */
    method Retry(data: seq<byte>, ghost e: nat) returns (j: nat, ghost e': nat)
      requires Valid() && autoBlockSize && blockSize > minBlockSize && blockSize == Scaled(Cfg(), e)
      requires Attempt(Cfg(), blockSize, data).j < spamsumLength / 2
      modifies this, rollingWindow
      ensures Valid() && blockSize < old(blockSize) && blockSize == Scaled(Cfg(), e')
      ensures AutoSearch(Cfg(), data, e') == AutoSearch(Cfg(), data, e)
      ensures var st := Attempt(Cfg(), blockSize, data); left == st.left && right == st.right && j == st.j
    {
      AutoSearchRetries(Cfg(), data, e);
      HalveBlockSize();
      e' := e - 1;
      j := Scan(data);
    }

    /** Halves the block size for another attempt. */
    method HalveBlockSize()
      requires Valid() && blockSize >= 2
      modifies this`blockSize
      ensures Valid() && blockSize == old(blockSize) / 2
    {
      blockSize := blockSize / 2;
    }

    /** The automatic guess: double the minimum block size until block
        size times capacity reaches the input length. Returns the number
        of doublings. */
    method GuessBlockSize(length: nat) returns (ghost e: nat)
      requires Valid()
      modifies this`blockSize
      ensures Valid()
      ensures e == InitialExponent(Cfg(), length, 0) && blockSize == Scaled(Cfg(), e)
    {
      var cfg := Cfg();
      e := 0;
      blockSize := minBlockSize;
      while blockSize * spamsumLength < length
        invariant blockSize == Scaled(cfg, e)
        invariant InitialExponent(cfg, length, e) == InitialExponent(cfg, length, 0)
        decreases length - blockSize * spamsumLength
      {
        ScaledDouble(cfg, e);
        blockSize := blockSize * 2;
        e := e + 1;
      }
    }

    /** One attempt at the current block size, from freshly reset
        signatures, accumulators and rolling hash; returns the final left
        index. */
    method Scan(data: seq<byte>) returns (j: nat)
      requires Valid() && blockSize >= 1
      modifies this`left, this`right, this`rollingH1, this`rollingH2, this`rollingH3, this`rollingN, this`history, rollingWindow
      ensures Valid()
      ensures var st := Attempt(Cfg(), blockSize, data);
        left == st.left && right == st.right && j == st.j
    {
      var cfg := Cfg();
      left := [];
      right := [];

      var k;
      k, j := 0, 0;
      var h3, h2 := HASH_INIT, HASH_INIT;
      var h := RollingHashReset();

      for i := 0 to |data|
        invariant RollingValid() && history == data[..i]
        invariant ScanUpTo(cfg, blockSize, data, i) == ScanState(h, h2, h3, j, k, left, right)
      {
        h, h2, h3, j, k := ScanByte(data, i, h, h2, h3, j, k);
      }

      ghost var done := Flush(cfg, ScanState(h, h2, h3, j, k, left, right));
      assert done == Attempt(cfg, blockSize, data);
      // The flush: the pieces after the last reset points, unless h is 0
      if h != 0 {
        left := Put(left, j, Emit(cfg, h2));
        right := Put(right, k, Emit(cfg, h3));
      }
      assert left == done.left && right == done.right;
      AttemptAlphabet(cfg, blockSize, data);
    }

    /** The loop body of the scan for byte `i`: feed it to the rolling
        hash and both accumulators, then check the reset points. */
    method ScanByte(data: seq<byte>, i: nat, h: int, h2: int, h3: int, j: nat, k: nat)
      returns (h': int, h2': int, h3': int, j': nat, k': nat)
      requires Cfg().Valid() && blockSize >= 1 && i < |data|
      requires RollingValid() && history == data[..i]
      requires ScanUpTo(Cfg(), blockSize, data, i) == ScanState(h, h2, h3, j, k, left, right)
      modifies this`left, this`right, this`rollingH1, this`rollingH2, this`rollingH3, this`rollingN, this`history, rollingWindow
      ensures RollingValid() && history == data[..i + 1]
      ensures ScanUpTo(Cfg(), blockSize, data, i + 1) == ScanState(h', h2', h3', j', k', left, right)
    {
      PrefixNext(data, i);
      h' := RollingHash(data[i]);
      h2' := SumHash(data[i], h2);
      h3' := SumHash(data[i], h3);
      ScanUpToNext(Cfg(), blockSize, data, i, ScanState(h, h2, h3, j, k, left, right), ScanState(h', h2', h3', j, k, left, right));
      h2', h3', j', k' := CheckResetPoints(h', h2', h3', j, k);
    }

    /** The two reset checks of the scan at rolling value `h`: emit a
        letter into each signature whose reset point is hit, and restart
        that accumulator while the signature has room. */
    method CheckResetPoints(h: int, h2: int, h3: int, j: nat, k: nat) returns (h2': int, h3': int, j': nat, k': nat)
      requires Cfg().Valid() && blockSize >= 1 && h >= 0
      requires ScanInv(Cfg(), ScanState(h, h2, h3, j, k, left, right))
      modifies this`left, this`right
      ensures ScanState(h, h2', h3', j', k', left, right) ==
        ResetPoints(Cfg(), blockSize, ScanState(h, h2, h3, j, k, old(left), old(right)))
    {
      var cfg := Cfg();
      ghost var st := ScanState(h, h2, h3, j, k, left, right);
      h2', h3', j', k' := h2, h3, j, k;
      if h % blockSize == blockSize - 1 {
        left := Put(left, j', Emit(cfg, h2'));
        if j' < spamsumLength - 1 {
          h2' := HASH_INIT;
          j' := j' + 1;
        }
      }
      ghost var reset := ScanState(h, h2', h3', j', k', left, right);
      assert reset == if h % blockSize == blockSize - 1 then LeftTrigger(cfg, st) else st;

      if h % (blockSize * 2) == blockSize * 2 - 1 {
        RightTriggerImpliesLeft(h, blockSize);
        right := Put(right, k', Emit(cfg, h3'));
        if k' < spamsumLength / 2 - 1 {
          h3' := HASH_INIT;
          k' := k' + 1;
        }
      }
    }

    /** Clears the window slots and the three components, and returns 0. */
    method RollingHashReset() returns (h: int)
      requires rollingWindow.Length == ROLLING_WINDOW
      modifies this`rollingH1, this`rollingH2, this`rollingH3, this`rollingN, this`history, rollingWindow
      ensures RollingValid() && history == [] && h == 0
      ensures forall i :: 0 <= i < ROLLING_WINDOW ==> rollingWindow[i] == 0
      ensures rollingH1 == 0 && rollingH2 == 0 && rollingH3 == 0 && rollingN == 0
    {
      for i := 0 to ROLLING_WINDOW
        invariant forall p :: 0 <= p < i ==> rollingWindow[p] == 0
      {
        rollingWindow[i] := 0;
      }
      rollingH1, rollingH2, rollingH3, rollingN := 0, 0, 0, 0;
      history := [];
      return 0;
    }
  }

  /** Slot `(n - 1 - age) mod 7` of the window holds the byte `age` steps
      back, for every age up to 6. */
  ghost predicate WindowHolds(win: seq<int>, n: nat, hist: seq<byte>)
  {
    |win| == ROLLING_WINDOW &&
    forall age :: 0 <= age < ROLLING_WINDOW ==> win[(n + 6 - age) % ROLLING_WINDOW] == Recent(hist, age)
  }

  /** The slot about to be written holds the oldest byte of the window. */
  lemma WindowOldest(win: seq<int>, n: nat, hist: seq<byte>)
    requires WindowHolds(win, n, hist)
    ensures win[n % ROLLING_WINDOW] == Recent(hist, 6)
  {
    assert (n + 6 - 6) % ROLLING_WINDOW == n % ROLLING_WINDOW;
  }

  /** Writing the new byte at slot `n mod 7` keeps the window in step. */
  lemma WindowWrite(win: seq<int>, n: nat, hist: seq<byte>, c: byte)
    requires WindowHolds(win, n, hist)
    ensures WindowHolds(win[n % ROLLING_WINDOW := c], n + 1, hist + [c])
  {
    var win' := win[n % ROLLING_WINDOW := c];
    forall age | 0 <= age < ROLLING_WINDOW
      ensures win'[(n + 1 + 6 - age) % ROLLING_WINDOW] == Recent(hist + [c], age)
    {
      WindowSlot(n, age);
      if age > 0 {
        assert win[(n + 6 - (age - 1)) % ROLLING_WINDOW] == Recent(hist, age - 1);
      }
    }
  }

  /** After the write at slot `n mod 7`, the newest byte is found there,
      and the byte that was `age - 1` steps back is found, `age` steps back,
      in the slot it already had, which is not the one written. */
  lemma WindowSlot(n: nat, age: nat)
    requires age < ROLLING_WINDOW
    ensures age == 0 ==> (n + 1 + 6 - age) % ROLLING_WINDOW == n % ROLLING_WINDOW
    ensures age > 0 ==> (n + 1 + 6 - age) % ROLLING_WINDOW == (n + 6 - (age - 1)) % ROLLING_WINDOW
    ensures age > 0 ==> (n + 1 + 6 - age) % ROLLING_WINDOW != n % ROLLING_WINDOW
  {
  }
}
