/** Trigram extraction and the hash arithmetic of the trigram table. */
module Trigrams {
  import opened Bytes
  import opened FiniteSets
  import opened Sequences

  // ---- Extraction -----------------------------------------------------------------------------

  /** A code holds three bytes: 24 bits of a 32-bit word. */
  const CODE_LIMIT: nat := 0x100_0000

  /** Marks an empty table slot; no trigram code reaches it. */
  const EMPTY_SLOT: nat := 0xFFFF_FFFF

  function Fold(c: Byte): Byte {
    if 65 <= c <= 90 then c + 32 else c
  }

  function Folded(word: Text): Text {
    seq(|word|, i requires 0 <= i < |word| => Fold(word[i]))
  }

  /** Bytes before and behind the word read as NUL. */
  function At(word: Text, i: int): Byte {
    if 0 <= i < |word| then Fold(word[i]) else 0
  }

  function EncodeTrigram(a: Byte, b: Byte, c: Byte): (r: nat)
    ensures r < CODE_LIMIT < EMPTY_SLOT
  {
    a * 0x1_0000 + b * 0x100 + c
  }

  /** On bytes, shifting and or-ing is the sum above. */
  lemma ShiftsAddUp(a: bv32, b: bv32, c: bv32)
    requires a < 256 && b < 256 && c < 256
    ensures (a << 16) | (b << 8) | c == a * 0x1_0000 + b * 0x100 + c
  {
  }

  lemma EncodeIsInjective(a: Byte, b: Byte, c: Byte, a': Byte, b': Byte, c': Byte)
    requires EncodeTrigram(a, b, c) == EncodeTrigram(a', b', c')
    ensures a == a' && b == b' && c == c'
  {
  }

  function TrigramAt(word: Text, i: int): (r: nat)
    ensures r < CODE_LIMIT
  {
    EncodeTrigram(At(word, i), At(word, i + 1), At(word, i + 2))
  }

  /** The emitted codes: a window of three over the word padded with two NULs on each side. */
  function TrigramSeq(word: Text): (r: seq<nat>)
    ensures |r| == if word == [] then 0 else |word| + 2
    ensures forall k | 0 <= k < |r| :: r[k] == TrigramAt(word, k - 2)
  {
    if word == [] then [] else seq(|word| + 2, k requires 0 <= k => TrigramAt(word, k - 2))
  }

  ghost function Codes(word: Text): set<nat> {
    Members(TrigramSeq(word))
  }

  /** The word in small letters with two NULs on each side. */
  ghost predicate PaddedLower(word: Text, padded: Text) {
    && |padded| == |word| + 4
    && padded[0] == 0 && padded[1] == 0 && padded[|word| + 2] == 0 && padded[|word| + 3] == 0
    && forall i | 0 <= i < |word| :: padded[i + 2] as int == word[i] as int + if 65 <= word[i] <= 90 then 32 else 0
  }

  /** Every window of three bytes gives its code, first byte highest. */
  lemma CodesOfPadded(word: Text, padded: Text, k: nat)
    requires word != [] && PaddedLower(word, padded) && k < |word| + 2
    ensures |TrigramSeq(word)| == |word| + 2 == |padded| - 2
    ensures TrigramSeq(word)[k] == 65536 * (padded[k] as int) + 256 * (padded[k + 1] as int) + padded[k + 2] as int
  {
    hide PaddedLower, At;
    PaddedSize(word, padded);
    AtPadded(word, padded, k);
    AtPadded(word, padded, k + 1);
    AtPadded(word, padded, k + 2);
  }

  lemma PaddedSize(word: Text, padded: Text)
    requires PaddedLower(word, padded)
    ensures |padded| == |word| + 4
  {
  }

  lemma AtPadded(word: Text, padded: Text, k: nat)
    requires PaddedLower(word, padded) && k < |padded|
    ensures At(word, k - 2) == padded[k]
  {
    if 2 <= k < |word| + 2 {
      assert padded[(k - 2) + 2] == padded[k];
    }
  }

  /** The same letter, large or small, or the same byte. */
  predicate SameButCase(a: int, b: int) {
    a == b || (65 <= a <= 90 && b == a + 32) || (65 <= b <= 90 && a == b + 32)
  }

  /** Two words fold alike exactly when they differ at most in the case of letters. */
  lemma FoldedAlike(v: Text, w: Text)
    ensures Folded(v) == Folded(w) <==> |v| == |w| && forall i | 0 <= i < |v| :: SameButCase(v[i], w[i])
  {
    if Folded(v) == Folded(w) {
      assert |v| == |w|;
      forall i | 0 <= i < |v| ensures SameButCase(v[i], w[i]) {
        assert Folded(v)[i] == Folded(w)[i];
      }
    }
  }

  method ForEachTrigram(word: Text) returns (codes: seq<nat>)
    ensures codes == TrigramSeq(word)
  {
    codes := [];
    var n := |word|;
    if n <= 0 {
      return;
    }
    var i := -2;
    while i <= n - 1
      invariant -2 <= i <= n && codes == TrigramSeq(word)[..i + 2]
    {
      codes := codes + [EncodeTrigram(At(word, i), At(word, i + 1), At(word, i + 2))];
      i := i + 1;
    }
  }

  /** The emitted sequence determines the word up to ASCII case, and nothing more. */
  lemma TrigramsDetermineWord(v: Text, w: Text)
    ensures TrigramSeq(v) == TrigramSeq(w) <==> Folded(v) == Folded(w)
  {
    if TrigramSeq(v) == TrigramSeq(w) {
      assert |v| == |w|;
      forall i | 0 <= i < |v| ensures Folded(v)[i] == Folded(w)[i] {
        assert TrigramSeq(v)[i] == TrigramAt(v, i - 2) && TrigramSeq(w)[i] == TrigramAt(w, i - 2);
        EncodeIsInjective(At(v, i - 2), At(v, i - 1), At(v, i), At(w, i - 2), At(w, i - 1), At(w, i));
      }
    }
    if Folded(v) == Folded(w) {
      assert |v| == |w|;
      forall i: int ensures At(v, i) == At(w, i) {
        if 0 <= i < |v| { assert Folded(v)[i] == Folded(w)[i]; }
      }
    }
  }

  // ---- Sorted, duplicate-free lists ------------------------------------------------------------

  function InsertUnique(s: seq<nat>, x: nat): (r: seq<nat>)
    requires Increasing(s)
    ensures Increasing(r) && forall y :: y in r <==> y in s || y == x
  {
    if s == [] || x < s[0] then [x] + s
    else if x == s[0] then s
    else
      var rest := InsertUnique(s[1..], x);
      PrependKeepsOrder(s, x, rest);
      [s[0]] + rest
  }

  lemma PrependKeepsOrder(s: seq<nat>, x: nat, rest: seq<nat>)
    requires s != [] && s[0] < x && Increasing(s) && Increasing(rest)
    requires forall y :: y in rest <==> y in s[1..] || y == x
    ensures Increasing([s[0]] + rest)
    ensures forall y :: y in [s[0]] + rest <==> y in s || y == x
  {
    assert s == [s[0]] + s[1..];
    forall k | 0 <= k < |rest| ensures s[0] < rest[k] {
      assert rest[k] in rest;
    }
  }

  /** `sort` followed by erasing `unique`'s leftovers. */
  function SortUnique(s: seq<nat>): (r: seq<nat>)
    ensures Increasing(r) && forall y :: y in r <==> y in s
  {
    if s == [] then [] else InsertUnique(SortUnique(s[..|s| - 1]), s[|s| - 1])
  }

  /** An increasing list is determined by its members. */
  lemma {:induction false} IncreasingIsUnique(s: seq<nat>, t: seq<nat>)
    requires Increasing(s) && Increasing(t) && forall x :: x in s <==> x in t
    ensures s == t
  {
    assert s != [] ==> s[0] in t;
    assert t != [] ==> t[0] in s;
    if s != [] {
      var s', t' := s[1..], t[1..];
      assert s == [s[0]] + s' && t == [t[0]] + t';
      forall x ensures x in s' <==> x in t' {
        assert x in s' ==> x in s;
        assert x in t' ==> x in t;
      }
      IncreasingIsUnique(s', t');
    }
  }

  // ---- Hash arithmetic -------------------------------------------------------------------------

  const GOLDEN_RATIO: nat := 0x9E37_79B9_7F4A_7C15

  function Pow2(n: nat): (r: nat)
    ensures r > 0
  {
    if n == 0 then 1 else 2 * Pow2(n - 1)
  }

  lemma {:induction false} Pow2Sum(m: nat, n: nat)
    ensures Pow2(m + n) == Pow2(m) * Pow2(n)
  {
    if m > 0 {
      Pow2Sum(m - 1, n);
      assert Pow2(m + n) == 2 * Pow2(m - 1 + n);
    }
  }

  lemma Pow2Monotone(m: nat, n: nat)
    requires m <= n
    ensures Pow2(m) <= Pow2(n)
  {
  }

  lemma Pow2Values()
    ensures Pow2(4) == 16 && Pow2(24) == 0x100_0000 && Pow2(25) == 0x200_0000 && Pow2(32) == 0x1_0000_0000
  {
    assert Pow2(8) == 256 && Pow2(12) == 0x1000;
    assert Pow2(16) == 0x1_0000 && Pow2(20) == 0x10_0000;
    assert Pow2(28) == 0x1000_0000;
  }

  const TWO_TO_THE_64: nat := 0x1_0000_0000_0000_0000

  lemma TwoToThe64()
    ensures Pow2(64) == TWO_TO_THE_64
  {
    Pow2Values();
    Pow2Sum(32, 32);
  }

  /** Multiplicative hashing in 64-bit arithmetic. */
  function FibonacciHash(code: nat): (r: nat)
    ensures r < TWO_TO_THE_64
  {
    code * GOLDEN_RATIO % TWO_TO_THE_64
  }

  /** Shifting right by n places. */
  function ShiftRight(h: nat, n: nat): nat {
    if n == 0 then h else ShiftRight(h / 2, n - 1)
  }

  lemma {:induction false} ShiftedIsSmall(h: nat, bits: nat, n: nat)
    requires h < Pow2(bits + n)
    ensures ShiftRight(h, n) < Pow2(bits)
  {
    if n > 0 {
      assert Pow2(bits + n) == 2 * Pow2(bits + (n - 1));
      ShiftedIsSmall(h / 2, bits, n - 1);
    }
  }

  /** The top bits of the hash always name a slot of a table with that many index bits. */
  function HomeSlot(code: nat, bits: nat): (r: nat)
    requires bits <= 64
    ensures r < Pow2(bits)
  {
    if bits == 0 then 0
    else
      TwoToThe64();
      ShiftedIsSmall(FibonacciHash(code), bits, 64 - bits);
      ShiftRight(FibonacciHash(code), 64 - bits)
  }

  /** It is the top bits of the 64-bit product with the golden ratio: the hash divided by what is cut off. */
  lemma HomeSlotIsTopBits(code: nat, bits: nat)
    requires 1 <= bits <= 64
    ensures var hash, cut := code * 0x9E37_79B9_7F4A_7C15 % 0x1_0000_0000_0000_0000, Pow2(64 - bits);
      HomeSlot(code, bits) * cut <= hash < HomeSlot(code, bits) * cut + cut
  {
    ShiftIsDivision(FibonacciHash(code), 64 - bits);
  }

  lemma {:induction false} ShiftIsDivision(h: nat, n: nat)
    ensures ShiftRight(h, n) * Pow2(n) <= h < ShiftRight(h, n) * Pow2(n) + Pow2(n)
  {
    if n > 0 {
      ShiftIsDivision(h / 2, n - 1);
      var r, c := ShiftRight(h / 2, n - 1), Pow2(n - 1);
      TwiceTimes(r, c);
    }
  }

  lemma TwiceTimes(r: nat, c: nat)
    ensures r * (2 * c) == 2 * (r * c)
  {
  }

  /** `countr_zero` of a power of two finds its exponent. */
  function TrailingZeros(x: nat): nat
    requires x > 0
  {
    if x % 2 == 1 then 0 else 1 + TrailingZeros(x / 2)
  }

  lemma {:induction false} TrailingZerosOfPow2(bits: nat)
    ensures TrailingZeros(Pow2(bits)) == bits
  {
    if bits > 0 {
      TrailingZerosOfPow2(bits - 1);
    }
  }

  // ---- The load factor --------------------------------------------------------------------------

  const TWO_TO_THE_52: nat := 0x10_0000_0000_0000
  const TWO_TO_THE_53: nat := 0x20_0000_0000_0000
  const TWO_TO_THE_63: nat := 0x8000_0000_0000_0000

  /** The literal 0.7 in double precision is this number divided by 2^52. */
  const SEVEN_TENTHS: nat := 3_152_519_739_159_347

  /** The distance between neighbouring doubles around a whole number. */
  function Ulp(n: nat): (s: nat)
    ensures s > 0
  {
    if n < TWO_TO_THE_53 then 1 else 2 * Ulp(n / 2)
  }

  function RoundHalfEven(q: nat, r: nat, s: nat): nat {
    if 2 * r > s || (2 * r == s && q % 2 == 1) then q + 1 else q
  }

  /** A 64-bit count converted to double precision. */
  function ToDouble(n: nat): nat {
    var s := Ulp(n);
    RoundHalfEven(n / s, n % s, s) * s
  }

  lemma SmallCountsAreExact(n: nat)
    requires n < TWO_TO_THE_53
    ensures ToDouble(n) == n
  {
  }

  lemma {:induction false} UlpIsSmall(n: nat)
    requires n >= TWO_TO_THE_53
    ensures 7 * Ulp(n) <= n
  {
    if n / 2 >= TWO_TO_THE_53 {
      UlpIsSmall(n / 2);
    }
  }

  /** The spacing is the power of two that leaves a whole number of 53 bits. */
  lemma {:induction false} UlpLeaves53Bits(n: nat)
    ensures n < TWO_TO_THE_53 ==> Ulp(n) == 1
    ensures n >= TWO_TO_THE_53 ==> 0x10_0000_0000_0000 * Ulp(n) <= n < 0x20_0000_0000_0000 * Ulp(n)
    ensures exists b: nat :: Ulp(n) == Pow2(b)
  {
    if n < TWO_TO_THE_53 {
      assert Ulp(n) == Pow2(0);
    } else {
      UlpLeaves53Bits(n / 2);
      var b: nat :| Ulp(n / 2) == Pow2(b);
      assert Ulp(n) == Pow2(b + 1);
    }
  }

  /** The conversion goes to a multiple of the spacing, to a nearest one, and halfway to an even one. */
  lemma ToDoubleIsNearest(n: nat)
    ensures exists m: nat :: RoundsTo(n, Ulp(n), m) && ToDouble(n) == m * Ulp(n)
  {
    hide Ulp;
    var s := Ulp(n);
    RoundingIsNearest(n, s);
    assert RoundsTo(n, s, RoundHalfEven(n / s, n % s, s));
  }

  /** m multiples of s are as near to n as there are; of two, m is even. */
  ghost predicate RoundsTo(n: nat, s: nat, m: nat) {
    && 2 * n <= 2 * (m * s) + s && 2 * (m * s) <= 2 * n + s
    && (2 * n == 2 * (m * s) + s || 2 * (m * s) == 2 * n + s ==> m % 2 == 0)
  }

  lemma RoundingIsNearest(n: nat, s: nat)
    requires s > 0
    ensures RoundsTo(n, s, RoundHalfEven(n / s, n % s, s))
  {
    var q, r := n / s, n % s;
    assert n == q * s + r && r < s;
    assert (q + 1) * s == q * s + s;
  }

  lemma ToDoubleIsNear(n: nat)
    ensures ToDouble(n) + Ulp(n) > n && 7 * ToDouble(n) >= 6 * n
  {
    hide Ulp, RoundHalfEven;
    RoundedIsNear(n, Ulp(n));
    if n < TWO_TO_THE_53 {
      SmallCountsAreExact(n);
    } else {
      UlpIsSmall(n);
    }
  }

  lemma RoundedIsNear(n: nat, s: nat)
    requires s > 0
    ensures RoundHalfEven(n / s, n % s, s) * s + s > n
  {
    var q, rounded := n / s, RoundHalfEven(n / s, n % s, s);
    assert n == q * s + n % s;
    assert rounded * s >= q * s by {
      assert rounded == q || rounded == q + 1;
      assert (q + 1) * s == q * s + s;
    }
  }

  /** The guard of the doubling loop; a product with a power of two is exact. */
  predicate Overloaded(count: nat, capacity: nat) {
    ToDouble(count) * TWO_TO_THE_52 > SEVEN_TENTHS * capacity
  }

  /** Seven tenths of a power of two are never a whole number. */
  lemma {:induction false} NoMultipleOfFive(bits: nat)
    ensures Pow2(bits) % 5 != 0
  {
    if bits > 0 {
      NoMultipleOfFive(bits - 1);
    }
  }

  /** As long as doubles hold the count, comparing in double precision is comparing with 0.7 exactly. */
  lemma DoubleGuardIsExact(count: nat, bits: nat)
    requires count < TWO_TO_THE_53 && bits <= 51
    ensures Overloaded(count, Pow2(bits)) <==> 10 * count > 7 * Pow2(bits)
  {
    hide Pow2;
    SmallCountsAreExact(count);
    NoMultipleOfFive(bits);
    Pow2Monotone(bits, 51);
    Pow2Values();
    Pow2Sum(25, 25);
    NextPower(50);
    ExactGuard(count, Pow2(bits));
  }

  lemma ExactGuard(count: nat, capacity: nat)
    requires capacity % 5 != 0 && capacity <= TWO_TO_THE_52 / 2
    ensures count * TWO_TO_THE_52 > SEVEN_TENTHS * capacity <==> 10 * count > 7 * capacity
  {
    assert 10 * SEVEN_TENTHS == 7 * TWO_TO_THE_52 - 2;
    assert 10 * count != 7 * capacity;
  }

  lemma OverloadedFalls(count: nat, b: nat, b': nat)
    requires b <= b' && !Overloaded(count, Pow2(b))
    ensures !Overloaded(count, Pow2(b'))
  {
    Pow2Monotone(b, b');
  }

  lemma LargestCapacity()
    ensures Pow2(63) == TWO_TO_THE_63
  {
    TwoToThe64();
  }

  /** Some capacity of a 64-bit word is enough exactly when the largest is; otherwise the capacity becomes
      zero and the source loops for ever. */
  lemma SomeCapacityIffLargest(count: nat)
    ensures (exists b: nat :: 4 <= b <= 63 && !Overloaded(count, Pow2(b))) <==> !Overloaded(count, TWO_TO_THE_63)
  {
    hide Overloaded, Pow2;
    LargestCapacity();
    if b: nat :| 4 <= b <= 63 && !Overloaded(count, Pow2(b)) {
      OverloadedFalls(count, b, 63);
    }
  }

  lemma RoomLeft(count: nat, capacity: nat)
    requires !Overloaded(count, capacity) && capacity > 0
    ensures count < capacity
  {
    ToDoubleIsNear(count);
    hide ToDouble;
    assert 10 * SEVEN_TENTHS <= 7 * TWO_TO_THE_52;
  }

  /** Half a trigram code space and more: such counts are far from the end of the range. */
  lemma CodeCountsFit(count: nat)
    requires count <= CODE_LIMIT
    ensures !Overloaded(count, TWO_TO_THE_63) && !Overloaded(count, Pow2(25))
  {
    SmallCountsAreExact(count);
    Pow2Values();
  }

  /** 2^bits is the least power of two from 16 on that keeps the load at or below 0.7. */
  ghost predicate LeastCapacity(count: nat, bits: nat) {
    && bits >= 4 && !Overloaded(count, Pow2(bits))
    && forall b: nat :: b >= 4 && !Overloaded(count, Pow2(b)) ==> Pow2(bits) <= Pow2(b)
  }

  /** Finds it for every 64-bit count for which there is one. */
  method CapacityForCount(count: nat) returns (capacity: nat, ghost bits: nat)
    requires count < TWO_TO_THE_64 && !Overloaded(count, TWO_TO_THE_63)
    ensures bits <= 63 && capacity == Pow2(bits) && LeastCapacity(count, bits) && count < capacity
    ensures count <= CODE_LIMIT ==> bits <= 25 && 10 * count <= 7 * capacity
    ensures count <= 0x100_0000 ==> capacity == 16 || (capacity >= 32 && 10 * count > 7 * (capacity / 2))
  {
    hide Overloaded, Pow2;
    capacity, bits := 16, 4;
    Pow2Values();
    LargestCapacity();
    while Overloaded(count, capacity)
      invariant 4 <= bits <= 63 && capacity == Pow2(bits)
      invariant forall b: nat | 4 <= b < bits :: Overloaded(count, Pow2(b))
      decreases 63 - bits
    {
      NextPower(bits);
      capacity, bits := 2 * capacity, bits + 1;
    }
    forall b: nat | b >= 4 && !Overloaded(count, Pow2(b)) ensures capacity <= Pow2(b) {
      Pow2Monotone(bits, b);
    }
    RoomLeft(count, capacity);
    if count <= CODE_LIMIT {
      CodeCountsFit(count);
      DoubleGuardIsExact(count, bits);
      if bits > 4 {
        NextPower(bits - 1);
        NextPower(4);
        Pow2Monotone(5, bits);
        DoubleGuardIsExact(count, bits - 1);
      }
    }
  }

  lemma NextPower(bits: nat)
    ensures Pow2(bits + 1) == 2 * Pow2(bits)
  {
  }

  /** The slot after idx, cyclically: `(idx + 1) & (capacity - 1)`. */
  function NextSlot(idx: nat, capacity: nat): nat {
    if idx + 1 == capacity then 0 else idx + 1
  }

  lemma NextSlotIsCyclic(idx: nat, capacity: nat)
    requires idx < capacity
    ensures NextSlot(idx, capacity) == (idx + 1) % capacity
  {
    if idx + 1 < capacity {
      RemainderOfLess(idx + 1, capacity);
    }
  }

  lemma RemainderOfLess(x: nat, n: nat)
    requires x < n
    ensures x % n == x
  {
  }

  /** In a power-of-two table, masking with capacity - 1 is that cyclic step. */
  lemma MaskWraps(idx: bv64, capacity: bv64)
    requires capacity != 0 && capacity & (capacity - 1) == 0 && idx < capacity
    ensures (idx + 1) & (capacity - 1) == if idx + 1 == capacity then 0 else idx + 1
  {
  }
}
