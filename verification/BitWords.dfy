/**
 The words of a bitmap element in order, as `bitmap_first_set_bit` and
 `bitmap_last_set_bit` read them (bitmap.c): unsigned numbers of 64 bits, and
 the searches for the lowest and the highest bit of one.
 */
module BitWords {
  import opened Helpers
  import opened Blocks
  import opened Neighbours

  /** `BITMAP_WORD_BITS` */
  const WORD_BITS: nat := 64

  /** `&` */
  function BitAnd(a: nat, b: nat): nat
    decreases a
  {
    if a == 0 then 0 else (if a % 2 == 1 && b % 2 == 1 then 1 else 0) + 2 * BitAnd(a / 2, b / 2)
  }

  /** `-w` for unsigned words of `n` bits */
  function Negated(w: nat, n: nat): nat
    requires w < Pow2(n)
  {
    if w == 0 then 0 else Pow2(n) - w
  }

  /** `>>` */
  function Shr(w: nat, n: nat): nat
    decreases n
  {
    if n == 0 then w else Shr(w / 2, n - 1)
  }

  /** The `n` bits from number `base` on of an element, as a word. */
  function Word(s: set<nat>, base: nat, n: nat): nat
    decreases n
  {
    if n == 0 then 0 else (if base in s then 1 else 0) + 2 * Word(s, base + 1, n - 1)
  }

  /** `ptr->bits[i]` */
  function ElementWord(s: set<nat>, i: nat): nat {
    Word(s, i * WORD_BITS, WORD_BITS)
  }

  /** The number of the lowest bit set. */
  function Lowest(w: nat): nat
    requires w > 0
  {
    if w % 2 == 1 then 0 else 1 + Lowest(w / 2)
  }

  /** The number of the highest bit set. */
  function Highest(w: nat): nat
    requires w > 0
  {
    if w == 1 then 0 else 1 + Highest(w / 2)
  }

  // ----- words and sets -----

  lemma {:induction false} WordBelow(s: set<nat>, base: nat, n: nat)
    ensures Word(s, base, n) < Pow2(n)
    ensures Word(s, base, n) == 0 <==> forall x :: x in s ==> x < base || base + n <= x
    decreases n
  {
    if n > 0 {
      WordBelow(s, base + 1, n - 1);
      assert base in s ==> !(forall x :: x in s ==> x < base || base + n <= x);
    }
  }

  /** The lowest bit of a word is the least member of its part of the set. */
  lemma {:induction false} LowestIs(s: set<nat>, base: nat, n: nat)
    requires Word(s, base, n) > 0
    ensures var k := Lowest(Word(s, base, n));
            k < n && base + k in s && forall x :: x in s && base <= x ==> base + k <= x
    decreases n
  {
    if base !in s {
      LowestIs(s, base + 1, n - 1);
    }
  }

  /** The highest bit of a word is the greatest member of its part of the set. */
  lemma {:induction false} HighestIs(s: set<nat>, base: nat, n: nat)
    requires Word(s, base, n) > 0
    ensures var k := Highest(Word(s, base, n));
            k < n && base + k in s && forall x :: x in s && x < base + n ==> x <= base + k
    decreases n
  {
    WordBelow(s, base + 1, n - 1);
    if Word(s, base + 1, n - 1) > 0 {
      HighestIs(s, base + 1, n - 1);
    }
  }

  // ----- masks and shifts -----

  /** Complements have no bit in common. */
  lemma {:induction false} Disjoint(a: nat, n: nat)
    requires a < Pow2(n)
    ensures BitAnd(a, Pow2(n) - 1 - a) == 0
  {
    if a > 0 {
      assert (Pow2(n) - 1 - a) / 2 == Pow2(n - 1) - 1 - a / 2;
      Disjoint(a / 2, n - 1);
    }
  }

  /** `word & -word` is the lowest bit alone. */
  lemma {:induction false} Isolated(w: nat, n: nat)
    requires 0 < w < Pow2(n)
    ensures BitAnd(w, Negated(w, n)) == Pow2(Lowest(w))
  {
    if w % 2 == 1 {
      assert (Pow2(n) - w) / 2 == Pow2(n - 1) - 1 - w / 2;
      Disjoint(w / 2, n - 1);
    } else {
      assert (Pow2(n) - w) / 2 == Pow2(n - 1) - w / 2;
      Isolated(w / 2, n - 1);
    }
  }

  /** A mask of `n` ones misses a single bit from `n` on. */
  lemma {:induction false} LowMask(k: nat, n: nat)
    ensures BitAnd(Pow2(k), Pow2(n) - 1) == 0 <==> n <= k
  {
    if k > 0 && n > 0 {
      assert (Pow2(n) - 1) / 2 == Pow2(n - 1) - 1;
      LowMask(k - 1, n - 1);
    } else if n == 0 {
      NoneOf(Pow2(k));
    }
  }

  lemma {:induction false} NoneOf(a: nat)
    ensures BitAnd(a, 0) == 0
  {
    if a > 0 {
      NoneOf(a / 2);
    }
  }

  lemma {:induction false} ShiftOne(k: nat, n: nat)
    requires n <= k
    ensures Shr(Pow2(k), n) == Pow2(k - n)
  {
    if n > 0 {
      ShiftOne(k - 1, n - 1);
    }
  }

  /** A mask of the bits from `n` to `m` tells whether a word of `m` bits has one from `n` on. */
  lemma {:induction false} HighMask(w: nat, mask: nat, m: nat, n: nat)
    requires w < Pow2(m) && n <= m && mask == Pow2(m) - Pow2(n)
    ensures BitAnd(w, mask) != 0 <==> w >= Pow2(n)
    decreases w
  {
    if w > 0 {
      assert Pow2(m) == 2 * Pow2(m - 1);
      if n > 0 {
        assert mask / 2 == Pow2(m - 1) - Pow2(n - 1);
        HighMask(w / 2, mask / 2, m - 1, n - 1);
      } else {
        assert mask / 2 == Pow2(m - 1) - 1;
        HighMask(w / 2, mask / 2, m - 1, 0);
      }
    }
  }

  lemma {:induction false} ShiftHigh(w: nat, m: nat, n: nat)
    requires Pow2(n) <= w < Pow2(m) && n <= m
    ensures 0 < Shr(w, n) < Pow2(m - n) && Highest(w) == n + Highest(Shr(w, n))
  {
    if n > 0 {
      ShiftHigh(w / 2, m - 1, n - 1);
    }
  }

  predicate BitSet(mask: nat, k: nat)
    decreases k
  {
    if k == 0 then mask % 2 == 1 else BitSet(mask / 2, k - 1)
  }

  lemma {:induction false} SingleBit(k: nat, mask: nat)
    ensures BitAnd(Pow2(k), mask) != 0 <==> BitSet(mask, k)
    decreases k
  {
    if k > 0 {
      SingleBit(k - 1, mask / 2);
    } else {
      assert BitAnd(0, mask / 2) == 0;
    }
  }

  /** The last three steps for the first bit. */
  lemma ByteMasks(k: nat)
    requires k < 8
    ensures k == (if BitAnd(Pow2(k), 0xf0) != 0 then 4 else 0) + (if BitAnd(Pow2(k), 0xcc) != 0 then 2 else 0)
                 + if BitAnd(Pow2(k), 0xaa) != 0 then 1 else 0
  {
    hide BitAnd, Pow2;
    MaskBits(k);
    hide BitSet;
    SingleBit(k, 0xf0);
    SingleBit(k, 0xcc);
    SingleBit(k, 0xaa);
  }

  lemma MaskBits(k: nat)
    requires k < 8
    ensures BitSet(0xf0, k) <==> 4 <= k
    ensures BitSet(0xcc, k) <==> k == 2 || k == 3 || 6 <= k
    ensures BitSet(0xaa, k) <==> k == 1 || k == 3 || k == 5 || k == 7
  {
  }

  // ----- the searches -----

  /** A step of the search for the first bit: `if ((word & mask) == 0) word >>= n, bit_num += n`. */
  method StepLow(word: nat, bitNum: nat, mask: nat, n: nat, ghost k: nat)
    returns (word': nat, bitNum': nat, ghost k': nat)
    requires word == Pow2(k) && mask == Pow2(n) - 1 && k < 2 * n
    ensures word' == Pow2(k') && k' < n && bitNum' + k' == bitNum + k
  {
    word', bitNum', k' := word, bitNum, k;
    LowMask(k, n);
    if BitAnd(word, mask) == 0 {
      ShiftOne(k, n);
      word', bitNum', k' := Shr(word, n), bitNum + n, k - n;
    }
  }

  /** The binary search for the first bit set. */
  method FirstBit(w: nat) returns (bitNum: nat)
    requires 0 < w < Pow2(WORD_BITS)
    ensures bitNum == Lowest(w)
  {
    hide BitAnd, Negated, Lowest, Shr;
    Powers();
    Isolated(w, WORD_BITS);
    LowestBelow(w, WORD_BITS);
    hide Pow2;
    var word := BitAnd(w, Negated(w, WORD_BITS));
    ghost var k := Lowest(w);
    bitNum := 0;
    word, bitNum, k := StepLow(word, bitNum, 0xffff_ffff, 32, k);
    word, bitNum, k := StepLow(word, bitNum, 0xffff, 16, k);
    word, bitNum, k := StepLow(word, bitNum, 0xff, 8, k);
    ByteMasks(k);
    if BitAnd(word, 0xf0) != 0 {
      bitNum := bitNum + 4;
    }
    if BitAnd(word, 0xcc) != 0 {
      bitNum := bitNum + 2;
    }
    if BitAnd(word, 0xaa) != 0 {
      bitNum := bitNum + 1;
    }
  }

  lemma {:induction false} LowestBelow(w: nat, n: nat)
    requires 0 < w < Pow2(n)
    ensures Lowest(w) < n
  {
    if w % 2 == 0 {
      LowestBelow(w / 2, n - 1);
    }
  }

  /** A step of the search for the last bit: `if (word & mask) word >>= n, bit_num += n`. */
  method StepHigh(word: nat, bitNum: nat, mask: nat, n: nat) returns (word': nat, bitNum': nat)
    requires 0 < word < Pow2(2 * n) && mask == Pow2(2 * n) - Pow2(n)
    ensures 0 < word' < Pow2(n) && bitNum' + Highest(word') == bitNum + Highest(word)
  {
    word', bitNum' := word, bitNum;
    HighMask(word, mask, 2 * n, n);
    if BitAnd(word, mask) != 0 {
      ShiftHigh(word, 2 * n, n);
      word', bitNum' := Shr(word, n), bitNum + n;
    }
  }

  /** The binary search for the last bit set. */
  method LastBit(w: nat) returns (bitNum: nat)
    requires 0 < w < Pow2(WORD_BITS)
    ensures bitNum == Highest(w)
  {
    hide BitAnd, Highest, Shr;
    Powers();
    hide Pow2;
    var word := w;
    bitNum := 0;
    word, bitNum := StepHigh(word, bitNum, 0xffff_ffff_0000_0000, 32);
    word, bitNum := StepHigh(word, bitNum, 0xffff_0000, 16);
    word, bitNum := StepHigh(word, bitNum, 0xff00, 8);
    word, bitNum := StepHigh(word, bitNum, 0xf0, 4);
    word, bitNum := StepHigh(word, bitNum, 0xc, 2);
    HighMask(word, 0x2, 2, 1);
    HighestSmall(word);
    if BitAnd(word, 0x2) != 0 {
      bitNum := bitNum + 1;
    }
  }

  lemma HighestSmall(w: nat)
    requires 0 < w < 4
    ensures Highest(w) == if w >= 2 then 1 else 0
  {
  }

  // ----- elements -----

  /** The two words of an element hold all of it. */
  lemma TwoWords(s: set<nat>)
    requires s <= AllBits()
    ensures forall i {:trigger ElementWord(s, i)} :: 0 <= i < 2 ==>
              ElementWord(s, i) < Pow2(WORD_BITS)
              && (ElementWord(s, i) == 0 <==> forall x :: x in s ==> x < i * WORD_BITS || (i + 1) * WORD_BITS <= x)
    ensures forall x :: x in s ==> x < ELEMENT_BITS
  {
    hide Word, Pow2;
    WordBelow(s, 0, WORD_BITS);
    WordBelow(s, WORD_BITS, WORD_BITS);
  }

  /** Bits of word `i` by their number in the element. */
  lemma WordEnds(s: set<nat>, i: nat)
    requires ElementWord(s, i) > 0
    ensures var k := Lowest(ElementWord(s, i));
            i * WORD_BITS + k in s && forall x :: x in s && i * WORD_BITS <= x ==> i * WORD_BITS + k <= x
    ensures var k := Highest(ElementWord(s, i));
            i * WORD_BITS + k in s && forall x :: x in s && x < (i + 1) * WORD_BITS ==> x <= i * WORD_BITS + k
  {
    LowestIs(s, i * WORD_BITS, WORD_BITS);
    HighestIs(s, i * WORD_BITS, WORD_BITS);
  }

  /** `word_num` and `word` of the first nonzero word of an element, and its first bit. */
  method FirstInElement(s: set<nat>) returns (wordNum: nat, bitNum: nat)
    requires s != {} && s <= AllBits()
    ensures var n := wordNum * WORD_BITS + bitNum; n in s && forall x :: x in s ==> n <= x
  {
    TwoWords(s);
    hide AllBits, ElementWord, Pow2, Lowest;
    var word;
    wordNum, word := 0, ElementWord(s, 0);
    if word == 0 {
      wordNum, word := 1, ElementWord(s, 1);
    }
    WordEnds(s, wordNum);
    bitNum := FirstBit(word);
  }

  /** The same for the last. */
  method LastInElement(s: set<nat>) returns (wordNum: nat, bitNum: nat)
    requires s != {} && s <= AllBits()
    ensures var n := wordNum * WORD_BITS + bitNum; n in s && forall x :: x in s ==> x <= n
  {
    TwoWords(s);
    hide AllBits, ElementWord, Pow2, Highest;
    var word;
    wordNum, word := 1, ElementWord(s, 1);
    if word == 0 {
      wordNum, word := 0, ElementWord(s, 0);
    }
    WordEnds(s, wordNum);
    bitNum := LastBit(word);
  }
}
