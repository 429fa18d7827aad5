/** The bit words that the program keeps, against the sequences of flags that the model keeps. */
module Bits {
  import opened Numbers
  import opened Pod

  /** The word with bit `i` set: `1u << i`. */
  function Flag(i: nat): bv32 {
    if i == 0 then 1 else Flag(i - 1) << 1
  }

  predicate Meets(word: bv32, flags: bv32) {
    word & flags != 0
  }

  predicate Bit(word: bv32, i: nat) {
    Meets(word, Flag(i))
  }

  function Join(word: bv32, flags: bv32): bv32 {
    word | flags
  }

  // --- flags ---

  function ShiftedBy(word: bv32, n: nat): bv32
    decreases n
  {
    if n == 0 then word else ShiftedBy(word << 1, n - 1)
  }

  lemma {:induction false} ShiftedZero(n: nat)
    ensures ShiftedBy(0, n) == 0
  {
    if n > 0 { ShiftedZero(n - 1); }
  }

  lemma {:induction false} ShiftedFlag(i: nat, n: nat)
    requires i + n == 31
    ensures ShiftedBy(Flag(i), n) == Flag(31)
    decreases n
  {
    if n > 0 {
      assert Flag(i + 1) == Flag(i) << 1;
      ShiftedFlag(i + 1, n - 1);
    }
  }

  lemma TopFlag()
    ensures Flag(31) == 0x8000_0000
  {
    assert Flag(3) == 0x8;
    assert Flag(6) == 0x40;
    assert Flag(9) == 0x200;
    assert Flag(12) == 0x1000;
    assert Flag(15) == 0x8000;
    assert Flag(18) == 0x40000;
    assert Flag(21) == 0x200000;
    assert Flag(24) == 0x1000000;
    assert Flag(27) == 0x8000000;
    assert Flag(30) == 0x40000000;
  }

  lemma FlagIsNotZero(i: nat)
    requires i < 32
    ensures Flag(i) != 0
  {
    ShiftedFlag(i, 31 - i);
    ShiftedZero(31 - i);
    TopFlag();
  }

  lemma ShiftTogether(a: bv32, b: bv32)
    requires a & b == 0
    ensures (a << 1) & (b << 1) == 0
  {
  }

  lemma ShiftedIsEven(a: bv32)
    ensures 1 & (a << 1) == 0
  {
  }

  lemma {:induction false} FlagsApart(i: nat, j: nat)
    requires i < j
    ensures Flag(i) & Flag(j) == 0
  {
    if i == 0 {
      ShiftedIsEven(Flag(j - 1));
    } else {
      FlagsApart(i - 1, j - 1);
      ShiftTogether(Flag(i - 1), Flag(j - 1));
    }
  }

  lemma OrBit(word: bv32, f: bv32, g: bv32)
    ensures (word | f) & g != 0 <==> word & g != 0 || f & g != 0
  {
  }

  lemma OrMeets(word: bv32, f: bv32, g: bv32)
    ensures Meets(word | f, g) <==> Meets(word, g) || Meets(f, g)
  {
    OrBit(word, f, g);
  }

  lemma JoinMeets(word: bv32, f: bv32, g: bv32)
    ensures Meets(Join(word, f), g) <==> Meets(word, g) || Meets(f, g)
  {
    var j := word | f;
    assert Join(word, f) == j;
    OrMeets(word, f, g);
  }

  lemma FlagsMeetIff(i: nat, j: nat)
    requires i < 32 && j < 32
    ensures Meets(Flag(i), Flag(j)) <==> i == j
  {
    if i < j {
      FlagsApart(i, j);
    } else if j < i {
      AndSwaps(i, j);
    } else {
      Same(Flag(i));
      FlagIsNotZero(i);
    }
  }

  /** Setting one bit leaves the others. */
  lemma SetBit(word: bv32, i: nat, j: nat)
    requires i < 32 && j < 32
    ensures Bit(Join(word, Flag(i)), j) <==> Bit(word, j) || i == j
  {
    FlagsMeetIff(i, j);
    JoinMeets(word, Flag(i), Flag(j));
  }

  lemma AndSwaps(i: nat, j: nat)
    requires j < i
    ensures Flag(i) & Flag(j) == 0
  {
    FlagsApart(j, i);
    Swapped(Flag(i), Flag(j));
  }

  lemma Swapped(f: bv32, g: bv32)
    ensures f & g == g & f
  {
  }

  lemma Same(f: bv32)
    ensures f & f == f
  {
  }

  // --- the fragment bits: IncomingCommand ---

  /** Bit k % 32 of word k / 32 is flag k. */
  ghost predicate Packs(words: seq<bv32>, marks: seq<bool>) {
    |marks| == 32 * |words| && forall k: nat :: k < |marks| ==> (marks[k] <==> Bit(words[k / 32], k % 32))
  }

  /** `IsFragmentAlreadyReceived` reads the flag. */
  predicate ReadWord(words: seq<bv32>, k: nat)
    requires k / 32 < |words|
  {
    Meets(words[k / 32], Flag(k % 32))
  }

  /** The word that `MarkFragmentReceived` changes. */
  function MarkWord(words: seq<bv32>, k: nat): seq<bv32>
    requires k / 32 < |words|
  {
    words[k / 32 := Join(words[k / 32], Flag(k % 32))]
  }

  lemma SamePlace(k: nat, l: nat)
    ensures k / 32 == l / 32 && k % 32 == l % 32 <==> k == l
  {
  }

  /** The words answer as the flags do, and setting a bit of a word sets one flag and no other. */
  lemma WordsAreFlags(words: seq<bv32>, marks: seq<bool>, k: nat)
    requires Packs(words, marks) && k < |marks|
    ensures k / 32 < |words| && (ReadWord(words, k) <==> marks[k])
    ensures Packs(MarkWord(words, k), marks[k := true])
  {
    var changed := MarkWord(words, k);
    forall l: nat | l < |marks|
      ensures marks[k := true][l] <==> Bit(changed[l / 32], l % 32)
    {
      SamePlace(k, l);
      if l / 32 == k / 32 { SetBit(words[k / 32], k % 32, l % 32); }
    }
  }

  // --- the window bits: Channel ---

  /** The mask `((1 << 8) - 1) << w | ((1 << 8) - 1) >> (16 - w)` of the wrap test. */
  function WrapMask(w: bv32): bv32
    requires w < 16
  {
    ((0xFF as bv32) << w) | ((0xFF as bv32) >> (16 - w))
  }

  /** Among the sixteen window bits the mask has exactly those of w, ..., w+7 modulo 16. */
  lemma WrapMaskIsEightWindows(w: bv32, i: bv32)
    requires w < 16 && i < 16
    ensures WrapMask(w) & ((1 as bv32) << i) != 0 <==> (i + 16 - w) & 15 < 8
  {
  }

  predicate Low(word: bv32) {
    word & 0xFFFF == word
  }

  /** The word `used_reliable_windows_`. */
  ghost predicate Tells(word: bv32, used: seq<bool>) {
    |used| == WINDOWS && Low(word) && forall w: nat :: w < WINDOWS ==> (used[w] <==> Bit(word, w))
  }

  /** The flags of eight windows, one after the other. */
  function EightFlags(w: nat, n: nat): bv32 {
    if n == 0 then 0 else Join(EightFlags(w, n - 1), Flag((w + n - 1) % WINDOWS))
  }

  lemma NothingMeets(word: bv32)
    ensures !Meets(word, 0)
  {
  }

  lemma MeetsSwap(a: bv32, b: bv32)
    ensures Meets(a, b) <==> Meets(b, a)
  {
    Swapped(a, b);
  }

  /** The bit of the window `r` places after `w`, going round modulo 16. */
  predicate BitAfter(word: bv32, w: nat, r: nat) {
    Bit(word, (w + r) % WINDOWS)
  }

  lemma MeetsOneMore(word: bv32, w: nat, n: nat)
    ensures Meets(word, EightFlags(w, n + 1)) <==> Meets(word, EightFlags(w, n)) || BitAfter(word, w, n)
  {
    var f, g := EightFlags(w, n), Flag((w + n) % WINDOWS);
    MeetsSwap(word, Join(f, g));
    JoinMeets(f, g, word);
    MeetsSwap(f, word);
    MeetsSwap(g, word);
  }

  /** A word meets the flags of windows exactly when it has the bit of one of them. */
  lemma {:induction false} MeetsEightIff(word: bv32, w: nat, n: nat)
    ensures Meets(word, EightFlags(w, n)) <==> exists r: nat :: r < n && BitAfter(word, w, r)
  {
    if n == 0 {
      NothingMeets(word);
    } else {
      MeetsEightIff(word, w, n - 1);
      MeetsOneMore(word, w, n - 1);
    }
  }

  lemma FlagValues()
    ensures Flag(0) == 1 && Flag(1) == 2 && Flag(2) == 4 && Flag(3) == 8
    ensures Flag(4) == 0x10 && Flag(5) == 0x20 && Flag(6) == 0x40 && Flag(7) == 0x80
    ensures Flag(8) == 0x100 && Flag(9) == 0x200 && Flag(10) == 0x400 && Flag(11) == 0x800
    ensures Flag(12) == 0x1000 && Flag(13) == 0x2000 && Flag(14) == 0x4000 && Flag(15) == 0x8000
  {
  }

  lemma MaskValues(w: bv32)
    requires w < 16
    ensures w == 0 ==> WrapMask(w) & 0xFFFF == 0xff
    ensures w == 1 ==> WrapMask(w) & 0xFFFF == 0x1fe
    ensures w == 2 ==> WrapMask(w) & 0xFFFF == 0x3fc
    ensures w == 3 ==> WrapMask(w) & 0xFFFF == 0x7f8
    ensures w == 4 ==> WrapMask(w) & 0xFFFF == 0xff0
    ensures w == 5 ==> WrapMask(w) & 0xFFFF == 0x1fe0
    ensures w == 6 ==> WrapMask(w) & 0xFFFF == 0x3fc0
    ensures w == 7 ==> WrapMask(w) & 0xFFFF == 0x7f80
    ensures w == 8 ==> WrapMask(w) & 0xFFFF == 0xff00
    ensures w == 9 ==> WrapMask(w) & 0xFFFF == 0xfe01
    ensures w == 10 ==> WrapMask(w) & 0xFFFF == 0xfc03
    ensures w == 11 ==> WrapMask(w) & 0xFFFF == 0xf807
    ensures w == 12 ==> WrapMask(w) & 0xFFFF == 0xf00f
    ensures w == 13 ==> WrapMask(w) & 0xFFFF == 0xe01f
    ensures w == 14 ==> WrapMask(w) & 0xFFFF == 0xc03f
    ensures w == 15 ==> WrapMask(w) & 0xFFFF == 0x807f
  {
  }

  lemma EightValues()
    ensures EightFlags(0, 8) == 0xff
    ensures EightFlags(1, 8) == 0x1fe
    ensures EightFlags(2, 8) == 0x3fc
    ensures EightFlags(3, 8) == 0x7f8
    ensures EightFlags(4, 8) == 0xff0
    ensures EightFlags(5, 8) == 0x1fe0
    ensures EightFlags(6, 8) == 0x3fc0
    ensures EightFlags(7, 8) == 0x7f80
    ensures EightFlags(8, 8) == 0xff00
    ensures EightFlags(9, 8) == 0xfe01
    ensures EightFlags(10, 8) == 0xfc03
    ensures EightFlags(11, 8) == 0xf807
    ensures EightFlags(12, 8) == 0xf00f
    ensures EightFlags(13, 8) == 0xe01f
    ensures EightFlags(14, 8) == 0xc03f
    ensures EightFlags(15, 8) == 0x807f
  {
    FlagValues();
  }

  /** Within the sixteen bits of the word, the shifts of the wrap test give the flags of eight windows. */
  lemma MaskIsEightFlags(w: nat)
    requires w < WINDOWS
    ensures WrapMask(w as bv32) & 0xFFFF == EightFlags(w, FREE_WINDOWS)
  {
    MaskValues(w as bv32);
    EightValues();
    WordValue(w);
  }

  lemma WordValue(w: nat)
    requires w < WINDOWS
    ensures w as bv32 == 0 <==> w == 0
    ensures w as bv32 == 1 <==> w == 1
    ensures w as bv32 == 2 <==> w == 2
    ensures w as bv32 == 3 <==> w == 3
    ensures w as bv32 == 4 <==> w == 4
    ensures w as bv32 == 5 <==> w == 5
    ensures w as bv32 == 6 <==> w == 6
    ensures w as bv32 == 7 <==> w == 7
    ensures w as bv32 == 8 <==> w == 8
    ensures w as bv32 == 9 <==> w == 9
    ensures w as bv32 == 10 <==> w == 10
    ensures w as bv32 == 11 <==> w == 11
    ensures w as bv32 == 12 <==> w == 12
    ensures w as bv32 == 13 <==> w == 13
    ensures w as bv32 == 14 <==> w == 14
    ensures w as bv32 == 15 <==> w == 15
  {
  }

  lemma LowBits(word: bv32, mask: bv32)
    requires word & 0xFFFF == word
    ensures word & mask == word & (mask & 0xFFFF)
  {
  }

  lemma LowMeets(word: bv32, mask: bv32, low: bv32)
    requires Low(word) && mask & 0xFFFF == low
    ensures Meets(word, mask) <==> Meets(word, low)
  {
    LowBits(word, mask);
  }

  lemma MeetsAheadIff(word: bv32, lane: Lane, w: nat)
    requires Tells(word, lane.used)
    ensures Meets(word, EightFlags(w, FREE_WINDOWS)) <==> AheadInUse(lane, w)
  {
    MeetsEightIff(word, w, FREE_WINDOWS);
    forall r: nat | r < FREE_WINDOWS
      ensures BitAfter(word, w, r) <==> InUse(lane, w, r)
    {
      assert (w + r) % WINDOWS < WINDOWS;
    }
  }

  /** The test of `WindowWraps` on the word is the test of the eight windows from `w` on. */
  lemma MaskTestIsAheadInUse(word: bv32, lane: Lane, w: nat)
    requires w < WINDOWS && Tells(word, lane.used)
    ensures Meets(word, WrapMask(w as bv32)) <==> AheadInUse(lane, w)
  {
    MaskIsEightFlags(w);
    LowMeets(word, WrapMask(w as bv32), EightFlags(w, FREE_WINDOWS));
    MeetsAheadIff(word, lane, w);
  }

  // --- marking windows ---

  function Without(word: bv32, flags: bv32): bv32 {
    word & !flags
  }

  lemma ClearBits(word: bv32, f: bv32, g: bv32)
    ensures f & g == 0 ==> (word & !f) & g == word & g
    ensures f == g ==> (word & !f) & g == 0
  {
  }

  lemma ClearMeets(word: bv32, f: bv32, g: bv32, rest: bv32)
    requires rest == word & !f
    ensures !Meets(f, g) ==> (Meets(rest, g) <==> Meets(word, g))
    ensures f == g ==> !Meets(rest, g)
  {
    ClearBits(word, f, g);
  }

  lemma WithoutMeets(word: bv32, f: bv32, g: bv32)
    ensures !Meets(f, g) ==> (Meets(Without(word, f), g) <==> Meets(word, g))
    ensures f == g ==> !Meets(Without(word, f), g)
  {
    ClearMeets(word, f, g, Without(word, f));
  }

  /** Clearing one bit leaves the others. */
  lemma ClearBit(word: bv32, i: nat, j: nat)
    requires i < 32 && j < 32
    ensures Bit(Without(word, Flag(i)), j) <==> Bit(word, j) && i != j
  {
    FlagsMeetIff(i, j);
    WithoutMeets(word, Flag(i), Flag(j));
  }

  lemma LowStays(word: bv32, flag: bv32, more: bv32, less: bv32)
    requires word & 0xFFFF == word && flag & 0xFFFF == flag && more == word | flag && less == word & !flag
    ensures more & 0xFFFF == more && less & 0xFFFF == less
  {
  }

  lemma LowWordStays(word: bv32, flag: bv32)
    requires Low(word) && Low(flag)
    ensures Low(Join(word, flag)) && Low(Without(word, flag))
  {
    LowStays(word, flag, Join(word, flag), Without(word, flag));
  }

  lemma FlagIsLow(w: nat)
    requires w < WINDOWS
    ensures Low(Flag(w))
  {
    FlagValues();
  }

  lemma FlagsFollow(word: bv32, more: bv32, less: bv32, used: seq<bool>, w: nat)
    requires w < WINDOWS && Tells(word, used) && Low(more) && Low(less)
    requires forall v: nat :: v < WINDOWS ==> (Bit(more, v) <==> Bit(word, v) || v == w)
    requires forall v: nat :: v < WINDOWS ==> (Bit(less, v) <==> Bit(word, v) && v != w)
    ensures Tells(more, used[w := true]) && Tells(less, used[w := false])
  {
  }

  /** Setting or clearing a bit of the word sets or clears one flag and no other. */
  lemma WordFollowsFlags(word: bv32, used: seq<bool>, w: nat)
    requires w < WINDOWS && Tells(word, used)
    ensures Tells(Join(word, Flag(w)), used[w := true])
    ensures Tells(Without(word, Flag(w)), used[w := false])
  {
    FlagIsLow(w);
    LowWordStays(word, Flag(w));
    forall v: nat | v < WINDOWS
      ensures Bit(Join(word, Flag(w)), v) <==> Bit(word, v) || v == w
      ensures Bit(Without(word, Flag(w)), v) <==> Bit(word, v) && v != w
    {
      SetBit(word, w, v);
      ClearBit(word, w, v);
    }
    FlagsFollow(word, Join(word, Flag(w)), Without(word, Flag(w)), used, w);
  }
}
