/** The 32-bit words of a POCSAG batch and their bits; position 0 is the bit that is sent first. */
module PocsagWord {

  datatype Codeword = Codeword(v: bv32)

  function Half(w: Codeword): Codeword { Codeword(w.v >> 1) }

  function Mix(a: Codeword, b: Codeword): Codeword { Codeword(a.v ^ b.v) }

  function Meet(a: Codeword, b: Codeword): Codeword { Codeword(a.v & b.v) }

  /** 1 << i. */
  function Mask(i: nat): bv32 { if i == 0 then 1 else Mask(i - 1) << 1 }

  predicate Meets(w: Codeword, m: bv32) { w.v & m != 0 }

  /** Bit `i` of a word. */
  predicate BitAt(w: Codeword, i: nat) { Meets(w, Mask(i)) }

  lemma MaskValues()
    ensures Mask(0) == 0x00000001 && Mask(1) == 0x00000002 && Mask(2) == 0x00000004 && Mask(3) == 0x00000008
    ensures Mask(4) == 0x00000010 && Mask(5) == 0x00000020 && Mask(6) == 0x00000040 && Mask(7) == 0x00000080
    ensures Mask(8) == 0x00000100 && Mask(9) == 0x00000200 && Mask(10) == 0x00000400 && Mask(11) == 0x00000800
    ensures Mask(12) == 0x00001000 && Mask(13) == 0x00002000 && Mask(14) == 0x00004000 && Mask(15) == 0x00008000
    ensures Mask(16) == 0x00010000 && Mask(17) == 0x00020000 && Mask(18) == 0x00040000 && Mask(19) == 0x00080000
    ensures Mask(20) == 0x00100000 && Mask(21) == 0x00200000 && Mask(22) == 0x00400000 && Mask(23) == 0x00800000
    ensures Mask(24) == 0x01000000 && Mask(25) == 0x02000000 && Mask(26) == 0x04000000 && Mask(27) == 0x08000000
    ensures Mask(28) == 0x10000000 && Mask(29) == 0x20000000 && Mask(30) == 0x40000000 && Mask(31) == 0x80000000
  {
    assert Mask(0) == 0x00000001;
    assert Mask(2) == 0x00000004;
    assert Mask(4) == 0x00000010;
    assert Mask(6) == 0x00000040;
    assert Mask(8) == 0x00000100;
    assert Mask(10) == 0x00000400;
    assert Mask(12) == 0x00001000;
    assert Mask(14) == 0x00004000;
    assert Mask(16) == 0x00010000;
    assert Mask(18) == 0x00040000;
    assert Mask(20) == 0x00100000;
    assert Mask(22) == 0x00400000;
    assert Mask(24) == 0x01000000;
    assert Mask(26) == 0x04000000;
    assert Mask(28) == 0x10000000;
    assert Mask(30) == 0x40000000;
  }

  lemma HalfMeets(w: Codeword, m: bv32)
    ensures Meets(Half(w), m) == Meets(w, m << 1)
  {
  }

  lemma HalfBit(w: Codeword, i: nat)
    ensures BitAt(Half(w), i) == BitAt(w, i + 1)
  {
    hide Half, Meets;
    HalfMeets(w, Mask(i));
  }

  lemma HalfOfMix(a: Codeword, b: Codeword)
    ensures Half(Mix(a, b)) == Mix(Half(a), Half(b))
    ensures Meets(Mix(a, b), 1) == (Meets(a, 1) != Meets(b, 1))
  {
  }

  lemma HalfOfMeet(a: Codeword, b: Codeword)
    ensures Half(Meet(a, b)) == Meet(Half(a), Half(b))
    ensures Meets(Meet(a, b), 1) == (Meets(a, 1) && Meets(b, 1))
  {
  }

  lemma LowestMask()
    ensures Mask(0) == 1
  {
  }

  lemma {:induction false} BitOfBoth(a: Codeword, b: Codeword, i: nat)
    ensures BitAt(Mix(a, b), i) == (BitAt(a, i) != BitAt(b, i))
    ensures BitAt(Meet(a, b), i) == (BitAt(a, i) && BitAt(b, i))
    decreases i
  {
    hide Half, Mix, Meet, Meets, Mask;
    HalfOfMix(a, b);
    HalfOfMeet(a, b);
    LowestMask();
    if i > 0 {
      BitOfBoth(Half(a), Half(b), i - 1);
      HalfBit(a, i - 1);
      HalfBit(b, i - 1);
      HalfBit(Mix(a, b), i - 1);
      HalfBit(Meet(a, b), i - 1);
    }
  }

  function MaskWord(i: nat): Codeword { Codeword(Mask(i)) }

  const ZERO := Codeword(0)

  lemma NoBits(k: nat)
    ensures !BitAt(ZERO, k)
  {
  }

  lemma HalfOfMask(i: nat)
    requires i < 31
    ensures Half(MaskWord(i + 1)) == MaskWord(i)
  {
    MaskBelowTop(i);
  }

  lemma MaskBelowTop(i: nat)
    requires i < 31
    ensures Mask(i) & 0x80000000 == 0
  {
    hide Mask;
    MaskValues();
  }

  lemma LowestBit(w: Codeword)
    ensures BitAt(w, 0) == Meets(w, 1)
    ensures Half(MaskWord(0)) == ZERO && BitAt(MaskWord(0), 0)
  {
  }

  lemma EvenMask(i: nat)
    ensures !BitAt(MaskWord(i + 1), 0)
  {
  }

  lemma {:induction false} BitOfMask(i: nat, k: nat)
    requires i < 32
    ensures BitAt(MaskWord(i), k) == (i == k)
    decreases k
  {
    hide Half, BitAt, MaskWord, ZERO;
    LowestBit(MaskWord(0));
    if k == 0 {
      if i > 0 {
        EvenMask(i - 1);
      }
    } else {
      HalfBit(MaskWord(i), k - 1);
      if i == 0 {
        NoBits(k - 1);
      } else {
        HalfOfMask(i - 1);
        BitOfMask(i - 1, k - 1);
      }
    }
  }

  // ----- positions, from the first sent to the last

  /** The bit at position `p`. */
  predicate At(w: Codeword, p: nat)
    requires p < 32
  {
    BitAt(w, 31 - p)
  }

  /** val ^= 1 << (31 - p). */
  function Flip(w: Codeword, p: nat): Codeword
    requires p < 32
  {
    Mix(w, MaskWord(31 - p))
  }

  lemma FlipAt(w: Codeword, p: nat, k: nat)
    requires p < 32 && k < 32
    ensures At(Flip(w, p), k) == (At(w, k) != (k == p))
  {
    hide Mix, MaskWord, BitAt;
    BitOfBoth(w, MaskWord(31 - p), 31 - k);
    BitOfMask(31 - p, 31 - k);
  }

  /** The 21 bits that carry information. */
  function Top(w: Codeword): Codeword { Codeword(w.v & 0xFFFFF800) }

  lemma NoTopBits(w: Codeword)
    requires !Meets(w, 0x00000800) && !Meets(w, 0x00001000) && !Meets(w, 0x00002000)
    requires !Meets(w, 0x00004000) && !Meets(w, 0x00008000) && !Meets(w, 0x00010000)
    requires !Meets(w, 0x00020000) && !Meets(w, 0x00040000) && !Meets(w, 0x00080000)
    requires !Meets(w, 0x00100000) && !Meets(w, 0x00200000) && !Meets(w, 0x00400000)
    requires !Meets(w, 0x00800000) && !Meets(w, 0x01000000) && !Meets(w, 0x02000000)
    requires !Meets(w, 0x04000000) && !Meets(w, 0x08000000) && !Meets(w, 0x10000000)
    requires !Meets(w, 0x20000000) && !Meets(w, 0x40000000) && !Meets(w, 0x80000000)
    ensures Top(w) == ZERO
  {
  }

  lemma NoLowBits(w: Codeword)
    requires !Meets(w, 0x00000001) && !Meets(w, 0x00000002) && !Meets(w, 0x00000004)
    requires !Meets(w, 0x00000008) && !Meets(w, 0x00000010) && !Meets(w, 0x00000020)
    requires !Meets(w, 0x00000040) && !Meets(w, 0x00000080) && !Meets(w, 0x00000100)
    requires !Meets(w, 0x00000200) && !Meets(w, 0x00000400)
    ensures Top(w) == w
  {
  }

  lemma ClearTop(w: Codeword)
    requires forall i :: 11 <= i < 32 ==> !BitAt(w, i)
    ensures Top(w) == ZERO
  {
    hide Meets, Mask, Top, ZERO;
    MaskValues();
    forall i | 11 <= i < 32
      ensures !Meets(w, Mask(i))
    {
      assert !BitAt(w, i);
    }
    NoTopBits(w);
  }

  lemma ClearLow(w: Codeword)
    requires forall i :: 0 <= i < 11 ==> !BitAt(w, i)
    ensures Top(w) == w
  {
    hide Meets, Mask, Top, ZERO;
    MaskValues();
    forall i | 0 <= i < 11
      ensures !Meets(w, Mask(i))
    {
      assert !BitAt(w, i);
    }
    NoLowBits(w);
  }

  lemma SameTop(a: Codeword, b: Codeword)
    requires Top(Mix(a, b)) == ZERO
    ensures Top(a) == Top(b)
    ensures Top(Mix(a, b)) == Mix(a, b) ==> a == b
  {
  }

  /** Two words that agree at the first 21 positions have the same top; at all, are the same word. */
  lemma SameBits(a: Codeword, b: Codeword)
    requires forall p :: 0 <= p < 21 ==> At(a, p) == At(b, p)
    ensures Top(a) == Top(b)
    ensures (forall p :: 21 <= p < 32 ==> At(a, p) == At(b, p)) ==> a == b
  {
    hide Mix, Top, BitAt, ZERO;
    forall i | 11 <= i < 32
      ensures !BitAt(Mix(a, b), i)
    {
      assert At(a, 31 - i) == At(b, 31 - i);
      BitOfBoth(a, b, i);
    }
    ClearTop(Mix(a, b));
    SameTop(a, b);
    if forall p :: 21 <= p < 32 ==> At(a, p) == At(b, p) {
      forall i | 0 <= i < 11
        ensures !BitAt(Mix(a, b), i)
      {
        assert At(a, 31 - i) == At(b, 31 - i);
        BitOfBoth(a, b, i);
      }
      ClearLow(Mix(a, b));
    }
  }
}
