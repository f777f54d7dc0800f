/** The 64-bit words of the allocation bitmap. */
module Words {

  type Word = bv64

  const BITS_PER_LINE: nat := 64

  function Mask(bit: nat): Word
    requires bit < BITS_PER_LINE
  {
    (1 as Word) << bit
  }

  function And(w: Word, m: Word): Word { w & m }

  function Or(w: Word, m: Word): Word { w | m }

  function AndNot(w: Word, m: Word): Word { w & !m }

  predicate Test(w: Word, bit: nat)
    requires bit < BITS_PER_LINE
  {
    And(w, Mask(bit)) != 0
  }

  lemma MaskNonzero(i: nat)
    requires i < BITS_PER_LINE
    ensures Mask(i) != 0
  {
  }

  lemma MasksApart(i: nat, j: nat)
    requires i < j < BITS_PER_LINE
    ensures And(Mask(i), Mask(j)) == 0
  {
    var a, b := i as bv6, j as bv6;
  }

  lemma AndCommutes(w: Word, m: Word)
    ensures And(w, m) == And(m, w)
  {
  }

  lemma MasksDisjoint(i: nat, j: nat)
    requires i < BITS_PER_LINE && j < BITS_PER_LINE
    ensures Mask(i) != 0
    ensures i != j ==> And(Mask(i), Mask(j)) == 0
  {
    hide And, Mask;
    MaskNonzero(i);
    if i < j {
      MasksApart(i, j);
    } else if j < i {
      MasksApart(j, i);
      AndCommutes(Mask(i), Mask(j));
    }
  }

  lemma OrSame(w: Word, m: Word)
    ensures And(Or(w, m), m) == m
  {
  }

  lemma OrOther(w: Word, m: Word, k: Word)
    requires And(m, k) == 0
    ensures And(Or(w, m), k) == And(w, k)
  {
  }

  lemma AndNotSame(w: Word, m: Word)
    ensures And(AndNot(w, m), m) == 0
  {
  }

  lemma AndNotOther(w: Word, m: Word, k: Word)
    requires And(m, k) == 0
    ensures And(AndNot(w, m), k) == And(w, k)
  {
  }

  /** Raising one bit leaves the other 63 alone. */
  lemma TestRaised(w: Word, i: nat, j: nat)
    requires i < BITS_PER_LINE && j < BITS_PER_LINE
    ensures Test(Or(w, Mask(i)), j) <==> i == j || Test(w, j)
  {
    hide And, Or, Mask;
    MasksDisjoint(i, j);
    if i == j {
      OrSame(w, Mask(i));
    } else {
      OrOther(w, Mask(i), Mask(j));
    }
  }

  /** Clearing one bit leaves the other 63 alone. */
  lemma TestCleared(w: Word, i: nat, j: nat)
    requires i < BITS_PER_LINE && j < BITS_PER_LINE
    ensures Test(AndNot(w, Mask(i)), j) <==> i != j && Test(w, j)
  {
    hide And, AndNot, Mask;
    MasksDisjoint(i, j);
    if i == j {
      AndNotSame(w, Mask(i));
    } else {
      AndNotOther(w, Mask(i), Mask(j));
    }
  }

  lemma TestZero(bit: nat)
    requires bit < BITS_PER_LINE
    ensures !Test(0, bit)
  {
    hide Mask;
  }
}
