/**
 64-bit words that are only ever combined bit by bit. A word is the set of positions of its one
 bits, so `|` is union, `&` is intersection, zero is the empty set, and a left shift drops the
 bits it pushes past position 63.
 */
module Word64 {

  const WIDTH: nat := 64

  type Word = w: set<nat> | forall i <- w :: i < WIDTH

  const ALL_ONES: Word := set i: nat | i < WIDTH

  /** `1 << i` for a shift within the word. */
  function Bit(i: nat): Word
    requires i < WIDTH
  {
    {i}
  }

  /** `w << n`. */
  function Shl(w: Word, n: nat): Word {
    set i | i in w && i + n < WIDTH :: i + n
  }

  /** `^w`. */
  function Complement(w: Word): Word {
    ALL_ONES - w
  }

  /** `1 << i & w != 0`. */
  predicate Has(w: Word, i: nat)
    requires i < WIDTH
  {
    Bit(i) * w != {}
  }

  lemma HasIsMembership(w: Word, i: nat)
    requires i < WIDTH
    ensures Has(w, i) <==> i in w
  {
    if i in w { assert i in Bit(i) * w; }
  }

  lemma ShlOnes(n: nat, i: nat)
    ensures i in Shl(ALL_ONES, n) <==> n <= i < WIDTH
  {
    if n <= i < WIDTH { assert i - n in ALL_ONES; }
  }
}
