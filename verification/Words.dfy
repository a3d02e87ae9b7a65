/** Bit sets stored in 64-bit words. A word is the sequence of its bits, least significant first. */
module Words {
  const BITS: nat := 64

  type Word = seq<bool>

  ghost predicate AreWords(words: seq<Word>) {
    forall i | 0 <= i < |words| :: |words[i]| == BITS
  }

  function ZeroWord(): (w: Word)
    ensures |w| == BITS && forall b | 0 <= b < BITS :: !w[b]
  {
    seq(BITS, b => false)
  }

  /** The numbers whose bit is set. */
  ghost function Members(words: seq<Word>): set<nat>
    requires AreWords(words)
  {
    set i | 0 <= i < BITS * |words| && words[i / BITS][i % BITS]
  }

  predicate BitAt(words: seq<Word>, i: nat)
    requires AreWords(words) && i < BITS * |words|
  {
    words[i / BITS][i % BITS]
  }

  /** `words[i / 64] |= 1 << (i % 64)`. */
  function WithBit(words: seq<Word>, i: nat): (after: seq<Word>)
    requires AreWords(words) && i < BITS * |words|
    ensures |after| == |words| && AreWords(after)
  {
    words[i / BITS := words[i / BITS][i % BITS := true]]
  }

  lemma WithBitAddsMember(words: seq<Word>, i: nat)
    requires AreWords(words) && i < BITS * |words|
    ensures Members(WithBit(words, i)) == Members(words) + {i}
  {
    var after := WithBit(words, i);
    forall k: nat | k < BITS * |words|
      ensures after[k / BITS][k % BITS] <==> k == i || words[k / BITS][k % BITS]
    {
      if k / BITS == i / BITS && k % BITS == i % BITS {
        assert k == i;
      }
    }
  }
}
