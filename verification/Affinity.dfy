/** CPU affinity masks in user memory (kernel/src/syscall/sched_affinity.rs). */
module Affinity {
  import opened Basics
  import opened Wrappers
  import opened Words

  const SIZE_OF_PART: nat := 8

  datatype Error = InvalidSize | EmptySet

  /** The number of words that are moved: those of the user's buffer, but no more than the CPUs need. */
  function Parts(cpusetSize: nat, numCpus: nat): nat {
    Min(cpusetSize / SIZE_OF_PART, (numCpus + BITS - 1) / BITS)
  }

  /** Bit `b` of word `w` stands for CPU `64 w + b`. */
  function WordOf(cpus: set<nat>, w: nat): (word: Word)
    ensures |word| == BITS && forall b | 0 <= b < BITS :: word[b] == (BITS * w + b in cpus)
  {
    seq(BITS, b requires 0 <= b => BITS * w + b in cpus)
  }

  function WordsOf(cpus: set<nat>, n: nat): (words: seq<Word>)
    ensures |words| == n && forall w | 0 <= w < n :: words[w] == WordOf(cpus, w)
  {
    seq(n, w requires 0 <= w => WordOf(cpus, w))
  }

  ghost function Below(cpus: set<nat>, bound: nat): set<nat> {
    set c | c in cpus && c < bound
  }

  // ---------------------------------------------------------------------------
  // The laws
  // ---------------------------------------------------------------------------

  lemma WordsOfAreWords(cpus: set<nat>, n: nat)
    ensures AreWords(WordsOf(cpus, n)) && Members(WordsOf(cpus, n)) == Below(cpus, BITS * n)
  {
    var words := WordsOf(cpus, n);
    forall c: nat | c < BITS * n
      ensures words[c / BITS][c % BITS] <==> c in cpus
    {
      assert words[c / BITS] == WordOf(cpus, c / BITS);
      assert BITS * (c / BITS) + c % BITS == c;
    }
  }

  /** What is read back of a mask that was written: the CPUs whose words fit. */
  lemma ReadAfterWrite(cpus: set<nat>, cpusetSize: nat, numCpus: nat)
    requires forall c | c in cpus :: c < numCpus
    ensures var n := Parts(cpusetSize, numCpus);
            AreWords(WordsOf(cpus, n)) && Below(Members(WordsOf(cpus, n)), numCpus) == Below(cpus, BITS * n)
  {
    WordsOfAreWords(cpus, Parts(cpusetSize, numCpus));
  }

  /** Nothing is lost exactly when the user's buffer has a word for every CPU in the set. */
  lemma NothingLostExactlyWhen(cpus: set<nat>, cpusetSize: nat, numCpus: nat)
    requires forall c | c in cpus :: c < numCpus
    ensures Below(cpus, BITS * Parts(cpusetSize, numCpus)) == cpus <==>
            forall c | c in cpus :: c / BITS < cpusetSize / SIZE_OF_PART
  {
    var n, have := Parts(cpusetSize, numCpus), cpusetSize / SIZE_OF_PART;
    forall c | c in cpus
      ensures c < BITS * n <==> c / BITS < have
    {
      assert c / BITS < (numCpus + BITS - 1) / BITS;
    }
    if Below(cpus, BITS * n) == cpus {
      forall c | c in cpus
        ensures c / BITS < have
      {
        assert c in Below(cpus, BITS * n);
      }
    }
  }

  /** Words written for the CPUs read from `words` are `words` with the bits of missing CPUs cleared. */
  lemma WriteAfterRead(words: seq<Word>, numCpus: nat, c: nat)
    requires AreWords(words) && c < BITS * |words|
    ensures WordsOf(Below(Members(words), numCpus), |words|)[c / BITS][c % BITS] <==> BitAt(words, c) && c < numCpus
  {
    var after := WordsOf(Below(Members(words), numCpus), |words|);
    assert after[c / BITS] == WordOf(Below(Members(words), numCpus), c / BITS);
    assert BITS * (c / BITS) + c % BITS == c;
  }

  // ---------------------------------------------------------------------------
  // read_cpu_set_from
  // ---------------------------------------------------------------------------

  method ReadCpuSet(user: seq<Word>, cpusetSize: nat, numCpus: nat) returns (r: Result<set<nat>, Error>)
    requires AreWords(user) && |user| == cpusetSize / SIZE_OF_PART
    ensures r == Err(InvalidSize) <==> cpusetSize == 0
    ensures cpusetSize > 0 ==>
              var cpus := Below(Members(user[..Parts(cpusetSize, numCpus)]), numCpus);
              r == if cpus == {} then Err(EmptySet) else Ok(cpus)
  {
    if cpusetSize == 0 {
      return Err(InvalidSize);
    }
    var found: set<nat> := {};
    var n := Parts(cpusetSize, numCpus);
    var part := 0;
    while part < n
      invariant 0 <= part <= n
      invariant found == BitsBelow(user, BITS * part, numCpus)
    {
      var bit := 0;
      while bit < BITS
        invariant 0 <= bit <= BITS
        invariant found == BitsBelow(user, BITS * part + bit, numCpus)
      {
        var cpu := part * BITS + bit;
        assert cpu / BITS == part && cpu % BITS == bit;
        BitsBelowNext(user, cpu, numCpus);
        if user[part][bit] && cpu < numCpus {
          found := found + {cpu};
        }
        bit := bit + 1;
      }
      part := part + 1;
    }
    BitsBelowAll(user, n, numCpus);
    if found == {} {
      return Err(EmptySet);
    }
    return Ok(found);
  }

  /** The CPUs that exist among the bits before `end`. */
  ghost function BitsBelow(words: seq<Word>, end: nat, numCpus: nat): set<nat>
    requires AreWords(words) && end <= BITS * |words|
  {
    set c | 0 <= c < end && c < numCpus && BitAt(words, c)
  }

  lemma BitsBelowNext(words: seq<Word>, end: nat, numCpus: nat)
    requires AreWords(words) && end < BITS * |words|
    ensures BitsBelow(words, end + 1, numCpus) ==
            BitsBelow(words, end, numCpus) + if end < numCpus && BitAt(words, end) then {end} else {}
  {
  }

  lemma BitsBelowAll(words: seq<Word>, n: nat, numCpus: nat)
    requires AreWords(words) && n <= |words|
    ensures BitsBelow(words, BITS * n, numCpus) == Below(Members(words[..n]), numCpus)
  {
    forall c: nat | c < BITS * n
      ensures words[..n][c / BITS] == words[c / BITS]
    {
      assert c / BITS < n;
    }
  }

  // ---------------------------------------------------------------------------
  // write_cpu_set_to
  // ---------------------------------------------------------------------------

  ghost predicate Ascending(ids: seq<nat>) {
    forall i, j | 0 <= i < j < |ids| :: ids[i] < ids[j]
  }

  ghost function Elements(ids: seq<nat>): set<nat> {
    set c | c in ids
  }

  /** The state of the writer after the CPUs `done`: words before `part` are stored, word `part` is held back. */
  ghost predicate Pending(user: seq<Word>, done: set<nat>, part: nat, word: Word) {
    && part <= |user| && user[..part] == WordsOf(done, part) && word == WordOf(done, part)
    && forall c | c in done :: c < BITS * (part + 1)
  }

  lemma FlushedPending(user: seq<Word>, after: seq<Word>, done: set<nat>, part: nat, word: Word)
    requires Pending(user, done, part, word) && part < |user| && after == user[part := word]
    ensures Pending(after, done, part + 1, ZeroWord())
  {
    var flushed := WordsOf(done, part + 1);
    forall w | 0 <= w < part + 1
      ensures after[w] == flushed[w]
    {
      if w < part {
        assert after[w] == user[..part][w] == WordsOf(done, part)[w];
      }
    }
    assert after[..part + 1] == flushed;
    assert ZeroWord() == WordOf(done, part + 1);
  }

  /** CPUs whose words come later do not show in the first `n` words. */
  lemma AboveIsUnseen(some: set<nat>, more: set<nat>, n: nat)
    requires some <= more && forall c | c in more && c !in some :: c >= BITS * n
    ensures WordsOf(some, n) == WordsOf(more, n)
  {
    forall w | 0 <= w < n
      ensures WordOf(some, w) == WordOf(more, w)
    {
      forall b | 0 <= b < BITS
        ensures WordOf(some, w)[b] == WordOf(more, w)[b]
      {
      }
    }
  }

  lemma AddedPending(user: seq<Word>, done: set<nat>, part: nat, word: Word, id: nat)
    requires Pending(user, done, part, word) && id / BITS == part
    ensures Pending(user, done + {id}, part, word[id % BITS := true])
  {
    assert id == BITS * part + id % BITS;
    AboveIsUnseen(done, done + {id}, part);
    assert WordOf(done + {id}, part) == word[id % BITS := true];
  }

  /** Stores the held-back word and empty words after it, up to word `end`. */
  method Flush(user: array<Word>, ghost done: set<nat>, part: nat, word: Word, end: nat)
    returns (part': nat, word': Word)
    requires Pending(user[..], done, part, word) && end <= user.Length
    modifies user
    ensures part' == Max(part, end)
    ensures Pending(user[..], done, part', word')
    ensures forall i | part' <= i < user.Length :: user[i] == old(user[i])
  {
    part', word' := part, word;
    while part' < end
      invariant part' == part || part <= part' <= end
      invariant part' <= user.Length && forall i | part' <= i < user.Length :: user[i] == old(user[i])
      invariant Pending(user[..], done, part', word')
    {
      ghost var before := user[..];
      user[part'] := word';
      FlushedPending(before, user[..], done, part', word');
      word' := ZeroWord();
      part' := part' + 1;
    }
  }

  /** Writes the mask; `ids` is what iterating over the set gives. Returns the number of bytes written. */
  method WriteCpuSet(ids: seq<nat>, cpusetSize: nat, numCpus: nat, user: array<Word>) returns (r: Result<nat, Error>)
    requires Ascending(ids) && user.Length == cpusetSize / SIZE_OF_PART
    modifies user
    ensures r == Err(InvalidSize) <==> cpusetSize == 0
    ensures cpusetSize > 0 ==>
              var n := Parts(cpusetSize, numCpus);
              r == Ok(n * SIZE_OF_PART) && user[..n] == WordsOf(Elements(ids), n) && user[n..] == old(user[n..])
  {
    if cpusetSize == 0 {
      return Err(InvalidSize);
    }
    var n := Parts(cpusetSize, numCpus);
    var word, part, k := ZeroWord(), 0, 0;
    assert Pending(user[..], Elements([]), 0, word);
    while k < |ids|
      invariant 0 <= k <= |ids| && part <= n
      invariant part == if k == 0 then 0 else ids[k - 1] / BITS
      invariant Pending(user[..], Elements(ids[..k]), part, word)
      invariant forall i | n <= i < user.Length :: user[i] == old(user[i])
    {
      var id := ids[k];
      part, word := Flush(user, Elements(ids[..k]), part, word, Min(id / BITS, n));
      if part >= n {
        assert id >= BITS * n;
        break;
      }
      AddedPending(user[..], Elements(ids[..k]), part, word, id);
      word := word[id % BITS := true];
      assert Elements(ids[..k + 1]) == Elements(ids[..k]) + {id};
      k := k + 1;
    }
    part, word := Flush(user, Elements(ids[..k]), part, word, n);
    AboveIsUnseen(Elements(ids[..k]), Elements(ids), n);
    return Ok(n * SIZE_OF_PART);
  }
}
