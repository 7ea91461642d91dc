/** The two 64-bit operations an FNV-1a step is made of; each loses nothing. */
module FnvArithmetic {

  /** Multiplication by the 64-bit FNV prime, wrapping modulo 2^64: the prime is odd, so nothing is lost. */
  function TimesPrime(x: bv64): (r: bv64)
    ensures DividePrime(r) == x
  {
    PrimeIsInvertible(x);
    x * 0x0000_0100_0000_01b3
  }

  /** Multiplication by the prime's inverse modulo 2^64. */
  function DividePrime(x: bv64): bv64 {
    x * 0xce96_5057_aff6_957b
  }

  lemma PrimeIsInvertible(x: bv64)
    ensures DividePrime(x * 0x0000_0100_0000_01b3) == x
  {
  }

  function Xor(x: bv64, y: bv64): bv64 {
    x ^ y
  }

  lemma XorCancels(a: bv64, b: bv64, c: bv64)
    requires Xor(a, b) == Xor(a, c)
    ensures b == c
  {
  }

  lemma XorCancelsRight(a: bv64, b: bv64, c: bv64)
    requires Xor(b, a) == Xor(c, a)
    ensures b == c
  {
  }
}

/** The FNV-1a hash both passes fold the source bytes through. */
module Fnv {
  import opened FnvArithmetic
  import opened Chunks

  const OFFSET_BASIS: bv64 := 0xcbf2_9ce4_8422_2325

  /** One hashing step. */
  function Step(hash: bv64, byte: bv8): bv64 {
    TimesPrime(Xor(hash, byte as bv64))
  }

  function Fold(hash: bv64, bytes: seq<bv8>): bv64
    decreases bytes
  {
    if bytes == [] then hash else Fold(Step(hash, bytes[0]), bytes[1..])
  }

  function Hash(bytes: seq<bv8>): bv64 {
    Fold(OFFSET_BASIS, bytes)
  }

  /** The running hash a reader updates with each block it reads. */
  class HashState {
    var value: bv64

    constructor ()
      ensures value == OFFSET_BASIS
    {
      value := OFFSET_BASIS;
    }

    method Update(bytes: seq<bv8>)
      modifies this
      ensures value == Fold(old(value), bytes)
    {
      for i := 0 to |bytes|
        invariant Fold(value, bytes[i..]) == Fold(old(value), bytes)
      {
        assert bytes[i..][0] == bytes[i] && bytes[i..][1..] == bytes[i + 1..];
        value := Step(value, bytes[i]);
      }
      assert bytes[|bytes|..] == [];
    }
  }

  /** Folding block by block is folding the whole, so the hash ignores how reads split the bytes. */
  lemma {:induction false} FoldConcat(hash: bv64, a: seq<bv8>, b: seq<bv8>)
    ensures Fold(hash, a + b) == Fold(Fold(hash, a), b)
    decreases a
  {
    if a == [] {
      assert a + b == b;
    } else {
      assert (a + b)[1..] == a[1..] + b;
      FoldConcat(Step(hash, a[0]), a[1..], b);
    }
  }

  /** Hashing any sequence of reads block by block gives the hash of the bytes they make up. */
  method HashReads(blocks: seq<seq<bv8>>) returns (hash: bv64)
    ensures hash == Hash(Flatten(blocks))
  {
    var state := new HashState();
    for i := 0 to |blocks|
      invariant fresh(state) && Fold(state.value, Flatten(blocks[i..])) == Hash(Flatten(blocks))
    {
      assert blocks[i..][0] == blocks[i] && blocks[i..][1..] == blocks[i + 1..];
      FoldConcat(state.value, blocks[i], Flatten(blocks[i + 1..]));
      state.Update(blocks[i]);
    }
    return state.value;
  }

  lemma WidenedBytesDiffer(a: bv8, b: bv8)
    requires a as bv64 == b as bv64
    ensures a == b
  {
  }

  /** A step is injective in the state. */
  lemma StepIsInjectiveInState(hash1: bv64, hash2: bv64, byte: bv8)
    requires Step(hash1, byte) == Step(hash2, byte)
    ensures hash1 == hash2
  {
    assert DividePrime(Step(hash1, byte)) == DividePrime(Step(hash2, byte));
    XorCancelsRight(byte as bv64, hash1, hash2);
  }

  /** A step is injective in the byte. */
  lemma StepIsInjectiveInByte(hash: bv64, byte1: bv8, byte2: bv8)
    requires Step(hash, byte1) == Step(hash, byte2)
    ensures byte1 == byte2
  {
    assert DividePrime(Step(hash, byte1)) == DividePrime(Step(hash, byte2));
    XorCancels(hash, byte1 as bv64, byte2 as bv64);
    WidenedBytesDiffer(byte1, byte2);
  }

  lemma {:induction false} FoldIsInjective(hash1: bv64, hash2: bv64, bytes: seq<bv8>)
    requires hash1 != hash2
    ensures Fold(hash1, bytes) != Fold(hash2, bytes)
    decreases bytes
  {
    if bytes != [] {
      if Step(hash1, bytes[0]) == Step(hash2, bytes[0]) {
        StepIsInjectiveInState(hash1, hash2, bytes[0]);
      }
      FoldIsInjective(Step(hash1, bytes[0]), Step(hash2, bytes[0]), bytes[1..]);
    }
  }

  /** Substituting any single byte of the source always changes the hash. */
  lemma SubstitutionChangesHash(bytes: seq<bv8>, i: nat, byte: bv8)
    requires i < |bytes| && byte != bytes[i]
    ensures Hash(bytes[i := byte]) != Hash(bytes)
  {
    var before, after := bytes[..i], bytes[i + 1..];
    assert bytes == before + ([bytes[i]] + after);
    assert bytes[i := byte] == before + ([byte] + after);
    FoldConcat(OFFSET_BASIS, before, [bytes[i]] + after);
    FoldConcat(OFFSET_BASIS, before, [byte] + after);
    var hash := Fold(OFFSET_BASIS, before);
    if Step(hash, bytes[i]) == Step(hash, byte) {
      StepIsInjectiveInByte(hash, bytes[i], byte);
    }
    assert ([bytes[i]] + after)[1..] == after && ([byte] + after)[1..] == after;
    FoldIsInjective(Step(hash, bytes[i]), Step(hash, byte), after);
  }

  /** The hash of nothing and of one letter, as the FNV-1a parameters give them. */
  lemma KnownAnswers()
    ensures Hash([]) == 0xcbf2_9ce4_8422_2325 && Hash([0x61]) == 0xaf63_dc4c_8601_ec8c
  {
    assert [0x61 as bv8][1..] == [];
    assert Fold(Step(OFFSET_BASIS, 0x61), []) == Step(OFFSET_BASIS, 0x61);
  }
}
