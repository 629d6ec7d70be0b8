/** The monotonic nonce generator (core/crypto.py, NonceCounter). */
module Nonce {
  import opened Bytes
  import opened Wrappers

  const LIMIT: nat := 0xFFFF_FFFF_FFFF_FFFF   // 2**64 - 1

  datatype NonceError = Exhausted

  lemma LimitFits()
    ensures LIMIT < Pow256(8)
  {
    assert Pow256(2) == 65536;
    assert Pow256(4) == 65536 * 65536 by { assert Pow256(3) == 256 * 65536; }
    assert Pow256(6) == 65536 * 65536 * 65536 by { assert Pow256(5) == 256 * Pow256(4); }
    assert Pow256(8) == 65536 * 65536 * 65536 * 65536 by { assert Pow256(7) == 256 * Pow256(6); }
  }

  /** The nonce of the n-th successful call, counting from 0. */
  function NonceAt(prefix: Bytes, n: nat): (b: Bytes)
    requires n < LIMIT
    ensures |b| == |prefix| + 8
  {
    LimitFits();
    prefix + BE(n, 8)
  }

  /** One call on a counter: the counter afterwards and what the call returns. */
  function Call(prefix: Bytes, counter: nat): (nat, Result<Bytes, NonceError>) {
    if counter < LIMIT then (counter + 1, Ok(NonceAt(prefix, counter))) else (counter, Err(Exhausted))
  }

  class NonceCounter {
    const prefix: Bytes
    var counter: nat

    ghost predicate Valid()
      reads this
    {
      |prefix| == 4 && counter <= LIMIT
    }

    /** `random` is what os.urandom(4) returned. */
    constructor (random: Bytes)
      requires |random| == 4
      ensures Valid() && prefix == random && counter == 0
    {
      prefix, counter := random, 0;
    }

    method NextNonce() returns (r: Result<Bytes, NonceError>)
      requires Valid()
      modifies this
      ensures Valid()
      ensures (counter, r) == Call(prefix, old(counter))
    {
      if counter >= LIMIT {
        return Err(Exhausted);
      }
      var n := counter;
      counter := counter + 1;
      LimitFits();
      return Ok(prefix + BE(n, 8));
    }
  }

  /** What `count` calls in a row return. */
  function Calls(prefix: Bytes, counter: nat, count: nat): (rs: seq<Result<Bytes, NonceError>>)
    ensures |rs| == count
    decreases count
  {
    if count == 0 then [] else [Call(prefix, counter).1] + Calls(prefix, Call(prefix, counter).0, count - 1)
  }

  lemma {:induction false} CallsAt(prefix: Bytes, counter: nat, count: nat, k: nat)
    requires k < count && counter <= LIMIT
    ensures Calls(prefix, counter, count)[k] ==
            if counter + k < LIMIT then Ok(NonceAt(prefix, counter + k)) else Err(Exhausted)
    decreases count
  {
    if k > 0 {
      CallsAt(prefix, Call(prefix, counter).0, count - 1, k - 1);
    }
  }

  /** Exactly 2^64 - 1 calls succeed; the nonces they return are 12 bytes, share the prefix and rise
      strictly in byte order, so no two are equal. */
  lemma {:induction false} NoncesRise(prefix: Bytes, count: nat, i: nat, j: nat)
    requires |prefix| == 4 && i < j < count
    ensures var rs := Calls(prefix, 0, count);
            && (rs[j].Ok? <==> j < 0xFFFF_FFFF_FFFF_FFFF) && (rs[j].Ok? ==> rs[i].Ok?)
            && (rs[j].Ok? ==>
                  && |rs[i].value| == |rs[j].value| == 12
                  && rs[i].value[..4] == rs[j].value[..4] == prefix
                  && FromBE(rs[i].value[4..]) == i && FromBE(rs[j].value[4..]) == j
                  && LexLess(rs[i].value, rs[j].value) && rs[i].value != rs[j].value)
  {
    CallsAt(prefix, 0, count, i);
    CallsAt(prefix, 0, count, j);
    if j < LIMIT {
      LimitFits();
      MonotoneBE(i, j, 8);
      DecodeBE(i, 8);
      DecodeBE(j, 8);
      LexLessAfterPrefix(prefix, BE(i, 8), BE(j, 8));
      LexLessIrreflexive(NonceAt(prefix, i), NonceAt(prefix, j));
    }
  }

  lemma {:induction false} LexLessIrreflexive(a: Bytes, b: Bytes)
    requires |a| == |b| && LexLess(a, b)
    ensures a != b
  {
    if a[0] == b[0] {
      LexLessIrreflexive(a[1..], b[1..]);
    }
  }
}
