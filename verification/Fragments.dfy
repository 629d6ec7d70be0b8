/** Cutting a message into fragments and joining them again (mesh/transport.py:436-444, 715-731). */
module Fragments {
  import opened Bytes
  import opened Packet
  import opened Primitives
  import opened Wrappers

  // The functions below write MAX_FRAG_PT as the literal 1250.

  /** ceil(n / MAX_FRAG_PT) */
  function ChunkCount(n: nat): nat {
    (n + 1249) / 1250
  }

  function Chunk(text: Bytes, i: nat): (c: Bytes)
    requires i < ChunkCount(|text|)
    ensures 0 < |c| <= 1250 == MAX_FRAG_PT
  {
    var end := (i + 1) * 1250;
    text[i * 1250..if end <= |text| then end else |text|]
  }

  type Buffer = map<nat, Bytes>

  function Join(buf: Buffer, n: nat): Bytes
    requires forall i :: 0 <= i < n ==> i in buf
  {
    if n == 0 then [] else Join(buf, n - 1) + buf[n - 1]
  }

  /** The first n chunks of a text. */
  function Head(text: Bytes, n: nat): Bytes {
    if n * 1250 <= |text| then text[..n * 1250] else text
  }

  lemma HeadGrows(text: Bytes, n: nat)
    requires n < ChunkCount(|text|)
    ensures Head(text, n + 1) == Head(text, n) + Chunk(text, n)
  {
    var lo, hi := n * 1250, (n + 1) * 1250;
    assert lo <= |text| && hi == lo + 1250;
    assert Head(text, n) == text[..lo];
    var end := if hi <= |text| then hi else |text|;
    assert Chunk(text, n) == text[lo..end] && Head(text, n + 1) == text[..end];
  }

  lemma {:induction false} JoinPrefix(text: Bytes, buf: Buffer, n: nat)
    requires n <= ChunkCount(|text|)
    requires forall i :: 0 <= i < n ==> i in buf && buf[i] == Chunk(text, i)
    ensures Join(buf, n) == Head(text, n)
  {
    if n == 0 {
      assert Head(text, 0) == [];
    } else {
      JoinPrefix(text, buf, n - 1);
      HeadGrows(text, n - 1);
      assert buf[n - 1] == Chunk(text, n - 1);
    }
  }

  /** The chunks of a text, joined in index order, are the text. */
  lemma ChunksJoin(text: Bytes, buf: Buffer)
    requires forall i :: 0 <= i < ChunkCount(|text|) ==> i in buf && buf[i] == Chunk(text, i)
    ensures Join(buf, ChunkCount(|text|)) == text
  {
    JoinPrefix(text, buf, ChunkCount(|text|));
  }

  // ---------------------------------------------------------------- reassembly buffers

  const MAX_REASSEMBLY_BUFS: nat := 64

  type PeerId = string
  type MsgKey = (PeerId, nat)
  type Buffers = map<MsgKey, Buffer>

  /** Every fragment of the message is in the buffer; reading one that is not raises KeyError. */
  predicate Joinable(buf: Buffer, total: nat) {
    forall i :: 0 <= i < total ==> i in buf
  }

  function BufferWith(bufs: Buffers, key: MsgKey, f: Frag): Buffer {
    (if key in bufs then bufs[key] else map[])[f.idx := f.chunk]
  }

  predicate Refused(bufs: Buffers, key: MsgKey) {
    key !in bufs && |bufs| >= MAX_REASSEMBLY_BUFS
  }

  /** The arrival of f ends the wait for its message. */
  predicate Completes(bufs: Buffers, peer: PeerId, f: Frag) {
    && !Refused(bufs, (peer, f.msgId))
    && |BufferWith(bufs, (peer, f.msgId), f)| >= f.total
    && Joinable(BufferWith(bufs, (peer, f.msgId), f), f.total)
  }

  function AfterFrag(bufs: Buffers, peer: PeerId, f: Frag): Buffers {
    var key := (peer, f.msgId);
    if Refused(bufs, key) then bufs
    else if Completes(bufs, peer, f) then bufs - {key}
    else bufs[key := BufferWith(bufs, key, f)]
  }

  /** The text handed on when f arrives, if any. */
  function Assembled(bufs: Buffers, peer: PeerId, f: Frag): Option<Bytes> {
    if Completes(bufs, peer, f) then Some(Join(BufferWith(bufs, (peer, f.msgId), f), f.total)) else None
  }

  lemma {:induction false} RangeFits(buf: Buffer, n: nat)
    requires Joinable(buf, n)
    ensures |buf| >= n
    decreases n
  {
    if n > 0 {
      assert (buf - {n - 1}).Keys == buf.Keys - {n - 1} && |buf - {n - 1}| == |(buf - {n - 1}).Keys|;
      RangeFits(buf - {n - 1}, n - 1);
    }
  }

  /** The index is there once f is stored. */
  predicate There(bufs: Buffers, key: MsgKey, f: Frag, i: nat) {
    i == f.idx || (key in bufs && i in bufs[key])
  }

  /** Exactly when any fragment ends the wait for its message, and what becomes of the buffers: one more
      message needs one of 64 buffers, and it is the indices, not their number, that count. */
  lemma StoresExactly(bufs: Buffers, peer: PeerId, f: Frag)
    ensures var key := (peer, f.msgId); var after := AfterFrag(bufs, peer, f);
            && (Assembled(bufs, peer, f).Some? <==>
                  (key in bufs || |bufs| < 64) && forall i :: 0 <= i < f.total ==> There(bufs, key, f, i))
            && (key in after <==> (key in bufs || |bufs| < 64) && Assembled(bufs, peer, f).None?)
            && (key in after ==>
                  && (forall i :: i in after[key] <==> There(bufs, key, f, i))
                  && after[key][f.idx] == f.chunk
                  && (forall i :: i in after[key] && i != f.idx ==> after[key][i] == bufs[key][i]))
            && (forall k :: k != key ==> (k in after <==> k in bufs) && (k in after ==> after[k] == bufs[k]))
  {
    var key := (peer, f.msgId);
    var buf := BufferWith(bufs, key, f);
    assert forall i :: i in buf <==> There(bufs, key, f, i);
    if Joinable(buf, f.total) {
      RangeFits(buf, f.total);
    }
  }

  /** Splitting signature from text, and verifying it: None where the receiver drops the message. */
  function Opened(c: Crypto, verifyKey: Bytes, assembled: Bytes): Option<Bytes> {
    if |assembled| < SIG_SIZE || !c.verify(verifyKey, assembled[SIG_SIZE..], assembled[..SIG_SIZE]) then None
    else Some(assembled[SIG_SIZE..])
  }

  /** A text is let through exactly if 64 bytes that precede it verify as its signature. */
  lemma OpensExactly(c: Crypto, verifyKey: Bytes, assembled: Bytes, text: Bytes)
    ensures Opened(c, verifyKey, assembled) == Some(text) <==>
            exists sig :: |sig| == 64 && assembled == sig + text && c.verify(verifyKey, text, sig)
  {
    if |assembled| >= 64 {
      assert assembled == assembled[..64] + assembled[64..];
    }
    forall sig: Bytes | |sig| == 64 && assembled == sig + text
      ensures sig == assembled[..64] && text == assembled[64..]
    {
    }
  }

  /** The message the arrival of f lets through, if any. */
  function Delivery(c: Crypto, verifyKey: Bytes, bufs: Buffers, peer: PeerId, f: Frag): Option<Bytes> {
    match Assembled(bufs, peer, f)
    case None => None
    case Some(text) => Opened(c, verifyKey, text)
  }
}
