/** The 32-byte sender field of a packet and the peer ids made from it
    (mesh/transport.py:163-170, mesh/store_forward.py:85-98). */
module SenderId {
  import opened Bytes
  import opened ForwardQueue
  import opened Wrappers

  const SENDER_ID_SIZE: nat := 32

  function NoHyphens(s: string): (r: string)
    ensures |r| <= |s|
  {
    if s == [] then [] else NoHyphens(s[..|s| - 1]) + (if s[|s| - 1] == '-' then [] else [s[|s| - 1]])
  }

  predicate AsciiText(s: string) {
    forall i :: 0 <= i < |s| ==> (s[i] as int) < 128
  }

  function Encoded(s: string): (b: Bytes)
    requires AsciiText(s)
    ensures |b| == |s|
  {
    seq(|s|, i requires 0 <= i < |s| => s[i] as int as byte)
  }

  function Digits(n: nat): (z: Bytes)
    ensures |z| == n
  {
    seq(n, _ => '0' as int as byte)
  }

  /** None where encoding a device id that is not ASCII raises. */
  function SenderIdBytes(deviceId: string): Option<Bytes> {
    var p := NoHyphens(deviceId);
    var q := if |p| <= SENDER_ID_SIZE then p else p[..SENDER_ID_SIZE];
    if !AsciiText(q) then None else Some(Encoded(q) + Digits(SENDER_ID_SIZE - |q|))
  }

  /** None where decoding a byte above 127 raises. */
  function DeviceIdFromBytes(raw: Bytes): Option<string> {
    if exists i :: 0 <= i < |raw| && raw[i] >= 128 then None
    else Some(seq(|raw|, i requires 0 <= i < |raw| => raw[i] as int as char))
  }

  lemma {:induction false} NothingToStrip(s: string)
    ensures NoHyphens(s) == s <==> '-' !in s
  {
    if s != [] {
      NothingToStrip(s[..|s| - 1]);
      assert s == s[..|s| - 1] + [s[|s| - 1]];
    }
  }

  lemma {:induction false} StripsPiecewise(a: string, b: string)
    ensures NoHyphens(a + b) == NoHyphens(a) + NoHyphens(b)
  {
    if b == [] {
      assert a + b == a;
    } else {
      var k := |b| - 1;
      StripsPiecewise(a, b[..k]);
      assert (a + b)[..|a + b| - 1] == a + b[..k];
    }
  }

  lemma EncodedComesBack(s: string)
    requires AsciiText(s)
    ensures DeviceIdFromBytes(Encoded(s)) == Some(s)
  {
    assert DeviceIdFromBytes(Encoded(s)).value == s;
  }

  /** A relay that packs an originator id again gets the bytes it received exactly when they hold no hyphen. */
  lemma RepackKeepsId(raw: Bytes)
    requires |raw| == SENDER_ID_SIZE && DeviceIdFromBytes(raw).Some?
    ensures SenderIdBytes(DeviceIdFromBytes(raw).value) == Some(raw) <==> '-' !in DeviceIdFromBytes(raw).value
  {
    var s := DeviceIdFromBytes(raw).value;
    NothingToStrip(s);
    if '-' !in s {
      assert Encoded(s) == raw && raw + Digits(0) == raw;
    } else {
      var p := NoHyphens(s);
      ShorterWithHyphen(s);
      if AsciiText(p) {
        OnlyDigitsAfter(s, p, raw);
      }
    }
  }

  lemma ShorterWithHyphen(s: string)
    requires '-' in s
    ensures |NoHyphens(s)| < |s| && '-' !in NoHyphens(s)
  {
    NoHyphenLeft(s);
    NothingToStrip(s);
    if |NoHyphens(s)| == |s| {
      SameLength(s);
    }
  }

  lemma {:induction false} NoHyphenLeft(s: string)
    ensures '-' !in NoHyphens(s)
  {
    if s != [] {
      NoHyphenLeft(s[..|s| - 1]);
    }
  }

  lemma {:induction false} SameLength(s: string)
    requires |NoHyphens(s)| == |s|
    ensures NoHyphens(s) == s
  {
    if s != [] {
      SameLength(s[..|s| - 1]);
    }
  }

  /** The packed id holds no hyphen, so it is not the bytes of an id that does. */
  lemma OnlyDigitsAfter(s: string, p: string, raw: Bytes)
    requires |raw| == SENDER_ID_SIZE && DeviceIdFromBytes(raw) == Some(s) && '-' in s
    requires |p| < SENDER_ID_SIZE && '-' !in p && AsciiText(p)
    ensures Encoded(p) + Digits(SENDER_ID_SIZE - |p|) != raw
  {
    var i :| 0 <= i < |s| && s[i] == '-';
    assert raw[i] == '-' as int as byte;
    var e := Encoded(p) + Digits(SENDER_ID_SIZE - |p|);
    assert i < |p| ==> p[i] in p;
  }

  // ---------------------------------------------------------------- UUIDs

  predicate HyphenAt(i: nat) {
    i == 8 || i == 13 || i == 18 || i == 23
  }

  predicate IsUuid(u: string) {
    |u| == 36 && forall i :: 0 <= i < 36 ==> if HyphenAt(i) then u[i] == '-' else IsHex(u[i])
  }

  lemma HyphenEnds(group: string)
    requires '-' !in group
    ensures NoHyphens(group + "-") == group
  {
    NothingToStrip(group);
    assert (group + "-")[..|group|] == group && NoHyphens(group) + [] == group;
  }

  lemma GroupStripped(group: string, rest: string)
    requires '-' !in group
    ensures NoHyphens(group + "-" + rest) == group + NoHyphens(rest)
  {
    HyphenEnds(group);
    StripsPiecewise(group + "-", rest);
  }

  lemma UuidSplits(u: string)
    requires IsUuid(u)
    ensures u == u[0..8] + "-" + u[9..]
    ensures u[9..] == u[9..13] + "-" + u[14..]
    ensures u[14..] == u[14..18] + "-" + u[19..]
    ensures u[19..] == u[19..23] + "-" + u[24..]
    ensures u[24..] == u[24..36]
  {
  }

  lemma UuidStripped(u: string)
    requires IsUuid(u)
    ensures NoHyphens(u) == HexGroups(u)
  {
    UuidSplits(u);
    GroupStripped(u[0..8], u[9..]);
    GroupStripped(u[9..13], u[14..]);
    GroupStripped(u[14..18], u[19..]);
    GroupStripped(u[19..23], u[24..]);
    NothingToStrip(u[24..36]);
    assert NoHyphens(u) == u[0..8] + (u[9..13] + (u[14..18] + (u[19..23] + u[24..36])));
  }

  lemma StrippedIsWireForm(u: string)
    requires IsUuid(u)
    ensures IsWireForm(HexGroups(u)) && AsciiText(HexGroups(u))
  {
  }

  /** A UUID sent as a sender id and normalized again by the queue is the same UUID, exactly when it
      was in lower case. */
  lemma UuidComesBack(u: string)
    requires IsUuid(u)
    ensures SenderIdBytes(u).Some? && |SenderIdBytes(u).value| == SENDER_ID_SIZE
    ensures var wire := DeviceIdFromBytes(SenderIdBytes(u).value);
            wire.Some? && IsWireForm(wire.value) && (Normalize(wire.value) == u <==> Lower(u) == u)
  {
    UuidStripped(u);
    StrippedIsWireForm(u);
    var p := HexGroups(u);
    EncodedComesBack(p);
    assert Encoded(p) + Digits(0) == Encoded(p);
    LowerHyphenated(u);
  }

  lemma SlicesAgree(s: string, i: nat, u: string, k: nat, n: nat)
    requires i + n <= |s| && k + n <= |u| && s[i..i + n] == u[k..k + n]
    ensures Lower(s)[i..i + n] == Lower(u)[k..k + n]
  {
    var a, b := Lower(s)[i..i + n], Lower(u)[k..k + n];
    forall j | 0 <= j < n ensures a[j] == b[j] {
      assert s[i..i + n][j] == u[k..k + n][j];
    }
  }

  lemma GroupsOf(u: string)
    requires |u| == 36
    ensures var s := HexGroups(u);
            && |s| == 32
            && s[0..8] == u[0..8] && s[8..12] == u[9..13] && s[12..16] == u[14..18]
            && s[16..20] == u[19..23] && s[20..32] == u[24..36]
  {
  }

  lemma Hyphenated(l: string)
    requires |l| == 36 && l[8] == '-' && l[13] == '-' && l[18] == '-' && l[23] == '-'
    ensures l == l[0..8] + "-" + l[9..13] + "-" + l[14..18] + "-" + l[19..23] + "-" + l[24..36]
  {
  }

  lemma LowerHyphenated(u: string)
    requires IsUuid(u) && IsWireForm(HexGroups(u))
    ensures Normalize(HexGroups(u)) == Lower(u)
  {
    var s := HexGroups(u);
    GroupsOf(u);
    SlicesAgree(s, 0, u, 0, 8);
    SlicesAgree(s, 8, u, 9, 4);
    SlicesAgree(s, 12, u, 14, 4);
    SlicesAgree(s, 16, u, 19, 4);
    SlicesAgree(s, 20, u, 24, 12);
    Hyphenated(Lower(u));
  }
}
