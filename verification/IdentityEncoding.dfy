/**
The byte string every Battle identity is a digest of: each part's UTF-8 bytes behind their length in
four big-endian bytes. No two part lists share an encoding, which is why the other modules may use the
parts themselves as identities.
 */
module IdentityEncoding {
  import opened Common

  const LENGTH_LIMIT := 0x1_0000_0000

  predicate Encodable(parts: seq<Bytes>) {
    forall p :: p in parts ==> |p| < LENGTH_LIMIT
  }

  function BigEndian(n: nat): (r: Bytes)
    requires n < LENGTH_LIMIT
    ensures |r| == 4
  {
    [(n / 0x100 / 0x100 / 0x100) as Byte, (n / 0x100 / 0x100 % 0x100) as Byte, (n / 0x100 % 0x100) as Byte,
     (n % 0x100) as Byte]
  }

  function FromBigEndian(b: Bytes): nat
    requires |b| == 4
  {
    0x100 * (0x100 * (0x100 * (b[0] as nat) + b[1] as nat) + b[2] as nat) + b[3] as nat
  }

  lemma LengthRoundTrips(n: nat)
    requires n < LENGTH_LIMIT
    ensures FromBigEndian(BigEndian(n)) == n
  {
    var a, b, c := n / 0x100, n / 0x100 / 0x100, n / 0x100 / 0x100 / 0x100;
    assert n == 0x100 * a + n % 0x100 && a == 0x100 * b + a % 0x100 && b == 0x100 * c + b % 0x100;
  }

  function Encode(parts: seq<Bytes>): Bytes
    requires Encodable(parts)
  {
    if parts == [] then [] else BigEndian(|parts[0]|) + parts[0] + Encode(parts[1..])
  }

  /** An independent reader of the format. */
  function Decode(bytes: Bytes): Option<seq<Bytes>>
    decreases |bytes|
  {
    if bytes == [] then Some([])
    else if |bytes| < 4 then None
    else
      var n := FromBigEndian(bytes[..4]);
      if |bytes| < 4 + n then None
      else
        var rest := Decode(bytes[4 + n..]);
        if rest.None? then None else Some([bytes[4..4 + n]] + rest.value)
  }

  lemma {:induction false} DecodeInvertsEncode(parts: seq<Bytes>)
    requires Encodable(parts)
    ensures Decode(Encode(parts)) == Some(parts)
  {
    hide FromBigEndian, BigEndian;
    if parts != [] {
      var head, rest := BigEndian(|parts[0]|), Encode(parts[1..]);
      var bytes := Encode(parts);
      LengthRoundTrips(|parts[0]|);
      DecodeInvertsEncode(parts[1..]);
      assert bytes == head + parts[0] + rest;
      assert bytes[..4] == head;
      assert bytes[4..4 + |parts[0]|] == parts[0];
      assert bytes[4 + |parts[0]|..] == rest;
      assert parts == [parts[0]] + parts[1..];
    }
  }

  /** Equal digests' inputs mean equal parts: no boundary between two parts can move. */
  lemma EncodingIsInjective(a: seq<Bytes>, b: seq<Bytes>)
    requires Encodable(a) && Encodable(b) && Encode(a) == Encode(b)
    ensures a == b
  {
    DecodeInvertsEncode(a);
    DecodeInvertsEncode(b);
  }

  lemma {:induction false} EncodeAppends(parts: seq<Bytes>, last: Bytes)
    requires Encodable(parts) && |last| < LENGTH_LIMIT
    ensures Encodable(parts + [last])
    ensures Encode(parts + [last]) == Encode(parts) + BigEndian(|last|) + last
  {
    hide BigEndian;
    if parts == [] {
      assert parts + [last] == [last];
      assert Encode([last][1..]) == [];
    } else {
      EncodeAppends(parts[1..], last);
      assert (parts + [last])[1..] == parts[1..] + [last];
    }
  }

  /** Feeds the digest part by part; a part too long for its length field is an overflow. */
  method AppendParts(parts: seq<Bytes>) returns (ok: bool, data: Bytes)
    ensures ok <==> Encodable(parts)
    ensures ok ==> data == Encode(parts)
  {
    data := [];
    for i := 0 to |parts|
      invariant Encodable(parts[..i]) && data == Encode(parts[..i])
    {
      if |parts[i]| >= LENGTH_LIMIT {
        return false, data;
      }
      EncodeAppends(parts[..i], parts[i]);
      assert parts[..i + 1] == parts[..i] + [parts[i]];
      data := data + BigEndian(|parts[i]|) + parts[i];
    }
    assert parts[..|parts|] == parts;
    return true, data;
  }
}
