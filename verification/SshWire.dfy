/**
 The wire form of an RSA public key (pkg/provision/provision_windows_local_ssh.go), against a
 decoder for the data types of section 5 of RFC 4251 and the key format of section 6.6 of RFC
 4253.
 */
module SshWire {
  import opened Wrappers

  newtype Byte = b: int | 0 <= b < 256

  type Bytes = seq<Byte>

  datatype WireError = TooLong(length: nat)

  const MAX_LENGTH := 0xFFFF_FFFF

  const KEY_TYPE: Bytes := [115, 115, 104, 45, 114, 115, 97]   // "ssh-rsa"

  /** The bytes of an ASCII text. */
  function Ascii(s: string): (bytes: Bytes)
    requires forall i :: 0 <= i < |s| ==> s[i] < '\U{80}'
    ensures |bytes| == |s| && forall i :: 0 <= i < |s| ==> bytes[i] as int == s[i] as int
  {
    seq(|s|, i requires 0 <= i < |s| => s[i] as int as Byte)
  }

  lemma KeyTypeText()
    ensures Ascii("ssh-rsa") == KEY_TYPE
  {
  }

  // ----- Big-endian numbers

  /** big.Int.Bytes: the magnitude of a number without leading zeros. */
  function Magnitude(n: nat): (s: Bytes)
    ensures s == [] <==> n == 0
    ensures s != [] ==> s[0] != 0
  {
    if n == 0 then [] else Magnitude(n / 256) + [(n % 256) as Byte]
  }

  function Value(s: Bytes): nat {
    if s == [] then 0 else 256 * Value(s[..|s| - 1]) + s[|s| - 1] as int
  }

  lemma {:induction false} MagnitudeValue(n: nat)
    ensures Value(Magnitude(n)) == n
  {
    if n > 0 {
      MagnitudeValue(n / 256);
      assert Magnitude(n)[..|Magnitude(n)| - 1] == Magnitude(n / 256);
    }
  }

  lemma {:induction false} ValueLeadingZero(s: Bytes)
    ensures Value([0] + s) == Value(s)
  {
    if s == [] {
      assert Value([0]) == 256 * Value([0][..0]) + 0;
    } else {
      ValueLeadingZero(s[..|s| - 1]);
      assert ([0] + s)[..|s|] == [0] + s[..|s| - 1];
    }
  }

  // ----- The decoder

  /** A string: four bytes of length, then that many bytes.  The rest follows. */
  function ReadString(s: Bytes): Option<(Bytes, Bytes)> {
    if |s| < 4 then None
    else
      var n := Value(s[..4]);
      if |s| < 4 + n then None else Some((s[4..4 + n], s[4 + n..]))
  }

  /** Two's complement, most significant byte first; the empty string is zero. */
  function Signed(s: Bytes): int {
    if s != [] && s[0] >= 128 then Value(s) - Power256(|s|) else Value(s)
  }

  function Power256(n: nat): nat { if n == 0 then 1 else 256 * Power256(n - 1) }

  /** RFC 4251: unnecessary leading bytes 0 or 255 must not be included, and zero has no bytes at all. */
  predicate Minimal(s: Bytes) {
    && (|s| >= 1 && s[0] == 0 ==> |s| >= 2 && s[1] >= 128)
    && (|s| >= 2 && s[0] == 255 ==> s[1] < 128)
  }

  datatype PublicKey = PublicKey(keyType: Bytes, e: int, n: int)

  function ReadPublicKey(s: Bytes): Option<PublicKey> {
    match ReadString(s)
    case None => None
    case Some((keyType, s1)) =>
      match ReadString(s1)
      case None => None
      case Some((e, s2)) =>
        match ReadString(s2)
        case None => None
        case Some((n, s3)) => if s3 == [] then Some(PublicKey(keyType, Signed(e), Signed(n))) else None
  }

  // ----- The encoder

  function WireValueLength(length: nat): Result<nat, WireError> {
    if length > MAX_LENGTH then Err(TooLong(length)) else Ok(length)
  }

  function LengthBytes(n: nat): (s: Bytes)
    requires n <= MAX_LENGTH
    ensures |s| == 4
  {
    [(n / 0x100_0000) as Byte, (n / 0x1_0000 % 256) as Byte, (n / 256 % 256) as Byte, (n % 256) as Byte]
  }

  lemma ValueAppend(s: Bytes, b: Byte)
    ensures Value(s + [b]) == 256 * Value(s) + b as int
  {
    assert (s + [b])[..|s|] == s;
  }

  lemma LengthBytesValue(n: nat)
    requires n <= MAX_LENGTH
    ensures Value(LengthBytes(n)) == n
  {
    var a, b, c, d := (n / 0x100_0000) as Byte, (n / 0x1_0000 % 256) as Byte, (n / 256 % 256) as Byte, (n % 256) as Byte;
    ValueAppend([], a);
    ValueAppend([a], b);
    ValueAppend([a, b], c);
    ValueAppend([a, b, c], d);
    assert [] + [a] == [a] && [a] + [b] == [a, b] && [a, b] + [c] == [a, b, c] && [a, b, c] + [d] == LengthBytes(n);
    FourDigits(n);
  }

  lemma FourDigits(n: nat)
    ensures n == 256 * (256 * (256 * (n / 0x100_0000) + n / 0x1_0000 % 256) + n / 256 % 256) + n % 256
  {
    assert n / 256 == 256 * (n / 0x1_0000) + n / 256 % 256;
    assert n / 0x1_0000 == 256 * (n / 0x100_0000) + n / 0x1_0000 % 256;
  }

  function Field(value: Bytes): Bytes
    requires |value| <= MAX_LENGTH
  {
    LengthBytes(|value|) + value
  }

  function TrimZeros(s: Bytes): (t: Bytes)
    ensures t == [] || t[0] != 0
  {
    if s != [] && s[0] == 0 then TrimZeros(s[1..]) else s
  }

  /** What writeSSHMPI puts between the lengths. */
  function MpintPayload(value: Bytes): Bytes {
    var trimmed := TrimZeros(value);
    if trimmed == [] then [0] else if trimmed[0] >= 128 then [0] + trimmed else trimmed
  }

  class Buffer {
    var data: Bytes

    constructor ()
      ensures data == []
    {
      data := [];
    }

    method WriteBytes(value: Bytes) returns (err: Option<WireError>)
      modifies this
      ensures err.Some? <==> |value| > MAX_LENGTH
      ensures data == if err.None? then old(data) + Field(value) else old(data)
    {
      var valueLength := WireValueLength(|value|);
      if valueLength.Err? {
        return Some(valueLength.error);
      }
      data := data + LengthBytes(valueLength.value);
      data := data + value;
      return None;
    }

    method WriteMPI(value: Bytes) returns (err: Option<WireError>)
      modifies this
      ensures err.Some? <==> |MpintPayload(value)| > MAX_LENGTH
      ensures data == if err.None? then old(data) + Field(MpintPayload(value)) else old(data)
    {
      var trimmed := TrimZeros(value);
      if |trimmed| == 0 {
        err := WriteBytes([0]);
        return;
      }
      if trimmed[0] >= 128 {
        trimmed := [0] + trimmed;
      }
      err := WriteBytes(trimmed);
    }
  }

  function Abs(n: int): nat { if n < 0 then -n else n }

  predicate Fits(n: int) { |MpintPayload(Magnitude(Abs(n)))| <= MAX_LENGTH }

  function KeyBlob(e: int, n: int): Bytes
    requires Fits(e) && Fits(n)
  {
    Field(KEY_TYPE) + Field(MpintPayload(Magnitude(Abs(e)))) + Field(MpintPayload(Magnitude(Abs(n))))
  }

  // ----- Decoding what was encoded

  lemma FieldReads(value: Bytes, rest: Bytes)
    requires |value| <= MAX_LENGTH
    ensures ReadString(Field(value) + rest) == Some((value, rest))
  {
    var s := Field(value) + rest;
    LengthBytesValue(|value|);
    assert s[..4] == LengthBytes(|value|);
    assert s[4..4 + |value|] == value && s[4 + |value|..] == rest;
  }

  /** The payload reads back as the number, is never negative, and is minimal exactly for numbers other than zero. */
  lemma PayloadSigned(n: nat)
    ensures Signed(MpintPayload(Magnitude(n))) == n
    ensures MpintPayload(Magnitude(n)) != [] && MpintPayload(Magnitude(n))[0] < 128
    ensures Minimal(MpintPayload(Magnitude(n))) <==> n != 0
  {
    var m := Magnitude(n);
    MagnitudeValue(n);
    assert TrimZeros(m) == m;
    if n == 0 {
      assert Value([0]) == 256 * Value([0][..0]) + 0;
    } else {
      ValueLeadingZero(m);
    }
  }

  lemma FieldsDecode(keyType: Bytes, a: Bytes, b: Bytes)
    requires |keyType| <= MAX_LENGTH && |a| <= MAX_LENGTH && |b| <= MAX_LENGTH
    ensures ReadPublicKey(Field(keyType) + Field(a) + Field(b)) == Some(PublicKey(keyType, Signed(a), Signed(b)))
  {
    assert Field(keyType) + Field(a) + Field(b) == Field(keyType) + (Field(a) + Field(b));
    FieldReads(keyType, Field(a) + Field(b));
    FieldReads(a, Field(b));
    FieldReads(b, []);
    assert Field(b) + [] == Field(b);
  }

  lemma BlobDecodes(e: int, n: int)
    requires Fits(e) && Fits(n)
    ensures ReadPublicKey(KeyBlob(e, n)) == Some(PublicKey(KEY_TYPE, Abs(e), Abs(n)))
  {
    PayloadSigned(Abs(e));
    PayloadSigned(Abs(n));
    FieldsDecode(KEY_TYPE, MpintPayload(Magnitude(Abs(e))), MpintPayload(Magnitude(Abs(n))));
  }

  /** Different keys have different blobs. */
  lemma BlobInjective(e: nat, n: nat, e': nat, n': nat)
    requires Fits(e) && Fits(n) && Fits(e') && Fits(n')
    requires KeyBlob(e, n) == KeyBlob(e', n')
    ensures e == e' && n == n'
  {
    BlobDecodes(e, n);
    BlobDecodes(e', n');
  }

  /** For positive numbers the encoding is the one RFC 4251 prescribes; any other minimal string for the number is this one. */
  lemma PayloadCanonical(n: nat, s: Bytes)
    requires n > 0 && Minimal(s) && Signed(s) == n
    ensures s == MpintPayload(Magnitude(n))
  {
    if s != [] && s[0] >= 128 {
      ValueBelowPower(s);
    } else if s != [] && s[0] == 0 {
      var t := s[1..];
      assert s == [0] + t;
      ValueLeadingZero(t);
      ValueMagnitude(t);
    } else {
      ValueMagnitude(s);
    }
    PayloadSigned(n);
    assert TrimZeros(Magnitude(n)) == Magnitude(n);
  }

  lemma {:induction false} ValueBelowPower(s: Bytes)
    ensures Value(s) < Power256(|s|)
  {
    if s != [] {
      ValueBelowPower(s[..|s| - 1]);
    }
  }

  lemma MagnitudeAppend(n: nat, b: Byte)
    requires n > 0 || b != 0
    ensures Magnitude(256 * n + b as int) == Magnitude(n) + [b]
  {
    var m := 256 * n + b as int;
    assert m / 256 == n && m % 256 == b as int;
  }

  lemma {:induction false} ValueMagnitude(s: Bytes)
    requires s == [] || s[0] != 0
    ensures Magnitude(Value(s)) == s
  {
    if s != [] {
      var front, last := s[..|s| - 1], s[|s| - 1];
      ValueMagnitude(front);
      assert s == front + [last];
      assert front == [] ==> last == s[0];
      assert front != [] ==> front[0] == s[0] && Value(front) > 0;
      MagnitudeAppend(Value(front), last);
    }
  }

  /** The key blob; base64 and the "ssh-rsa " prefix of the authorized key are left to the caller. */
  method MarshalPublicKey(e: int, n: int) returns (r: Result<Bytes, WireError>)
    ensures r.Ok? <==> Fits(e) && Fits(n)
    ensures r.Ok? ==> r.value == KeyBlob(e, n)
    ensures r.Ok? ==> ReadPublicKey(r.value) == Some(PublicKey(Ascii("ssh-rsa"), Abs(e), Abs(n)))
    ensures r.Ok? <==> |MpintPayload(Magnitude(Abs(e)))| < 0x1_0000_0000 && |MpintPayload(Magnitude(Abs(n)))| < 0x1_0000_0000
  {
    var blob := new Buffer();
    KeyTypeText();
    var first := blob.WriteBytes(KEY_TYPE);
    assert first.None? && blob.data == Field(KEY_TYPE);
    var second := blob.WriteMPI(Magnitude(Abs(e)));
    if second.Some? {
      return Err(second.value);
    }
    var third := blob.WriteMPI(Magnitude(Abs(n)));
    if third.Some? {
      return Err(third.value);
    }
    BlobDecodes(e, n);
    return Ok(blob.data);
  }
}
