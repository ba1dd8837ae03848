/**
 The addresses probed on a host's own network (pkg/provision/provision.go).  Packed addresses
 are unsigned 32-bit numbers and wrap around.
 */
module SubnetProbe {
  import opened Wrappers

  type Octet = n: nat | n < 256

  type Octets = seq<Octet>

  const PREFIX_MINIMUM := 24

  const TWO32 := 0x1_0000_0000

  /** The result of a uint32 operation. */
  function Wrap(n: int): (r: nat)
    ensures r < TWO32 && (0 <= n < TWO32 ==> r == n)
  {
    n % TWO32
  }

  // ----- Octets and numbers

  /** net.IP.To4: four octets, or the last four of an IPv4-mapped IPv6 address. */
  function To4(ip: Octets): (r: Option<Octets>)
    ensures r.Some? ==> |r.value| == 4
  {
    if |ip| == 4 then Some(ip)
    else if |ip| == 16 && (forall i :: 0 <= i < 10 ==> ip[i] == 0) && ip[10] == 255 && ip[11] == 255 then Some(ip[12..])
    else None
  }

  const MAPPED_PREFIX: Octets := [0, 0, 0, 0, 0, 0, 0, 0, 0, 0, 255, 255]

  /** It has a result exactly for four octets and for ten zeros, two full octets and four more. */
  lemma To4Exactly(ip: Octets, q: Octets)
    requires |q| == 4
    ensures To4(ip) == Some(q) <==> ip == q || ip == MAPPED_PREFIX + q
  {
    if |ip| == 16 {
      assert ip == ip[..12] + ip[12..];
      if To4(ip).Some? {
        assert ip[..12] == MAPPED_PREFIX;
      }
      if ip == MAPPED_PREFIX + q {
        assert forall i :: 0 <= i < 12 ==> ip[i] == MAPPED_PREFIX[i];
      }
    }
  }

  function ToUint32(ip: Octets): (n: nat)
    requires |ip| == 4
    ensures n < TWO32
  {
    0x100_0000 * ip[0] as nat + 0x1_0000 * ip[1] as nat + 0x100 * ip[2] as nat + ip[3] as nat
  }

  function FromUint32(n: nat): (ip: Octets)
    ensures |ip| == 4
  {
    [n / 0x100_0000 % 256, n / 0x1_0000 % 256, n / 256 % 256, n % 256]
  }

  /** Packing and unpacking are inverse to each other. */
  lemma UnpackPack(n: nat)
    requires n < TWO32
    ensures ToUint32(FromUint32(n)) == n
  {
    Quotients(n);
    assert n == 256 * (n / 256) + n % 256;
    var m := n / 256;
    assert m == 256 * (m / 256) + m % 256;
    var l := m / 256;
    assert l == 256 * (l / 256) + l % 256 && l / 256 < 256;
  }

  lemma PackUnpack(ip: Octets)
    requires |ip| == 4
    ensures FromUint32(ToUint32(ip)) == ip
  {
    PackedOctets(ip[0], ip[1], ip[2], ip[3]);
  }

  lemma PackedOctets(a: nat, b: nat, c: nat, d: nat)
    requires a < 256 && b < 256 && c < 256 && d < 256
    ensures
      var n := 0x100_0000 * a + 0x1_0000 * b + 0x100 * c + d;
      && n / 0x100_0000 % 256 == a && n / 0x1_0000 % 256 == b && n / 256 % 256 == c && n % 256 == d
  {
    var n := 0x100_0000 * a + 0x1_0000 * b + 0x100 * c + d;
    Digit(n, 256 * (256 * a + b) + c, d);
    Digit(256 * (256 * a + b) + c, 256 * a + b, c);
    Digit(256 * a + b, a, b);
    Quotients(n);
  }

  lemma Digit(n: nat, high: nat, low: nat)
    requires n == 256 * high + low && low < 256
    ensures n / 256 == high && n % 256 == low
  {
  }

  lemma Quotients(n: nat)
    ensures n / 0x1_0000 == n / 256 / 256 && n / 0x100_0000 == n / 256 / 256 / 256
  {
  }

  // ----- Bitwise operations

  function And(a: nat, b: nat): nat {
    if a == 0 || b == 0 then 0 else 2 * And(a / 2, b / 2) + if a % 2 == 1 && b % 2 == 1 then 1 else 0
  }

  function Or(a: nat, b: nat): nat
    decreases a + b
  {
    if a == 0 && b == 0 then 0 else 2 * Or(a / 2, b / 2) + if a % 2 == 1 || b % 2 == 1 then 1 else 0
  }

  function Not(b: Octet): Octet { 255 - b }

  function Pow2(k: nat): (p: nat)
    ensures p >= 1
  {
    if k == 0 then 1 else 2 * Pow2(k - 1)
  }

  lemma {:induction false} AndOnes(a: nat, k: nat)
    requires a < Pow2(k)
    ensures And(a, Pow2(k) - 1) == a
    decreases k
  {
    if k > 0 && a > 0 {
      AndOnes(a / 2, k - 1);
      assert (Pow2(k) - 1) / 2 == Pow2(k - 1) - 1;
    }
  }

  /** The number whose bits from k up to n are set. */
  function High(n: nat, k: nat): (h: nat)
    requires k <= n
    ensures h == Pow2(n) - Pow2(k)
  {
    PowMonotone(k, n);
    Pow2(n) - Pow2(k)
  }

  lemma AndEven(a: nat, b: nat)
    ensures And(a, 2 * b) == 2 * And(a / 2, b)
  {
    assert 2 * b / 2 == b && 2 * b % 2 == 0;
  }

  /** Masking with such a number clears the k low bits. */
  lemma {:induction false} AndHigh(a: nat, n: nat, k: nat)
    requires k <= n && a < Pow2(n)
    ensures And(a, High(n, k)) == a - a % Pow2(k)
    decreases k
  {
    if k == 0 {
      AndOnes(a, n);
    } else {
      AndHigh(a / 2, n - 1, k - 1);
      AndEven(a, High(n - 1, k - 1));
      HalfRemainder(a, Pow2(k - 1));
    }
  }

  lemma {:induction false} PowMonotone(k: nat, n: nat)
    requires k <= n
    ensures Pow2(k) <= Pow2(n)
  {
    if k < n {
      PowMonotone(k, n - 1);
    }
  }

  lemma HalfRemainder(a: nat, p: nat)
    requires p > 0
    ensures a % (2 * p) == 2 * (a / 2 % p) + a % 2
  {
    var q, r := a / 2 / p, a / 2 % p;
    assert a / 2 == q * p + r;
    assert a == 2 * (a / 2) + a % 2;
    assert a == q * (2 * p) + (2 * r + a % 2);
    Remainder(a, 2 * p, q, 2 * r + a % 2);
  }

  lemma Remainder(a: nat, m: nat, q: nat, r: nat)
    requires m > 0 && a == q * m + r && r < m
    ensures a % m == r
  {
    var d := a / m - q;
    assert a == (a / m) * m + a % m;
    assert d * m == r - a % m;
    assert d >= 1 ==> d * m >= m;
    assert d <= -1 ==> d * m + m <= 0;
  }

  /** Setting the k low bits of a number that has none of them set. */
  lemma {:induction false} OrLow(a: nat, k: nat)
    requires a % Pow2(k) == 0
    ensures Or(a, Pow2(k) - 1) == a + Pow2(k) - 1
    decreases k
  {
    if k == 0 {
      OrZero(a);
    } else {
      HalfRemainder(a, Pow2(k - 1));
      OrLow(a / 2, k - 1);
      assert (Pow2(k) - 1) / 2 == Pow2(k - 1) - 1;
    }
  }

  lemma {:induction false} OrZero(a: nat)
    ensures Or(a, 0) == a
  {
    if a > 0 {
      OrZero(a / 2);
    }
  }

  // ----- Masks

  /** The number of leading ones of an octet in which no one follows a zero. */
  function LeadingOnes(b: Octet): (r: Option<nat>)
    ensures r.Some? ==> r.value <= 8
  {
    match b
    case 0 => Some(0)
    case 128 => Some(1)
    case 192 => Some(2)
    case 224 => Some(3)
    case 240 => Some(4)
    case 248 => Some(5)
    case 252 => Some(6)
    case 254 => Some(7)
    case 255 => Some(8)
    case _ => None
  }

  function MaskOnes(mask: Octets): Option<nat> {
    if mask == [] then Some(0)
    else
      var first, rest := LeadingOnes(mask[0]), MaskOnes(mask[1..]);
      if first.None? || rest.None? || (first.value < 8 && rest.value > 0) then None
      else Some(first.value + rest.value)
  }

  /** net.IPMask.Size: (0, 0) for a mask that is not a prefix. */
  function MaskSize(mask: Octets): (nat, nat) {
    match MaskOnes(mask)
    case None => (0, 0)
    case Some(ones) => (ones, 8 * |mask|)
  }

  lemma Powers()
    ensures Pow2(0) == 1 && Pow2(1) == 2 && Pow2(2) == 4 && Pow2(3) == 8 && Pow2(4) == 16
    ensures Pow2(5) == 32 && Pow2(6) == 64 && Pow2(7) == 128 && Pow2(8) == 256
  {
    assert Pow2(2) == 2 * Pow2(1) && Pow2(4) == 2 * Pow2(3) && Pow2(6) == 2 * Pow2(5) && Pow2(8) == 2 * Pow2(7);
    assert Pow2(3) == 2 * Pow2(2) && Pow2(5) == 2 * Pow2(4) && Pow2(7) == 2 * Pow2(6);
  }

  lemma LeadingOnesValue(b: Octet)
    requires LeadingOnes(b).Some?
    ensures b == 256 - Pow2(8 - LeadingOnes(b).value)
  {
    Powers();
  }

  /** net.CIDRMask(24, 32). */
  const MINIMUM_MASK: Octets := [255, 255, 255, 0]

  /** A four-octet prefix of at least 24 ones: three full octets and the ones of the last. */
  lemma LongPrefix(mask: Octets, ones: nat)
    requires |mask| == 4 && MaskOnes(mask) == Some(ones) && ones >= 24
    ensures ones <= 32 && mask[0] == 255 && mask[1] == 255 && mask[2] == 255 && mask[3] == 256 - Pow2(32 - ones)
  {
    var m1, m2, m3 := mask[1..], mask[2..], mask[3..];
    assert m1[1..] == m2 && m2[1..] == m3 && m3[1..] == [];
    assert MaskOnes(m3) == LeadingOnes(mask[3]);
    assert MaskOnes(m2).value == LeadingOnes(mask[2]).value + MaskOnes(m3).value;
    assert MaskOnes(m1).value == LeadingOnes(mask[1]).value + MaskOnes(m2).value;
    assert ones == LeadingOnes(mask[0]).value + MaskOnes(m1).value;
    LeadingOnesValue(mask[0]);
    LeadingOnesValue(mask[1]);
    LeadingOnesValue(mask[2]);
    LeadingOnesValue(mask[3]);
  }

  /** The bytes of a mask as one big-endian number. */
  function Packed(mask: Octets): nat {
    if mask == [] then 0 else mask[0] as nat * Pow2(8 * (|mask| - 1)) + Packed(mask[1..])
  }

  lemma PowEight(k: nat)
    ensures Pow2(k + 8) == 256 * Pow2(k)
  {
    assert Pow2(k + 2) == 2 * Pow2(k + 1) && Pow2(k + 4) == 2 * Pow2(k + 3);
    assert Pow2(k + 6) == 2 * Pow2(k + 5) && Pow2(k + 8) == 2 * Pow2(k + 7);
    assert Pow2(k + 1) == 2 * Pow2(k) && Pow2(k + 3) == 2 * Pow2(k + 2);
    assert Pow2(k + 5) == 2 * Pow2(k + 4) && Pow2(k + 7) == 2 * Pow2(k + 6);
  }

  lemma {:induction false} PackedBelow(mask: Octets)
    ensures Packed(mask) < Pow2(8 * |mask|)
  {
    if mask != [] {
      PackedBelow(mask[1..]);
      PowEight(8 * (|mask| - 1));
      OneDigit(mask[0] as nat, Packed(mask[1..]), Pow2(8 * (|mask| - 1)));
    }
  }

  lemma OneDigit(d: nat, r: nat, b: nat)
    requires d < 256 && r < b
    ensures d * b + r < 256 * b
  {
    NextFactor(d, 256, b);
  }

  lemma SameDigits(d: nat, r: nat, e: nat, q: nat, b: nat)
    requires r < b && q < b && d * b + r == e * b + q
    ensures d == e && r == q
  {
    if d < e {
      NextFactor(d, e, b);
      assert false;
    }
    if e < d {
      NextFactor(e, d, b);
      assert false;
    }
  }

  /** The number of a prefix mask of n octets with p leading ones. */
  function PrefixValue(n: nat, p: nat): int
    requires p <= 8 * n
  {
    Pow2(8 * n) - Pow2(8 * n - p)
  }

  lemma LeadingOnesComplete(b: Octet, p: nat)
    requires p <= 8 && b as nat + Pow2(8 - p) == 256
    ensures LeadingOnes(b) == Some(p)
  {
    Powers();
  }

  lemma FullDigit(n: nat, p: nat)
    requires n >= 1 && 8 <= p <= 8 * n
    ensures PrefixValue(n, p) == 255 * Pow2(8 * (n - 1)) + PrefixValue(n - 1, p - 8)
    ensures 0 <= PrefixValue(n - 1, p - 8) < Pow2(8 * (n - 1))
  {
    PowEight(8 * (n - 1));
    PowMonotone(8 * n - p, 8 * (n - 1));
  }

  lemma PartDigit(n: nat, p: nat)
    requires n >= 1 && p < 8
    ensures Pow2(8 - p) <= 256
    ensures PrefixValue(n, p) == (256 - Pow2(8 - p)) * Pow2(8 * (n - 1))
  {
    Powers();
    PowMonotone(8 - p, 8);
    PowEight(8 * (n - 1));
    PowProduct(8 - p, 8 * (n - 1));
    assert (256 - Pow2(8 - p)) * Pow2(8 * (n - 1)) == 256 * Pow2(8 * (n - 1)) - Pow2(8 - p) * Pow2(8 * (n - 1));
  }

  lemma {:induction false} PowProduct(j: nat, k: nat)
    ensures Pow2(j + k) == Pow2(j) * Pow2(k)
  {
    if j > 0 {
      PowProduct(j - 1, k);
      assert Pow2(j) * Pow2(k) == 2 * (Pow2(j - 1) * Pow2(k));
    }
  }

  lemma FirstFull(mask: Octets, p: nat)
    requires mask != [] && 8 <= p <= 8 * |mask| && Packed(mask) == PrefixValue(|mask|, p)
    ensures mask[0] == 255 && Packed(mask[1..]) == PrefixValue(|mask| - 1, p - 8)
  {
    PackedBelow(mask[1..]);
    FullDigit(|mask|, p);
    SameDigits(mask[0] as nat, Packed(mask[1..]), 255, PrefixValue(|mask| - 1, p - 8), Pow2(8 * (|mask| - 1)));
  }

  lemma FirstPart(mask: Octets, p: nat)
    requires mask != [] && p < 8 && Packed(mask) == PrefixValue(|mask|, p)
    ensures mask[0] as nat + Pow2(8 - p) == 256 && Packed(mask[1..]) == PrefixValue(|mask| - 1, 0)
  {
    PackedBelow(mask[1..]);
    PartDigit(|mask|, p);
    SameDigits(mask[0] as nat, Packed(mask[1..]), 256 - Pow2(8 - p), 0, Pow2(8 * (|mask| - 1)));
  }

  /** Every prefix mask is recognised with the number of its ones. */
  lemma {:induction false} PrefixRecognised(mask: Octets, p: nat)
    requires p <= 8 * |mask| && Packed(mask) == PrefixValue(|mask|, p)
    ensures MaskOnes(mask) == Some(p)
  {
    if mask != [] {
      if p >= 8 {
        FirstFull(mask, p);
        PrefixRecognised(mask[1..], p - 8);
      } else {
        FirstPart(mask, p);
        LeadingOnesComplete(mask[0], p);
        PrefixRecognised(mask[1..], 0);
      }
    }
  }

  /** And nothing else is. */
  lemma {:induction false} RecognisedIsPrefix(mask: Octets, ones: nat)
    requires MaskOnes(mask) == Some(ones)
    ensures ones <= 8 * |mask| && Packed(mask) == PrefixValue(|mask|, ones)
  {
    if mask != [] {
      var first, rest := LeadingOnes(mask[0]).value, MaskOnes(mask[1..]).value;
      RecognisedIsPrefix(mask[1..], rest);
      LeadingOnesValue(mask[0]);
      Powers();
      if first == 8 {
        FullDigit(|mask|, ones);
      } else {
        PartDigit(|mask|, ones);
      }
    }
  }

  /** The four-octet mask of p leading ones. */
  predicate IsMask(mask: Octets, p: nat) {
    |mask| == 4 && p <= 32 && ToUint32(mask) == TWO32 - Pow2(32 - p)
  }

  lemma PackedFour(mask: Octets)
    requires |mask| == 4
    ensures Packed(mask) == ToUint32(mask)
  {
    LargePowers();
    Powers();
    var m1, m2, m3 := mask[1..], mask[2..], mask[3..];
    assert m1[1..] == m2 && m2[1..] == m3 && m3[1..] == [];
    assert Packed(m3) == mask[3] as nat;
    assert Packed(m2) == 0x100 * mask[2] as nat + Packed(m3);
    assert Packed(m1) == 0x1_0000 * mask[1] as nat + Packed(m2);
  }

  lemma PowThirtyTwo()
    ensures Pow2(32) == TWO32
  {
    LargePowers();
    PowEight(24);
  }

  /** net.IPMask.Size of four octets: the ones of a prefix mask, and (0, 0) for every other mask. */
  lemma MaskSizeExactly(mask: Octets)
    requires |mask| == 4
    ensures forall p: nat :: IsMask(mask, p) ==> MaskSize(mask) == (p, 32)
    ensures (forall p: nat :: !IsMask(mask, p)) ==> MaskSize(mask) == (0, 0)
  {
    PackedFour(mask);
    PowThirtyTwo();
    forall p: nat | IsMask(mask, p) ensures MaskSize(mask) == (p, 32) {
      PrefixRecognised(mask, p);
    }
    if MaskOnes(mask).Some? {
      RecognisedIsPrefix(mask, MaskOnes(mask).value);
      assert IsMask(mask, MaskOnes(mask).value);
    }
  }

  lemma MaskAccepted(mask: Octets, ones: nat, bits: nat)
    requires MaskSize(mask) == (ones, bits)
    ensures bits == 32 && ones > 0 ==>
              |mask| == 4 && MaskOnes(mask) == Some(ones) && IsMask(mask, ones) && forall p: nat :: IsMask(mask, p) ==> p == ones
    ensures bits != 32 || ones == 0 ==> forall p: nat :: p >= 1 ==> !IsMask(mask, p)
  {
    if |mask| == 4 {
      MaskSizeExactly(mask);
      if MaskOnes(mask).Some? {
        RecognisedIsPrefix(mask, ones);
        PackedFour(mask);
        PowThirtyTwo();
      }
    }
  }

  // ----- The probe list

  function PrefixLength(ones: nat): nat { if ones < PREFIX_MINIMUM then PREFIX_MINIMUM else ones }

  /** The largest multiple of m up to a. */
  function RoundDown(a: nat, m: nat): (r: nat)
    requires m > 0
    ensures r == a - a % m
  {
    a - a % m
  }

  /** The lowest and highest address of the network of prefix length p that a host belongs to. */
  function Network(host: nat, p: nat): nat
    requires p <= 32
  {
    RoundDown(host, Pow2(32 - p))
  }

  function Broadcast(host: nat, p: nat): nat
    requires p <= 32
  {
    Network(host, p) + Pow2(32 - p) - 1
  }

  /** The two extreme addresses as networks of their own. */
  predicate Wraps(host: nat, p: nat) { p == 32 && (host == 0 || host == TWO32 - 1) }

  /** The one network whose enumeration never ends. */
  predicate Endless(host: nat, p: nat) { p == 32 && host == 0 }

  /** The first and the last candidate value, as the uint32 arithmetic gives them. */
  function Start(host: nat, p: nat): nat
    requires p <= 32
  {
    Wrap(Network(host, p) + 1)
  }

  function End(host: nat, p: nat): nat
    requires p <= 32
  {
    Wrap(Broadcast(host, p) - 1)
  }

  /** The loop variable after k rounds. */
  function Candidate(start: nat, k: nat): (v: nat)
    ensures v < TWO32
  {
    Wrap(start + k)
  }

  method MaskedAddress(ip: Octets, mask: Octets) returns (network: Octets)
    requires |ip| == 4 && |mask| == 4
    ensures |network| == 4 && forall i :: 0 <= i < 4 ==> network[i] == And(ip[i], mask[i])
  {
    network := [];
    for i := 0 to 4
      invariant |network| == i && forall k :: 0 <= k < i ==> network[k] == And(ip[k], mask[k])
    {
      AndAtMost(ip[i], mask[i]);
      network := network + [And(ip[i], mask[i])];
    }
  }

  lemma {:induction false} AndAtMost(a: nat, b: nat)
    ensures And(a, b) <= a
  {
    if a != 0 && b != 0 {
      AndAtMost(a / 2, b / 2);
    }
  }

  lemma {:induction false} OrBelow(a: nat, b: nat, k: nat)
    requires a < Pow2(k) && b < Pow2(k)
    ensures Or(a, b) < Pow2(k)
    decreases k
  {
    if k > 0 {
      OrBelow(a / 2, b / 2, k - 1);
    }
  }

  method BroadcastAddress(network: Octets, mask: Octets) returns (broadcast: array<Octet>)
    requires |network| == 4 && |mask| == 4
    ensures fresh(broadcast) && broadcast.Length == 4
    ensures forall i :: 0 <= i < 4 ==> broadcast[i] == Or(network[i], Not(mask[i]))
  {
    Powers();
    broadcast := new Octet[4](i requires 0 <= i < 4 => network[i]);
    for index := 0 to 4
      invariant forall k :: 0 <= k < index ==> broadcast[k] == Or(network[k], Not(mask[k]))
      invariant forall k :: index <= k < 4 ==> broadcast[k] == network[k]
    {
      OrBelow(network[index], Not(mask[index]), 8);
      broadcast[index] := Or(broadcast[index], Not(mask[index]));
    }
  }

  /** An octet under a full mask octet passes through. */
  lemma FullOctets(a: Octet, mask: Octet, network: nat, broadcast: nat)
    requires mask == 255
    requires network == And(a, mask) && broadcast == Or(network, Not(mask))
    ensures network == a && broadcast == a
  {
    FullOctet(a);
  }

  /** The last octet is rounded down, then its low bits are set. */
  lemma RoundedOctet(a: Octet, mask: Octet, network: nat, broadcast: nat, k: nat)
    requires k <= 8 && mask as nat + Pow2(k) == 256
    requires network == And(a, mask) && broadcast == Or(network, Not(mask))
    ensures network == a as nat - a as nat % Pow2(k)
    ensures broadcast == network + Pow2(k) - 1
  {
    LastOctet(a, k);
    assert Not(mask) as nat == Pow2(k) - 1;
  }

  lemma PackedBounds(ip: Octets, network: Octets, broadcast: Octets, k: nat)
    requires |ip| == |network| == |broadcast| == 4 && k <= 8
    requires forall i :: 0 <= i < 3 ==> network[i] == ip[i] && broadcast[i] == ip[i]
    requires network[3] as nat == ip[3] as nat - ip[3] as nat % Pow2(k)
    requires broadcast[3] as nat == network[3] as nat + Pow2(k) - 1
    ensures ToUint32(network) == RoundDown(ToUint32(ip), Pow2(k))
    ensures ToUint32(broadcast) == RoundDown(ToUint32(ip), Pow2(k)) + Pow2(k) - 1
  {
    var high := 0x1_0000 * ip[0] as nat + 0x100 * ip[1] as nat + ip[2] as nat;
    var last := ip[3] as nat;
    LowOctet(high, last, k);
    assert ToUint32(ip) == 256 * high + last;
  }

  lemma FrontOctets(ip: Octets, mask: Octets, network: Octets, broadcast: Octets)
    requires |ip| == |mask| == |network| == |broadcast| == 4
    requires forall i :: 0 <= i < 3 ==> mask[i] == 255
    requires forall i :: 0 <= i < 3 ==> network[i] == And(ip[i], mask[i])
    requires forall i :: 0 <= i < 3 ==> broadcast[i] == Or(network[i], Not(mask[i]))
    ensures forall i :: 0 <= i < 3 ==> network[i] == ip[i] && broadcast[i] == ip[i]
  {
    forall i | 0 <= i < 3 ensures network[i] == ip[i] && broadcast[i] == ip[i] {
      FullOctets(ip[i], mask[i], network[i], broadcast[i]);
    }
  }

  /** The octet-wise results, packed, are the bounds of the network. */
  lemma BoundsPacked(ip: Octets, mask: Octets, ones: nat, network: Octets, broadcast: Octets)
    requires |ip| == |mask| == |network| == |broadcast| == 4
    requires MaskOnes(mask) == Some(ones) && 24 <= ones
    requires forall i :: 0 <= i < 4 ==> network[i] == And(ip[i], mask[i])
    requires forall i :: 0 <= i < 4 ==> broadcast[i] == Or(network[i], Not(mask[i]))
    ensures ones <= 32
    ensures ToUint32(network) == Network(ToUint32(ip), ones)
    ensures ToUint32(broadcast) == Broadcast(ToUint32(ip), ones)
  {
    PrefixClears(mask, ones);
    ClearedBounds(ip, mask, network, broadcast, 32 - ones);
  }

  lemma PrefixClears(mask: Octets, ones: nat)
    requires |mask| == 4 && MaskOnes(mask) == Some(ones) && ones >= 24
    ensures ones <= 32 && mask[0] == mask[1] == mask[2] == 255 && mask[3] as nat + Pow2(32 - ones) == 256
  {
    LongPrefix(mask, ones);
  }

  lemma ClearedBounds(ip: Octets, mask: Octets, network: Octets, broadcast: Octets, k: nat)
    requires |ip| == |mask| == |network| == |broadcast| == 4 && k <= 8
    requires mask[0] == mask[1] == mask[2] == 255 && mask[3] as nat + Pow2(k) == 256
    requires forall i :: 0 <= i < 4 ==> network[i] == And(ip[i], mask[i])
    requires forall i :: 0 <= i < 4 ==> broadcast[i] == Or(network[i], Not(mask[i]))
    ensures ToUint32(network) == RoundDown(ToUint32(ip), Pow2(k))
    ensures ToUint32(broadcast) == RoundDown(ToUint32(ip), Pow2(k)) + Pow2(k) - 1
  {
    FrontOctets(ip, mask, network, broadcast);
    RoundedOctet(ip[3], mask[3], network[3], broadcast[3], k);
    PackedBounds(ip, network, broadcast, k);
  }

  lemma FullOctet(a: Octet)
    ensures And(a, 255) == a && Or(a, 0) == a
  {
    Powers();
    AndOnes(a, 8);
    OrZero(a);
  }

  lemma LastOctet(a: nat, k: nat)
    requires k <= 8 && a < 256
    ensures Pow2(k) <= 256
    ensures And(a, 256 - Pow2(k)) == a - a % Pow2(k)
    ensures Or(a - a % Pow2(k), Pow2(k) - 1) == a - a % Pow2(k) + Pow2(k) - 1
  {
    Powers();
    PowMonotone(k, 8);
    AndHigh(a, 8, k);
    RoundedDown(a, Pow2(k));
    OrLow(a - a % Pow2(k), k);
  }

  lemma RoundedDown(a: nat, m: nat)
    requires m > 0
    ensures (a - a % m) % m == 0
  {
    var q := a / m;
    assert a - a % m == q * m;
    Remainder(q * m, m, q, 0);
  }

  lemma LowOctet(high: nat, a: nat, k: nat)
    requires k <= 8
    ensures (256 * high + a) % Pow2(k) == a % Pow2(k)
  {
    MultipleOf256(k);
    AddedMultiple(256 / Pow2(k), Pow2(k), high, a);
  }

  lemma AddedMultiple(c: nat, m: nat, high: nat, a: nat)
    requires m > 0 && c * m == 256
    ensures (256 * high + a) % m == a % m
  {
    var q, r := a / m, a % m;
    assert a == q * m + r;
    Regrouped(c, m, high, q, r);
    Remainder(256 * high + a, m, c * high + q, r);
  }

  lemma Regrouped(c: nat, m: nat, high: nat, q: nat, r: nat)
    requires c * m == 256
    ensures 256 * high + (q * m + r) == (c * high + q) * m + r
  {
    calc {
      (c * high + q) * m + r;
      (c * high) * m + q * m + r;
      { assert (c * high) * m == (c * m) * high; }
      256 * high + (q * m + r);
    }
  }

  lemma MultipleOf256(k: nat)
    requires k <= 8
    ensures 256 == (256 / Pow2(k)) * Pow2(k)
  {
    Powers();
  }

  function Values(addresses: seq<Octets>): (values: seq<nat>)
    requires forall i :: 0 <= i < |addresses| ==> |addresses[i]| == 4
    ensures |values| == |addresses|
    ensures forall i :: 0 <= i < |addresses| ==> values[i] == ToUint32(addresses[i])
  {
    seq(|addresses|, i requires 0 <= i < |addresses| => ToUint32(addresses[i]))
  }

  /** The strictly ascending list of exactly the addresses strictly between the bounds, except the host. */
  ghost predicate Enumerates(addresses: seq<Octets>, low: int, high: int, host: nat) {
    && (forall i :: 0 <= i < |addresses| ==> |addresses[i]| == 4)
    && (forall i, j :: 0 <= i < j < |addresses| ==> ToUint32(addresses[i]) < ToUint32(addresses[j]))
    && (forall i :: 0 <= i < |addresses| ==> low < ToUint32(addresses[i]) < high && ToUint32(addresses[i]) != host)
    && (forall v: nat :: low < v < high && v != host ==> v in Values(addresses))
  }

  /** The promised list for a host in a network of prefix length p, or what comes of it where the arithmetic wraps. */
  ghost predicate Probes(candidates: seq<Octets>, host: nat, p: nat) {
    && p <= 32
    && (!Wraps(host, p) ==> Enumerates(candidates, Network(host, p), Broadcast(host, p), host) && |candidates| <= 254)
    && (Wraps(host, p) ==> Enumerates(candidates, -1, TWO32 - 1, host))
  }

  method ProbeCandidatesForHostNetwork(hostIP: Octets, mask: Octets) returns (candidates: seq<Octets>)
    requires To4(hostIP).Some? ==> forall p: nat :: p >= 1 && IsMask(mask, p) ==> !Endless(ToUint32(To4(hostIP).value), p)
    ensures To4(hostIP).None? || (forall p: nat :: p >= 1 ==> !IsMask(mask, p)) ==> candidates == []
    ensures To4(hostIP).Some? ==> forall p: nat :: p >= 1 && IsMask(mask, p) ==>
              Probes(candidates, ToUint32(To4(hostIP).value), if p < 24 then 24 else p)
  {
    var converted := To4(hostIP);
    if converted.None? {
      return [];
    }
    var ipv4 := converted.value;
    var (ones, bits) := MaskSize(mask);
    MaskAccepted(mask, ones, bits);
    if bits != 32 || ones <= 0 {
      return [];
    }
    candidates := ProbeUnderMask(ipv4, mask, ones);
  }

  /** The list for an accepted mask, which is narrowed to at least 24 ones. */
  method ProbeUnderMask(ipv4: Octets, mask: Octets, ones: nat) returns (candidates: seq<Octets>)
    requires |ipv4| == |mask| == 4 && MaskOnes(mask) == Some(ones) && ones <= 32
    requires !Endless(ToUint32(ipv4), ones)
    ensures Probes(candidates, ToUint32(ipv4), if ones < 24 then 24 else ones)
  {
    var effective := if ones < PREFIX_MINIMUM then MINIMUM_MASK else mask;
    ghost var p := PrefixLength(ones);
    EffectiveOnes(mask, ones);
    var networkAddress, broadcastAddress := NetworkRange(ipv4, effective, p);
    var start := Wrap(networkAddress + 1);
    var end := Wrap(broadcastAddress - 1);
    var hostValue := ToUint32(ipv4);
    StartAndEnd(hostValue, p);
    if end < start {
      return [];
    }
    candidates := EnumerateRange(start, end, hostValue);
  }

  /** Masks the address and fills in the broadcast address, both packed. */
  method NetworkRange(ipv4: Octets, mask: Octets, ghost ones: nat) returns (network: nat, broadcast: nat)
    requires |ipv4| == |mask| == 4 && MaskOnes(mask) == Some(ones) && 24 <= ones
    ensures ones <= 32
    ensures network == Network(ToUint32(ipv4), ones) && broadcast == Broadcast(ToUint32(ipv4), ones)
  {
    var networkAddress := MaskedAddress(ipv4, mask);
    var broadcastAddress := BroadcastAddress(networkAddress, mask);
    BoundsPacked(ipv4, mask, ones, networkAddress, broadcastAddress[..]);
    network, broadcast := ToUint32(networkAddress), ToUint32(broadcastAddress[..]);
  }

  /** Both ends stay in range but for the two extreme networks; for the upper one the start wraps to zero. */
  lemma StartAndEnd(host: nat, p: nat)
    requires host < TWO32 && 24 <= p <= 32 && !Endless(host, p)
    ensures End(host, p) < TWO32 - 1
    ensures !Wraps(host, p) ==>
              && Start(host, p) == Network(host, p) + 1 && End(host, p) == Broadcast(host, p) - 1
              && Broadcast(host, p) - Network(host, p) <= 255
              && Network(host, p) <= host <= Broadcast(host, p)
    ensures Wraps(host, p) ==> Start(host, p) == 0 && End(host, p) == TWO32 - 2
  {
    if Wraps(host, p) {
      SingleAddress(host);
    } else {
      NetworkBounds(host, p);
    }
  }

  lemma SingleAddress(host: nat)
    ensures Network(host, 32) == host && Broadcast(host, 32) == host
  {
    assert Pow2(0) == 1;
  }

  method EnumerateRange(start: nat, end: nat, hostValue: nat) returns (candidates: seq<Octets>)
    requires start <= end < TWO32 - 1
    ensures Enumerates(candidates, start - 1, end + 1, hostValue)
    ensures |candidates| <= end - start + 1
  {
    candidates := [];
    var candidateValue := start;
    while candidateValue <= end
      invariant start <= candidateValue <= end + 1
      invariant Enumerates(candidates, start - 1, candidateValue, hostValue)
      invariant |candidates| <= candidateValue - start
      decreases end + 1 - candidateValue
    {
      if candidateValue != hostValue {
        Appended(candidates, start - 1, candidateValue, hostValue);
        candidates := candidates + [FromUint32(candidateValue)];
      }
      candidateValue := Wrap(candidateValue + 1);
    }
  }

  lemma EffectiveOnes(mask: Octets, ones: nat)
    requires |mask| == 4 && MaskOnes(mask) == Some(ones)
    ensures MaskOnes(if ones < PREFIX_MINIMUM then MINIMUM_MASK else mask) == Some(PrefixLength(ones))
  {
    var m := MINIMUM_MASK;
    assert m[1..] == [255, 255, 0] && [255, 255, 0][1..] == [255, 0] && [255, 0][1..] == [0] && [0][1..] == [];
    assert MaskOnes([0]) == Some(0) && MaskOnes([255, 0]) == Some(8) && MaskOnes([255, 255, 0]) == Some(16);
  }

  /** Adding or subtracting one leaves the 32-bit range exactly for the two extreme addresses as networks of their own. */
  lemma WrapsExactly(host: nat, p: nat)
    requires host < TWO32 && 24 <= p <= 32
    ensures Wraps(host, p) <==> Network(host, p) + 1 >= TWO32 || Broadcast(host, p) - 1 < 0
  {
    if Wraps(host, p) {
      SingleAddress(host);
    } else {
      NetworkBounds(host, p);
    }
  }

  /** Some round takes the loop variable past the end exactly when the network is not 0.0.0.0/32. */
  lemma LoopEndsExactly(host: nat, p: nat)
    requires host < TWO32 && 24 <= p <= 32
    ensures (exists k: nat :: Candidate(Start(host, p), k) > End(host, p)) <==> !Endless(host, p)
  {
    if Endless(host, p) {
      SingleAddress(host);
      assert End(host, p) == TWO32 - 1;
    } else {
      StartAndEnd(host, p);
      var k := TWO32 - 1 - Start(host, p);
      assert Candidate(Start(host, p), k) == TWO32 - 1;
    }
  }

  /** Away from the wrapping cases the bounds plus and minus one stay in range, and the network is no larger than 256. */
  lemma NetworkBounds(host: nat, p: nat)
    requires host < TWO32 && 24 <= p <= 32 && !Wraps(host, p)
    ensures Network(host, p) <= host <= Broadcast(host, p) < TWO32
    ensures Broadcast(host, p) - Network(host, p) <= 255
    ensures Network(host, p) + 1 < TWO32 && Broadcast(host, p) >= 1
  {
    Powers();
    var m := Pow2(32 - p);
    assert host % m < m;
    MultipleOf256(32 - p);
    AddressBlocks(256 / m, m);
    WholeBlock(host, m, 256 / m * 0x100_0000);
  }

  lemma AddressBlocks(c: nat, m: nat)
    requires c * m == 256
    ensures c * 0x100_0000 * m == TWO32
  {
    assert c * 0x100_0000 * m == (c * m) * 0x100_0000;
  }

  lemma SmallerFactor(q: nat, b: nat, m: nat)
    requires q * m < b * m
    ensures q < b
  {
  }

  lemma NextFactor(q: nat, b: nat, m: nat)
    requires q < b
    ensures q * m + m <= b * m
  {
    var d: nat := b - 1 - q;
    assert b == q + (1 + d);
    assert (q + (1 + d)) * m == q * m + (1 + d) * m;
    assert (1 + d) * m == m + d * m;
  }

  lemma WholeBlock(host: nat, m: nat, blocks: nat)
    requires m > 0 && host < blocks * m
    ensures host - host % m + m <= blocks * m
  {
    var q := host / m;
    assert host == q * m + host % m;
    SmallerFactor(q, blocks, m);
    NextFactor(q, blocks, m);
  }

  lemma Appended(candidates: seq<Octets>, low: int, v: nat, host: nat)
    requires Enumerates(candidates, low, v, host) && low < v < TWO32 && v != host
    ensures Enumerates(candidates + [FromUint32(v)], low, v + 1, host)
  {
    UnpackPack(v);
    var more := candidates + [FromUint32(v)];
    forall w: nat | low < w < v + 1 && w != host
      ensures w in Values(more)
    {
      if w < v {
        assert w in Values(candidates);
        var i :| 0 <= i < |candidates| && Values(candidates)[i] == w;
        assert Values(more)[i] == w;
      } else {
        assert Values(more)[|candidates|] == w;
      }
    }
  }

  // ----- Private hosts

  predicate IsPrivateIPv4(ip: Octets) {
    var ipv4 := To4(ip);
    ipv4.Some? &&
    var o := ipv4.value;
    o[0] == 10 || (o[0] == 172 && 16 <= o[1] <= 31) || (o[0] == 192 && o[1] == 168)
  }

  /** The three blocks of section 3 of RFC 1918: 10/8, 172.16/12 and 192.168/16. */
  predicate Rfc1918(n: nat) {
    || Network(n, 8) == ToUint32([10, 0, 0, 0])
    || Network(n, 12) == ToUint32([172, 16, 0, 0])
    || Network(n, 16) == ToUint32([192, 168, 0, 0])
  }

  lemma LargePowers()
    ensures Pow2(16) == 0x1_0000 && Pow2(20) == 0x10_0000 && Pow2(24) == 0x100_0000
  {
    Powers();
    assert Pow2(10) == 4 * Pow2(8) && Pow2(12) == 4 * Pow2(10) && Pow2(14) == 4 * Pow2(12) && Pow2(16) == 4 * Pow2(14);
    assert Pow2(18) == 4 * Pow2(16) && Pow2(20) == 4 * Pow2(18) && Pow2(22) == 4 * Pow2(20) && Pow2(24) == 4 * Pow2(22);
  }

  lemma PrivateMeansRfc1918(ip: Octets)
    requires |ip| == 4
    ensures IsPrivateIPv4(ip) <==> Rfc1918(ToUint32(ip))
  {
    LargePowers();
    Blocks(ip[0], ip[1], 0x100 * ip[2] as nat + ip[3] as nat);
  }

  lemma Blocks(a: nat, b: nat, low: nat)
    requires b < 256 && low < 0x1_0000
    ensures
      var n := 0x100_0000 * a + 0x1_0000 * b + low;
      && n - n % 0x100_0000 == 0x100_0000 * a
      && n - n % 0x10_0000 == 0x100_0000 * a + 0x10_0000 * (b / 16)
      && n - n % 0x1_0000 == 0x100_0000 * a + 0x1_0000 * b
  {
    var n := 0x100_0000 * a + 0x1_0000 * b + low;
    Remainder(n, 0x100_0000, a, 0x1_0000 * b + low);
    Remainder(n, 0x10_0000, 16 * a + b / 16, 0x1_0000 * (b % 16) + low);
    Remainder(n, 0x1_0000, 256 * a + b, low);
  }

  /** For private hosts nothing wraps, whatever the mask. */
  lemma PrivateNeverWraps(ip: Octets, p: nat)
    requires To4(ip).Some? && IsPrivateIPv4(ip)
    ensures !Wraps(ToUint32(To4(ip).value), p)
  {
  }

  /** The excluded case is a real one: for 0.0.0.0/32 the last candidate is the largest number there is, so no candidate lies beyond it. */
  lemma ZeroHostNeverEnds(candidate: nat)
    requires candidate < TWO32
    ensures Wraps(0, 32) && candidate <= Wrap(Broadcast(0, 32) - 1)
  {
    Powers();
  }

  /**
   The other wrapping case ends, but with the wrong list: for 255.255.255.255/32 no address
   lies between network and broadcast, and all addresses but the host are enumerated.
   */
  lemma LastHostListsEverything(candidates: seq<Octets>, v: nat)
    requires Enumerates(candidates, -1, TWO32 - 1, TWO32 - 1)
    ensures Wraps(TWO32 - 1, 32) && Start(TWO32 - 1, 32) == 0 && End(TWO32 - 1, 32) == TWO32 - 2
    ensures v in Values(candidates) <==> v < TWO32 - 1
    ensures !Enumerates(candidates, Network(TWO32 - 1, 32), Broadcast(TWO32 - 1, 32), TWO32 - 1)
  {
    StartAndEnd(TWO32 - 1, 32);
    SingleAddress(TWO32 - 1);
    assert 0 in Values(candidates);
    assert candidates != [] && ToUint32(candidates[0]) < TWO32 - 1;
  }
}
