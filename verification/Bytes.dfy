/** Bytes, fixed-width keys and big-endian integers, as the wire format and the
    routing tables use them. */
module Bytes {

  datatype Option<+T> = None | Some(value: T)

  type byte = x: int | 0 <= x < 256

  /** A 32-bit counter wraps here. */
  const WORD32 := 0x1_0000_0000

  /** Largest payload the packet format can carry: its length field counts a 16-byte tag. */
  const MAX_PAYLOAD := 65519

  /** A `[4]byte`: a virtual IPv4 address used as a map key. */
  type Key4 = k: seq<byte> | |k| == 4 witness [0, 0, 0, 0]

  /** `bytes.Compare(a, b) < 0` on slices of equal length. */
  predicate Less(a: seq<byte>, b: seq<byte>)
    requires |a| == |b|
  {
    a != [] && (a[0] < b[0] || (a[0] == b[0] && Less(a[1..], b[1..])))
  }

  lemma {:induction false} LessTrichotomy(a: seq<byte>, b: seq<byte>)
    requires |a| == |b|
    ensures Less(a, b) || Less(b, a) || a == b
    ensures !(Less(a, b) && Less(b, a))
    ensures !Less(a, a)
  {
    if a != [] {
      LessTrichotomy(a[1..], b[1..]);
      assert a == [a[0]] + a[1..] && b == [b[0]] + b[1..];
    }
  }

  /** `binary.BigEndian.AppendUint16`. */
  function U16Bytes(n: int): (b: seq<byte>)
    requires 0 <= n < 0x1_0000
    ensures |b| == 2
  {
    [n / 256, n % 256]
  }

  /** `binary.BigEndian.Uint16`. */
  function U16(b: seq<byte>): (n: int)
    requires |b| == 2
    ensures 0 <= n < 0x1_0000
    ensures U16Bytes(n) == b
  {
    b[0] as int * 256 + b[1] as int
  }

  function Pow256(k: nat): (p: nat)
    ensures p > 0
  {
    if k == 0 then 1 else 256 * Pow256(k - 1)
  }

  /** The low `k` bytes of `n`, most significant first. */
  function BigEndian(n: nat, k: nat): (b: seq<byte>)
    ensures |b| == k
  {
    if k == 0 then [] else BigEndian(n / 256, k - 1) + [n % 256]
  }

  /** The number read from the first byte on, as `binary.BigEndian` reads it. */
  function Reading(b: seq<byte>, n: nat): nat {
    if b == [] then n else Reading(b[1..], n * 256 + b[0] as int)
  }

  lemma {:induction false} ReadingMore(b: seq<byte>, x: byte, n: nat)
    ensures Reading(b + [x], n) == Reading(b, n) * 256 + x as int
  {
    if b == [] {
      assert [] + [x] == [x] && [x][1..] == [];
    } else {
      assert (b + [x])[1..] == b[1..] + [x];
      ReadingMore(b[1..], x, n * 256 + b[0] as int);
    }
  }

  /** What was written is what is read. */
  lemma {:induction false} BigEndianReads(n: nat, k: nat)
    requires n < Pow256(k)
    ensures Reading(BigEndian(n, k), 0) == n
  {
    if k > 0 {
      BigEndianReads(n / 256, k - 1);
      ReadingMore(BigEndian(n / 256, k - 1), n % 256, 0);
    }
  }

  /** The 12 nonce bytes of a packet: source address and the low 64 bits of the counter. */
  function NonceBytes(src: Key4, counter: nat): (b: seq<byte>)
    ensures |b| == 12
  {
    src + BigEndian(counter, 8)
  }

  /** Two counters below 256^k have the same k-byte form only if they are equal. */
  lemma BigEndianInjective(m: nat, n: nat, k: nat)
    requires m < Pow256(k) && n < Pow256(k)
    requires BigEndian(m, k) == BigEndian(n, k)
    ensures m == n
  {
    BigEndianReads(m, k);
    BigEndianReads(n, k);
  }

  /** `copy` into a slice of an array. */
  method CopyAt(b: array<byte>, off: nat, bytes: seq<byte>)
    requires off + |bytes| <= b.Length
    modifies b
    ensures b[..] == old(b[..])[..off] + bytes + old(b[..])[off + |bytes|..]
  {
    for i := 0 to |bytes|
      invariant forall k :: 0 <= k < b.Length ==>
        b[k] == if off <= k < off + i then bytes[k - off] else old(b[k])
    {
      b[off + i] := bytes[i];
    }
  }

  lemma SubsetSize<T>(a: set<T>, b: set<T>)
    requires a <= b
    ensures |a| <= |b|
  {
    assert b == a + (b - a);
  }
}
