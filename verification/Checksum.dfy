/** The Internet checksum (section 1 of RFC 1071). */
module Checksum {
  import opened Bytes

  const ONES := 0xFFFF

  // ---------- one's-complement arithmetic ----------

  /** The 16-bit words of `d`, most significant byte first, an odd last byte in the high half. */
  function WordSum(d: seq<byte>): (s: nat) {
    if d == [] then 0 else if |d| == 1 then d[0] as int * 256 else U16(d[..2]) + WordSum(d[2..])
  }

  lemma {:induction false} WordSumBound(d: seq<byte>, words: nat)
    requires |d| <= 2 * words
    ensures WordSum(d) <= 65535 * words
    decreases |d|
  {
    if |d| > 1 { WordSumBound(d[2..], words - 1); }
  }

  /** End-around carry until 16 bits are left. */
  function Fold(n: nat): (r: nat)
    ensures r <= ONES
  {
    if n <= ONES then n else Fold(n % 0x1_0000 + n / 0x1_0000)
  }

  lemma {:induction false} ModAdd(m: nat, k: nat)
    ensures (m + 65535 * k) % 65535 == m % 65535
  {
    if k > 0 { ModAdd(m, k - 1); }
  }

  /** Folding ends, keeps the sum modulo 65535 and turns nothing else into zero. */
  lemma {:induction false} FoldKeeps(n: nat)
    ensures Fold(n) % 65535 == n % 65535 && (Fold(n) == 0 <==> n == 0)
  {
    if n > ONES {
      var m := n % 0x1_0000 + n / 0x1_0000;
      assert n == m + 65535 * (n / 0x1_0000);
      ModAdd(m, n / 0x1_0000);
      FoldKeeps(m);
    }
  }

  /** The one's-complement sum. */
  function OnesSum(d: seq<byte>): nat {
    Fold(WordSum(d))
  }

  lemma {:induction false} WordSumAppend(x: seq<byte>, y: seq<byte>)
    requires |x| % 2 == 0
    ensures WordSum(x + y) == WordSum(x) + WordSum(y)
    decreases |x|
  {
    if x == [] {
      assert x + y == y;
    } else {
      WordSumAppend(x[2..], y);
      assert (x + y)[..2] == x[..2] && (x + y)[2..] == x[2..] + y;
    }
  }

  lemma WordSumOne(n: int)
    requires 0 <= n < 0x1_0000
    ensures WordSum(U16Bytes(n)) == n
  {
    var b := U16Bytes(n);
    assert b[..2] == b && b[2..] == [];
  }

  /** Putting the complement of the sum into a field that counted as zero makes the whole sum
      to all ones, provided the rest is not all zero. */
  lemma ComplementFills(n: nat)
    requires n > 0
    ensures Fold(n + (ONES - Fold(n))) == ONES
  {
    var f, total := Fold(n), n + (ONES - Fold(n));
    FoldKeeps(n);
    FoldKeeps(total);
    var q := n / 65535;
    if f == ONES {
      assert total == 0 + 65535 * q;
      ModAdd(0, q);
    } else {
      assert n % 65535 == f && total == 0 + 65535 * (q + 1);
      ModAdd(0, q + 1);
    }
  }

  lemma Sandwich(x: seq<byte>, c: int, y: seq<byte>)
    requires |x| % 2 == 0 && 0 <= c <= ONES
    ensures WordSum(x + U16Bytes(c) + y) == WordSum(x) + c + WordSum(y)
  {
    WordSumAppend(x, U16Bytes(c));
    WordSumAppend(x + U16Bytes(c), y);
    WordSumOne(c);
  }

  /** A checksum field of the sum's complement, inside even-length data before it. */
  lemma FieldFills(x: seq<byte>, c: int, y: seq<byte>)
    requires |x| % 2 == 0 && WordSum(x) + WordSum(y) > 0
    requires c == ONES - OnesSum(x + U16Bytes(0) + y)
    ensures OnesSum(x + U16Bytes(c) + y) == ONES
  {
    Sandwich(x, 0, y);
    Sandwich(x, c, y);
    ComplementFills(WordSum(x) + WordSum(y));
  }

  // ---------- the loops ----------

  /** Addition in 32 bits. */
  function Add32(a: nat, b: nat): (r: nat)
    requires a < WORD32 && b < WORD32
    ensures r < WORD32 && (r == a + b || r == a + b - WORD32)
  {
    (a + b) % WORD32
  }

  lemma Reduced(a: nat, q: nat, c: nat)
    requires a < WORD32 && a + WORD32 * q == c
    ensures a == c % WORD32
  {
  }

  /** One more word, or the odd last byte, moves from the rest to the sum. */
  lemma NextWord(data: seq<byte>, i: nat)
    requires i < |data|
    ensures i + 1 == |data| ==> WordSum(data[i..]) == data[i] as int * 256
    ensures i + 1 < |data| ==> WordSum(data[i..]) == U16(data[i..i + 2]) + WordSum(data[i + 2..])
  {
    var rest := data[i..];
    if i + 1 < |data| { assert rest[..2] == data[i..i + 2] && rest[2..] == data[i + 2..]; }
  }

  /** The 32-bit sum over the words is the true sum up to overflow; `q` counts the wraps. */
  method SumWords(data: seq<byte>) returns (sum: nat)
    ensures sum == WordSum(data) % WORD32
  {
    sum := 0;
    var i := 0;
    ghost var q := 0;
    assert data[i..] == data;
    while i < |data| - 1
      invariant i % 2 == 0 && 0 <= i <= |data| && sum < WORD32
      invariant sum + WORD32 * q + WordSum(data[i..]) == WordSum(data)
      decreases |data| - i
    {
      NextWord(data, i);
      var w := U16(data[i..i + 2]);
      if Add32(sum, w) != sum + w { q := q + 1; }
      sum := Add32(sum, w);
      i := i + 2;
    }
    if |data| % 2 == 1 {
      NextWord(data, i);
      var w := data[|data| - 1] as int * 256;
      if Add32(sum, w) != sum + w { q := q + 1; }
      sum := Add32(sum, w);
    } else {
      assert data[i..] == [];
    }
    Reduced(sum, q, WordSum(data));
  }

  /** Up to 65537 words sum to at most 2^32 - 1. */
  lemma NoOverflow(data: seq<byte>)
    requires |data| <= 131074
    ensures WordSum(data) % WORD32 == WordSum(data)
  {
    WordSumBound(data, 65537);
  }

  method FoldDown(total: nat) returns (sum: nat)
    ensures sum == Fold(total)
  {
    sum := total;
    while sum > 0xffff
      invariant Fold(sum) == Fold(total)
      decreases sum
    {
      sum := sum % 0x1_0000 + sum / 0x1_0000;
    }
  }

  /** `checksum`: the complement of the one's-complement sum, whose words are added in 32 bits. */
  method Compute(data: seq<byte>) returns (c: int)
    ensures 0 <= c <= ONES && c == ONES - Fold(WordSum(data) % WORD32)
    ensures |data| <= 131074 ==> c == ONES - OnesSum(data)
  {
    var sum := SumWords(data);
    sum := FoldDown(sum);
    c := ONES - sum;
    if |data| <= 131074 { NoOverflow(data); }
  }
}
