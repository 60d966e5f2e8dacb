/** Bytes, little-endian 32-bit numbers, and codecs for what the program leaves to libraries. */
module Bytes {
  import opened Options

  type byte = b: int | 0 <= b < 256

  type Data = seq<byte>

  const U32_LIMIT: nat := 0x1_0000_0000

  /** The lowest k base-256 digits, least significant first: what is above them is cut off, as
      the program's `as u32` does with a length. */
  function Digits(n: nat, k: nat): (r: Data)
    ensures |r| == k
  {
    if k == 0 then [] else [n % 256] + Digits(n / 256, k - 1)
  }

  function Number(d: Data): (n: nat) {
    if d == [] then 0
    else
      var low: int := d[0];
      low + 256 * Number(d[1..])
  }

  function Limit(k: nat): (l: nat)
    ensures l >= 1
  {
    if k == 0 then 1 else 256 * Limit(k - 1)
  }

  lemma {:induction false} DigitsRoundTrip(n: nat, k: nat)
    requires n < Limit(k)
    ensures Number(Digits(n, k)) == n
  {
    if k > 0 {
      DigitsRoundTrip(n / 256, k - 1);
      assert ([n % 256] + Digits(n / 256, k - 1))[1..] == Digits(n / 256, k - 1);
    }
  }

  function U32(n: nat): (r: Data)
    ensures |r| == 4
  {
    Digits(n, 4)
  }

  lemma U32RoundTrip(n: nat)
    requires n < U32_LIMIT
    ensures Number(U32(n)) == n
  {
    assert Limit(4) == U32_LIMIT by {
      assert Limit(1) == 256 && Limit(2) == 65536 && Limit(3) == 16777216;
    }
    DigitsRoundTrip(n, 4);
  }

  lemma TakeDrop(a: Data, b: Data)
    ensures (a + b)[..|a|] == a && (a + b)[|a|..] == b
  {
  }

  lemma Associate<T>(a: seq<T>, b: seq<T>, c: seq<T>)
    ensures a + b + c == a + (b + c)
  {
  }

  lemma CutJoin(a: Data, b: Data, cut: nat)
    requires cut <= |a + b|
    ensures (a + b)[..cut] == if |a| <= cut then a + b[..cut - |a|] else a[..cut]
  {
  }

  lemma SetInMiddle(a: Data, x: byte, b: Data, y: byte)
    ensures (a + [x] + b)[|a| := y] == a + [y] + b
  {
  }

  /** A serialisation library, as two functions. */
  datatype Codec<!T> = Codec(encode: T -> Data, decode: Data -> Option<T>)

  ghost predicate Lawful<T(!new)>(c: Codec<T>) {
    forall x :: c.decode(c.encode(x)) == Some(x)
  }
}
