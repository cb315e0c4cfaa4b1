/** Octets, the big-endian fields DNS lays over them, and the one optional type
    the rest of the project shares. */
module Bytes {
  newtype byte = b: int | 0 <= b < 256

  datatype Option<+T> = None | Some(value: T)

  const DOT: byte := 46

  function Read16(dns: seq<byte>, at: nat): (v: nat)
    requires at + 2 <= |dns|
    ensures v < 65536
  {
    dns[at] as int * 256 + dns[at + 1] as int
  }

  /** The two bytes of a 16-bit field. */
  function Word(v: nat): (w: seq<byte>)
    requires v < 65536
    ensures |w| == 2 && Read16(w, 0) == v
  {
    [(v / 256) as byte, (v % 256) as byte]
  }

  /** ASCII case folding of one octet; everything but A-Z is left alone. */
  function LowerByte(c: byte): byte {
    if 65 <= c <= 90 then c + 32 else c
  }

  function Lower(s: seq<byte>): (r: seq<byte>)
    ensures |r| == |s|
  {
    if s == [] then [] else [LowerByte(s[0])] + Lower(s[1..])
  }

  lemma {:induction false} LowerConcat(a: seq<byte>, b: seq<byte>)
    ensures Lower(a + b) == Lower(a) + Lower(b)
  {
    if a == [] {
      assert a + b == b;
    } else {
      assert (a + b)[1..] == a[1..] + b;
      LowerConcat(a[1..], b);
    }
  }

  /** A set of naturals below `n` has at most `n` members. */
  lemma {:induction false} BoundedSetSize(s: set<nat>, n: nat)
    requires forall x :: x in s ==> x < n
    ensures |s| <= n
  {
    if n > 0 {
      BoundedSetSize(s - {n - 1}, n - 1);
    } else {
      assert s == {};
    }
  }
}
