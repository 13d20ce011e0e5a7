/** Bytes as the utilities read and write them, and concatenation of byte strings. */
module Bytes {
  newtype byte = b: int | 0 <= b < 256

  const Newline: byte := 10
  const Space: byte := 32

  /** The bytes of an ASCII literal such as "==> " or "standard input". */
  function Ascii(s: string): (r: seq<byte>)
    ensures |r| == |s|
  {
    seq(|s|, i requires 0 <= i < |s| => (s[i] as int % 256) as byte)
  }

  /** The byte strings of `ls` written one after the other. */
  function Concat(ls: seq<seq<byte>>): seq<byte>
  {
    if ls == [] then [] else ls[0] + Concat(ls[1..])
  }

  lemma {:induction false} ConcatAppend(a: seq<seq<byte>>, b: seq<seq<byte>>)
    ensures Concat(a + b) == Concat(a) + Concat(b)
  {
    if a == [] {
      assert a + b == b;
    } else {
      assert (a + b)[1..] == a[1..] + b;
      ConcatAppend(a[1..], b);
    }
  }

  lemma ConcatSplit(ls: seq<seq<byte>>, k: nat)
    requires k <= |ls|
    ensures Concat(ls) == Concat(ls[..k]) + Concat(ls[k..])
  {
    assert ls == ls[..k] + ls[k..];
    ConcatAppend(ls[..k], ls[k..]);
  }

  /** Writing one more byte string after `ls` extends the concatenation by it. */
  lemma ConcatPush(ls: seq<seq<byte>>, x: seq<byte>)
    ensures Concat(ls + [x]) == Concat(ls) + x
  {
    ConcatAppend(ls, [x]);
    assert Concat([x]) == x + Concat([]);
  }
}
