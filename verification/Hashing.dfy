/** Byte strings and SHA-256. A byte is an octet given from outside, or one of the 32 bytes of the hash of some
    string: so a digest can be cut up and its pieces put together again, as a proof of arbitrary hex can, while
    distinct strings have distinct digests. */
module Hashing {

  const WIDTH: nat := 32

  datatype Byte = Octet(value: int) | Of(preimage: seq<Byte>, index: int)

  datatype Bytes = Bytes(content: seq<Byte>)

  predicate IsDigest(b: Bytes) {
    |b.content| == WIDTH
  }

  /** Any 32 bytes: a leaf list may hold any, since a log takes leaf hashes from outside. */
  type Digest = b: Bytes | IsDigest(b) witness Bytes(seq(WIDTH, _ => Octet(0)))

  function Sha256(content: seq<Byte>): Digest {
    Bytes(seq(WIDTH, i => Of(content, i)))
  }

  const EmptyHash: Digest := Sha256([])

  function LeafHash(data: string): Digest {
    Sha256([Octet(0)] + seq(|data|, i requires 0 <= i < |data| => Octet(data[i] as int)))
  }

  /** The code concatenates whatever it is given, digests or not. */
  function NodeHash(left: Bytes, right: Bytes): Digest {
    Sha256([Octet(1)] + left.content + right.content)
  }

  lemma Sha256Injective(a: seq<Byte>, b: seq<Byte>)
    ensures Sha256(a) == Sha256(b) <==> a == b
  {
    if Sha256(a) == Sha256(b) {
      assert Sha256(a).content[0] == Of(a, 0) && Sha256(b).content[0] == Of(b, 0);
    }
  }

  lemma LeafHashInjective(a: string, b: string)
    ensures LeafHash(a) == LeafHash(b) <==> a == b
  {
    var x, y := seq(|a|, i requires 0 <= i < |a| => Octet(a[i] as int)),
      seq(|b|, i requires 0 <= i < |b| => Octet(b[i] as int));
    Sha256Injective([Octet(0)] + x, [Octet(0)] + y);
    if LeafHash(a) == LeafHash(b) {
      assert ([Octet(0)] + x)[1..] == x && ([Octet(0)] + y)[1..] == y;
      forall i | 0 <= i < |a|
        ensures a[i] == b[i]
      {
        assert x[i] == y[i];
      }
    }
  }

  /** Two nodes are equal exactly when what they join is equal once joined. */
  lemma NodeHashExact(a: Bytes, b: Bytes, l: Bytes, r: Bytes)
    ensures NodeHash(a, b) == NodeHash(l, r) <==> a.content + b.content == l.content + r.content
  {
    var x, y := [Octet(1)] + a.content + b.content, [Octet(1)] + l.content + r.content;
    Sha256Injective(x, y);
    assert x[1..] == a.content + b.content && y[1..] == l.content + r.content;
    assert x == [Octet(1)] + (a.content + b.content) && y == [Octet(1)] + (l.content + r.content);
  }

  /** Where one part has the length of a digest, the parts of an honest node are fixed. */
  lemma NodeHashSplits(a: Bytes, b: Bytes, l: Digest, r: Digest)
    requires IsDigest(a) || IsDigest(b)
    ensures NodeHash(a, b) == NodeHash(l, r) <==> a == l && b == r
  {
    NodeHashExact(a, b, l, r);
    var x, y := a.content + b.content, l.content + r.content;
    if x == y {
      assert |a.content| == WIDTH;
      assert x[..WIDTH] == a.content && x[WIDTH..] == b.content;
      assert y[..WIDTH] == l.content && y[WIDTH..] == r.content;
    }
  }

  // ----- Depth of hashing -----

  function Depth(b: Byte): nat {
    match b
    case Octet(_) => 0
    case Of(preimage, _) => 1 + DepthOf(preimage)
  }

  function DepthOf(content: seq<Byte>): nat {
    if content == [] then 0
    else
      var first, rest := Depth(content[0]), DepthOf(content[1..]);
      if first > rest then first else rest
  }

  lemma {:induction false} DepthOfConcat(a: seq<Byte>, b: seq<Byte>)
    ensures DepthOf(a + b) >= DepthOf(a) && DepthOf(a + b) >= DepthOf(b)
  {
    if a == [] {
      assert a + b == b;
    } else {
      assert (a + b)[1..] == a[1..] + b;
      DepthOfConcat(a[1..], b);
    }
  }

  /** A digest is deeper than what it is the digest of. */
  lemma NodeIsDeeper(left: Bytes, right: Bytes)
    ensures DepthOf(NodeHash(left, right).content) > DepthOf(left.content)
    ensures DepthOf(NodeHash(left, right).content) > DepthOf(right.content)
  {
    var x := [Octet(1)] + left.content + right.content;
    DepthOfConcat([Octet(1)], left.content);
    DepthOfConcat([Octet(1)] + left.content, right.content);
    assert NodeHash(left, right).content[0] == Of(x, 0);
    assert Depth(Of(x, 0)) == 1 + DepthOf(x);
  }
}
