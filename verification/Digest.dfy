/** Record digests and the digest that folds them, over an arbitrary hash.
    Nothing here assumes that the hash is injective, which no hash with a fixed
    width is: what equal digests prove is "equal, or here is a collision". */
module Digest {
  import opened Text

  /** What a 256-bit hash returns. */
  type Bytes32 = b: seq<nat> | |b| == 32 && forall i :: 0 <= i < 32 ==> b[i] < 256
    witness seq(32, _ => 0)

  /** A hash of text; two different texts it sends to one value collide. */
  type Hash = string -> Bytes32

  /** Each byte as two lower-case hexadecimal digits. */
  function Hex(bytes: seq<nat>): (s: string)
    requires forall i :: 0 <= i < |bytes| ==> bytes[i] < 256
    ensures |s| == 2 * |bytes|
  {
    if bytes == [] then ""
    else [HexDigit(bytes[0] / 16), HexDigit(bytes[0] % 16)] + Hex(bytes[1..])
  }

  function RecordDigest(hash: Hash, line: string): (s: string)
    ensures |s| == 64
  {
    Hex(hash(line))
  }

  function RecordDigests(hash: Hash, lines: seq<string>): (ds: seq<string>)
    ensures |ds| == |lines|
    ensures forall i :: 0 <= i < |ds| ==> ds[i] == RecordDigest(hash, lines[i])
  {
    seq(|lines|, i requires 0 <= i < |lines| => RecordDigest(hash, lines[i]))
  }

  function Concat(ss: seq<string>): string {
    if ss == [] then "" else Concat(ss[..|ss| - 1]) + ss[|ss| - 1]
  }

  /** The whole-file digest: a hash over the record digests in file order. */
  function FoldDigest(hash: Hash, digests: seq<string>): string {
    "sha256:" + Hex(hash(Concat(digests)))
  }

  class Digester {
    const hash: Hash
    var perRecord: seq<string>

    constructor (hash: Hash)
      ensures this.hash == hash && perRecord == []
    {
      this.hash := hash;
      perRecord := [];
    }

    method PushLine(line: string)
      modifies this
      ensures perRecord == old(perRecord) + [RecordDigest(hash, line)]
    {
      perRecord := perRecord + [Hex(hash(line))];
    }

    method Finish() returns (digest: string)
      ensures digest == FoldDigest(hash, perRecord)
    {
      var fed := "";
      for i := 0 to |perRecord|
        invariant fed == Concat(perRecord[..i])
      {
        assert perRecord[..i + 1][..i] == perRecord[..i];
        fed := fed + perRecord[i];
      }
      assert perRecord[..|perRecord|] == perRecord;
      digest := "sha256:" + Hex(hash(fed));
    }
  }

  // ------------------------------------------------------- what a digest proves

  lemma {:induction false} HexInjective(a: seq<nat>, b: seq<nat>)
    requires forall i :: 0 <= i < |a| ==> a[i] < 256
    requires forall i :: 0 <= i < |b| ==> b[i] < 256
    requires Hex(a) == Hex(b)
    ensures a == b
  {
    assert 2 * |a| == |Hex(a)| == |Hex(b)| == 2 * |b|;
    if a != [] {
      var (x, y) := (Hex(a), Hex(b));
      assert HexDigit(a[0] / 16) == x[0] == y[0] == HexDigit(b[0] / 16);
      assert HexDigit(a[0] % 16) == x[1] == y[1] == HexDigit(b[0] % 16);
      HexDigitInjective(a[0] / 16, b[0] / 16);
      HexDigitInjective(a[0] % 16, b[0] % 16);
      assert x[2..] == Hex(a[1..]) && y[2..] == Hex(b[1..]);
      HexInjective(a[1..], b[1..]);
      assert a == [a[0]] + a[1..] && b == [b[0]] + b[1..];
    }
  }

  /** Each byte has its two digits, the high one first. */
  lemma {:induction false} HexAt(bytes: seq<nat>, i: nat)
    requires forall i :: 0 <= i < |bytes| ==> bytes[i] < 256
    requires i < |bytes|
    ensures Hex(bytes)[2 * i] == "0123456789abcdef"[bytes[i] / 16]
    ensures Hex(bytes)[2 * i + 1] == "0123456789abcdef"[bytes[i] % 16]
  {
    if i == 0 {
      HexDigitAt(bytes[0] / 16);
      HexDigitAt(bytes[0] % 16);
    } else {
      HexAt(bytes[1..], i - 1);
      assert Hex(bytes)[2..] == Hex(bytes[1..]);
    }
  }

  lemma HexDigitAt(d: nat)
    requires d < 16
    ensures HexDigit(d) == "0123456789abcdef"[d]
  {
  }

  lemma HexDigitInjective(a: nat, b: nat)
    requires a < 16 && b < 16 && HexDigit(a) == HexDigit(b)
    ensures a == b
  {
  }

  lemma {:induction false} ConcatLength(ss: seq<string>)
    requires forall s :: s in ss ==> |s| == 64
    ensures |Concat(ss)| == 64 * |ss|
  {
    if ss != [] {
      ConcatLength(ss[..|ss| - 1]);
    }
  }

  /** What is hashed has the digests in their order. */
  lemma {:induction false} ConcatInOrder(ss: seq<string>, i: nat)
    requires forall s :: s in ss ==> |s| == 64
    requires i < |ss|
    ensures |Concat(ss)| == 64 * |ss| && Concat(ss)[64 * i..64 * i + 64] == ss[i]
  {
    var n := |ss| - 1;
    ConcatLength(ss);
    ConcatLength(ss[..n]);
    if i < n {
      ConcatInOrder(ss[..n], i);
      assert Concat(ss)[..64 * n] == Concat(ss[..n]);
    }
  }

  /** Digests all have one length, so gluing them together loses nothing. */
  lemma {:induction false} ConcatInjective(a: seq<string>, b: seq<string>)
    requires forall s :: s in a ==> |s| == 64
    requires forall s :: s in b ==> |s| == 64
    requires Concat(a) == Concat(b)
    ensures a == b
  {
    ConcatLength(a);
    ConcatLength(b);
    if a != [] {
      var n := |a| - 1;
      ConcatLength(a[..n]);
      ConcatLength(b[..n]);
      var c := Concat(a);
      assert c[..64 * n] == Concat(a[..n]) && c[64 * n..] == a[n];
      assert c[..64 * n] == Concat(b[..n]) && c[64 * n..] == b[n];
      ConcatInjective(a[..n], b[..n]);
      assert a == a[..n] + [a[n]] && b == b[..n] + [b[n]];
    }
  }

  predicate Collides(hash: Hash, pair: (string, string)) {
    pair.0 != pair.1 && hash(pair.0) == hash(pair.1)
  }

  /** The first two records that differ at the same place. */
  function FirstDifference(xs: seq<string>, ys: seq<string>): Option<(string, string)> {
    if xs == [] || ys == [] then None
    else if xs[0] != ys[0] then Some((xs[0], ys[0]))
    else FirstDifference(xs[1..], ys[1..])
  }

  lemma {:induction false} FirstDifferenceCollides(hash: Hash, xs: seq<string>, ys: seq<string>)
    requires |xs| == |ys| && forall i :: 0 <= i < |xs| ==> hash(xs[i]) == hash(ys[i])
    ensures FirstDifference(xs, ys).None? <==> xs == ys
    ensures FirstDifference(xs, ys).Some? ==> Collides(hash, FirstDifference(xs, ys).value)
  {
    if xs != [] && xs[0] == ys[0] {
      FirstDifferenceCollides(hash, xs[1..], ys[1..]);
      assert xs == [xs[0]] + xs[1..] && ys == [ys[0]] + ys[1..];
    }
  }

  /** Equal record digests: the records are the same, or the first pair that
      differs collides. */
  lemma RecordDigestsBind(hash: Hash, xs: seq<string>, ys: seq<string>)
    requires RecordDigests(hash, xs) == RecordDigests(hash, ys)
    ensures FirstDifference(xs, ys).None? <==> xs == ys
    ensures FirstDifference(xs, ys).Some? ==> Collides(hash, FirstDifference(xs, ys).value)
  {
    var (dx, dy) := (RecordDigests(hash, xs), RecordDigests(hash, ys));
    assert |xs| == |dx| == |dy| == |ys|;
    forall i | 0 <= i < |xs| ensures hash(xs[i]) == hash(ys[i]) {
      assert dx[i] == dy[i];
      HexInjective(hash(xs[i]), hash(ys[i]));
    }
    FirstDifferenceCollides(hash, xs, ys);
  }

  /** Where two record sequences with one footer digest betray the hash: either
      the fold itself was fed two different texts, or two records were. */
  function Collision(hash: Hash, xs: seq<string>, ys: seq<string>): Option<(string, string)> {
    var (fx, fy) := (Concat(RecordDigests(hash, xs)), Concat(RecordDigests(hash, ys)));
    if fx != fy then Some((fx, fy)) else FirstDifference(xs, ys)
  }

  /** Equal footer digests: the record sequences are the same, or `Collision`
      names two different texts with the same hash. */
  lemma FooterDigestBinds(hash: Hash, xs: seq<string>, ys: seq<string>)
    requires FoldDigest(hash, RecordDigests(hash, xs)) == FoldDigest(hash, RecordDigests(hash, ys))
    ensures Collision(hash, xs, ys).None? <==> xs == ys
    ensures Collision(hash, xs, ys).Some? ==> Collides(hash, Collision(hash, xs, ys).value)
  {
    var (dx, dy) := (RecordDigests(hash, xs), RecordDigests(hash, ys));
    var (fx, fy) := (FoldDigest(hash, dx), FoldDigest(hash, dy));
    assert fx[7..] == Hex(hash(Concat(dx))) && fy[7..] == Hex(hash(Concat(dy)));
    HexInjective(hash(Concat(dx)), hash(Concat(dy)));
    if Concat(dx) == Concat(dy) {
      ConcatInjective(dx, dy);
      RecordDigestsBind(hash, xs, ys);
    }
  }
}
