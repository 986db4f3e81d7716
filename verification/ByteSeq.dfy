/** Byte strings and their concatenation. */
module ByteSeq {

  type Byte = b: int | 0 <= b < 256

  type Bytes = seq<Byte>

  function Flatten(s: seq<Bytes>): Bytes {
    if s == [] then [] else s[0] + Flatten(s[1..])
  }

  lemma FlattenNext(s: seq<Bytes>, k: nat)
    requires k < |s|
    ensures Flatten(s[..k + 1]) == Flatten(s[..k]) + s[k]
  {
    FlattenSplit(s[..k], [s[k]]);
    assert s[..k + 1] == s[..k] + [s[k]];
    assert Flatten([s[k]]) == s[k] + Flatten([]);
  }

  lemma {:induction false} FlattenSplit(a: seq<Bytes>, b: seq<Bytes>)
    ensures Flatten(a + b) == Flatten(a) + Flatten(b)
  {
    if a == [] {
      assert a + b == b;
    } else {
      assert (a + b)[1..] == a[1..] + b;
      FlattenSplit(a[1..], b);
    }
  }
}
