/** Node's `Buffer` as a sequence of bytes, with `Buffer.concat`. */
module Buffers {

  type Byte = b: int | 0 <= b < 256

  type Buffer = seq<Byte>

  /** `Buffer.concat(list)`: the buffers one after the other, in list order. */
  function Concat(list: seq<Buffer>): Buffer {
    if list == [] then [] else list[0] + Concat(list[1..])
  }

  /** Sum of the lengths of `list`. */
  function TotalLength(list: seq<Buffer>): nat {
    if list == [] then 0 else |list[0]| + TotalLength(list[1..])
  }

  /** `Buffer.concat` places buffer `k` right after the bytes of buffers
      `0..k-1`, unchanged. */
  lemma {:induction false} ConcatAt(list: seq<Buffer>, k: nat)
    requires k < |list|
    ensures |Concat(list)| == TotalLength(list)
    ensures TotalLength(list[..k]) + |list[k]| <= |Concat(list)|
    ensures Concat(list)[TotalLength(list[..k])..TotalLength(list[..k]) + |list[k]|] == list[k]
  {
    ConcatLength(list);
    if k == 0 {
      assert list[..0] == [];
    } else {
      ConcatAt(list[1..], k - 1);
      assert list[1..][..k - 1] == list[..k][1..];
      var p := TotalLength(list[1..][..k - 1]);
      assert TotalLength(list[..k]) == |list[0]| + p;
      assert Concat(list) == list[0] + Concat(list[1..]);
      assert Concat(list)[|list[0]| + p..|list[0]| + p + |list[k]|] == Concat(list[1..])[p..p + |list[k]|];
    }
  }

  lemma {:induction false} ConcatLength(list: seq<Buffer>)
    ensures |Concat(list)| == TotalLength(list)
  {
    if list != [] { ConcatLength(list[1..]); }
  }
}
