/** The tokenizer's scratch accumulator: a fixed buffer and a write index. */
module Stack {
  import opened Ascii

  class ParserStack {
    /** Index of the next free element. */
    var idx: nat
    /** Storage allocated once; never replaced or resized. */
    const arr: array<byte>

    ghost predicate Valid()
      reads this
    {
      idx <= arr.Length
    }

    /** The bytes accumulated since the last `Clear` or `Pop`, in push order. */
    ghost function Contents(): seq<byte>
      reads this, arr
      requires Valid()
    {
      arr[..idx]
    }

    constructor (size: nat)
      ensures Valid() && fresh(arr)
      ensures arr.Length == size && Contents() == []
      ensures forall k :: 0 <= k < size ==> arr[k] == 0
    {
      idx := 0;
      arr := new byte[size](_ => 0);
    }

    /** Appends `byteVal` when there is room; reports whether it did. */
    method Push(byteVal: byte) returns (ok: bool)
      requires Valid()
      modifies this, arr
      ensures Valid()
      ensures ok <==> old(idx) < arr.Length
      ensures ok ==> idx == old(idx) + 1 && arr[old(idx)] == byteVal
      ensures !ok ==> idx == old(idx)
      ensures forall k :: 0 <= k < arr.Length && k != old(idx) ==> arr[k] == old(arr[k])
      ensures Contents() == if ok then old(Contents()) + [byteVal] else old(Contents())
    {
      var before := idx;
      if idx < arr.Length {
        arr[idx] := byteVal;
        idx := idx + 1;
      }
      ok := before != idx;
    }

    /** Forgets the accumulated bytes; the storage is kept as it is. */
    method Clear()
      requires Valid()
      modifies this
      ensures Valid() && idx == 0 && Contents() == []
    {
      idx := 0;
    }

    /** Returns the accumulated bytes and empties the accumulator. */
    method Pop() returns (bytes: seq<byte>)
      requires Valid()
      modifies this
      ensures Valid() && Contents() == []
      ensures bytes == old(Contents())
      ensures arr[..] == old(arr[..])
    {
      bytes := arr[..idx];
      Clear();
    }

    /** Number of accumulated bytes. */
    function Size(): (n: nat)
      reads this, arr
      requires Valid()
      ensures n == |Contents()| && n <= arr.Length
    {
      idx
    }

    /** Room left before `Push` starts to fail. */
    function Capacity(): (c: nat)
      reads this, arr
      requires Valid()
      ensures c + Size() == arr.Length
      ensures c == 0 <==> |Contents()| == arr.Length
    {
      arr.Length - idx
    }
  }

  /**
   * Pushes every byte of `bs` into a fresh accumulator of `size` bytes and
   * pops it: the pop returns the pushes that fitted, in push order, and
   * every push beyond the capacity was refused.
   */
  method PushAllThenPop(size: nat, bs: seq<byte>) returns (popped: seq<byte>, accepted: nat)
    ensures accepted == if |bs| <= size then |bs| else size
    ensures popped == bs[..accepted]
  {
    var st := new ParserStack(size);
    var i := 0;
    accepted := 0;
    while i < |bs|
      invariant i <= |bs| && st.Valid() && st.arr.Length == size
      invariant accepted == if i <= size then i else size
      invariant st.Contents() == bs[..accepted]
    {
      var ok := st.Push(bs[i]);
      if ok {
        accepted := accepted + 1;
      }
      i := i + 1;
    }
    popped := st.Pop();
  }
}
