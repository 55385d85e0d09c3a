/** Integer widths, byte strings, the option type and mapping over lists. */
module Base {

  type byte = x: int | 0 <= x < 0x100
  type uint32 = x: int | 0 <= x < 0x1_0000_0000
  type uint64 = x: int | 0 <= x < 0x1_0000_0000_0000_0000

  type Bytes = seq<byte>

  datatype Option<+T> = None | Some(value: T) {

    predicate IsFailure() {
      None?
    }

    function PropagateFailure<U>(): Option<U>
      requires None?
    {
      None
    }

    function Extract(): T
      requires Some?
    {
      value
    }
  }

  /** A list with every element converted. */
  function Converted<A, B>(convert: A -> B, objs: seq<A>): (r: seq<B>)
    ensures |r| == |objs|
    ensures forall i :: 0 <= i < |objs| ==> r[i] == convert(objs[i])
  {
    seq(|objs|, i requires 0 <= i < |objs| => convert(objs[i]))
  }
}
