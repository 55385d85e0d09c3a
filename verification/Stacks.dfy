/** Stacks of converted elements, filled from and emptied into lists element by element. */
module Stacks {
  import opened Base

  class Stack<T> {
    var items: seq<T>

    constructor ()
      ensures items == []
    {
      items := [];
    }

    method Push(item: T)
      modifies this
      ensures items == old(items) + [item]
    {
      items := items + [item];
    }

    method Pop() returns (item: T)
      requires items != []
      modifies this
      ensures old(items) == items + [item]
    {
      item := items[|items| - 1];
      items := items[..|items| - 1];
    }
  }

  /** Whatever the stack held, it ends up with the converted elements, in order. */
  method ToStack<A, B>(st: Stack<B>, objs: seq<A>, convert: A -> B)
    modifies st
    ensures st.items == Converted(convert, objs)
  {
    while st.items != []
      decreases |st.items|
    {
      var _ := st.Pop();
    }
    for i := 0 to |objs|
      invariant st.items == Converted(convert, objs[..i])
    {
      st.Push(convert(objs[i]));
      assert objs[..i + 1] == objs[..i] + [objs[i]];
    }
    assert objs[..|objs|] == objs;
  }

  method FromStack<A, B>(st: Stack<A>, convert: A -> B) returns (objs: seq<B>)
    ensures objs == Converted(convert, st.items)
  {
    objs := [];
    for i := 0 to |st.items|
      invariant objs == Converted(convert, st.items[..i])
    {
      objs := objs + [convert(st.items[i])];
      assert st.items[..i + 1] == st.items[..i] + [st.items[i]];
    }
    assert st.items[..|st.items|] == st.items;
  }
}
