/** Small vocabulary shared by the other modules: options, bytes and flattened lists. */
module Seqs {

  datatype Option<+T> = None | Some(value: T)

  type Byte = b: nat | b < 256

  /** All the pieces of `xs`, in order, as one sequence. */
  function Flatten<T>(xs: seq<seq<T>>): (r: seq<T>)
  {
    if xs == [] then [] else Flatten(xs[..|xs| - 1]) + xs[|xs| - 1]
  }

  lemma FlattenSnoc<T>(xs: seq<seq<T>>, x: seq<T>)
    ensures Flatten(xs + [x]) == Flatten(xs) + x
  {
    assert (xs + [x])[..|xs|] == xs;
  }

  lemma {:induction false} FlattenConcat<T>(xs: seq<seq<T>>, ys: seq<seq<T>>)
    ensures Flatten(xs + ys) == Flatten(xs) + Flatten(ys)
    decreases |ys|
  {
    if ys == [] {
      assert xs + ys == xs;
    } else {
      var init, last := ys[..|ys| - 1], ys[|ys| - 1];
      FlattenConcat(xs, init);
      assert xs + ys == (xs + init) + [last];
      FlattenSnoc(xs + init, last);
      assert Flatten(xs) + Flatten(init) + last == Flatten(xs) + (Flatten(init) + last);
    }
  }
}
