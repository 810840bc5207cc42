/** Shared wrappers. */
module Prelude {

  datatype Option<+T> = None | Some(value: T)

  function Flatten<T>(parts: seq<seq<T>>): (all: seq<T>)
  {
    if parts == [] then [] else Flatten(parts[..|parts| - 1]) + parts[|parts| - 1]
  }

  lemma FlattenAppend<T>(parts: seq<seq<T>>, part: seq<T>)
    ensures Flatten(parts + [part]) == Flatten(parts) + part
  {
    assert (parts + [part])[..|parts|] == parts;
  }

  lemma {:induction false} FlattenConcat<T>(a: seq<seq<T>>, b: seq<seq<T>>)
    ensures Flatten(a + b) == Flatten(a) + Flatten(b)
    decreases |b|
  {
    if b == [] {
      assert a + b == a;
    } else {
      var init, last := b[..|b| - 1], b[|b| - 1];
      assert a + b == (a + init) + [last];
      FlattenAppend(a + init, last);
      FlattenConcat(a, init);
    }
  }

  lemma Assoc<T>(a: seq<T>, b: seq<T>, c: seq<T>)
    ensures (a + b) + c == a + (b + c)
  {
  }

  /** Of two beginnings of the same sequence the shorter begins the longer. */
  lemma ShorterBegins<T>(a: seq<T>, b: seq<T>, whole: seq<T>)
    requires a <= whole && b <= whole && |a| <= |b|
    ensures a <= b
  {
    assert a == whole[..|a|] && b == whole[..|b|];
  }

  lemma PrefixCancel<T>(a: seq<T>, x: seq<T>, y: seq<T>)
    requires a + x <= a + y
    ensures x <= y
  {
    forall i | 0 <= i < |x|
      ensures i < |y| && x[i] == y[i]
    {
      assert x[i] == (a + x)[|a| + i] == (a + y)[|a| + i];
    }
  }
}
