/** Bytes, and sequences laid end to end. */
module Sequences {
  type byte = x: int | 0 <= x < 256

  function Concat<T>(parts: seq<seq<T>>): seq<T> {
    if parts == [] then [] else Concat(parts[..|parts| - 1]) + parts[|parts| - 1]
  }

  lemma ConcatAppend<T>(parts: seq<seq<T>>, part: seq<T>)
    ensures Concat(parts + [part]) == Concat(parts) + part
  {
    assert (parts + [part])[..|parts|] == parts;
  }

  lemma {:induction false} ConcatSplit<T>(parts: seq<seq<T>>, p: nat)
    requires p <= |parts|
    ensures Concat(parts) == Concat(parts[..p]) + Concat(parts[p..])
  {
    if p == |parts| {
      assert parts[..p] == parts;
    } else {
      var front, rest := parts[..|parts| - 1], parts[p..];
      ConcatSplit(front, p);
      assert front[..p] == parts[..p] && front[p..] == rest[..|rest| - 1];
    }
  }
}
