/** The two LINQ operators that cut each bulk request out of the fetched rows,
    with the clamping behaviour of System.Linq.Enumerable: a count at or below
    zero skips nothing (or takes nothing), and a count past the end of the
    sequence skips everything (or takes what is there). Concat, the flattening
    of the requests, is not called by the program; the coverage lemmas use it
    to state which rows the requests carry together. */
module Linq {

  function Min(a: int, b: int): int { if a <= b then a else b }

  function Max(a: int, b: int): int { if a >= b then a else b }

  /** Enumerable.Skip(source, count). */
  function Skip<T>(source: seq<T>, count: int): (r: seq<T>)
    ensures |r| == Max(0, |source| - Max(0, count))
    ensures forall i :: 0 <= i < |r| ==> r[i] == source[Max(0, count) + i]
  {
    if count <= 0 then source
    else if count >= |source| then []
    else source[count..]
  }

  /** Enumerable.Take(source, count). */
  function Take<T>(source: seq<T>, count: int): (r: seq<T>)
    ensures |r| == Min(|source|, Max(0, count))
    ensures forall i :: 0 <= i < |r| ==> r[i] == source[i]
  {
    if count <= 0 then []
    else if count >= |source| then source
    else source[..count]
  }

  /** Take and Skip at the same count split a sequence without losing or
      repeating anything, whatever the count. */
  lemma TakeSkipSplit<T>(source: seq<T>, count: int)
    ensures Take(source, count) + Skip(source, count) == source
  {
    var t, s := Take(source, count), Skip(source, count);
    assert |t + s| == |source|;
    forall i | 0 <= i < |source| ensures (t + s)[i] == source[i] {
      if i >= |t| {
        assert (t + s)[i] == s[i - |t|];
      }
    }
  }

  /** Flattening a sequence of sequences in order (SelectMany(b => b)). */
  function Concat<T>(parts: seq<seq<T>>): (r: seq<T>)
    decreases |parts|
  {
    if parts == [] then [] else Concat(parts[..|parts| - 1]) + parts[|parts| - 1]
  }
}
