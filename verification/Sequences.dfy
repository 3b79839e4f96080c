/** Choosing elements of a sequence, the reference for every filtering loop and query. */
module Sequences {

  /** The elements that are to be kept, in their order. */
  function Filtered<T>(s: seq<T>, keep: T -> bool): seq<T> {
    if s == [] then []
    else if keep(s[0]) then [s[0]] + Filtered(s[1..], keep)
    else Filtered(s[1..], keep)
  }

  lemma {:induction false} FilteredConcat<T>(a: seq<T>, b: seq<T>, keep: T -> bool)
    ensures Filtered(a + b, keep) == Filtered(a, keep) + Filtered(b, keep)
  {
    if a == [] {
      assert a + b == b;
    } else {
      FilteredConcat(a[1..], b, keep);
      assert (a + b)[1..] == a[1..] + b;
    }
  }

  /** Adding an element at the end adds it behind the others, or nothing. */
  lemma FilteredSnoc<T>(s: seq<T>, keep: T -> bool)
    requires s != []
    ensures var n := |s| - 1;
            Filtered(s, keep) == Filtered(s[..n], keep) + if keep(s[n]) then [s[n]] else []
  {
    var n := |s| - 1;
    assert s == s[..n] + [s[n]];
    FilteredConcat(s[..n], [s[n]], keep);
  }

  /** Where the kept elements stand: rising places of the sequence, and every place that is to be kept. */
  lemma {:induction false} FilteredPlaces<T>(s: seq<T>, keep: T -> bool) returns (at: seq<nat>)
    ensures |at| == |Filtered(s, keep)|
    ensures forall k | 0 <= k < |at| :: at[k] < |s| && s[at[k]] == Filtered(s, keep)[k]
    ensures forall k, l | 0 <= k < l < |at| :: at[k] < at[l]
    ensures forall i | 0 <= i < |s| :: i in at <==> keep(s[i])
  {
    if s == [] {
      at := [];
    } else {
      var n := |s| - 1;
      FilteredSnoc(s, keep);
      at := FilteredPlaces(s[..n], keep);
      if keep(s[n]) {
        at := at + [n];
      }
    }
  }
}
