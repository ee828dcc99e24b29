/** Sequence searches shaped like the source's `for i, x in enumerate(xs): if …: break`
    loops, and the duplicate test `len(xs) != len(set(xs))`. */
module Seqs {
  import opened Outcomes

  /** Index of the first element satisfying `p`, if any. */
  function FirstIndex<T>(s: seq<T>, p: T -> bool): (r: Option<nat>)
    ensures r.Some? ==> r.value < |s| && p(s[r.value])
    ensures r.Some? ==> forall j :: 0 <= j < r.value ==> !p(s[j])
    ensures r.None? <==> forall j :: 0 <= j < |s| ==> !p(s[j])
  {
    if |s| == 0 then None
    else if p(s[0]) then Some(0)
    else match FirstIndex(s[1..], p)
      case None => None
      case Some(i) => Some(i + 1)
  }

  /** Index of the last element satisfying `p`, if any. */
  function LastIndex<T>(s: seq<T>, p: T -> bool): (r: Option<nat>)
    ensures r.Some? ==> r.value < |s| && p(s[r.value])
    ensures r.Some? ==> forall j :: r.value < j < |s| ==> !p(s[j])
    ensures r.None? <==> forall j :: 0 <= j < |s| ==> !p(s[j])
  {
    if |s| == 0 then None
    else if p(s[|s| - 1]) then Some(|s| - 1)
    else LastIndex(s[..|s| - 1], p)
  }

  /** No element occurs twice. */
  predicate Distinct<T(==)>(s: seq<T>) {
    forall i, j :: 0 <= i < j < |s| ==> s[i] != s[j]
  }

  function ToSet<T>(s: seq<T>): set<T> {
    set x | x in s
  }

  /** The source's test `len(xs) == len(set(xs))` holds exactly when no two entries are equal. */
  lemma {:induction false} DistinctIffNoCollapse<T>(s: seq<T>)
    ensures |ToSet(s)| == |s| <==> Distinct(s)
  {
    if |s| == 0 {
      assert ToSet(s) == {};
    } else {
      var rest := s[1..];
      DistinctIffNoCollapse(rest);
      if s[0] in rest {
        assert ToSet(s) == ToSet(rest);
        CardinalityAtMostLength(rest);
        var k :| 0 <= k < |rest| && rest[k] == s[0];
        assert s[0] == s[k + 1];
      } else {
        assert ToSet(s) == ToSet(rest) + {s[0]};
        assert Distinct(s) <==> Distinct(rest) by {
          if Distinct(rest) {
            forall i, j | 0 <= i < j < |s| ensures s[i] != s[j] {
              if i > 0 {
                assert s[i] == rest[i - 1] && s[j] == rest[j - 1];
              } else {
                assert s[j] == rest[j - 1];
              }
            }
          }
          if Distinct(s) {
            forall i, j | 0 <= i < j < |rest| ensures rest[i] != rest[j] {
              assert rest[i] == s[i + 1] && rest[j] == s[j + 1];
            }
          }
        }
      }
    }
  }

  lemma {:induction false} CardinalityAtMostLength<T>(s: seq<T>)
    ensures |ToSet(s)| <= |s|
  {
    if |s| > 0 {
      CardinalityAtMostLength(s[1..]);
      assert ToSet(s) == ToSet(s[1..]) + {s[0]};
    } else {
      assert ToSet(s) == {};
    }
  }
}
