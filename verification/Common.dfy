/** What several modules use. */
module Common {

  datatype Option<+T> = None | Some(value: T)

  /** As many distinct members of s as f has elements need as many places. */
  lemma {:induction false} Pigeonhole<T>(f: seq<T>, s: seq<T>)
    requires forall i, j :: 0 <= i < j < |f| ==> f[i] != f[j]
    requires forall i :: 0 <= i < |f| ==> f[i] in s
    ensures |f| <= |s|
  {
    if f != [] {
      var last := f[|f| - 1];
      assert last in s;
      var p :| 0 <= p < |s| && s[p] == last;
      var rest := s[..p] + s[p + 1..];
      forall i | 0 <= i < |f| - 1
        ensures f[i] in rest
      {
        assert f[i] in s;
        var q :| 0 <= q < |s| && s[q] == f[i];
        assert q < p ==> rest[q] == f[i];
        assert q > p ==> rest[q - 1] == f[i];
      }
      Pigeonhole(f[..|f| - 1], rest);
    }
  }

  lemma SubsetSize<T>(a: set<T>, b: set<T>)
    requires a <= b
    ensures |a| <= |b|
  {
    assert b == a + (b - a);
  }

  lemma OneMore<T>(s: set<T>, x: T)
    ensures |s + {x}| == if x in s then |s| else |s| + 1
  {
    assert x in s ==> s + {x} == s;
  }
}
