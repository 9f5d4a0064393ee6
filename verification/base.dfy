/** Small shared vocabulary: optional values, pass/fail outcomes and
    facts about sequences without repeated elements. */
module Base {

  datatype Option<+T> = None | Some(value: T)

  datatype Result<+T, +E> = Ok(value: T) | Err(error: E)

  /** Outcome of an operation that either completes or aborts (a Go panic). */
  datatype Outcome<+E> = Pass | Fail(error: E)

  /** The set of elements of a sequence. */
  function Elems<T>(s: seq<T>): set<T> {
    set x | x in s
  }

  /** No element occurs twice: there are as many distinct elements as
      positions. */
  predicate Distinct<T(==)>(s: seq<T>) {
    |Elems(s)| == |s|
  }

  lemma {:induction false} ElemsCard<T>(s: seq<T>)
    ensures |Elems(s)| <= |s|
  {
    if s != [] {
      ElemsCard(s[1..]);
      assert Elems(s) == {s[0]} + Elems(s[1..]) by {
        assert s == [s[0]] + s[1..];
      }
    }
  }

  /** In a sequence without repetitions, two positions hold different
      elements. */
  lemma {:induction false} DistinctIndexes<T>(s: seq<T>, i: nat, j: nat)
    requires Distinct(s) && i < j < |s|
    ensures s[i] != s[j]
  {
    if s[i] == s[j] {
      var t := s[..j] + s[j + 1..];
      assert Elems(s) == Elems(t) by {
        assert s == s[..j] + [s[j]] + s[j + 1..];
        assert s[i] == t[i];
      }
      ElemsCard(t);
    }
  }

  /** Appending two sequences without repetitions whose elements are
      disjoint gives a sequence without repetitions. */
  lemma {:induction false} DistinctAppend<T>(s: seq<T>, t: seq<T>)
    requires Distinct(s) && Distinct(t) && Elems(s) !! Elems(t)
    ensures Distinct(s + t)
  {
    ElemsAppend(s, t);
  }

  lemma {:induction false} DistinctOne<T>(x: T)
    ensures Elems([x]) == {x} && Distinct([x])
  {
    assert Elems([x]) == {x};
  }

  lemma {:induction false} ElemsAppend<T>(s: seq<T>, t: seq<T>)
    ensures Elems(s + t) == Elems(s) + Elems(t)
  {
  }

  /** Prefixes compose, and the part a longer prefix adds splits at the
      shorter one. */
  lemma {:induction false} PrefixSplit<T>(x: seq<T>, y: seq<T>, z: seq<T>)
    requires |x| <= |y| <= |z| && y[..|x|] == x && z[..|y|] == y
    ensures z[..|x|] == x && z[|x|..] == y[|x|..] + z[|y|..]
  {
    assert z[..|x|] == y[..|x|];
  }
}
