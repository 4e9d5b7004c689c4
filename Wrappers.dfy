/** Result values, and the Python exceptions the calculator can raise. */
module Wrappers {

  /** The exceptions the modelled code raises instead of returning a value. */
  datatype Error =
    | IndexError                    // indexing a string shorter than the index
    | KeyError                      // a suit character that the symbol table lacks
    | SampleLargerThanPopulation    // random.sample asked for more cards than the pool holds
    | ZeroDivision                  // a rate computed over zero simulations

  datatype Result<+T> = Ok(value: T) | Err(error: Error)

  /** No element occurs twice. */
  predicate Distinct<T(==)>(s: seq<T>) {
    forall i, j :: 0 <= i < j < |s| ==> s[i] != s[j]
  }

  /** The set of the elements of a sequence. */
  function Elems<T>(s: seq<T>): set<T> {
    set x | x in s
  }

  /** Dropping the head of a sequence without repetition leaves one without the head. */
  lemma DistinctTail<T>(s: seq<T>)
    requires Distinct(s) && s != []
    ensures Distinct(s[1..]) && s[0] !in s[1..]
  {
    var t := s[1..];
    forall i, j | 0 <= i < j < |t| ensures t[i] != t[j] {
      assert t[i] == s[i + 1] && t[j] == s[j + 1];
    }
    forall k | 0 <= k < |t| ensures t[k] != s[0] {
      assert t[k] == s[k + 1];
    }
  }

  /** A sequence without repetition has as many distinct elements as positions. */
  lemma {:induction false} DistinctElems<T>(s: seq<T>)
    requires Distinct(s)
    ensures |Elems(s)| == |s|
  {
    if s != [] {
      var t := s[1..];
      DistinctTail(s);
      DistinctElems(t);
      assert Elems(s) == {s[0]} + Elems(t) by {
        assert s == [s[0]] + t;
      }
    }
  }

  /** Any sequence has at most as many distinct elements as positions. */
  lemma {:induction false} ElemsBound<T>(s: seq<T>)
    ensures |Elems(s)| <= |s|
  {
    if s != [] {
      var t := s[1..];
      ElemsBound(t);
      assert Elems(s) == {s[0]} + Elems(t) by {
        assert s == [s[0]] + t;
      }
    }
  }
}
