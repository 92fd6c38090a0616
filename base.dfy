/**
 * Outcome types for the exceptions the plot pipeline raises, and small
 * sequence helpers shared by the other modules.
 */
module Base {

  datatype Option<+T> = None | Some(value: T)

  datatype Result<+T> = Success(value: T) | Failure(error: Error)

  /** Success or failure of an operation that returns nothing. */
  datatype Outcome = Pass | Fail(error: Error)

  /** Which axis a missing facet was looked up for. */
  datatype Axis = X | Y

  /** The exceptions raised by the modelled code. */
  datatype Error =
      /** `KeyError("Unknown facet named: '<facet>' on the <axis> axis")` */
    | UnknownFacet(facet: string, axis: Axis)
      /** bare `KeyError('<field>')` from indexing a record */
    | MissingField(field: string)
      /** `ZeroDivisionError` from `1000 // 0` */
    | ZeroDivision
      /** `ValueError` from `min()` or `max()` of an empty sequence */
    | EmptySequence
      /** `IndexError` from reading `field_names[index]` past its end */
    | IndexOutOfRange(index: nat)

  /** No element occurs twice. */
  predicate Distinct<T(==)>(s: seq<T>) {
    forall i, j :: 0 <= i < j < |s| ==> s[i] != s[j]
  }

  /** A duplicate-free sequence has as many elements as the set of its
      elements. */
  lemma {:induction false} DistinctSize<T>(s: seq<T>, elements: set<T>)
    requires Distinct(s)
    requires forall x :: x in s <==> x in elements
    ensures |elements| == |s|
  {
    if s != [] {
      var last := s[|s| - 1];
      var init := s[..|s| - 1];
      assert forall x :: x in init <==> x in elements - {last} by {
        forall x ensures x in init <==> x in elements - {last} {
          if x in elements && x != last {
            var k :| 0 <= k < |s| && s[k] == x;
            assert init[k] == x;
          }
        }
      }
      DistinctSize(init, elements - {last});
    }
  }

  function Max(a: int, b: int): int {
    if a < b then b else a
  }
}
