/** Small result types shared by every model. */
module Common {

  datatype Option<+T> = None | Some(value: T)

  datatype Result<+T, +E> = Ok(value: T) | Err(error: E) {
    predicate IsFailure() {
      Err?
    }

    function PropagateFailure<U>(): Result<U, E>
      requires Err?
    {
      Err(error)
    }

    function Extract(): T
      requires Ok?
    {
      value
    }
  }

  type Byte = b: int | 0 <= b < 256

  type Bytes = seq<Byte>

  const U64_MAX: int := 0xFFFF_FFFF_FFFF_FFFF

  /** The part of a stored secret that is read. */
  datatype SecretField = Value | OAuthAccessToken | OAuthExpiresAt | OAuthAccountId

  /** No element occurs twice. */
  ghost predicate Distinct<T>(s: seq<T>) {
    forall i, j :: 0 <= i < j < |s| ==> s[i] != s[j]
  }

  /** The elements of a sequence, as a set. */
  function ElementsOf<T>(s: seq<T>): set<T> {
    set x | x in s
  }

  /** A sequence without repetitions has as many elements as its set of elements. */
  lemma {:induction false} DistinctCardinality<T>(s: seq<T>)
    requires Distinct(s)
    ensures |ElementsOf(s)| == |s|
  {
    if s == [] {
      assert ElementsOf(s) == {};
    } else {
      var front, last := s[..|s| - 1], s[|s| - 1];
      DistinctCardinality(front);
      assert ElementsOf(s) == ElementsOf(front) + {last} by {
        assert s == front + [last];
      }
      assert last !in front;
    }
  }

  /** A subset with as many elements as the whole is the whole. */
  lemma SubsetOfEqualSize<T>(part: set<T>, whole: set<T>)
    requires part <= whole
    requires |part| >= |whole|
    ensures part == whole
  {
    assert |whole - part| == |whole| - |part|;
  }
}
