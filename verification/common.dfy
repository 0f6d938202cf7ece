/** Small shared vocabulary of the model. */
module Common {

  /** The result of an operation that may find nothing (a null pointer in the source). */
  datatype Option<T> = None | Some(value: T)

  /** One byte of a socket buffer (`char` in the source). */
  newtype byte = b: int | 0 <= b < 256

  /** The sequence in reverse order. */
  function Reversed<T>(s: seq<T>): (r: seq<T>)
    ensures |r| == |s|
    ensures forall i :: 0 <= i < |s| ==> r[i] == s[|s| - 1 - i]
  {
    if s == [] then [] else Reversed(s[1..]) + [s[0]]
  }

  lemma ReversedSnoc<T>(s: seq<T>, x: T)
    ensures Reversed(s + [x]) == [x] + Reversed(s)
  {
    var a, b := Reversed(s + [x]), [x] + Reversed(s);
    assert |a| == |b|;
    forall i | 0 <= i < |a| ensures a[i] == b[i] {
      if i > 0 {
        assert (s + [x])[|s| - i] == s[|s| - i];
      }
    }
  }

  /** True when no element occurs twice. */
  predicate Distinct<T(==)>(s: seq<T>)
  {
    forall i, j :: 0 <= i < j < |s| ==> s[i] != s[j]
  }
}
