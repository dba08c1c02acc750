module Prelude {
  datatype Option<+T> = None | Some(value: T)

  datatype Result<+T, +E> = Ok(value: T) | Err(error: E)

  predicate NoDuplicates<T(==)>(s: seq<T>) {
    forall i, j :: 0 <= i < j < |s| ==> s[i] != s[j]
  }

  lemma NoDuplicatesConcat<T>(a: seq<T>, b: seq<T>)
    requires NoDuplicates(a) && NoDuplicates(b) && forall x :: x in a ==> x !in b
    ensures NoDuplicates(a + b)
  {
    assert forall i :: 0 <= i < |a| ==> a[i] in a;
    assert forall j :: 0 <= j < |b| ==> b[j] in b;
  }
}
