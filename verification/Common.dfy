/** Shared by every module: an optional value, and filtering a list by membership. */
module Common {

  datatype Option<+T> = None | Some(value: T)

  /** `list` without the elements of `gone`, in order. */
  function Without<T(==, !new)>(list: seq<T>, gone: seq<T>): (r: seq<T>)
    ensures forall x :: x in r <==> x in list && x !in gone
  {
    if list == [] then []
    else if list[0] in gone then Without(list[1..], gone)
    else [list[0]] + Without(list[1..], gone)
  }

  /** Removing the elements one by one, or all at once, is the same. */
  lemma {:induction false} WithoutCompose<T(!new)>(list: seq<T>, a: seq<T>, b: seq<T>)
    ensures Without(Without(list, a), b) == Without(list, a + b)
  {
    if list != [] {
      WithoutCompose(list[1..], a, b);
    }
  }
}
