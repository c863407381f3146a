/** The optional value shared by the other modules. */
module Prelude {

  datatype Option<+T> = None | Some(value: T)

  /* Two facts about concatenation that inductions over it rest on. */

  lemma HeadThenRest<T>(a: seq<T>, b: seq<T>)
    requires a != []
    ensures a + b == [a[0]] + (a[1..] + b)
  {
  }

  lemma Associates<T>(a: seq<T>, b: seq<T>, c: seq<T>)
    ensures a + (b + c) == (a + b) + c
  {
  }
}
