/** Shared by all components. */
module Prelude {

  datatype Option<+T> = None | Some(value: T)

  function Min(a: nat, b: nat): nat {
    if a < b then a else b
  }

  function Max(a: nat, b: nat): nat {
    if a < b then b else a
  }

  /** The pieces one after the other. */
  function Joined<T>(pieces: seq<seq<T>>): seq<T> {
    if pieces == [] then [] else Joined(pieces[..|pieces| - 1]) + pieces[|pieces| - 1]
  }

  lemma {:induction false} JoinedOne<T>(pieces: seq<seq<T>>, piece: seq<T>)
    ensures Joined(pieces + [piece]) == Joined(pieces) + piece
  {
    assert (pieces + [piece])[..|pieces|] == pieces;
  }

  /** part stands in whole at position at. */
  predicate SliceAt<T(==)>(whole: seq<T>, part: seq<T>, at: nat) {
    at + |part| <= |whole| && whole[at..at + |part|] == part
  }
}
