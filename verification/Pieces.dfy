/** Sequences put together from pieces. */
module Pieces {

  function Joined<T>(pieces: seq<seq<T>>): seq<T> {
    if pieces == [] then [] else Joined(pieces[..|pieces| - 1]) + pieces[|pieces| - 1]
  }

  /** The first piece can be split off as well as the last. */
  lemma {:induction false} JoinedFirst<T>(piece: seq<T>, rest: seq<seq<T>>)
    ensures Joined([piece] + rest) == piece + Joined(rest)
  {
    var all := [piece] + rest;
    if rest == [] {
      assert all[..0] == [];
    } else {
      assert all[..|all| - 1] == [piece] + rest[..|rest| - 1];
      JoinedFirst(piece, rest[..|rest| - 1]);
    }
  }
}
