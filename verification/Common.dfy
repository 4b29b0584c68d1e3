/** What several parts of the model use. */
module Common {

  datatype Option<+T> = None | Some(value: T)

  function Reversed<T>(s: seq<T>): seq<T> {
    if s == [] then [] else Reversed(s[1..]) + [s[0]]
  }

  lemma {:induction false} ReversedLast<T>(s: seq<T>)
    requires s != []
    ensures Reversed(s) == [s[|s| - 1]] + Reversed(s[..|s| - 1])
  {
    if |s| > 1 {
      ReversedLast(s[1..]);
      assert s[1..][..|s| - 2] == s[..|s| - 1][1..];
      var last, rest := s[|s| - 1], Reversed(s[1..|s| - 1]);
      assert s[1..|s| - 1] == s[..|s| - 1][1..];
      assert [last] + rest + [s[0]] == [last] + (rest + [s[0]]);
    }
  }
}
