/** Searching a sequence. */
module Sequences {

  /** Position of the first `x`; the length of `s` if there is none. */
  function IndexOf<T(==)>(s: seq<T>, x: T): (k: nat)
    ensures k <= |s|
  {
    if s == [] then 0 else if s[0] == x then 0 else 1 + IndexOf(s[1..], x)
  }

  lemma {:induction false} IndexOfIsFirst<T>(s: seq<T>, x: T)
    ensures var k := IndexOf(s, x); (k < |s| <==> x in s) && (k < |s| ==> s[k] == x) && x !in s[..k]
  {
    if s == [] || s[0] == x {
    } else {
      IndexOfIsFirst(s[1..], x);
      var k := IndexOf(s[1..], x);
      assert s[..k + 1] == [s[0]] + s[1..][..k];
    }
  }
}
