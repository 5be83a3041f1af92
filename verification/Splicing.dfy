/** Lists with one more element put in. */
module Splicing {

  function Inserted<T>(s: seq<T>, at: nat, x: T): (r: seq<T>)
    requires at <= |s|
    ensures |r| == |s| + 1
  {
    s[..at] + [x] + s[at..]
  }

  lemma InsertedMembers<T>(s: seq<T>, at: nat, x: T)
    requires at <= |s|
    ensures forall y :: y in Inserted(s, at, x) <==> y in s || y == x
  {
    assert s == s[..at] + s[at..];
    forall y ensures y in Inserted(s, at, x) <==> y in s[..at] || y == x || y in s[at..] {}
    forall y ensures y in s <==> y in s[..at] || y in s[at..] {}
  }
}
