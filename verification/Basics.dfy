/** Vocabulary shared by the models of the five services. */
module Basics {

  datatype Option<+T> = None | Some(value: T)

  /** True if no value occurs twice in `s`. */
  predicate NoDup<T(==)>(s: seq<T>) {
    forall i, j :: 0 <= i < j < |s| ==> s[i] != s[j]
  }

  lemma NoDupSnoc<T>(s: seq<T>, x: T)
    requires NoDup(s)
    requires x !in s
    ensures NoDup(s + [x])
  {
  }

  lemma NoDupIff<T>(s: seq<T>, x: T)
    ensures NoDup(s + [x]) <==> NoDup(s) && x !in s
  {
    var t := s + [x];
    assert forall i :: 0 <= i < |s| ==> t[i] == s[i];
    assert t[|s|] == x;
  }

  lemma SomeElement<T>(s: seq<T>)
    ensures s == [] || s[0] in s
  {
  }

  lemma Associative<T>(a: seq<T>, b: seq<T>, c: seq<T>)
    ensures a + b + c == a + (b + c)
  {
  }

  lemma HeadTail<T>(s: seq<T>)
    requires s != []
    ensures s[0] in s
    ensures forall x :: x in s[1..] ==> x in s
    ensures forall x :: x in s ==> x == s[0] || x in s[1..]
    ensures NoDup(s) ==> s[0] !in s[1..] && NoDup(s[1..])
  {
    assert s == [s[0]] + s[1..];
  }

  /** A duplicate-free sequence is as long as the set of its elements. */
  lemma {:induction false} NoDupSize<T>(s: seq<T>, elems: set<T>)
    requires NoDup(s)
    requires forall x :: x in s <==> x in elems
    ensures |s| == |elems|
  {
    if s == [] {
      assert elems == {};
    } else {
      assert s[0] in elems;
      forall x ensures x in s[1..] <==> x in elems - {s[0]} {
        if x in s[1..] {
          var k :| 0 <= k < |s[1..]| && s[1..][k] == x;
          assert s[k + 1] == x;
        }
      }
      NoDupSize(s[1..], elems - {s[0]});
    }
  }
}
