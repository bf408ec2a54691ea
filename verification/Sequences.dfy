/** Regrouping facts about concatenations and slices, kept apart so that proofs can cite them. */
module Sequences {

  lemma MoveHead<T>(a: seq<T>, y: seq<T>)
    requires y != []
    ensures (a + [y[0]]) + y[1..] == a + y
  {
  }

  lemma Regroup<T>(a: seq<T>, b: seq<T>, c: seq<T>)
    ensures (a + b) + c == a + (b + c)
  {
  }

  lemma SplitLast<T>(s: seq<T>)
    requires s != []
    ensures s[..|s| - 1] + [s[|s| - 1]] == s
  {
  }

  lemma SplitAt<T>(s: seq<T>, n: nat)
    requires n <= |s|
    ensures s[..n] + s[n..] == s
  {
  }

  lemma TakeAppend<T>(a: seq<T>, b: seq<T>)
    ensures (a + b)[..|a|] == a
    ensures (a + b)[|a|..] == b
  {
  }

  lemma TakeSnoc<T>(s: seq<T>, n: nat)
    requires n < |s|
    ensures s[..n] + [s[n]] == s[..n + 1]
  {
  }

  lemma DropHead<T>(a: seq<T>, b: seq<T>)
    requires a != []
    ensures (a + b)[1..] == a[1..] + b
    ensures a + b == [a[0]] + (a[1..] + b)
  {
  }

  lemma DropOneMore<T>(s: seq<T>, n: nat)
    requires n < |s|
    ensures s[n..][1..] == s[n + 1..]
    ensures s[n..][0] == s[n]
  {
  }

  lemma DropTwice<T>(s: seq<T>, c: nat, n: nat)
    requires c + n <= |s|
    ensures s[c..][..n] == s[c..c + n]
    ensures s[c..][n..] == s[c + n..]
  {
  }
}
