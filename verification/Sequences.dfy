/** Facts about sequences that the proofs of the other modules use by name. */
module Sequences {

  lemma EmptyLeft<T>(s: seq<T>)
    ensures [] + s == s
  {}

  lemma EmptyRight<T>(s: seq<T>)
    ensures s + [] == s
  {}

  lemma Assoc<T>(a: seq<T>, b: seq<T>, c: seq<T>)
    ensures a + (b + c) == a + b + c
  {}

  lemma TailOfConcat<T>(a: seq<T>, b: seq<T>)
    requires a != []
    ensures (a + b)[0] == a[0] && (a + b)[1..] == a[1..] + b
  {}

  lemma DropDrop<T>(s: seq<T>, i: nat, j: nat)
    requires i + j <= |s|
    ensures s[i..][j..] == s[i + j..]
  {}

  lemma SliceOfFront<T>(a: seq<T>, b: seq<T>, at: nat, n: nat)
    requires at + n <= |a|
    ensures (a + b)[at..at + n] == a[at..at + n]
  {}

  lemma SliceOfEnd<T>(a: seq<T>, b: seq<T>, at: nat, n: nat)
    requires at + n <= |b|
    ensures (a + b)[|a| + at..|a| + at + n] == b[at..at + n]
  {}

  lemma SliceOfSlice<T>(s: seq<T>, at: nat, t: seq<T>, i: nat, u: seq<T>)
    requires at + |t| <= |s| && s[at..at + |t|] == t
    requires i + |u| <= |t| && t[i..i + |u|] == u
    ensures s[at + i..at + i + |u|] == u
  {
    forall j | 0 <= j < |u| ensures s[at + i..at + i + |u|][j] == u[j] {
      assert u[j] == t[i..i + |u|][j] == t[i + j];
      assert t[i + j] == s[at..at + |t|][i + j];
    }
  }

  lemma JoinSlices<T>(s: seq<T>, a: nat, b: nat, c: nat)
    requires a <= b <= c <= |s|
    ensures s[a..b] + s[b..c] == s[a..c]
  {}

  // What has been gone through of a sequence
  ghost predicate FirstOnes<T>(done: seq<T>, s: seq<T>, i: nat) { i <= |s| && done == s[..i] }

  lemma FirstOnesNext<T>(done: seq<T>, s: seq<T>, i: nat)
    requires FirstOnes(done, s, i)
    ensures i < |s| ==> FirstOnes(done + [s[i]], s, i + 1)
    ensures i == |s| ==> done == s
  {}
}
