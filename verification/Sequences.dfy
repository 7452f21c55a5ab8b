/** Facts about slices. */
module Sequences {
  lemma TakeConcat<T>(a: seq<T>, b: seq<T>, n: nat)
    requires n <= |b|
    ensures (a + b)[..|a| + n] == a + b[..n]
  {
  }

  lemma SliceOfTake<T>(s: seq<T>, n: nat, from: nat, to: nat)
    requires from <= to <= n <= |s|
    ensures s[..n][from..to] == s[from..to]
  {
  }

  lemma ConsCancel<T>(x: T, a: seq<T>, b: seq<T>)
    requires [x] + a == [x] + b
    ensures a == b
  {
    assert ([x] + a)[1..] == a && ([x] + b)[1..] == b;
  }

  lemma Grouped<T>(a: seq<T>, b: seq<T>, c: seq<T>)
    ensures a + b + c == a + (b + c)
  {
  }

  lemma TakeAndDrop<T>(a: seq<T>, b: seq<T>)
    ensures (a + b)[..|a|] == a && (a + b)[|a|..] == b
  {
  }

  lemma TakePlusDrop<T>(s: seq<T>, n: nat)
    requires n <= |s|
    ensures s[..n] + s[n..] == s
  {
  }
}
