/** Small facts about sequences that several modules share. */
module Sequences {
  import Wrappers

  function Min(a: int, b: int): int { if a <= b then a else b }

  function Max(a: int, b: int): int { if a >= b then a else b }

  function Clamp(value: int, low: int, high: int): int { Max(low, Min(high, value)) }

  /** The last n elements, or all when there are fewer. */
  function LastN<T>(s: seq<T>, n: nat): (r: seq<T>)
    ensures |r| == Min(n, |s|)
  {
    if |s| <= n then s else s[|s| - n..]
  }

  ghost predicate NoDuplicates<T>(s: seq<T>) {
    forall i, j :: 0 <= i < j < |s| ==> s[i] != s[j]
  }

  lemma AppendDistinct<T>(s: seq<T>, x: T)
    requires NoDuplicates(s) && x !in s
    ensures NoDuplicates(s + [x])
    ensures forall y {:trigger y in s + [x]} :: y in s + [x] <==> y in s || y == x
  {}

  lemma LastNMembers<T>(s: seq<T>, n: nat, i: nat)
    requires i < |s|
    ensures |s| - i <= n ==> s[i] in LastN(s, n)
    ensures forall x <- LastN(s, n) :: x in s
  {
    if |s| - i <= n {
      assert LastN(s, n)[i - (|s| - |LastN(s, n)|)] == s[i];
    }
  }

  lemma LastNOfLastN<T>(s: seq<T>, n: nat, x: T)
    ensures LastN(LastN(s, n) + [x], n) == LastN(s + [x], n)
  {}

  lemma DropFirst<T>(s: seq<T>)
    requires s != [] && NoDuplicates(s)
    ensures NoDuplicates(s[1..])
    ensures forall x {:trigger x in s[1..]} :: x in s[1..] <==> x in s && x != s[0]
  {
    assert s == [s[0]] + s[1..];
  }

  lemma HasElement<T>(s: seq<T>)
    ensures s == [] || exists x :: x in s
  {
    if s != [] {
      assert s[0] in s;
    }
  }

  lemma PrefixGrows<T>(s: seq<T>, i: nat)
    requires i < |s|
    ensures s[..i + 1] == s[..i] + [s[i]]
  {}

  lemma AppendAssociates<T>(a: seq<T>, b: seq<T>, c: seq<T>)
    ensures (a + b) + c == a + (b + c)
  {}

  /** The list holds what is kept of another one, in its order and as often: the i-th element is
      kept from position `at[i]`, and nothing is kept from any other position. */
  ghost predicate KeptFrom<A(!new), B(!new)>(list: seq<A>, from: seq<B>, keep: B -> Wrappers.Option<A>, at: seq<nat>) {
    |at| == |list| && (forall i, j :: 0 <= i < j < |at| ==> at[i] < at[j]) &&
    (forall i :: 0 <= i < |at| ==> at[i] < |from| && keep(from[at[i]]) == Wrappers.Some(list[i])) &&
    forall k :: 0 <= k < |from| && keep(from[k]).Some? ==> k in at
  }

  /** One element more is kept or not. */
  lemma KeepsOneMore<A(!new), B(!new)>(list: seq<A>, from: seq<B>, keep: B -> Wrappers.Option<A>, at: seq<nat>, x: B)
    requires KeptFrom(list, from, keep, at)
    ensures keep(x).Some? ==> KeptFrom(list + [keep(x).value], from + [x], keep, at + [|from|])
    ensures keep(x).None? ==> KeptFrom(list, from + [x], keep, at)
  {
    var more := at + [|from|];
    assert more[|at|] == |from|;
    assert forall k :: k in at ==> k in more;
  }
}
