/**
 * The Fisher-Yates shuffle run when a quiz opens (components/Quiz.tsx,
 * shuffleArray): copy the deck, then for i from the last index down to 1
 * swap entry i with entry j, where j = floor(random * (i + 1)). The random
 * draws are supplied by the caller: `rolls[i]` is the j drawn for index i
 * (`rolls[0]` is never used, as the loop stops before index 0).
 */
module Shuffle {

  /** Draws `Math.floor(Math.random() * (i + 1))` can produce: 0 <= j <= i. */
  predicate ValidRolls(rolls: seq<nat>, n: nat) {
    |rolls| == n && forall i :: 0 < i < n ==> rolls[i] <= i
  }

  function Swap<T>(s: seq<T>, i: nat, j: nat): (t: seq<T>)
    requires i < |s| && j < |s|
    ensures |t| == |s| && t[i] == s[j] && t[j] == s[i]
    ensures forall k :: 0 <= k < |s| && k != i && k != j ==> t[k] == s[k]
  {
    s[i := s[j]][j := s[i]]
  }

  /** The deck after the swaps for indices i, i-1, ..., 1 have been applied to `s`. */
  function ShuffleFrom<T>(s: seq<T>, rolls: seq<nat>, i: nat): seq<T>
    requires i < |s| && ValidRolls(rolls, |s|)
    decreases i
  {
    if i == 0 then s else ShuffleFrom(Swap(s, i, rolls[i]), rolls, i - 1)
  }

  /** The deck shuffleArray produces from `s` for the draws `rolls`. */
  function Shuffled<T>(s: seq<T>, rolls: seq<nat>): seq<T>
    requires ValidRolls(rolls, |s|)
  {
    if s == [] then [] else ShuffleFrom(s, rolls, |s| - 1)
  }

  lemma SwapPermutes<T>(s: seq<T>, i: nat, j: nat)
    requires i < |s| && j < |s|
    ensures multiset(Swap(s, i, j)) == multiset(s)
  {
    var t := s[i := s[j]];
    assert multiset(t) == multiset(s) - multiset{s[i]} + multiset{s[j]};
    assert multiset(t[j := s[i]]) == multiset(t) - multiset{t[j]} + multiset{s[i]};
  }

  lemma {:induction false} ShuffleFromPermutes<T>(s: seq<T>, rolls: seq<nat>, i: nat)
    requires i < |s| && ValidRolls(rolls, |s|)
    decreases i
    ensures |ShuffleFrom(s, rolls, i)| == |s|
    ensures multiset(ShuffleFrom(s, rolls, i)) == multiset(s)
  {
    if i > 0 {
      SwapPermutes(s, i, rolls[i]);
      ShuffleFromPermutes(Swap(s, i, rolls[i]), rolls, i - 1);
    }
  }

  /** Whatever the draws, the shuffled deck holds exactly the cards of the original deck. */
  lemma ShuffledPermutes<T>(s: seq<T>, rolls: seq<nat>)
    requires ValidRolls(rolls, |s|)
    ensures |Shuffled(s, rolls)| == |s|
    ensures multiset(Shuffled(s, rolls)) == multiset(s)
  {
    if s != [] {
      ShuffleFromPermutes(s, rolls, |s| - 1);
    }
  }

  /** The swaps for indices at most i never touch an entry above i. */
  lemma {:induction false} ShuffleFromKeepsAbove<T>(s: seq<T>, rolls: seq<nat>, i: nat, k: nat)
    requires i < k < |s| && ValidRolls(rolls, |s|)
    decreases i
    ensures |ShuffleFrom(s, rolls, i)| == |s| && ShuffleFrom(s, rolls, i)[k] == s[k]
  {
    ShuffleFromPermutes(s, rolls, i);
    if i > 0 {
      ShuffleFromKeepsAbove(Swap(s, i, rolls[i]), rolls, i - 1, k);
    }
  }

  ghost predicate Distinct<T>(s: seq<T>) {
    forall a, b :: 0 <= a < b < |s| ==> s[a] != s[b]
  }

  lemma SwapKeepsDistinct<T>(s: seq<T>, i: nat, j: nat)
    requires i < |s| && j < |s| && Distinct(s)
    ensures Distinct(Swap(s, i, j))
  {
    var t := Swap(s, i, j);
    forall a, b | 0 <= a < b < |t| ensures t[a] != t[b] {
      var a' := if a == i then j else if a == j then i else a;
      var b' := if b == i then j else if b == j then i else b;
      assert t[a] == s[a'] && t[b] == s[b'] && a' != b';
    }
  }

  lemma {:induction false} ShuffleFromInjective<T>(s: seq<T>, r1: seq<nat>, r2: seq<nat>, i: nat)
    requires i < |s| && ValidRolls(r1, |s|) && ValidRolls(r2, |s|) && Distinct(s)
    requires ShuffleFrom(s, r1, i) == ShuffleFrom(s, r2, i)
    decreases i
    ensures r1[1..i + 1] == r2[1..i + 1]
  {
    if i > 0 {
      var t1, t2 := Swap(s, i, r1[i]), Swap(s, i, r2[i]);
      ShuffleFromKeepsAbove(t1, r1, i - 1, i);
      ShuffleFromKeepsAbove(t2, r2, i - 1, i);
      assert s[r1[i]] == s[r2[i]];
      assert r1[i] == r2[i];
      SwapKeepsDistinct(s, i, r1[i]);
      ShuffleFromInjective(t1, r1, r2, i - 1);
      assert r1[1..i + 1] == r1[1..i] + [r1[i]];
      assert r2[1..i + 1] == r2[1..i] + [r2[i]];
    }
  }

  /**
   * Different draws give different orders: on a deck of distinct cards the shuffled
   * deck determines every draw the loop uses. With i + 1 choices for index i, each
   * of the n! orders therefore comes from exactly one sequence of draws.
   */
  lemma ShuffledInjective<T>(s: seq<T>, r1: seq<nat>, r2: seq<nat>)
    requires ValidRolls(r1, |s|) && ValidRolls(r2, |s|) && Distinct(s)
    requires Shuffled(s, r1) == Shuffled(s, r2)
    ensures s == [] || r1[1..] == r2[1..]
  {
    if s != [] {
      ShuffleFromInjective(s, r1, r2, |s| - 1);
    }
  }

  /**
   * shuffleArray: a fresh copy of `cards`, shuffled in place; `cards` itself is
   * not modified (the method has no modifies clause).
   */
  method ShuffleArray<T>(cards: array<T>, rolls: seq<nat>) returns (shuffled: array<T>)
    requires ValidRolls(rolls, cards.Length)
    ensures fresh(shuffled) && cards[..] == old(cards[..])
    ensures shuffled[..] == Shuffled(cards[..], rolls)
    ensures shuffled.Length == cards.Length && multiset(shuffled[..]) == multiset(cards[..])
  {
    shuffled := new T[cards.Length](k requires 0 <= k < cards.Length reads cards => cards[k]);
    assert shuffled[..] == cards[..];
    var i := cards.Length - 1;
    while i > 0
      invariant -1 <= i < cards.Length
      invariant cards.Length > 0 ==> 0 <= i
      invariant shuffled.Length == cards.Length
      invariant i >= 0 ==> ShuffleFrom(shuffled[..], rolls, i) == Shuffled(cards[..], rolls)
    {
      var j := rolls[i];
      ghost var before := shuffled[..];
      shuffled[i], shuffled[j] := shuffled[j], shuffled[i];
      assert shuffled[..] == Swap(before, i, j);
      i := i - 1;
    }
    ShuffledPermutes(cards[..], rolls);
  }
}
