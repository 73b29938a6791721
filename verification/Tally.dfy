/** Weighted sums over sequences, and what they do under the two updates the models make. */
module Tally {

  ghost predicate Distinct<T>(s: seq<T>) {
    forall i, j :: 0 <= i < j < |s| ==> s[i] != s[j]
  }

  function Sum<T>(s: seq<T>, weight: T -> nat): nat {
    if s == [] then 0 else weight(s[0]) + Sum(s[1..], weight)
  }

  lemma {:induction false} SumAppend<T>(s: seq<T>, t: seq<T>, weight: T -> nat)
    ensures Sum(s + t, weight) == Sum(s, weight) + Sum(t, weight)
  {
    if s == [] {
      assert s + t == t;
    } else {
      assert (s + t)[1..] == s[1..] + t;
      SumAppend(s[1..], t, weight);
    }
  }

  lemma SumPush<T>(s: seq<T>, x: T, weight: T -> nat)
    ensures Sum(s + [x], weight) == Sum(s, weight) + weight(x)
  {
    SumAppend(s, [x], weight);
    assert [x][1..] == [];
  }

  lemma {:induction false} SumUpdate<T>(s: seq<T>, i: nat, x: T, weight: T -> nat)
    requires i < |s|
    ensures Sum(s[i := x], weight) + weight(s[i]) == Sum(s, weight) + weight(x)
  {
    if i == 0 {
      assert s[i := x][1..] == s[1..];
    } else {
      assert s[i := x][1..] == s[1..][i - 1 := x];
      SumUpdate(s[1..], i - 1, x, weight);
    }
  }

  lemma {:induction false} SumAtLeast<T>(s: seq<T>, i: nat, weight: T -> nat)
    requires i < |s|
    ensures weight(s[i]) <= Sum(s, weight)
  {
    if i > 0 {
      SumAtLeast(s[1..], i - 1, weight);
    }
  }

  /** A sum is zero exactly when every summand is. */
  lemma {:induction false} SumZero<T>(s: seq<T>, weight: T -> nat)
    ensures Sum(s, weight) == 0 <==> forall i :: 0 <= i < |s| ==> weight(s[i]) == 0
  {
    if s != [] {
      SumZero(s[1..], weight);
      assert forall i :: 0 < i < |s| ==> s[i] == s[1..][i - 1];
      if Sum(s, weight) == 0 {
        forall i | 0 <= i < |s| ensures weight(s[i]) == 0 {
          if i > 0 { assert s[i] == s[1..][i - 1]; }
        }
      } else if forall i :: 0 <= i < |s| ==> weight(s[i]) == 0 {
        forall i | 0 <= i < |s[1..]| ensures weight(s[1..][i]) == 0 {
          assert s[1..][i] == s[i + 1];
        }
      }
    }
  }

  /** Pairwise different numbers below `n` number at most `n`, and then are all of them. */
  lemma {:induction false} Pigeonhole(numbers: seq<nat>, n: nat)
    requires Distinct(numbers) && forall k :: 0 <= k < |numbers| ==> 0 <= numbers[k] < n
    ensures |numbers| <= n
    ensures |numbers| == n ==> forall i :: 0 <= i < n ==> i in numbers
    decreases n
  {
    if numbers != [] {
      assert 0 <= numbers[0] < n;
      if n - 1 in numbers {
        var p :| 0 <= p < |numbers| && numbers[p] == n - 1;
        var others := numbers[..p] + numbers[p + 1..];
        Pigeonhole(others, n - 1);
        assert forall i :: i in others ==> i in numbers;
      } else {
        Pigeonhole(numbers, n - 1);
      }
    }
  }
}
