/** Sums of a natural-valued measure over a sequence, and how they move when
    elements change. The pool's counters are such sums over its threads. */
module Sums {

  function Sum<T>(f: T -> nat, s: seq<T>): nat {
    if s == [] then 0 else f(s[0]) + Sum(f, s[1..])
  }

  lemma {:induction false} SumUpdate<T>(f: T -> nat, s: seq<T>, i: nat, x: T)
    requires i < |s|
    ensures Sum(f, s[i := x]) + f(s[i]) == Sum(f, s) + f(x)
  {
    if i == 0 {
      assert s[i := x][1..] == s[1..];
    } else {
      assert s[i := x][1..] == s[1..][i - 1 := x];
      SumUpdate(f, s[1..], i - 1, x);
    }
  }

  lemma {:induction false} SumBound<T>(f: T -> nat, s: seq<T>, m: nat)
    requires forall x: T :: f(x) <= m
    ensures Sum(f, s) <= m * |s|
  {
    if s != [] {
      SumBound(f, s[1..], m);
    }
  }

  lemma {:induction false} SumMember<T>(f: T -> nat, s: seq<T>, i: nat)
    requires i < |s|
    ensures f(s[i]) <= Sum(f, s)
  {
    if i > 0 {
      assert s[1..][i - 1] == s[i];
      SumMember(f, s[1..], i - 1);
    }
  }

  lemma {:induction false} SumPointwise<T>(f: T -> nat, s: seq<T>, s': seq<T>)
    requires |s| == |s'|
    requires forall i :: 0 <= i < |s| ==> f(s[i]) == f(s'[i])
    ensures Sum(f, s) == Sum(f, s')
  {
    if s != [] {
      assert f(s[0]) == f(s'[0]);
      forall i | 0 <= i < |s[1..]| ensures f(s[1..][i]) == f(s'[1..][i]) {
        assert s[1..][i] == s[i + 1] && s'[1..][i] == s'[i + 1];
      }
      SumPointwise(f, s[1..], s'[1..]);
    }
  }

  lemma {:induction false} SumAllZero<T>(f: T -> nat, s: seq<T>)
    requires forall i :: 0 <= i < |s| ==> f(s[i]) == 0
    ensures Sum(f, s) == 0
  {
    if s != [] {
      assert f(s[0]) == 0;
      forall i | 0 <= i < |s[1..]| ensures f(s[1..][i]) == 0 {
        assert s[1..][i] == s[i + 1];
      }
      SumAllZero(f, s[1..]);
    }
  }

  lemma {:induction false} SumMeasures<T>(f: T -> nat, g: T -> nat, s: seq<T>)
    requires forall i :: 0 <= i < |s| ==> f(s[i]) == g(s[i])
    ensures Sum(f, s) == Sum(g, s)
  {
    if s != [] {
      assert f(s[0]) == g(s[0]);
      forall i | 0 <= i < |s[1..]| ensures f(s[1..][i]) == g(s[1..][i]) {
        assert s[1..][i] == s[i + 1];
      }
      SumMeasures(f, g, s[1..]);
    }
  }

  /** Where one measure never exceeds another, equal sums mean equal terms. */
  lemma {:induction false} SumTight<T>(f: T -> nat, g: T -> nat, s: seq<T>)
    requires forall x: T :: f(x) <= g(x)
    ensures Sum(f, s) <= Sum(g, s)
    ensures Sum(f, s) == Sum(g, s) ==> forall i :: 0 <= i < |s| ==> f(s[i]) == g(s[i])
  {
    if s != [] {
      SumTight(f, g, s[1..]);
      if Sum(f, s) == Sum(g, s) {
        assert f(s[0]) == g(s[0]);
        forall i | 0 <= i < |s| ensures f(s[i]) == g(s[i]) {
          if i > 0 {
            assert s[i] == s[1..][i - 1];
          }
        }
      }
    }
  }
}
