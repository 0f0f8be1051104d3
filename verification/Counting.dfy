/** Counting the elements of a sequence that satisfy a predicate.  Both locks
    describe their threads as a sequence of control states, indexed by thread,
    and tie their integer counters to such counts. */
module Counting {

  function Count<T>(s: seq<T>, p: T -> bool): nat {
    if s == [] then 0 else (if p(s[0]) then 1 else 0) + Count(s[1..], p)
  }

  function One(b: bool): nat {
    if b then 1 else 0
  }

  lemma {:induction false} CountUpdate<T>(s: seq<T>, i: nat, v: T, p: T -> bool)
    requires i < |s|
    ensures Count(s[i := v], p) == Count(s, p) - One(p(s[i])) + One(p(v))
  {
    if i == 0 {
      assert s[i := v][1..] == s[1..];
    } else {
      assert s[i := v][1..] == s[1..][i - 1 := v];
      CountUpdate(s[1..], i - 1, v, p);
    }
  }

  lemma {:induction false} CountLast<T>(s: seq<T>, p: T -> bool)
    requires s != []
    ensures Count(s, p) == Count(s[..|s| - 1], p) + One(p(s[|s| - 1]))
  {
    if |s| > 1 {
      assert s[1..][..|s| - 2] == s[..|s| - 1][1..];
      CountLast(s[1..], p);
    }
  }

  lemma {:induction false} CountAppend<T>(a: seq<T>, b: seq<T>, p: T -> bool)
    ensures Count(a + b, p) == Count(a, p) + Count(b, p)
  {
    if a == [] {
      assert a + b == b;
    } else {
      assert (a + b)[1..] == a[1..] + b;
      CountAppend(a[1..], b, p);
    }
  }

  lemma {:induction false} CountBounds<T>(s: seq<T>, p: T -> bool)
    ensures Count(s, p) <= |s|
  {
    if s != [] {
      CountBounds(s[1..], p);
    }
  }

  lemma {:induction false} CountZero<T>(s: seq<T>, p: T -> bool)
    ensures Count(s, p) == 0 <==> forall i :: 0 <= i < |s| ==> !p(s[i])
  {
    if s != [] {
      CountZero(s[1..], p);
      if Count(s, p) == 0 {
        forall i | 0 <= i < |s| ensures !p(s[i]) {
          if i > 0 {
            assert s[i] == s[1..][i - 1];
          }
        }
      } else if Count(s[1..], p) != 0 {
        var j :| 0 <= j < |s[1..]| && p(s[1..][j]);
        assert p(s[j + 1]);
      } else {
        assert p(s[0]);
      }
    }
  }

  lemma CountSome<T>(s: seq<T>, i: nat, p: T -> bool)
    requires i < |s| && p(s[i])
    ensures Count(s, p) > 0
  {
    CountZero(s, p);
  }

  lemma CountWitness<T>(s: seq<T>, p: T -> bool) returns (i: nat)
    requires Count(s, p) > 0
    ensures i < |s| && p(s[i])
  {
    CountZero(s, p);
    i :| 0 <= i < |s| && p(s[i]);
  }

  /** Two different indices that satisfy the predicate make the count at least two. */
  lemma CountTwo<T>(s: seq<T>, i: nat, j: nat, p: T -> bool)
    requires i < |s| && j < |s| && i != j && p(s[i]) && p(s[j])
    ensures Count(s, p) >= 2
  {
    CountTwoOrdered(s, if i < j then i else j, if i < j then j else i, p);
  }

  lemma {:induction false} CountTwoOrdered<T>(s: seq<T>, i: nat, j: nat, p: T -> bool)
    requires i < j < |s| && p(s[i]) && p(s[j])
    ensures Count(s, p) >= 2
  {
    assert s[j] == s[1..][j - 1];
    if i == 0 {
      CountSome(s[1..], j - 1, p);
    } else {
      assert s[i] == s[1..][i - 1];
      CountTwoOrdered(s[1..], i - 1, j - 1, p);
    }
  }

  lemma {:induction false} CountMono<T>(s: seq<T>, p: T -> bool, q: T -> bool)
    requires forall i :: 0 <= i < |s| && p(s[i]) ==> q(s[i])
    ensures Count(s, p) <= Count(s, q)
  {
    if s != [] {
      forall i | 0 <= i < |s[1..]| && p(s[1..][i]) ensures q(s[1..][i]) {
        assert s[1..][i] == s[i + 1];
      }
      CountMono(s[1..], p, q);
    }
  }

  /** Two sequences that agree on the predicate at every index have the same count. */
  lemma {:induction false} CountSame<T>(s: seq<T>, s': seq<T>, p: T -> bool)
    requires |s| == |s'|
    requires forall i :: 0 <= i < |s| ==> p(s[i]) == p(s'[i])
    ensures Count(s, p) == Count(s', p)
  {
    if s != [] {
      assert p(s[0]) == p(s'[0]);
      forall i | 0 <= i < |s[1..]| ensures p(s[1..][i]) == p(s'[1..][i]) {
        assert s[1..][i] == s[i + 1] && s'[1..][i] == s'[i + 1];
      }
      CountSame(s[1..], s'[1..], p);
    }
  }
}
