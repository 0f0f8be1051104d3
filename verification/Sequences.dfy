/** Sequences in which nothing comes twice. */
module Sequences {

  ghost predicate NoDup(l: seq<int>) {
    forall i, j :: 0 <= i < j < |l| ==> l[i] != l[j]
  }

  lemma AppendNoDup(l: seq<int>, x: int)
    requires NoDup(l) && x !in l
    ensures NoDup(l + [x])
  {
  }

  lemma PrependNoDup(a: seq<int>, b: seq<int>)
    requires NoDup(a) && NoDup(b) && forall x :: x in a ==> x !in b
    ensures NoDup(a + b)
  {
    var l := a + b;
    forall i, j | 0 <= i < j < |l| ensures l[i] != l[j] {
      if i < |a| <= j {
        assert a[i] in a && b[j - |a|] in b;
      }
    }
  }
}
