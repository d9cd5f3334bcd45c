/** Finite sets and their sizes, and sequences without repetitions. */
module Sets {
  ghost predicate Distinct<T>(s: seq<T>) {
    forall i, j :: 0 <= i < j < |s| ==> s[i] != s[j]
  }

  lemma {:induction false} SubsetSize<T>(a: set<T>, b: set<T>)
    requires a <= b
    ensures |a| <= |b| && (|a| == |b| ==> a == b)
  {
    if a != {} {
      var x :| x in a;
      SubsetSize(a - {x}, b - {x});
    }
  }

  /** The n numbers from a on. */
  ghost function Range(a: nat, n: nat): (s: set<nat>)
    ensures forall i: nat :: i in s <==> a <= i < a + n
    ensures |s| == n
  {
    if n == 0 then {} else Range(a, n - 1) + {a + n - 1}
  }
}
