/** The lexicographic order of byte strings, shared by the ledger and the key sort. */
module Order {

  predicate LexLess(a: seq<int>, b: seq<int>) {
    b != [] && (a == [] || a[0] < b[0] || (a[0] == b[0] && LexLess(a[1..], b[1..])))
  }

  predicate LexLeq(a: seq<int>, b: seq<int>) {
    a == b || LexLess(a, b)
  }

  lemma {:induction false} LexTrichotomy(a: seq<int>, b: seq<int>)
    ensures a == b || LexLess(a, b) || LexLess(b, a)
    ensures !(LexLess(a, b) && LexLess(b, a))
    ensures a == b ==> !LexLess(a, b)
  {
    if a != [] && b != [] {
      LexTrichotomy(a[1..], b[1..]);
      assert a == [a[0]] + a[1..] && b == [b[0]] + b[1..];
    }
  }

  lemma {:induction false} LexTransitive(a: seq<int>, b: seq<int>, c: seq<int>)
    requires LexLess(a, b) && LexLess(b, c)
    ensures LexLess(a, c)
  {
    if a != [] && a[0] == b[0] == c[0] {
      LexTransitive(a[1..], b[1..], c[1..]);
    }
  }

  /** At the first difference the lesser is before the greater, or it ends there. */
  ghost predicate Precedes(a: seq<int>, b: seq<int>, k: nat) {
    k <= |a| && k < |b| && a[..k] == b[..k] && (k == |a| || a[k] < b[k])
  }

  lemma {:induction false} LexLessIff(a: seq<int>, b: seq<int>)
    ensures LexLess(a, b) <==> exists k: nat :: Precedes(a, b, k)
  {
    if b != [] && a != [] {
      LexLessIff(a[1..], b[1..]);
      if k: nat :| Precedes(a, b, k) {
        if k > 0 {
          assert a[..k][0] == b[..k][0] && a[1..][..k - 1] == a[..k][1..] && b[1..][..k - 1] == b[..k][1..];
          assert Precedes(a[1..], b[1..], k - 1);
        }
      }
      if k: nat :| Precedes(a[1..], b[1..], k) {
        if a[0] == b[0] {
          var next := k + 1;
          assert a[..next] == [a[0]] + a[1..][..k] && b[..next] == [b[0]] + b[1..][..k];
          assert Precedes(a, b, next);
        }
      }
      if a[0] < b[0] {
        assert Precedes(a, b, 0);
      }
    } else if b != [] {
      assert Precedes(a, b, 0);
    }
  }
}
