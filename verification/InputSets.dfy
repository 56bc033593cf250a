/** `BTreeSet<OutPoint>`: a strictly increasing sequence of outpoints, keyed for the ledger. */
module InputSets {
  import opened Bitcoin
  import opened Order

  function SortKey(o: OutPoint): seq<int> {
    o.txid + [o.vout]
  }

  predicate Before(a: OutPoint, b: OutPoint) {
    LexLess(SortKey(a), SortKey(b))
  }

  lemma BeforeTotal(a: OutPoint, b: OutPoint)
    ensures a == b || Before(a, b) || Before(b, a)
    ensures !(Before(a, b) && Before(b, a)) && !Before(a, a)
  {
    LexTrichotomy(SortKey(a), SortKey(b));
    LexTrichotomy(SortKey(a), SortKey(a));
    if SortKey(a) == SortKey(b) {
      assert a.txid == SortKey(a)[..32] && b.txid == SortKey(b)[..32];
      assert SortKey(a)[32] == a.vout && SortKey(b)[32] == b.vout;
    }
  }

  predicate StrictlySorted(s: seq<OutPoint>) {
    forall i, j :: 0 <= i < j < |s| ==> Before(s[i], s[j])
  }

  type InputSet = s: seq<OutPoint> | StrictlySorted(s) witness []

  predicate NoDuplicates(s: seq<OutPoint>) {
    forall i, j :: 0 <= i < j < |s| ==> s[i] != s[j]
  }

  function Elements(s: seq<OutPoint>): set<OutPoint> {
    set o | o in s
  }

  lemma SortedHasNoDuplicates(s: InputSet)
    ensures NoDuplicates(s)
  {
    forall i, j | 0 <= i < j < |s| ensures s[i] != s[j] {
      BeforeTotal(s[i], s[j]);
    }
  }

  lemma {:induction false} NoDuplicatesCount(s: seq<OutPoint>)
    requires NoDuplicates(s)
    ensures |Elements(s)| == |s|
  {
    if s != [] {
      var k := |s| - 1;
      NoDuplicatesCount(s[..k]);
      assert Elements(s) == Elements(s[..k]) + {s[k]};
      assert s[k] !in s[..k];
    }
  }

  /** Inserting keeps the order and adds nothing but the outpoint. */
  function Insert(s: InputSet, o: OutPoint): (r: InputSet)
    ensures forall x :: x in r <==> x in s || x == o
    ensures |r| <= |s| + 1
  {
    if s == [] then [o]
    else if s[0] == o then s
    else
      BeforeTotal(s[0], o);
      if Before(o, s[0]) then
        FrontBelow(o, s);
        [o] + s
      else
        var rest := Insert(s[1..], o);
        assert forall k :: 0 <= k < |rest| ==> Before(s[0], rest[k]) by {
          forall k | 0 <= k < |rest| ensures Before(s[0], rest[k]) {
            assert rest[k] in rest;
          }
        }
        [s[0]] + rest
  }

  lemma FrontBelow(o: OutPoint, s: InputSet)
    requires s != [] && Before(o, s[0])
    ensures StrictlySorted([o] + s)
  {
    forall j | 0 <= j < |s| ensures Before(o, s[j]) {
      if j > 0 {
        LexTransitive(SortKey(o), SortKey(s[0]), SortKey(s[j]));
      }
    }
  }

  /** Collecting a transaction's outpoints into a set. */
  function Collect(inputs: seq<OutPoint>): (r: InputSet)
    ensures forall x :: x in r <==> x in inputs
    ensures |r| <= |inputs|
    ensures inputs != [] ==> r != []
  {
    if inputs == [] then []
    else
      var last := inputs[|inputs| - 1];
      assert inputs == inputs[..|inputs| - 1] + [last];
      var r := Insert(Collect(inputs[..|inputs| - 1]), last);
      assert last in r;
      r
  }

  /** `same_inputs`: equal length and every stored outpoint in the set. */
  predicate SameInputs(stored: seq<OutPoint>, s: InputSet) {
    |stored| == |s| && forall i :: 0 <= i < |stored| ==> stored[i] in s
  }

  /** On a stored row without repetitions the length test makes it set equality. */
  lemma SameInputsIsSetEquality(stored: seq<OutPoint>, s: InputSet)
    requires NoDuplicates(stored)
    ensures SameInputs(stored, s) <==> Elements(stored) == Elements(s)
  {
    SortedHasNoDuplicates(s);
    NoDuplicatesCount(stored);
    NoDuplicatesCount(s);
    assert forall i :: 0 <= i < |stored| ==> stored[i] in Elements(stored);
    if SameInputs(stored, s) {
      assert Elements(stored) <= Elements(s);
      SubsetOfSameSize(Elements(stored), Elements(s));
    }
  }

  lemma SubsetOfSameSize(a: set<OutPoint>, b: set<OutPoint>)
    requires a <= b && |a| == |b|
    ensures a == b
  {
    assert b == a + (b - a);
    assert |b| == |a| + |b - a|;
  }
}
