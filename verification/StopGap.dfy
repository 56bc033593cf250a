/** The stop-gap walk along a keychain: scripts are pulled in batches of `gap`, and the walk
    ends after a batch that leaves `gap` or more unused scripts behind the last active one. */
module StopGap {
  import opened Machine
  import opened Bitcoin

  type Script = Bytes

  /** Index of the first script of a batch. */
  function Start(gap: nat, batch: nat): nat {
    batch * gap
  }

  /** The batch a script index lies in. */
  function BatchOf(gap: nat, i: nat): nat
    requires gap > 0
  {
    i / gap
  }

  lemma StartSteps(gap: nat, batch: nat)
    ensures Start(gap, 0) == 0 && Start(gap, batch + 1) == Start(gap, batch) + gap
  {
  }

  predicate ActiveAt(spk: nat -> Script, active: set<Script>, i: nat) {
    spk(i) in active
  }

  predicate BatchActive(spk: nat -> Script, active: set<Script>, gap: nat, batch: nat) {
    exists i :: Start(gap, batch) <= i < Start(gap, batch + 1) && ActiveAt(spk, active, i)
  }

  /** The first batch without any activity: where the walk ends. */
  predicate EndsAt(spk: nat -> Script, active: set<Script>, gap: nat, batch: nat) {
    && !BatchActive(spk, active, gap, batch)
    && forall b :: 0 <= b < batch ==> BatchActive(spk, active, gap, b)
  }

  /** The last active index below `n`. */
  predicate IsLastBelow(spk: nat -> Script, active: set<Script>, n: nat, last: Option<nat>) {
    match last
    case None => forall i :: 0 <= i < n ==> !ActiveAt(spk, active, i)
    case Some(l) => l < n && ActiveAt(spk, active, l) && forall i :: l < i < n ==> !ActiveAt(spk, active, i)
  }

  /** The scripts from index `from` on. */
  predicate Follows(spk: nat -> Script, from: nat, scripts: seq<Script>) {
    forall i :: 0 <= i < |scripts| ==> scripts[i] == spk(from + i)
  }

  ghost predicate QuietFrom(spk: nat -> Script, active: set<Script>, beyond: nat) {
    forall i: nat :: beyond <= i ==> !ActiveAt(spk, active, i)
  }

  /** The inner loop: one batch probed, the run of unused scripts counted. */
  method WalkBatch(spk: nat -> Script, active: set<Script>, from: nat, count: nat, last0: Option<nat>, unused0: nat)
    returns (scripts: seq<Script>, last: Option<nat>, unused: nat)
    requires IsLastBelow(spk, active, from, last0)
    requires unused0 == if last0.Some? then from - 1 - last0.value else from
    ensures |scripts| == count && Follows(spk, from, scripts)
    ensures IsLastBelow(spk, active, from + count, last)
    ensures unused == if last.Some? then from + count - 1 - last.value else from + count
  {
    scripts, last, unused := [], last0, unused0;
    for i := 0 to count
      invariant |scripts| == i && Follows(spk, from, scripts)
      invariant IsLastBelow(spk, active, from + i, last)
      invariant unused == if last.Some? then from + i - 1 - last.value else from + i
    {
      var s := spk(from + i);
      if s in active {
        assert ActiveAt(spk, active, from + i);
        last, unused := Some(from + i), 0;
      } else {
        assert !ActiveAt(spk, active, from + i);
        unused := unused + 1;
      }
      scripts := scripts + [s];
    }
  }

  /** On batch boundaries, `gap` unused scripts in a row means exactly an inactive last batch. */
  lemma UnusedIsInactiveBatch(spk: nat -> Script, active: set<Script>, gap: nat, batch: nat, last: Option<nat>)
    requires gap > 0 && IsLastBelow(spk, active, Start(gap, batch + 1), last)
    ensures BatchActive(spk, active, gap, batch) <==> last.Some? && Start(gap, batch + 1) - 1 - last.value < gap
  {
    hide Start, BatchOf;
    StartSteps(gap, batch);
    if last.Some? && Start(gap, batch + 1) - 1 - last.value < gap {
      assert Start(gap, batch) <= last.value < Start(gap, batch + 1) && ActiveAt(spk, active, last.value);
    }
  }

  lemma {:induction false} ActiveBatchesBelow(spk: nat -> Script, active: set<Script>, gap: nat, batch: nat,
                                              beyond: nat)
    requires gap > 0 && BatchActive(spk, active, gap, batch)
    requires QuietFrom(spk, active, beyond)
    ensures Start(gap, batch) < beyond
  {
  }

  lemma FollowsExtends(spk: nat -> Script, spks: seq<Script>, more: seq<Script>)
    requires Follows(spk, 0, spks) && Follows(spk, |spks|, more)
    ensures Follows(spk, 0, spks + more)
  {
    forall i | 0 <= i < |spks + more| ensures (spks + more)[i] == spk(0 + i) {
      if i >= |spks| {
        assert (spks + more)[i] == more[i - |spks|];
      }
    }
  }

  /** `collect_full_scan_spks` for one keychain of unboundedly many scripts. The bound
      `beyond` on activity is only there to show that the walk ends. */
  method CollectSpks(spk: nat -> Script, active: set<Script>, gap: nat, ghost beyond: nat)
    returns (spks: seq<Script>, last: Option<nat>, ghost ended: nat)
    requires QuietFrom(spk, active, beyond)
    ensures Follows(spk, 0, spks)
    ensures IsLastBelow(spk, active, |spks|, last)
    ensures gap == 0 ==> spks == []
    ensures gap > 0 ==> EndsAt(spk, active, gap, ended) && |spks| == Start(gap, ended + 1)
  {
    assert Follows(spk, 0, []) && IsLastBelow(spk, active, 0, None);
    hide Start, BatchOf, Follows, IsLastBelow, BatchActive, QuietFrom;
    spks, last, ended := [], None, 0;
    var unused := 0;
    if gap == 0 {
      return;
    }
    var batch := 0;
    StartSteps(gap, 0);
    while batch == 0 || unused < gap
      invariant |spks| == Start(gap, batch)
      invariant Follows(spk, 0, spks) && IsLastBelow(spk, active, |spks|, last)
      invariant unused == if last.Some? then |spks| - 1 - last.value else |spks|
      invariant forall b :: 0 <= b < batch - 1 ==> BatchActive(spk, active, gap, b)
      invariant batch > 0 ==> (unused >= gap <==> !BatchActive(spk, active, gap, batch - 1))
      invariant batch == 0 || unused >= gap || |spks| < beyond + gap
      decreases beyond + 2 * gap - |spks|
    {
      StartSteps(gap, batch);
      var more, newLast, newUnused := WalkBatch(spk, active, |spks|, gap, last, unused);
      FollowsExtends(spk, spks, more);
      spks, last, unused := spks + more, newLast, newUnused;
      UnusedIsInactiveBatch(spk, active, gap, batch, last);
      if unused < gap {
        ActiveBatchesBelow(spk, active, gap, batch, beyond);
      }
      batch := batch + 1;
    }
    ended := batch - 1;
  }

  // --- How far, and what is found ------------------------------------------

  lemma Products(gap: nat, a: nat, b: nat)
    requires a <= b
    ensures Start(gap, a) <= Start(gap, b)
  {
  }

  lemma InBatch(gap: nat, i: nat)
    requires gap > 0
    ensures Start(gap, BatchOf(gap, i)) <= i < Start(gap, BatchOf(gap, i) + 1)
  {
  }

  /** The walk looks at no more than `last active index + 2 * gap` scripts, and at one batch if
      nothing is active. */
  lemma WalkLength(spk: nat -> Script, active: set<Script>, gap: nat, batch: nat, lastActive: nat)
    requires gap > 0 && EndsAt(spk, active, gap, batch)
    requires QuietFrom(spk, active, lastActive + 1)
    ensures Start(gap, batch + 1) <= lastActive + 2 * gap
  {
    hide Start, BatchOf;
    StartSteps(gap, batch);
    if batch > 0 {
      StartSteps(gap, batch - 1);
      assert BatchActive(spk, active, gap, batch - 1);
      var i :| Start(gap, batch - 1) <= i < Start(gap, batch) && ActiveAt(spk, active, i);
    }
  }

  /** Exactly when every active index is found: no batch before it is inactive throughout. */
  lemma FoundIff(spk: nat -> Script, active: set<Script>, gap: nat, batch: nat, i: nat)
    requires gap > 0 && EndsAt(spk, active, gap, batch) && ActiveAt(spk, active, i)
    ensures i < Start(gap, batch + 1) <==> forall b :: 0 <= b < BatchOf(gap, i) ==> BatchActive(spk, active, gap, b)
  {
    hide Start, BatchOf;
    InBatch(gap, i);
    if i < Start(gap, batch + 1) {
      if batch < BatchOf(gap, i) {
        Products(gap, batch + 1, BatchOf(gap, i));
      }
    } else if batch >= BatchOf(gap, i) {
      Products(gap, BatchOf(gap, i) + 1, batch + 1);
    }
  }

  /** Successive active indices no further apart than the gap. */
  ghost predicate Dense(spk: nat -> Script, active: set<Script>, gap: nat) {
    forall i: nat :: ActiveAt(spk, active, i) && gap <= i ==>
                  exists j: nat :: ActiveAt(spk, active, j) && i - gap <= j < i
  }

  /** Under a dense keychain every batch up to that of an active index holds one. */
  lemma {:induction false} DenseBatches(spk: nat -> Script, active: set<Script>, gap: nat, i: nat, b: nat)
    requires gap > 0 && Dense(spk, active, gap) && ActiveAt(spk, active, i) && b <= BatchOf(gap, i)
    ensures BatchActive(spk, active, gap, b)
    decreases i
  {
    hide Start, BatchOf;
    InBatch(gap, i);
    if b == BatchOf(gap, i) {
      assert Start(gap, b) <= i < Start(gap, b + 1) && ActiveAt(spk, active, i);
    } else {
      Products(gap, 1, BatchOf(gap, i));
      StartSteps(gap, 0);
      StartSteps(gap, BatchOf(gap, i) - 1);
      var j: nat :| ActiveAt(spk, active, j) && i - gap <= j < i;
      InBatch(gap, j);
      if BatchOf(gap, j) < BatchOf(gap, i) - 1 {
        Products(gap, BatchOf(gap, j) + 1, BatchOf(gap, i) - 1);
      }
      DenseBatches(spk, active, gap, j, b);
    }
  }

  /** With the first active index below the gap and successive ones at most the gap apart,
      every active index is found. */
  lemma DenseAllFound(spk: nat -> Script, active: set<Script>, gap: nat, batch: nat, i: nat)
    requires gap > 0 && EndsAt(spk, active, gap, batch) && Dense(spk, active, gap) && ActiveAt(spk, active, i)
    ensures i < Start(gap, batch + 1)
  {
    hide Start, BatchOf;
    forall b | 0 <= b < BatchOf(gap, i) ensures BatchActive(spk, active, gap, b) {
      DenseBatches(spk, active, gap, i, b);
    }
    FoundIff(spk, active, gap, batch, i);
  }
}
