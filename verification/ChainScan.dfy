/** The full-node scan: which transactions of the blocks and the mempool concern the wallet. */
module ChainScan {
  import opened Machine
  import opened Bitcoin

  type Script = Bytes

  datatype Tx = Tx(id: Txid, inputs: seq<OutPoint>, outputs: seq<Script>)

  /** What the scan accumulates. */
  datatype Scan = Scan(known: set<OutPoint>, seen: set<Txid>, txs: seq<Tx>)

  predicate Pays(tx: Tx, watched: set<Script>) {
    exists v :: 0 <= v < |tx.outputs| && tx.outputs[v] in watched
  }

  /** `tx_is_relevant`. */
  predicate Relevant(tx: Tx, watched: set<Script>, known: set<OutPoint>) {
    Pays(tx, watched) || exists i :: 0 <= i < |tx.inputs| && tx.inputs[i] in known
  }

  /** The outpoint of output `v`; the index is cut to 32 bits as the cast does. */
  function OutputAt(tx: Tx, v: nat): OutPoint {
    OutPoint(tx.id, v % (U32_MAX + 1))
  }

  function WatchedOutputs(tx: Tx, watched: set<Script>): set<OutPoint> {
    set v | 0 <= v < |tx.outputs| && tx.outputs[v] in watched :: OutputAt(tx, v)
  }

  /** One turn of the inner loop. */
  function Considered(s: Scan, tx: Tx, watched: set<Script>): Scan {
    if !Relevant(tx, watched, s.known) || tx.id in s.seen then s
    else Scan(s.known + WatchedOutputs(tx, watched), s.seen + {tx.id}, s.txs + [tx])
  }

  function Pass(s: Scan, txs: seq<Tx>, watched: set<Script>): Scan {
    if txs == [] then s
    else Considered(Pass(s, txs[..|txs| - 1], watched), txs[|txs| - 1], watched)
  }

  function TwoPass(s: Scan, txs: seq<Tx>, watched: set<Script>): Scan {
    Pass(Pass(s, txs, watched), txs, watched)
  }

  // --- The reference -------------------------------------------------------

  function AllWatched(txs: seq<Tx>, watched: set<Script>): set<OutPoint> {
    if txs == [] then {}
    else AllWatched(txs[..|txs| - 1], watched) + WatchedOutputs(txs[|txs| - 1], watched)
  }

  /** A transaction id stands for one transaction. */
  predicate IdsIdentify(txs: seq<Tx>) {
    forall i, j :: 0 <= i < |txs| && 0 <= j < |txs| && txs[i].id == txs[j].id ==> txs[i] == txs[j]
  }

  /** Whatever was recorded before has its watched outputs among the known ones. */
  predicate Consistent(s: Scan, txs: seq<Tx>, watched: set<Script>) {
    forall i :: 0 <= i < |txs| && txs[i].id in s.seen ==> WatchedOutputs(txs[i], watched) <= s.known
  }

  predicate RecordedOnce(s: Scan) {
    forall i, j :: 0 <= i < j < |s.txs| ==> s.txs[i].id != s.txs[j].id
  }

  predicate SeenAreRecorded(s: Scan) {
    s.seen == set t | t in s.txs :: t.id
  }

  // --- Passes --------------------------------------------------------------

  lemma {:induction false} PassGrows(s: Scan, txs: seq<Tx>, watched: set<Script>)
    ensures var r := Pass(s, txs, watched);
            && s.known <= r.known <= s.known + AllWatched(txs, watched)
            && s.seen <= r.seen
            && s.txs <= r.txs
  {
    if txs != [] {
      PassGrows(s, txs[..|txs| - 1], watched);
    }
  }

  /** A transaction that adds outputs pays a watched script, so it is relevant whatever is
      known: one pass already knows every watched output of the list. */
  lemma {:induction false} OnePassKnows(s: Scan, txs: seq<Tx>, watched: set<Script>)
    requires IdsIdentify(txs) && Consistent(s, txs, watched)
    ensures var r := Pass(s, txs, watched);
            && r.known == s.known + AllWatched(txs, watched)
            && Consistent(r, txs, watched)
    decreases |txs|
  {
    PassGrows(s, txs, watched);
    if txs != [] {
      var n := |txs| - 1;
      var front, tx := txs[..n], txs[n];
      OnePassKnows(s, front, watched);
      var mid := Pass(s, front, watched);
      PassIds(s, front, watched);
      if tx.id in mid.seen && tx.id !in s.seen {
        var i :| 0 <= i < n && front[i].id == tx.id;
        assert txs[i] == txs[n];
      }
      if !Pays(tx, watched) {
        assert WatchedOutputs(tx, watched) == {};
      }
      forall i | 0 <= i < |txs| && txs[i].id in Pass(s, txs, watched).seen
        ensures WatchedOutputs(txs[i], watched) <= s.known + AllWatched(txs, watched)
      {
        WatchedIncluded(txs, i, watched);
      }
    }
  }

  lemma {:induction false} WatchedIncluded(txs: seq<Tx>, i: nat, watched: set<Script>)
    requires i < |txs|
    ensures WatchedOutputs(txs[i], watched) <= AllWatched(txs, watched)
  {
    if i < |txs| - 1 {
      WatchedIncluded(txs[..|txs| - 1], i, watched);
    }
  }

  /** Only listed transactions are recorded. */
  lemma {:induction false} PassIds(s: Scan, txs: seq<Tx>, watched: set<Script>)
    ensures forall id :: id in Pass(s, txs, watched).seen ==>
              id in s.seen || exists i :: 0 <= i < |txs| && txs[i].id == id
  {
    if txs != [] {
      var n := |txs| - 1;
      PassIds(s, txs[..n], watched);
      forall id | id in Pass(s, txs, watched).seen && id !in s.seen
        ensures exists i :: 0 <= i < |txs| && txs[i].id == id
      {
        if id != txs[n].id {
          var i :| 0 <= i < n && txs[..n][i].id == id;
          assert txs[i].id == id;
        }
      }
    }
  }

  lemma RelevantMonotone(tx: Tx, watched: set<Script>, known: set<OutPoint>, more: set<OutPoint>)
    requires known <= more && Relevant(tx, watched, known)
    ensures Relevant(tx, watched, more)
  {
  }

  /** Every new record is a listed, relevant, so far unseen transaction, and none is repeated. */
  lemma {:induction false} PassRecords(s: Scan, txs: seq<Tx>, watched: set<Script>, full: set<OutPoint>)
    requires Pass(s, txs, watched).known <= full && RecordedOnce(s) && SeenAreRecorded(s)
    ensures var r := Pass(s, txs, watched);
            && RecordedOnce(r) && SeenAreRecorded(r)
            && s.txs <= r.txs
            && forall k :: |s.txs| <= k < |r.txs| ==>
                 r.txs[k] in txs && Relevant(r.txs[k], watched, full) && r.txs[k].id !in s.seen
    decreases |txs|
  {
    if txs != [] {
      var n := |txs| - 1;
      PassGrows(s, txs[..n], watched);
      PassRecords(s, txs[..n], watched, full);
      var mid, r := Pass(s, txs[..n], watched), Pass(s, txs, watched);
      assert txs == txs[..n] + [txs[n]];
      if r != mid {
        RelevantMonotone(txs[n], watched, mid.known, full);
        assert r.txs == mid.txs + [txs[n]];
        forall i | 0 <= i < |mid.txs| ensures mid.txs[i].id != txs[n].id {
          assert mid.txs[i] in mid.txs;
        }
      }
    }
  }

  /** Once every watched output is known, a pass records every relevant transaction. */
  lemma {:induction false} PassComplete(s: Scan, txs: seq<Tx>, watched: set<Script>, i: nat)
    requires i < |txs| && AllWatched(txs, watched) <= s.known && Relevant(txs[i], watched, s.known)
    ensures txs[i].id in Pass(s, txs, watched).seen
    decreases |txs|
  {
    var n := |txs| - 1;
    PassGrows(s, txs[..n], watched);
    if i < n {
      PassComplete(s, txs[..n], watched, i);
    } else {
      RelevantMonotone(txs[n], watched, s.known, Pass(s, txs[..n], watched).known);
    }
  }

  /** Two passes reach the fixpoint in any order of the list: the known outpoints are the old
      ones and every watched output listed, and recorded are exactly the transactions relevant
      to that whole set, each once. */
  lemma {:induction false} TwoPassFixpoint(s: Scan, txs: seq<Tx>, watched: set<Script>)
    requires IdsIdentify(txs) && Consistent(s, txs, watched) && RecordedOnce(s) && SeenAreRecorded(s)
    ensures var r := TwoPass(s, txs, watched);
            var full := s.known + AllWatched(txs, watched);
            && r.known == full
            && s.seen <= r.seen && s.txs <= r.txs
            && RecordedOnce(r) && SeenAreRecorded(r)
            && (forall i :: 0 <= i < |txs| ==>
                  (txs[i].id in r.seen <==> txs[i].id in s.seen || Relevant(txs[i], watched, full)))
            && (forall k :: 0 <= k < |r.txs| ==>
                  r.txs[k] in s.txs || (r.txs[k] in txs && Relevant(r.txs[k], watched, full)))
  {
    var full := s.known + AllWatched(txs, watched);
    var mid, r := Pass(s, txs, watched), TwoPass(s, txs, watched);
    OnePassKnows(s, txs, watched);
    OnePassKnows(mid, txs, watched);
    assert r.known == full;
    PassGrows(s, txs, watched);
    PassGrows(mid, txs, watched);
    PassRecords(s, txs, watched, full);
    PassRecords(mid, txs, watched, full);
    forall k | 0 <= k < |r.txs|
      ensures r.txs[k] in s.txs || (r.txs[k] in txs && Relevant(r.txs[k], watched, full))
    {
      assert k < |mid.txs| ==> r.txs[k] == mid.txs[k];
      assert k < |s.txs| ==> r.txs[k] == s.txs[k];
    }
    forall i | 0 <= i < |txs|
      ensures txs[i].id in r.seen <==> txs[i].id in s.seen || Relevant(txs[i], watched, full)
    {
      if Relevant(txs[i], watched, full) {
        PassComplete(mid, txs, watched, i);
      }
      if txs[i].id in r.seen && txs[i].id !in s.seen {
        var t :| t in r.txs && t.id == txs[i].id;
        var j :| 0 <= j < |txs| && txs[j] == t;
        assert txs[j] == txs[i];
      }
    }
  }

  // --- Block after block, then the mempool ---------------------------------

  function ScanAll(s: Scan, batches: seq<seq<Tx>>, watched: set<Script>): Scan {
    if batches == [] then s
    else TwoPass(ScanAll(s, batches[..|batches| - 1], watched), batches[|batches| - 1], watched)
  }

  function Listed(batches: seq<seq<Tx>>): seq<Tx> {
    if batches == [] then [] else Listed(batches[..|batches| - 1]) + batches[|batches| - 1]
  }

  lemma {:induction false} AllWatchedConcat(a: seq<Tx>, b: seq<Tx>, watched: set<Script>)
    ensures AllWatched(a + b, watched) == AllWatched(a, watched) + AllWatched(b, watched)
    decreases |b|
  {
    if b == [] {
      assert a + b == a;
    } else {
      var n := |b| - 1;
      assert (a + b)[..|a + b| - 1] == a + b[..n];
      AllWatchedConcat(a, b[..n], watched);
    }
  }

  /** Known when batch `k` is done: what the caller knew and every watched output so far. */
  function KnownAfter(known: set<OutPoint>, batches: seq<seq<Tx>>, k: nat, watched: set<Script>): set<OutPoint>
    requires k <= |batches|
  {
    known + AllWatched(Listed(batches[..k]), watched)
  }

  predicate RecordedFor(t: Tx, known: set<OutPoint>, batches: seq<seq<Tx>>, watched: set<Script>) {
    exists k :: 0 <= k < |batches| && t in batches[k]
                && Relevant(t, watched, KnownAfter(known, batches, k + 1, watched))
  }

  /** The whole scan: recorded, once each, are exactly the transactions that some batch lists
      and that are relevant to everything known by the end of that batch. */
  lemma {:induction false} ScanFixpoint(known: set<OutPoint>, batches: seq<seq<Tx>>, watched: set<Script>)
    requires IdsIdentify(Listed(batches))
    ensures var r := ScanAll(Scan(known, {}, []), batches, watched);
            && r.known == KnownAfter(known, batches, |batches|, watched)
            && RecordedOnce(r) && SeenAreRecorded(r)
            && (forall t :: t in r.txs ==> t in Listed(batches))
            && (forall t :: t in Listed(batches) ==> (t in r.txs <==> RecordedFor(t, known, batches, watched)))
    decreases |batches|
  {
    assert batches[..|batches|] == batches;
    if batches != [] {
      var n := |batches| - 1;
      var front, last := batches[..n], batches[n];
      var all := Listed(batches);
      assert all == Listed(front) + last;
      assert IdsIdentify(Listed(front)) by { PrefixIds(Listed(front), last); }
      ScanFixpoint(known, front, watched);
      var s := ScanAll(Scan(known, {}, []), front, watched);
      assert front[..n] == front;
      AllWatchedConcat(Listed(front), last, watched);
      BatchFits(known, front, last, s, watched);
      TwoPassFixpoint(s, last, watched);
      BatchRecorded(known, batches, s, watched);
    }
  }

  lemma PrefixIds(a: seq<Tx>, b: seq<Tx>)
    requires IdsIdentify(a + b)
    ensures IdsIdentify(a) && IdsIdentify(b)
    ensures forall t, u :: t in a && u in b && t.id == u.id ==> t == u
  {
    forall i, j | 0 <= i < |a| && 0 <= j < |a| && a[i].id == a[j].id ensures a[i] == a[j] {
      assert (a + b)[i] == a[i] && (a + b)[j] == a[j];
    }
    forall i, j | 0 <= i < |b| && 0 <= j < |b| && b[i].id == b[j].id ensures b[i] == b[j] {
      assert (a + b)[|a| + i] == b[i] && (a + b)[|a| + j] == b[j];
    }
    forall t, u | t in a && u in b && t.id == u.id ensures t == u {
      var i :| 0 <= i < |a| && a[i] == t;
      var j :| 0 <= j < |b| && b[j] == u;
      assert (a + b)[i] == t && (a + b)[|a| + j] == u;
    }
  }

  /** Earlier records keep the next batch consistent, because an id stands for one transaction. */
  lemma BatchFits(known: set<OutPoint>, front: seq<seq<Tx>>, last: seq<Tx>, s: Scan, watched: set<Script>)
    requires IdsIdentify(Listed(front) + last) && SeenAreRecorded(s)
    requires s.known == known + AllWatched(Listed(front), watched)
    requires forall t :: t in s.txs ==> t in Listed(front)
    ensures IdsIdentify(last) && Consistent(s, last, watched)
  {
    PrefixIds(Listed(front), last);
    forall i | 0 <= i < |last| && last[i].id in s.seen
      ensures WatchedOutputs(last[i], watched) <= s.known
    {
      var t :| t in s.txs && t.id == last[i].id;
      assert t == last[i];
      var j :| 0 <= j < |Listed(front)| && Listed(front)[j] == t;
      WatchedIncluded(Listed(front), j, watched);
    }
  }

  lemma {:induction false} BatchRecorded(known: set<OutPoint>, batches: seq<seq<Tx>>, s: Scan, watched: set<Script>)
    requires batches != [] && IdsIdentify(Listed(batches)) && SeenAreRecorded(s)
    requires var n := |batches| - 1;
             && s.known == KnownAfter(known, batches, n, watched)
             && Consistent(s, batches[n], watched) && RecordedOnce(s)
             && (forall t :: t in s.txs ==> t in Listed(batches[..n]))
             && (forall t :: t in Listed(batches[..n]) ==>
                   (t in s.txs <==> RecordedFor(t, known, batches[..n], watched)))
    ensures var r := TwoPass(s, batches[|batches| - 1], watched);
            && (forall t :: t in r.txs ==> t in Listed(batches))
            && (forall t :: t in Listed(batches) ==> (t in r.txs <==> RecordedFor(t, known, batches, watched)))
  {
    var n := |batches| - 1;
    var front, last := batches[..n], batches[n];
    var r := TwoPass(s, last, watched);
    assert Listed(batches) == Listed(front) + last;
    PrefixIds(Listed(front), last);
    TwoPassFixpoint(s, last, watched);
    forall t | t in r.txs ensures t in Listed(batches) {
      var k :| 0 <= k < |r.txs| && r.txs[k] == t;
    }
    forall t | t in Listed(batches) ensures t in r.txs <==> RecordedFor(t, known, batches, watched) {
      OneRecord(known, batches, s, t, watched);
    }
  }

  lemma RecordedForSnoc(t: Tx, known: set<OutPoint>, batches: seq<seq<Tx>>, watched: set<Script>)
    requires batches != []
    ensures var n := |batches| - 1;
            RecordedFor(t, known, batches, watched)
            <==> RecordedFor(t, known, batches[..n], watched)
                 || (t in batches[n] && Relevant(t, watched, KnownAfter(known, batches, n + 1, watched)))
  {
    hide KnownAfter;
    var n := |batches| - 1;
    forall k | 0 <= k <= n
      ensures KnownAfter(known, batches[..n], k, watched) == KnownAfter(known, batches, k, watched)
    {
      KnownAfterPrefix(known, batches, k, watched);
    }
  }

  lemma KnownAfterPrefix(known: set<OutPoint>, batches: seq<seq<Tx>>, k: nat, watched: set<Script>)
    requires k < |batches|
    ensures KnownAfter(known, batches[..|batches| - 1], k, watched) == KnownAfter(known, batches, k, watched)
  {
    assert batches[..|batches| - 1][..k] == batches[..k];
  }

  lemma {:induction false} OneRecord(known: set<OutPoint>, batches: seq<seq<Tx>>, s: Scan, t: Tx, watched: set<Script>)
    requires batches != [] && IdsIdentify(Listed(batches)) && SeenAreRecorded(s) && t in Listed(batches)
    requires var n := |batches| - 1;
             && s.known == KnownAfter(known, batches, n, watched)
             && Consistent(s, batches[n], watched) && RecordedOnce(s)
             && (forall u :: u in s.txs ==> u in Listed(batches[..n]))
             && (forall u :: u in Listed(batches[..n]) ==>
                   (u in s.txs <==> RecordedFor(u, known, batches[..n], watched)))
    ensures t in TwoPass(s, batches[|batches| - 1], watched).txs <==> RecordedFor(t, known, batches, watched)
  {
    var n := |batches| - 1;
    var front, last := batches[..n], batches[n];
    assert Listed(batches) == Listed(front) + last;
    AllWatchedConcat(Listed(front), last, watched);
    assert batches[..n + 1] == batches;
    RecordedForSnoc(t, known, batches, watched);
    TwoPassMembers(s, Listed(front), last, t, watched);
    if RecordedFor(t, known, front, watched) {
      RecordedForListed(t, known, front, watched);
    }
  }

  lemma {:induction false} TwoPassMembers(s: Scan, earlier: seq<Tx>, last: seq<Tx>, t: Tx, watched: set<Script>)
    requires IdsIdentify(earlier + last) && Consistent(s, last, watched) && RecordedOnce(s) && SeenAreRecorded(s)
    requires t in earlier + last && forall u :: u in s.txs ==> u in earlier
    ensures t in TwoPass(s, last, watched).txs
            <==> t in s.txs || (t in last && Relevant(t, watched, s.known + AllWatched(last, watched)))
  {
    PrefixIds(earlier, last);
    TwoPassFixpoint(s, last, watched);
    hide TwoPass, Relevant, AllWatched, Consistent;
    var r := TwoPass(s, last, watched);
    if t in last && Relevant(t, watched, s.known + AllWatched(last, watched)) {
      var u :| u in r.txs && u.id == t.id;
      SameTx(earlier + last, u, t);
    } else if t in s.txs {
      var i :| 0 <= i < |s.txs| && s.txs[i] == t;
      assert r.txs[i] == t;
    }
  }

  lemma SameTx(txs: seq<Tx>, t: Tx, u: Tx)
    requires IdsIdentify(txs) && t in txs && u in txs && t.id == u.id
    ensures t == u
  {
  }

  lemma {:induction false} RecordedForListed(t: Tx, known: set<OutPoint>, batches: seq<seq<Tx>>, watched: set<Script>)
    requires RecordedFor(t, known, batches, watched)
    ensures t in Listed(batches)
    decreases |batches|
  {
    RecordedForSnoc(t, known, batches, watched);
    if t !in batches[|batches| - 1] {
      RecordedForListed(t, known, batches[..|batches| - 1], watched);
    }
  }

  // --- The loops -----------------------------------------------------------

  /** The innermost loop: the watched outputs of a new record become known. */
  method LearnOutputs(before: set<OutPoint>, tx: Tx, watched: set<Script>) returns (known: set<OutPoint>)
    ensures known == before + WatchedOutputs(tx, watched)
  {
    known := before;
    for v := 0 to |tx.outputs|
      invariant known == before + set u | 0 <= u < v && tx.outputs[u] in watched :: OutputAt(tx, u)
    {
      if tx.outputs[v] in watched {
        known := known + {OutputAt(tx, v)};
      }
    }
  }

  /** The doubled loop over one block's, or the mempool's, transactions. */
  method ScanBatch(s: Scan, txs: seq<Tx>, watched: set<Script>) returns (r: Scan)
    ensures r == TwoPass(s, txs, watched)
  {
    r := s;
    for round := 0 to 2
      invariant round == 0 ==> r == s
      invariant round == 1 ==> r == Pass(s, txs, watched)
      invariant round == 2 ==> r == TwoPass(s, txs, watched)
    {
      ghost var start := r;
      for i := 0 to |txs|
        invariant r == Pass(start, txs[..i], watched)
      {
        assert txs[..i + 1][..i] == txs[..i];
        var tx := txs[i];
        if !Relevant(tx, watched, r.known) {
          continue;
        }
        if tx.id !in r.seen {
          var known := LearnOutputs(r.known, tx, watched);
          r := Scan(known, r.seen + {tx.id}, r.txs + [tx]);
        }
      }
      assert txs[..|txs|] == txs;
    }
  }

  /** The mempool entries fetched at all: those not already recorded from a block. */
  function Unseen(mempool: seq<Tx>, seen: set<Txid>): seq<Tx> {
    if mempool == [] then []
    else
      var n := |mempool| - 1;
      Unseen(mempool[..n], seen) + if mempool[n].id in seen then [] else [mempool[n]]
  }

  /** Skipping recorded entries changes nothing: a pass ignores them anyway. */
  lemma {:induction false} PassSkipsSeen(s: Scan, txs: seq<Tx>, seen: set<Txid>, watched: set<Script>)
    requires seen <= s.seen
    ensures Pass(s, Unseen(txs, seen), watched) == Pass(s, txs, watched)
    decreases |txs|
  {
    if txs != [] {
      var n := |txs| - 1;
      PassSkipsSeen(s, txs[..n], seen, watched);
      PassGrows(s, txs[..n], watched);
      var front := Unseen(txs[..n], seen);
      assert (front + [txs[n]])[..|front|] == front;
      assert front + [] == front;
    }
  }

  /** `scan_spks` from the point where the blocks with matching filters are at hand. */
  method ScanSpks(spks: seq<Script>, blocks: seq<seq<Tx>>, mempool: seq<Tx>, known: set<OutPoint>)
    returns (r: Scan)
    ensures spks == [] ==> r == Scan(known, {}, [])
    ensures spks != [] ==> r == ScanAll(Scan(known, {}, []), blocks + [mempool], set s | s in spks)
  {
    r := Scan(known, {}, []);
    if spks == [] {
      return;
    }
    var watched := set s | s in spks;
    for b := 0 to |blocks|
      invariant r == ScanAll(Scan(known, {}, []), blocks[..b], watched)
    {
      assert blocks[..b + 1][..b] == blocks[..b];
      r := ScanBatch(r, blocks[b], watched);
    }
    assert blocks[..|blocks|] == blocks;
    var pending := [];
    for i := 0 to |mempool|
      invariant pending == Unseen(mempool[..i], r.seen)
    {
      assert mempool[..i + 1][..i] == mempool[..i];
      if mempool[i].id in r.seen {
        continue;
      }
      pending := pending + [mempool[i]];
    }
    assert mempool[..|mempool|] == mempool;
    PassSkipsSeen(r, mempool, r.seen, watched);
    PassGrows(r, mempool, watched);
    PassSkipsSeen(Pass(r, mempool, watched), mempool, r.seen, watched);
    assert (blocks + [mempool])[..|blocks|] == blocks;
    r := ScanBatch(r, pending, watched);
  }
}
