/** The script rule for multisignatures: signatures are matched against keys in one pass from
    the last to the first, and a key once passed is never tried again. */
module Multisig {

  /** The pass of OP_CHECKMULTISIG over signatures and keys, both read from the end. */
  predicate Greedy<S, K>(sigs: seq<S>, keys: seq<K>, ok: (S, K) -> bool)
    decreases |keys|
  {
    if sigs == [] then true
    else if |sigs| > |keys| then false
    else
      var m := |keys| - 1;
      Greedy(if ok(sigs[|sigs| - 1], keys[m]) then sigs[..|sigs| - 1] else sigs, keys[..m], ok)
  }

  /** Every signature verifies under a key, at strictly increasing positions. */
  ghost predicate OrderedMatch<S, K>(sigs: seq<S>, keys: seq<K>, ok: (S, K) -> bool, at: seq<nat>) {
    && |at| == |sigs|
    && (forall i :: 0 <= i < |at| ==> at[i] < |keys|)
    && (forall i, j :: 0 <= i < j < |at| ==> at[i] < at[j])
    && (forall i :: 0 <= i < |at| ==> ok(sigs[i], keys[at[i]]))
  }

  lemma {:induction false} MatchNotLonger<S, K>(sigs: seq<S>, keys: seq<K>, ok: (S, K) -> bool, at: seq<nat>, n: nat)
    requires OrderedMatch(sigs, keys, ok, at) && n < |at|
    ensures n <= at[n]
  {
    if n > 0 {
      MatchNotLonger(sigs, keys, ok, at, n - 1);
    }
  }

  /** Any order-preserving match makes the one pass succeed: taking the last possible key for
      the last signature never loses. */
  lemma {:induction false} MatchIsGreedy<S, K>(sigs: seq<S>, keys: seq<K>, ok: (S, K) -> bool, at: seq<nat>)
    requires OrderedMatch(sigs, keys, ok, at)
    ensures Greedy(sigs, keys, ok)
    decreases |keys|
  {
    if sigs != [] {
      var n, m := |sigs| - 1, |keys| - 1;
      MatchNotLonger(sigs, keys, ok, at, n);
      if ok(sigs[n], keys[m]) {
        forall i | 0 <= i < n ensures at[i] < m && ok(sigs[i], keys[..m][at[i]]) {
          assert at[i] < at[n];
        }
        MatchIsGreedy(sigs[..n], keys[..m], ok, at[..n]);
      } else {
        forall i | 0 <= i < |at| ensures at[i] < m && ok(sigs[i], keys[..m][at[i]]) {
          assert i == n || at[i] < at[n];
        }
        MatchIsGreedy(sigs, keys[..m], ok, at);
      }
    }
  }

  lemma ExtendMatch<S, K>(sigs: seq<S>, keys: seq<K>, ok: (S, K) -> bool, front: seq<nat>)
    requires sigs != [] && keys != [] && ok(sigs[|sigs| - 1], keys[|keys| - 1])
    requires OrderedMatch(sigs[..|sigs| - 1], keys[..|keys| - 1], ok, front)
    ensures OrderedMatch(sigs, keys, ok, front + [|keys| - 1])
  {
    forall i | 0 <= i < |front| ensures ok(sigs[i], keys[front[i]]) {
      assert ok(sigs[..|sigs| - 1][i], keys[..|keys| - 1][front[i]]);
    }
  }

  /** The pass succeeds only through such a match. */
  lemma {:induction false} GreedyIsMatch<S, K>(sigs: seq<S>, keys: seq<K>, ok: (S, K) -> bool) returns (at: seq<nat>)
    requires Greedy(sigs, keys, ok)
    ensures OrderedMatch(sigs, keys, ok, at)
    decreases |keys|
  {
    if sigs == [] {
      at := [];
    } else {
      var n, m := |sigs| - 1, |keys| - 1;
      if ok(sigs[n], keys[m]) {
        var front := GreedyIsMatch(sigs[..n], keys[..m], ok);
        ExtendMatch(sigs, keys, ok, front);
        at := front + [m];
      } else {
        at := GreedyIsMatch(sigs, keys[..m], ok);
      }
    }
  }

  lemma {:induction false} GreedyIffMatch<S, K>(sigs: seq<S>, keys: seq<K>, ok: (S, K) -> bool)
    ensures Greedy(sigs, keys, ok) <==> exists at :: OrderedMatch(sigs, keys, ok, at)
  {
    if Greedy(sigs, keys, ok) {
      var at := GreedyIsMatch(sigs, keys, ok);
    }
    if at :| OrderedMatch(sigs, keys, ok, at) {
      MatchIsGreedy(sigs, keys, ok, at);
    }
  }
}
