/** BIP-67 ("Specification" section): compressed public keys in ascending byte order. */
module Bip67 {
  import opened Machine
  import opened Order

  type PubKey = s: seq<u8> | |s| == 33 witness seq(33, _ => 0)

  predicate Ascending(keys: seq<PubKey>) {
    forall i, j :: 0 <= i < j < |keys| ==> LexLeq(keys[i], keys[j])
  }

  lemma LexLeqTotal(a: PubKey, b: PubKey)
    ensures LexLeq(a, b) || LexLeq(b, a)
    ensures LexLeq(a, b) && LexLeq(b, a) ==> a == b
  {
    LexTrichotomy(a, b);
  }

  lemma LexLeqTransitive(a: PubKey, b: PubKey, c: PubKey)
    requires LexLeq(a, b) && LexLeq(b, c)
    ensures LexLeq(a, c)
  {
    if a != b && b != c {
      LexTransitive(a, b, c);
    }
  }

  /** Two ascending arrangements of the same keys are the same arrangement. */
  lemma {:induction false} SortIsUnique(a: seq<PubKey>, b: seq<PubKey>)
    requires Ascending(a) && Ascending(b) && multiset(a) == multiset(b)
    ensures a == b
  {
    hide LexLess, LexLeq;
    assert |a| == |multiset(a)| == |multiset(b)| == |b|;
    if a != [] {
      HeadIsLeast(a, b);
      HeadIsLeast(b, a);
      LexLeqTotal(a[0], b[0]);
      TailMembers(a);
      TailMembers(b);
      SortIsUnique(a[1..], b[1..]);
      assert a == [a[0]] + a[1..] && b == [b[0]] + b[1..];
    }
  }

  lemma TailMembers(a: seq<PubKey>)
    requires a != []
    ensures multiset(a[1..]) == multiset(a) - multiset{a[0]}
  {
    assert a == [a[0]] + a[1..];
  }

  lemma HeadIsLeast(a: seq<PubKey>, b: seq<PubKey>)
    requires Ascending(a) && multiset(a) == multiset(b) && a != [] && b != []
    ensures LexLeq(a[0], b[0])
  {
    assert b[0] in multiset(b);
    assert b[0] in a;
    var k :| 0 <= k < |a| && a[k] == b[0];
    assert k == 0 || LexLeq(a[0], a[k]);
  }

  /** Puts a key in front of the first one not below it. */
  function Insert(key: PubKey, keys: seq<PubKey>): (r: seq<PubKey>)
    requires Ascending(keys)
    ensures Ascending(r) && multiset(r) == multiset(keys) + multiset{key}
  {
    if keys == [] then [key]
    else if LexLeq(key, keys[0]) then
      FrontFits(key, keys);
      [key] + keys
    else
      var rest := Insert(key, keys[1..]);
      InsertFits(key, keys, rest);
      [keys[0]] + rest
  }

  lemma FrontFits(key: PubKey, keys: seq<PubKey>)
    requires keys != [] ==> LexLeq(key, keys[0])
    requires Ascending(keys)
    ensures Ascending([key] + keys)
  {
    hide LexLeq;
    forall j | 0 <= j < |keys| ensures LexLeq(key, keys[j]) {
      if j > 0 {
        LexLeqTransitive(key, keys[0], keys[j]);
      }
    }
  }

  lemma InsertFits(key: PubKey, keys: seq<PubKey>, rest: seq<PubKey>)
    requires Ascending(keys) && keys != [] && !LexLeq(key, keys[0])
    requires Ascending(rest) && multiset(rest) == multiset(keys[1..]) + multiset{key}
    ensures Ascending([keys[0]] + rest) && multiset([keys[0]] + rest) == multiset(keys) + multiset{key}
  {
    hide LexLeq;
    LexLeqTotal(key, keys[0]);
    TailMembers(keys);
    if rest != [] {
      assert rest[0] in multiset(rest);
      assert rest[0] == key || rest[0] in keys[1..];
    }
    FrontFits(keys[0], rest);
  }

  function Sorted(keys: seq<PubKey>): (r: seq<PubKey>)
    ensures Ascending(r) && multiset(r) == multiset(keys) && |r| == |keys|
  {
    if keys == [] then []
    else
      assert keys == [keys[0]] + keys[1..];
      var r := Insert(keys[0], Sorted(keys[1..]));
      assert |multiset(r)| == |multiset(keys)|;
      r
  }

  /** Sorting does not see the order the keys arrive in. */
  lemma {:induction false} SortedPermutation(a: seq<PubKey>, b: seq<PubKey>)
    requires multiset(a) == multiset(b)
    ensures Sorted(a) == Sorted(b)
  {
    SortIsUnique(Sorted(a), Sorted(b));
  }

  predicate AllLeq(left: seq<PubKey>, right: seq<PubKey>) {
    forall i, j :: 0 <= i < |left| && 0 <= j < |right| ==> LexLeq(left[i], right[j])
  }

  /** Position of a least key from `from` on. */
  method LeastFrom(keys: array<PubKey>, from: nat) returns (least: nat)
    requires from < keys.Length
    ensures from <= least < keys.Length
    ensures forall j :: from <= j < keys.Length ==> LexLeq(keys[least], keys[j])
  {
    least := from;
    for j := from + 1 to keys.Length
      invariant from <= least < keys.Length
      invariant forall i :: from <= i < j ==> LexLeq(keys[least], keys[i])
    {
      LexLeqTotal(keys[j], keys[least]);
      if !LexLeq(keys[least], keys[j]) {
        forall i | from <= i < j ensures LexLeq(keys[j], keys[i]) {
          LexLeqTransitive(keys[j], keys[least], keys[i]);
        }
        least := j;
      }
    }
  }

  /** `sort_pubkeys`: in place, to the one ascending arrangement. */
  method SortPubkeys(keys: array<PubKey>)
    modifies keys
    ensures keys[..] == Sorted(old(keys[..]))
  {
    for i := 0 to keys.Length
      invariant multiset(keys[..]) == multiset(old(keys[..]))
      invariant Ascending(keys[..i])
      invariant AllLeq(keys[..i], keys[i..])
    {
      var least := LeastFrom(keys, i);
      ghost var before := keys[..];
      SwapKeepsOrder(before, i, least);
      keys[i], keys[least] := keys[least], keys[i];
      assert keys[..] == Swapped(before, i, least);
    }
    assert keys[..keys.Length] == keys[..];
    SortIsUnique(keys[..], Sorted(old(keys[..])));
  }

  function Swapped(s: seq<PubKey>, i: nat, j: nat): seq<PubKey>
    requires i < |s| && j < |s|
  {
    s[i := s[j]][j := s[i]]
  }

  lemma SwapKeepsOrder(s: seq<PubKey>, i: nat, least: nat)
    requires i <= least < |s| && Ascending(s[..i]) && AllLeq(s[..i], s[i..])
    requires forall j :: i <= j < |s| ==> LexLeq(s[least], s[j])
    ensures var s' := Swapped(s, i, least);
            multiset(s') == multiset(s) && Ascending(s'[..i + 1]) && AllLeq(s'[..i + 1], s'[i + 1..])
  {
  }

  /** `sort_three`: sorts a copy. */
  method SortThree(keys: seq<PubKey>) returns (out: seq<PubKey>)
    requires |keys| == 3
    ensures out == Sorted(keys) && |out| == 3
  {
    var copy := new PubKey[3](i requires 0 <= i < 3 => keys[i]);
    assert copy[..] == keys;
    SortPubkeys(copy);
    out := copy[..];
  }

  // --- Sample keys ---------------------------------------------------------

  function ToyKey(t: u8): PubKey {
    seq(32, _ => 2) + [t]
  }

  lemma {:induction false} CommonPrefix(p: seq<int>, x: int, y: int)
    requires x < y
    ensures LexLess(p + [x], p + [y])
  {
    if p != [] {
      CommonPrefix(p[1..], x, y);
      assert (p + [x])[1..] == p[1..] + [x] && (p + [y])[1..] == p[1..] + [y];
    }
  }

  lemma ToyLess(s: u8, t: u8)
    requires s < t
    ensures LexLess(ToyKey(s), ToyKey(t)) && ToyKey(s) != ToyKey(t)
  {
    hide LexLess;
    CommonPrefix(seq(32, _ => 2), s, t);
    assert ToyKey(s)[32] == s && ToyKey(t)[32] == t;
  }
}
