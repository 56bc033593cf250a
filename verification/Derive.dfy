/** Address derivation from a parsed descriptor: two public BIP-32 steps per key, the BIP-67
    sort, the 2-of-3 witness script and its P2WSH output script. */
module Derive {
  import opened Machine
  import opened Errors
  import opened Bitcoin
  import opened Bip67
  import opened Descriptor

  const MAX_NON_HARDENED_INDEX: u32 := 0x7fff_ffff

  type ChainCode = s: seq<u8> | |s| == 32 witness seq(32, _ => 0)
  type Hash256 = s: seq<u8> | |s| == 32 witness seq(32, _ => 0)
  type Hash512 = s: seq<u8> | |s| == 64 witness seq(64, _ => 0)

  /** The hash and curve layer the wallet takes from libraries. */
  datatype Curve = Curve(
    decodeXpub: string -> Option<(ChainCode, PubKey)>,
    isPoint: PubKey -> bool,
    hmacSha512: (Bytes, Bytes) -> Hash512,
    isScalar: Hash256 -> bool,
    addTweak: (PubKey, Hash256) -> Option<PubKey>,
    sha256: Bytes -> Hash256)

  datatype ChildKey = ChildKey(chainCode: ChainCode, publicKey: PubKey)

  datatype DerivedChild = DerivedChild(fingerprint: Fingerprint, branch: Branch, addressIndex: u32,
                                       publicKey: PubKey, chainCode: ChainCode)

  datatype DerivedOutput = DerivedOutput(children: seq<DerivedChild>, sortedPubkeys: seq<PubKey>,
                                         witnessScript: Bytes, scriptPubkey: Bytes)

  function BigEndian32(i: u32): Bytes {
    [i / 0x100_0000, i / 0x1_0000 % 0x100, i / 0x100 % 0x100, i % 0x100]
  }

  /** `ckd_pub`. */
  function CkdPub(c: Curve, chain: ChainCode, key: PubKey, index: u32): Result<ChildKey, DeriveError> {
    if index >= 0x8000_0000 then Err(HardenedIndex(index))
    else if !c.isPoint(key) then Err(InvalidPublicKey)
    else
      var i := c.hmacSha512(chain, key + BigEndian32(index));
      if !c.isScalar(i[..32]) then Err(InvalidTweak)
      else match c.addTweak(key, i[..32])
           case None => Err(InvalidTweak)
           case Some(child) => Ok(ChildKey(i[32..], child))
  }

  /** `derive_child`. */
  function DeriveChild(c: Curve, key: KeyExpr, index: u32): Result<DerivedChild, DeriveError> {
    if index > MAX_NON_HARDENED_INDEX then Err(HardenedIndex(index))
    else match c.decodeXpub(key.xpub)
         case None => Err(UndecodableXpub)
         case Some((chain, pk)) =>
           var mid :- CkdPub(c, chain, pk, if key.derivation.External? then 0 else 1);
           var child :- CkdPub(c, mid.chainCode, mid.publicKey, index);
           if !c.isPoint(child.publicKey) then Err(InvalidPublicKey)
           else Ok(DerivedChild(key.fingerprint, key.derivation, index, child.publicKey, child.chainCode))
  }

  /** BIP-32 public derivation along any path, one step at a time. */
  function AlongPath(c: Curve, start: ChildKey, path: seq<u32>): Result<ChildKey, DeriveError> {
    if path == [] then Ok(start)
    else
      var parent :- AlongPath(c, start, path[..|path| - 1]);
      CkdPub(c, parent.chainCode, parent.publicKey, path[|path| - 1])
  }

  /** A child is the account key derived along its branch and the index, labelled with the
      fingerprint and branch of its key expression; a hardened index is refused first. */
  lemma {:induction false} ChildIsPath(c: Curve, key: KeyExpr, index: u32)
    ensures index >= 0x8000_0000 ==> DeriveChild(c, key, index) == Err(HardenedIndex(index))
    ensures DeriveChild(c, key, index).Ok? ==>
              && c.decodeXpub(key.xpub).Some?
              && var (chain, pk) := c.decodeXpub(key.xpub).value;
                 var child := DeriveChild(c, key, index).value;
                 && AlongPath(c, ChildKey(chain, pk), [if key.derivation == Internal then 1 else 0, index])
                    == Ok(ChildKey(child.chainCode, child.publicKey))
                 && child.fingerprint == key.fingerprint && child.branch == key.derivation
                     && child.addressIndex == index
  {
    hide CkdPub;
    if DeriveChild(c, key, index).Ok? {
      var b: u32 := if key.derivation == Internal then 1 else 0;
      var (chain, pk) := c.decodeXpub(key.xpub).value;
      assert [b, index][..1] == [b] && [b][..0] == [];
      assert AlongPath(c, ChildKey(chain, pk), [b]) == CkdPub(c, chain, pk, b);
    }
  }

  // --- Scripts -------------------------------------------------------------

  const OP_PUSHBYTES_33: u8 := 0x21
  const OP_CHECKMULTISIG: u8 := 0xae

  function OpNum(k: nat): u8
    requires 1 <= k <= 16
  {
    0x50 + k
  }

  predicate Compressed(key: PubKey) {
    key[0] == 0x02 || key[0] == 0x03
  }

  function Pushes(keys: seq<PubKey>): Bytes {
    if keys == [] then [] else Pushes(keys[..|keys| - 1]) + [OP_PUSHBYTES_33] + keys[|keys| - 1]
  }

  function FirstUncompressed(keys: seq<PubKey>, from: nat): (r: Option<nat>)
    requires from <= |keys|
    ensures r.None? <==> forall i :: from <= i < |keys| ==> Compressed(keys[i])
    decreases |keys| - from
  {
    if from == |keys| then None
    else if !Compressed(keys[from]) then Some(from)
    else FirstUncompressed(keys, from + 1)
  }

  /** `build_checkmultisig_script`. */
  function CheckmultisigScript(k: nat, keys: seq<PubKey>): (r: Result<Bytes, DeriveError>)
    ensures r.Ok? <==> 1 <= k <= |keys| <= 16 && forall i :: 0 <= i < |keys| ==> Compressed(keys[i])
  {
    if !(1 <= k <= 16) || !(1 <= |keys| <= 16) || k > |keys| then Err(InvalidMultisigParams(k, |keys|))
    else match FirstUncompressed(keys, 0)
         case Some(i) => Err(InvalidCompressedPubkey(i))
         case None => Ok([OpNum(k)] + Pushes(keys) + [OpNum(|keys|), OP_CHECKMULTISIG])
  }

  method BuildCheckmultisigScript(k: nat, keys: seq<PubKey>) returns (r: Result<Bytes, DeriveError>)
    ensures r == CheckmultisigScript(k, keys)
  {
    if !(1 <= k <= 16) || !(1 <= |keys| <= 16) || k > |keys| {
      return Err(InvalidMultisigParams(k, |keys|));
    }
    for i := 0 to |keys|
      invariant FirstUncompressed(keys, 0) == FirstUncompressed(keys, i)
    {
      if keys[i][0] != 0x02 && keys[i][0] != 0x03 {
        return Err(InvalidCompressedPubkey(i));
      }
    }
    var script := [OpNum(k)];
    for i := 0 to |keys|
      invariant script == [OpNum(k)] + Pushes(keys[..i])
    {
      assert keys[..i + 1][..i] == keys[..i];
      script := script + [OP_PUSHBYTES_33] + keys[i];
    }
    assert keys[..|keys|] == keys;
    return Ok(script + [OpNum(|keys|), OP_CHECKMULTISIG]);
  }

  lemma {:induction false} PushesInjective(a: seq<PubKey>, b: seq<PubKey>)
    requires Pushes(a) == Pushes(b)
    ensures a == b
  {
    PushesLength(a);
    PushesLength(b);
    if a != [] {
      var n := |a| - 1;
      var front, front' := Pushes(a[..n]), Pushes(b[..n]);
      PushesLength(a[..n]);
      PushesLength(b[..n]);
      assert a[n] == Pushes(a)[34 * n + 1..] == Pushes(b)[34 * n + 1..] == b[n];
      assert front == Pushes(a)[..34 * n] == Pushes(b)[..34 * n] == front';
      PushesInjective(a[..n], b[..n]);
      assert a == a[..n] + [a[n]] && b == b[..n] + [b[n]];
    }
  }

  lemma {:induction false} PushesLength(keys: seq<PubKey>)
    ensures |Pushes(keys)| == 34 * |keys|
  {
    if keys != [] {
      PushesLength(keys[..|keys| - 1]);
    }
  }

  /** A script is the script of only one threshold and one key list. */
  lemma ScriptDeterminesKeys(k: nat, a: seq<PubKey>, l: nat, b: seq<PubKey>)
    requires CheckmultisigScript(k, a).Ok? && CheckmultisigScript(l, b) == CheckmultisigScript(k, a)
    ensures k == l && a == b
  {
    hide Pushes;
    PushesLength(a);
    PushesLength(b);
    var s := CheckmultisigScript(k, a).value;
    assert s[0] == OpNum(k) && s[0] == OpNum(l);
    assert Pushes(a) == s[1..|s| - 2] == Pushes(b);
    PushesInjective(a, b);
  }

  /** The P2WSH output script: version 0 and the hash of the witness script. */
  function P2wsh(c: Curve, script: Bytes): Bytes {
    [0x00, 0x20] + c.sha256(script)
  }

  // --- A whole output ------------------------------------------------------

  function DeriveChildren(c: Curve, d: ParsedDescriptor, index: u32): (r: Result<seq<DerivedChild>, DeriveError>)
    ensures r.Ok? ==> |r.value| == 3
  {
    var c0 :- DeriveChild(c, d.keys[0], index);
    var c1 :- DeriveChild(c, d.keys[1], index);
    var c2 :- DeriveChild(c, d.keys[2], index);
    Ok([c0, c1, c2])
  }

  function PublicKeys(children: seq<DerivedChild>): (r: seq<PubKey>)
    ensures |r| == |children|
  {
    seq(|children|, i requires 0 <= i < |children| => children[i].publicKey)
  }

  /** `derive_at`. */
  function DeriveAt(c: Curve, d: ParsedDescriptor, index: u32): (r: Result<DerivedOutput, DeriveError>)
    ensures r.Ok? ==> |r.value.children| == |r.value.sortedPubkeys| == 3
    ensures r.Ok? ==> Ascending(r.value.sortedPubkeys)
    ensures r.Ok? ==> multiset(r.value.sortedPubkeys) == multiset(PublicKeys(r.value.children))
    ensures r.Ok? ==> CheckmultisigScript(2, r.value.sortedPubkeys) == Ok(r.value.witnessScript)
    ensures r.Ok? ==> r.value.scriptPubkey == P2wsh(c, r.value.witnessScript)
  {
    var children :- DeriveChildren(c, d, index);
    var sorted := Sorted(PublicKeys(children));
    var script :- CheckmultisigScript(2, sorted);
    Ok(DerivedOutput(children, sorted, script, P2wsh(c, script)))
  }

  // --- Permuting the key expressions ---------------------------------------

  /** The public keys derived from some key expressions, when all of them derive. */
  predicate AllDerive(c: Curve, keys: seq<KeyExpr>, index: u32) {
    forall i :: 0 <= i < |keys| ==> DeriveChild(c, keys[i], index).Ok?
  }

  function KeysOf(c: Curve, keys: seq<KeyExpr>, index: u32): seq<PubKey>
    requires AllDerive(c, keys, index)
  {
    if keys == [] then []
    else [DeriveChild(c, keys[0], index).value.publicKey] + KeysOf(c, keys[1..], index)
  }

  lemma {:induction false} ThreeKeys(c: Curve, d: ParsedDescriptor, index: u32)
    ensures DeriveChildren(c, d, index).Ok? <==> AllDerive(c, d.keys, index)
    ensures DeriveChildren(c, d, index).Ok? ==>
              PublicKeys(DeriveChildren(c, d, index).value) == KeysOf(c, d.keys, index)
  {
    hide DeriveChild;
    if DeriveChildren(c, d, index).Ok? {
      assert AllDerive(c, d.keys, index);
      assert d.keys[1..][1..] == d.keys[2..] && d.keys[2..][1..] == [];
      assert KeysOf(c, d.keys[2..], index) == [DeriveChild(c, d.keys[2], index).value.publicKey];
    }
  }

  lemma SameMembers(c: Curve, a: seq<KeyExpr>, b: seq<KeyExpr>, index: u32)
    requires multiset(a) == multiset(b) && AllDerive(c, a, index)
    ensures AllDerive(c, b, index)
  {
    hide DeriveChild;
    forall i | 0 <= i < |b| ensures DeriveChild(c, b[i], index).Ok? {
      assert b[i] in multiset(a);
      assert b[i] in a;
    }
  }

  function Without(keys: seq<KeyExpr>, k: nat): seq<KeyExpr>
    requires k < |keys|
  {
    keys[..k] + keys[k + 1..]
  }

  lemma WithoutMembers(keys: seq<KeyExpr>, k: nat)
    requires k < |keys|
    ensures multiset(Without(keys, k)) == multiset(keys) - multiset{keys[k]}
  {
    assert keys == keys[..k] + [keys[k]] + keys[k + 1..];
  }

  lemma {:induction false} KeyTakenOut(c: Curve, keys: seq<KeyExpr>, k: nat, index: u32)
    requires k < |keys| && AllDerive(c, keys, index)
    ensures AllDerive(c, Without(keys, k), index)
    ensures multiset(KeysOf(c, keys, index))
            == multiset(KeysOf(c, Without(keys, k), index)) + multiset{DeriveChild(c, keys[k], index).value.publicKey}
  {
    hide DeriveChild;
    var front, back := keys[..k], keys[k..];
    assert keys == front + back && back[0] == keys[k] && back[1..] == keys[k + 1..];
    KeysConcat(c, front, back, index);
    KeysConcat(c, front, keys[k + 1..], index);
  }

  /** Reordering key expressions reorders the derived keys. */
  lemma {:induction false} KeysPermute(c: Curve, a: seq<KeyExpr>, b: seq<KeyExpr>, index: u32)
    requires multiset(a) == multiset(b) && AllDerive(c, a, index) && AllDerive(c, b, index)
    ensures multiset(KeysOf(c, a, index)) == multiset(KeysOf(c, b, index))
    decreases |a|
  {
    hide *;
    if a == [] {
      assert |multiset(b)| == 0;
      assert b == [];
    } else {
      assert a[0] in multiset(b);
      var k :| 0 <= k < |b| && b[k] == a[0];
      WithoutMembers(a, 0);
      WithoutMembers(b, k);
      KeyTakenOut(c, a, 0, index);
      KeyTakenOut(c, b, k, index);
      WithoutShorter(a, 0);
      KeysPermute(c, Without(a, 0), Without(b, k), index);
    }
  }

  lemma WithoutShorter(keys: seq<KeyExpr>, k: nat)
    requires k < |keys|
    ensures |Without(keys, k)| < |keys|
  {
  }

  lemma {:induction false} KeysConcat(c: Curve, a: seq<KeyExpr>, b: seq<KeyExpr>, index: u32)
    requires AllDerive(c, a, index) && AllDerive(c, b, index)
    ensures KeysOf(c, a + b, index) == KeysOf(c, a, index) + KeysOf(c, b, index)
  {
    hide DeriveChild;
    if a == [] {
      assert a + b == b;
    } else {
      KeysConcat(c, a[1..], b, index);
      assert (a + b)[1..] == a[1..] + b;
    }
  }

  /** Permuting the three key expressions changes neither whether an index derives nor the sorted
      keys, the witness script and the output script it derives to. */
  lemma PermutedDescriptor(c: Curve, d: ParsedDescriptor, e: ParsedDescriptor, index: u32)
    requires multiset(d.keys) == multiset(e.keys)
    ensures DeriveAt(c, d, index).Ok? <==> DeriveAt(c, e, index).Ok?
    ensures DeriveAt(c, d, index).Ok? ==>
              var o, o' := DeriveAt(c, d, index).value, DeriveAt(c, e, index).value;
              && o.sortedPubkeys == o'.sortedPubkeys
              && o.witnessScript == o'.witnessScript
              && o.scriptPubkey == o'.scriptPubkey
  {
    hide DeriveChild, DeriveChildren, KeysOf, CheckmultisigScript, Sorted;
    ThreeKeys(c, d, index);
    ThreeKeys(c, e, index);
    if AllDerive(c, d.keys, index) {
      SameMembers(c, d.keys, e.keys, index);
    }
    if AllDerive(c, e.keys, index) {
      SameMembers(c, e.keys, d.keys, index);
    }
    if DeriveChildren(c, d, index).Ok? {
      KeysPermute(c, d.keys, e.keys, index);
      SortedPermutation(KeysOf(c, d.keys, index), KeysOf(c, e.keys, index));
    }
  }

  /** Two descriptors that derive to the same witness script derive to the same three keys. */
  lemma WitnessScriptDeterminesKeys(c: Curve, d: ParsedDescriptor, i: u32, e: ParsedDescriptor, j: u32)
    requires DeriveAt(c, d, i).Ok? && DeriveAt(c, e, j).Ok?
    requires DeriveAt(c, d, i).value.witnessScript == DeriveAt(c, e, j).value.witnessScript
    ensures multiset(PublicKeys(DeriveAt(c, d, i).value.children))
            == multiset(PublicKeys(DeriveAt(c, e, j).value.children))
  {
    hide DeriveChildren, CheckmultisigScript, Sorted;
    ScriptDeterminesKeys(2, DeriveAt(c, d, i).value.sortedPubkeys, 2, DeriveAt(c, e, j).value.sortedPubkeys);
  }
}
