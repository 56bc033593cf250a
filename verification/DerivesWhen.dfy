/** When an address derives and to which bytes: the BIP-32 public step, the child of a key expression and
    the output of an index, both ways; and which error answers which fault. */
module DerivesWhen {
  import opened Machine
  import opened Errors
  import opened Bitcoin
  import opened Order
  import opened Bip67
  import opened Division
  import opened Descriptor
  import opened Derive

  // --- One public step -----------------------------------------------------

  function Number(b0: int, b1: int, b2: int, b3: int): int {
    0x100_0000 * b0 + 0x1_0000 * b1 + 0x100 * b2 + b3
  }

  /** Section "Conventions" of BIP-32: four bytes, the most significant first. */
  predicate Ser32(i: u32, bytes: Bytes) {
    |bytes| == 4 && Number(bytes[0], bytes[1], bytes[2], bytes[3]) == i
  }

  lemma BigEndianIff(i: u32, bytes: Bytes)
    ensures BigEndian32(i) == bytes <==> Ser32(i, bytes)
  {
    var own := BigEndian32(i);
    DigitsAdd(i);
    hide Number;
    if Ser32(i, bytes) {
      SameDigits(own[0], own[1], own[2], own[3], bytes[0], bytes[1], bytes[2], bytes[3]);
      assert own == bytes;
    }
  }

  lemma DigitsAdd(i: u32)
    ensures var own := BigEndian32(i); Number(own[0], own[1], own[2], own[3]) == i
  {
    var a, b, c := i / 0x100_0000, i / 0x1_0000, i / 0x100;
    DivideTwice(i, 0x1_0000, 0x100);
    DivideTwice(i, 0x100, 0x100);
    assert a == b / 0x100 && b == c / 0x100;
  }

  lemma SameDigits(a0: u8, a1: u8, a2: u8, a3: u8, b0: u8, b1: u8, b2: u8, b3: u8)
    requires Number(a0, a1, a2, a3) == Number(b0, b1, b2, b3)
    ensures a0 == b0 && a1 == b1 && a2 == b2 && a3 == b3
  {
  }

  /** The hash of the parent splits into the tweak that is added and the child's chain code. */
  predicate Steps(c: Curve, chain: ChainCode, key: PubKey, index: u32, child: ChildKey, ser: Bytes, tweak: Hash256) {
    && index < 0x8000_0000 && c.isPoint(key) && Ser32(index, ser)
    && c.hmacSha512(chain, key + ser) == tweak + child.chainCode
    && c.isScalar(tweak) && c.addTweak(key, tweak) == Some(child.publicKey)
  }

  /** Section "Public parent key to public child key" of BIP-32. */
  lemma CkdPubIff(c: Curve, chain: ChainCode, key: PubKey, index: u32, child: ChildKey)
    ensures CkdPub(c, chain, key, index) == Ok(child)
            <==> exists ser, tweak: Hash256 :: Steps(c, chain, key, index, child, ser, tweak)
  {
    var own := BigEndian32(index);
    BigEndianIff(index, own);
    hide BigEndian32;
    var i := c.hmacSha512(chain, key + own);
    assert i == i[..32] + i[32..];
    if CkdPub(c, chain, key, index) == Ok(child) {
      assert Steps(c, chain, key, index, child, own, i[..32]);
    }
    if ser, tweak: Hash256 :| Steps(c, chain, key, index, child, ser, tweak) {
      BigEndianIff(index, ser);
      assert (tweak + child.chainCode)[..32] == tweak && (tweak + child.chainCode)[32..] == child.chainCode;
    }
  }

  /** A hardened index first, then a key off the curve, then the tweak. */
  lemma CkdPubRefuses(c: Curve, chain: ChainCode, key: PubKey, index: u32)
    ensures var r := CkdPub(c, chain, key, index);
            && (r == Err(HardenedIndex(index)) <==> index >= 0x8000_0000)
            && (r == Err(InvalidPublicKey) <==> index < 0x8000_0000 && !c.isPoint(key))
            && (r.Err? && index < 0x8000_0000 && c.isPoint(key) ==> r == Err(InvalidTweak))
  {
  }

  // --- The child of a key expression ---------------------------------------

  /** The child of an index: two steps from the account key, the branch and then the index, to a point. */
  ghost predicate ChildOf(c: Curve, key: KeyExpr, index: u32, child: DerivedChild, mid: ChildKey) {
    && c.decodeXpub(key.xpub).Some?
    && var (chain, pk) := c.decodeXpub(key.xpub).value;
       && CkdPub(c, chain, pk, if key.derivation == Internal then 1 else 0) == Ok(mid)
       && CkdPub(c, mid.chainCode, mid.publicKey, index) == Ok(ChildKey(child.chainCode, child.publicKey))
       && c.isPoint(child.publicKey)
       && child == DerivedChild(key.fingerprint, key.derivation, index, child.publicKey, child.chainCode)
  }

  lemma DeriveChildIff(c: Curve, key: KeyExpr, index: u32, child: DerivedChild)
    ensures DeriveChild(c, key, index) == Ok(child) <==> exists mid :: ChildOf(c, key, index, child, mid)
  {
    if mid :| ChildOf(c, key, index, child, mid) {
      CkdPubRefuses(c, mid.chainCode, mid.publicKey, index);
    }
    hide CkdPub;
    if DeriveChild(c, key, index) == Ok(child) {
      var (chain, pk) := c.decodeXpub(key.xpub).value;
      var mid := CkdPub(c, chain, pk, if key.derivation.External? then 0 else 1).value;
      assert ChildOf(c, key, index, child, mid);
    }
  }

  lemma DeriveChildRefuses(c: Curve, key: KeyExpr, index: u32)
    ensures var r := DeriveChild(c, key, index);
            && (r == Err(HardenedIndex(index)) <==> index >= 0x8000_0000)
            && (r == Err(UndecodableXpub) <==> index < 0x8000_0000 && c.decodeXpub(key.xpub).None?)
            && (index < 0x8000_0000 && c.decodeXpub(key.xpub).Some? && r.Err? ==>
                  r == Err(InvalidPublicKey) || r == Err(InvalidTweak))
  {
    if c.decodeXpub(key.xpub).Some? {
      var (chain, pk) := c.decodeXpub(key.xpub).value;
      var b: u32 := if key.derivation.External? then 0 else 1;
      CkdPubRefuses(c, chain, pk, b);
      if CkdPub(c, chain, pk, b).Ok? {
        var mid := CkdPub(c, chain, pk, b).value;
        CkdPubRefuses(c, mid.chainCode, mid.publicKey, index);
      }
    }
    hide CkdPub;
  }

  // --- The script ----------------------------------------------------------

  lemma {:induction false} PushAt(keys: seq<PubKey>, j: nat)
    requires j < |keys|
    ensures |Pushes(keys)| == 34 * |keys|
    ensures Pushes(keys)[34 * j] == 0x21 && Pushes(keys)[34 * j + 1..34 * j + 34] == keys[j]
  {
    PushesLength(keys);
    var n := |keys| - 1;
    PushesLength(keys[..n]);
    if j < n {
      PushAt(keys[..n], j);
    }
  }

  /** Byte by byte: the threshold, each key behind its length, the number of keys, `OP_CHECKMULTISIG`. */
  lemma ScriptLayout(k: nat, keys: seq<PubKey>, j: nat)
    requires CheckmultisigScript(k, keys).Ok? && j < |keys|
    ensures var s, at := CheckmultisigScript(k, keys).value, 1 + 34 * j;
            && |s| == 34 * |keys| + 3
            && s[0] == 0x50 + k
            && s[at] == 0x21 && s[at + 1..at + 34] == keys[j]
            && s[|s| - 2] == 0x50 + |keys| && s[|s| - 1] == 0xae
  {
    PushAt(keys, j);
    hide Pushes;
    var s, pushes := CheckmultisigScript(k, keys).value, Pushes(keys);
    var at := 34 * j;
    assert s[1 + at] == pushes[at];
    assert s[2 + at..1 + at + 34] == pushes[at + 1..at + 34];
  }

  /** The parameters first, then the first key that is not compressed. */
  lemma ScriptRefuses(k: nat, keys: seq<PubKey>)
    ensures var r := CheckmultisigScript(k, keys);
            && (r == Err(InvalidMultisigParams(k, |keys|)) <==> !(1 <= k <= |keys| <= 16))
            && (1 <= k <= |keys| <= 16 ==>
                  forall i :: 0 <= i < |keys| ==>
                    (r == Err(InvalidCompressedPubkey(i))
                     <==> keys[i][0] !in {2, 3} && forall j :: 0 <= j < i ==> keys[j][0] in {2, 3}))
  {
    forall i | 0 <= i < |keys|
      ensures FirstUncompressed(keys, 0) == Some(i)
              <==> keys[i][0] !in {2, 3} && forall j :: 0 <= j < i ==> keys[j][0] in {2, 3}
    {
      FirstUncompressedIff(keys, 0, i);
    }
  }

  lemma {:induction false} FirstUncompressedIff(keys: seq<PubKey>, from: nat, i: nat)
    requires from <= |keys|
    ensures FirstUncompressed(keys, from) == Some(i)
            <==> from <= i < |keys| && keys[i][0] !in {2, 3} && forall j :: from <= j < i ==> keys[j][0] in {2, 3}
    decreases |keys| - from
  {
    if from < |keys| {
      FirstUncompressedIff(keys, from + 1, i);
    }
  }

  // --- The output of an index ----------------------------------------------

  /** The output of an index: the children of the three key expressions in their order, their keys in
      ascending order, the 2-of-3 script of these and the version-0 program of its hash. */
  ghost predicate OutputAt(c: Curve, d: ParsedDescriptor, index: u32, o: DerivedOutput) {
    && |o.children| == 3
    && (forall j :: 0 <= j < 3 ==> DeriveChild(c, d.keys[j], index) == Ok(o.children[j]))
    && Ascending(o.sortedPubkeys) && multiset(o.sortedPubkeys) == multiset(PublicKeys(o.children))
    && CheckmultisigScript(2, o.sortedPubkeys) == Ok(o.witnessScript)
    && |o.scriptPubkey| == 34 && o.scriptPubkey[..2] == [0, 32] && o.scriptPubkey[2..] == c.sha256(o.witnessScript)
  }

  lemma DeriveAtIff(c: Curve, d: ParsedDescriptor, index: u32, o: DerivedOutput)
    ensures DeriveAt(c, d, index) == Ok(o) <==> OutputAt(c, d, index, o)
  {
    hide DeriveChild, CheckmultisigScript, Sorted, Ascending;
    if OutputAt(c, d, index, o) {
      assert DeriveChild(c, d.keys[0], index) == Ok(o.children[0])
          && DeriveChild(c, d.keys[1], index) == Ok(o.children[1])
          && DeriveChild(c, d.keys[2], index) == Ok(o.children[2]);
      assert DeriveChildren(c, d, index).value == o.children;
      SortIsUnique(o.sortedPubkeys, Sorted(PublicKeys(o.children)));
      assert o.scriptPubkey == o.scriptPubkey[..2] + o.scriptPubkey[2..];
    }
  }

  /** The first key expression that does not derive gives the error. */
  lemma DeriveAtRefuses(c: Curve, d: ParsedDescriptor, index: u32, j: nat)
    requires j < 3 && DeriveChild(c, d.keys[j], index).Err?
    requires forall i :: 0 <= i < j ==> DeriveChild(c, d.keys[i], index).Ok?
    ensures DeriveAt(c, d, index) == Err(DeriveChild(c, d.keys[j], index).error)
  {
    hide DeriveChild, CheckmultisigScript, Sorted;
    assert j > 0 ==> DeriveChild(c, d.keys[0], index).Ok?;
    assert j > 1 ==> DeriveChild(c, d.keys[1], index).Ok?;
  }
}
