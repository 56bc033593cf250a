/** A wallet whose origins are written with `m/`: whatever honest spend the verifier accepts of it
    without the prefix makes it panic with the prefix, as soon as there is change. */
module PrefixedWallet {
  import opened Machine
  import opened Errors
  import opened Bitcoin
  import opened Order
  import opened Bip67
  import opened Checksum
  import opened Descriptor
  import opened Derive
  import opened Psbts
  import opened IndexSearch
  import opened Verify
  import opened VerifyMeaning
  import opened VerifyPanics
  import OriginPath

  // --- Honest change -------------------------------------------------------

  /** The same key expressions with their origins written without `m/`. */
  function Unprefixed(d: ParsedDescriptor): ParsedDescriptor {
    d.(keys := seq(3, i requires 0 <= i < 3 => d.keys[i].(originPath := OriginPath.Trimmed(d.keys[i].originPath))))
  }

  lemma SameChild(c: Curve, key: KeyExpr, origin: string, index: u32)
    ensures DeriveChild(c, key.(originPath := origin), index) == DeriveChild(c, key, index)
  {
    hide CkdPub;
  }

  /** Derivation never looks at an origin. */
  lemma SameOutput(c: Curve, d: ParsedDescriptor, index: u32)
    ensures DeriveAt(c, Unprefixed(d), index) == DeriveAt(c, d, index)
  {
    hide DeriveChild, CheckmultisigScript, Sorted, PublicKeys, P2wsh, OriginPath.Trimmed, Ascending;
    SameChild(c, d.keys[0], Unprefixed(d).keys[0].originPath, index);
    SameChild(c, d.keys[1], Unprefixed(d).keys[1].originPath, index);
    SameChild(c, d.keys[2], Unprefixed(d).keys[2].originPath, index);
  }

  /** A map the verifier accepts as change of a wallet makes it panic when that same wallet's
      origins are written with `m/`. */
  lemma HonestChangePanics(c: Curve, derivation: Derivation, d: ParsedDescriptor, index: u32)
    requires OriginsParsed(d) && (forall k :: 0 <= k < 3 ==> "m/" <= d.keys[k].originPath)
    requires V4(c, derivation, Unprefixed(d), index).Passes?
    ensures V4(c, derivation, d, index).Panics?
  {
    hide DeriveAt, V4, OriginSteps, OriginPath.Validated, KeySet, MapKeys, PublicKeys, OriginPath.Trimmed;
    V4Iff(c, derivation, Unprefixed(d), index);
    SameOutput(c, d, index);
    assert ChangePath(Unprefixed(d), derivation[0], index);
    assert PrefixedEntry(d, derivation[0], index);
    assert PanickingMap(c, derivation, d, index, 0);
    PrefixedOrigins(c, derivation, d, index);
  }

  // --- A whole call --------------------------------------------------------

  predicate AllPrefixed(d: ParsedDescriptor) {
    forall k :: 0 <= k < 3 ==> "m/" <= d.keys[k].originPath
  }

  /** An output that goes to no declared recipient. */
  predicate Undeclared(h: Host, psbt: Psbt, policy: VerifyPolicy, i: nat)
    requires SameShape(psbt)
  {
    && i < |psbt.outputs|
    && var address := h.address(policy.network, psbt.tx.outputs[i].scriptPubkey);
       address.Some? && !IsDeclared(policy, address.value)
  }

  lemma SameWallet(c: Curve, d: ParsedDescriptor, script: Bytes, gap: u32)
    ensures forall i: u32 :: Matches(c, Unprefixed(d), script, i) <==> Matches(c, d, script, i)
    ensures Derivable(c, Unprefixed(d), gap) <==> Derivable(c, d, gap)
    ensures Owned(c, Unprefixed(d), script, gap) <==> Owned(c, d, script, gap)
  {
    forall i: u32 ensures DeriveAt(c, Unprefixed(d), i) == DeriveAt(c, d, i) {
      SameOutput(c, d, i);
    }
    hide DeriveAt, Unprefixed;
  }

  lemma SameInputs(h: Host, psbt: Psbt, receive: ParsedDescriptor, change: ParsedDescriptor, policy: VerifyPolicy,
                   plain: string)
    requires InputsOk(h, psbt, Unprefixed(receive), Some(Unprefixed(change)), policy.(changeDescriptor := Some(plain)))
    ensures InputsOk(h, psbt, receive, Some(change), policy)
  {
    hide Owned, Unprefixed, Unsigned, NoProprietary;
    forall k | 0 <= k < |psbt.inputs|
      ensures KnownAs(policy, psbt.tx.inputs[k], psbt.inputs[k].witnessUtxo.value)
      ensures InWallet(h.curve, psbt.inputs[k].witnessUtxo.value.scriptPubkey, receive, Some(change), policy.gapLimit)
    {
      var script := psbt.inputs[k].witnessUtxo.value.scriptPubkey;
      assert KnownAs(policy.(changeDescriptor := Some(plain)), psbt.tx.inputs[k], psbt.inputs[k].witnessUtxo.value);
      assert InWallet(h.curve, script, Unprefixed(receive), Some(Unprefixed(change)), policy.gapLimit);
      SameWallet(h.curve, receive, script, policy.gapLimit);
      SameWallet(h.curve, change, script, policy.gapLimit);
    }
  }

  /** Change that is accepted without the prefix is found at the index its map names, and that map
      makes V4 panic. */
  lemma ChangePanics(c: Curve, derivation: Derivation, d: ParsedDescriptor, script: Bytes, gap: u32)
    requires OriginsParsed(d) && AllPrefixed(d) && IsChange(c, derivation, Unprefixed(d), script, gap)
    ensures PanickingChange(c, derivation, d, script, gap)
  {
    hide DeriveAt, V4, OriginsParsed, ChangeMap, Unprefixed, PanickingMap, HintOf;
    var plain := Unprefixed(d);
    var index: u32 :| index < gap && Matches(c, plain, script, index) && ChangeMap(c, derivation, plain, index);
    ChangeMapIsHint(c, derivation, plain, index);
    SameWallet(c, d, script, gap);
    V4Iff(c, derivation, plain, index);
    HonestChangePanics(c, derivation, d, index);
    PrefixedOrigins(c, derivation, d, index);
    var at: nat :| PanickingMap(c, derivation, d, index, at);
    assert FoundAt(c, d, script, gap, HintOf(derivation), index);
  }

  lemma DeclaredIsOk(h: Host, psbt: Psbt, receive: ParsedDescriptor, change: ParsedDescriptor, policy: VerifyPolicy,
                     plain: string, i: nat)
    requires SameShape(psbt) && i < |psbt.outputs|
    requires OutputOk(h, psbt, Some(Unprefixed(change)), policy.(changeDescriptor := Some(plain)), i)
    requires OriginsParsed(change) && AllPrefixed(change)
    ensures Undeclared(h, psbt, policy, i) ==> PanickingOutput(h, psbt, Some(change), policy, i)
    ensures !Undeclared(h, psbt, policy, i) ==> OutputOk(h, psbt, Some(change), policy, i)
  {
    hide IsChange, PanickingChange, OriginsParsed, AllPrefixed, Unprefixed, EqualIgnoringCase;
    if Undeclared(h, psbt, policy, i) {
      ChangePanics(h.curve, psbt.outputs[i].derivation, change, psbt.tx.outputs[i].scriptPubkey, policy.gapLimit);
    }
  }

  lemma {:induction false} FirstUndeclared(h: Host, psbt: Psbt, policy: VerifyPolicy, i: nat) returns (first: nat)
    requires SameShape(psbt) && Undeclared(h, psbt, policy, i)
    ensures first <= i && Undeclared(h, psbt, policy, first)
    ensures forall k: nat :: k < first ==> !Undeclared(h, psbt, policy, k)
  {
    hide Undeclared;
    first := i;
    if k: nat :| k < i && Undeclared(h, psbt, policy, k) {
      first := FirstUndeclared(h, psbt, policy, k);
    }
  }

  lemma OutputsPanic(h: Host, psbt: Psbt, receive: ParsedDescriptor, change: ParsedDescriptor, policy: VerifyPolicy,
                     plain: string)
    requires SameShape(psbt) && OriginsParsed(change) && AllPrefixed(change)
    requires forall i :: 0 <= i < |psbt.outputs| ==>
               OutputOk(h, psbt, Some(Unprefixed(change)), policy.(changeDescriptor := Some(plain)), i)
    ensures (exists i: nat :: PanicsAt(h, psbt, Some(change), policy, 0, i))
            <==> exists i: nat :: Undeclared(h, psbt, policy, i)
  {
    hide OutputOk, PanickingOutput, Undeclared, OriginsParsed, AllPrefixed, Unprefixed;
    forall i: nat | i < |psbt.outputs|
      ensures Undeclared(h, psbt, policy, i) ==> PanickingOutput(h, psbt, Some(change), policy, i)
      ensures !Undeclared(h, psbt, policy, i) ==> OutputOk(h, psbt, Some(change), policy, i)
    {
      DeclaredIsOk(h, psbt, receive, change, policy, plain, i);
    }
    if i: nat :| PanicsAt(h, psbt, Some(change), policy, 0, i) {
      PanicIsUndeclared(h, psbt, change, policy, i);
    }
    if i: nat :| Undeclared(h, psbt, policy, i) {
      var first := FirstUndeclared(h, psbt, policy, i);
      UndeclaredBound(h, psbt, policy, first);
      assert PanicsAt(h, psbt, Some(change), policy, 0, first);
    }
  }

  lemma PanicIsUndeclared(h: Host, psbt: Psbt, change: ParsedDescriptor, policy: VerifyPolicy, i: nat)
    requires SameShape(psbt) && PanicsAt(h, psbt, Some(change), policy, 0, i)
    ensures Undeclared(h, psbt, policy, i)
  {
    hide OutputOk, PanickingChange;
  }

  lemma UndeclaredBound(h: Host, psbt: Psbt, policy: VerifyPolicy, i: nat)
    requires SameShape(psbt) && Undeclared(h, psbt, policy, i)
    ensures i < |psbt.outputs|
  {
  }

  /** Any spend the verifier accepts of a wallet written without `m/` makes it panic, when the same
      wallet is written with `m/`, exactly if some output goes to no declared recipient. */
  lemma HonestSpendPanicsIff(h: Host, psbt: Psbt, descriptor: string, policy: VerifyPolicy, receive: ParsedDescriptor,
                             change: ParsedDescriptor, plainReceive: string, plainChange: string)
    requires ParsedWith(h.curve, descriptor) == Ok(receive) && ParsedChange(h.curve, policy) == Ok(Some(change))
    requires AllPrefixed(change) && WindowDerives(h.curve, receive, Some(change), policy.gapLimit)
    requires ParsedWith(h.curve, plainReceive) == Ok(Unprefixed(receive))
    requires ParsedWith(h.curve, plainChange) == Ok(Unprefixed(change))
    requires Verdict(h, psbt, plainReceive, policy.(changeDescriptor := Some(plainChange))).Ok?
    ensures SameShape(psbt)
    ensures Verdict(h, psbt, descriptor, policy) == Err(VerifierPanics)
            <==> exists i: nat :: Undeclared(h, psbt, policy, i)
  {
    var plain := policy.(changeDescriptor := Some(plainChange));
    ParsedOrigins(h.curve, policy.changeDescriptor.value, change);
    assert ParsedChange(h.curve, plain) == Ok(Some(Unprefixed(change)));
    hide ParsedWith, ParsedChange, Verdict, OriginsParsed, AllPrefixed, Unprefixed, PanicsAt, Undeclared, OutputOk,
         Derivable, SignaturesOk, Funded, DeclaredSum, InputsOk;
    SameWallet(h.curve, receive, [], policy.gapLimit);
    SameWallet(h.curve, change, [], policy.gapLimit);
    AcceptedIff(h, psbt, plainReceive, plain, Unprefixed(receive), Some(Unprefixed(change)));
    SameInputs(h, psbt, receive, change, policy, plainChange);
    ShapeOf(h, psbt, receive, Some(change), policy);
    OutputsPanic(h, psbt, receive, change, policy, plainChange);
    VerdictPanicsIff(h, psbt, descriptor, policy, receive, Some(change));
  }

  lemma ShapeOf(h: Host, psbt: Psbt, receive: ParsedDescriptor, change: Option<ParsedDescriptor>, policy: VerifyPolicy)
    requires InputsOk(h, psbt, receive, change, policy)
    ensures SameShape(psbt)
  {
  }

  // --- One such wallet -----------------------------------------------------

  /** A curve on which every key decodes and every tweak leaves a key as it is. */
  function SampleCurve(): Curve {
    Curve((xpub: string) => Some((seq(32, _ => 0), SampleRoot(|xpub|))),
          (key: PubKey) => true,
          (chain: Bytes, data: Bytes) => seq(64, _ => 0),
          (tweak: Hash256) => true,
          (key: PubKey, tweak: Hash256) => Some(key),
          (data: Bytes) => seq(32, _ => 0))
  }

  function SampleRoot(n: nat): PubKey {
    if 4 <= n < 260 then ToyKey(n - 4) else ToyKey(0)
  }

  function SampleOrigin(): string {
    "m/48'/0'/0'/2'"
  }

  function SampleKey(n: u8, b: Branch): (key: KeyExpr)
    ensures |key.xpub| == n + 4
  {
    KeyExpr([n, 0, 0, 0], SampleOrigin(), "xpub" + seq(n, _ => 'x'), b)
  }

  function SampleDescriptor(b: Branch): ParsedDescriptor {
    ParsedDescriptor(2, [SampleKey(1, b), SampleKey(2, b), SampleKey(3, b)])
  }

  function SampleKeys(): (keys: seq<PubKey>)
    ensures |keys| == 3 && forall i :: 0 <= i < 3 ==> Compressed(keys[i])
  {
    [ToyKey(1), ToyKey(2), ToyKey(3)]
  }

  function SampleSteps(): seq<ChildNumber> {
    [Hardened(48), Hardened(0), Hardened(0), Hardened(2)]
  }

  function SampleEntry(n: u8, index: u32): KeyOrigin {
    KeyOrigin(ToyKey(n), [n, 0, 0, 0], SampleSteps() + [Normal(1), Normal(index)])
  }

  function SampleMap(index: u32): Derivation {
    ToyLess(1, 2);
    ToyLess(1, 3);
    ToyLess(2, 3);
    hide ToyKey, LexLess;
    [SampleEntry(1, index), SampleEntry(2, index), SampleEntry(3, index)]
  }

  lemma SampleChild(n: u8, b: Branch, index: u32)
    requires index < 0x8000_0000
    ensures var r := DeriveChild(SampleCurve(), SampleKey(n, b), index);
            r.Ok? && r.value.publicKey == ToyKey(n)
  {
    hide ToyKey, SampleKey;
  }

  lemma OutputOf(c: Curve, d: ParsedDescriptor, index: u32, keys: seq<PubKey>)
    requires |keys| == 3
    requires forall i :: 0 <= i < 3 ==>
               && Compressed(keys[i]) && DeriveChild(c, d.keys[i], index).Ok?
               && DeriveChild(c, d.keys[i], index).value.publicKey == keys[i]
    ensures DeriveAt(c, d, index).Ok? && PublicKeys(DeriveAt(c, d, index).value.children) == keys
  {
    hide Sorted, DeriveChild, Compressed, P2wsh, CheckmultisigScript;
    var children := DeriveChildren(c, d, index).value;
    assert PublicKeys(children) == keys;
    var sorted := Sorted(keys);
    forall i | 0 <= i < |sorted| ensures Compressed(sorted[i]) {
      assert sorted[i] in multiset(sorted);
      assert sorted[i] in keys;
    }
  }

  lemma SampleOutput(b: Branch, index: u32)
    requires index < 0x8000_0000
    ensures var o := DeriveAt(SampleCurve(), SampleDescriptor(b), index);
            && o.Ok? && PublicKeys(o.value.children) == SampleKeys()
  {
    hide DeriveAt, DeriveChild, SampleKey, SampleCurve, PublicKeys;
    SampleChild(1, b, index);
    SampleChild(2, b, index);
    SampleChild(3, b, index);
    OutputOf(SampleCurve(), SampleDescriptor(b), index, SampleKeys());
  }

  lemma SampleOriginSteps()
    ensures OriginPath.Validated(SampleOrigin()).Ok? && "m/" <= SampleOrigin()
    ensures OriginSteps(OriginPath.Trimmed(SampleOrigin())) == Some(SampleSteps())
  {
    hide OriginPath.Validated, OriginPath.SegmentIndex, OriginPath.Split;
    var p, z, s := "48'", "0'", "2'";
    assert SampleOrigin() == "m/" + OriginPath.Path4(p, z, z, s);
    OriginPath.WrittenIsValid(SampleOrigin(), p, z, z, s);
    OriginPath.TrimmedForms(p, z, z, s);
    OriginPath.SplitPath4(p, z, z, s);
    OriginPath.Bip48Indices(p, z, z, s);
    OriginPath.SmallSegment(z, 0);
    StepsOfFour([p, z, z, s]);
  }

  lemma PathOf(d: ParsedDescriptor, e: KeyOrigin, n: nat, steps: seq<ChildNumber>, index: u32)
    requires n < 3 && e.fingerprint == d.keys[n].fingerprint
    requires forall i, j :: 0 <= i < j < 3 ==> d.keys[i].fingerprint != d.keys[j].fingerprint
    requires OriginSteps(OriginPath.Trimmed(d.keys[n].originPath)) == Some(steps) && |steps| == 4
    requires e.path == steps + [Normal(1), Normal(index)]
    ensures ChangePath(Unprefixed(d), e, index)
  {
    hide OriginSteps, OriginPath.Trimmed;
    assert Unprefixed(d).keys[n].originPath == OriginPath.Trimmed(d.keys[n].originPath);
  }

  lemma SampleDescribes(b: Branch)
    ensures var d := SampleDescriptor(b);
            && (forall i, j :: 0 <= i < j < 3 ==> d.keys[i].fingerprint != d.keys[j].fingerprint)
            && (forall i :: 0 <= i < 3 ==> d.keys[i].originPath == SampleOrigin())
  {
    assert SampleKey(1, b).fingerprint[0] == 1 && SampleKey(2, b).fingerprint[0] == 2
        && SampleKey(3, b).fingerprint[0] == 3;
  }

  lemma SamplePath(n: u8, index: u32)
    requires 1 <= n <= 3
    ensures ChangePath(Unprefixed(SampleDescriptor(Internal)), SampleEntry(n, index), index)
  {
    SampleDescribes(Internal);
    assert SampleEntry(n, index).fingerprint == SampleDescriptor(Internal).keys[n - 1].fingerprint;
    assert SampleEntry(n, index).path == SampleSteps() + [Normal(1), Normal(index)] && |SampleSteps()| == 4;
    hide *;
    SampleOriginSteps();
    PathOf(SampleDescriptor(Internal), SampleEntry(n, index), n - 1, SampleSteps(), index);
  }

  lemma MapOf(c: Curve, d: ParsedDescriptor, m: Derivation, index: u32, keys: seq<PubKey>)
    requires DeriveAt(c, d, index).Ok? && PublicKeys(DeriveAt(c, d, index).value.children) == keys
    requires |m| == |keys| == 3 && DistinctFingerprints(m)
    requires forall i :: 0 <= i < 3 ==> m[i].key == keys[i] && ChangePath(d, m[i], index)
    ensures ChangeMap(c, m, d, index)
  {
    hide DeriveAt, ChangePath, PublicKeys, KeySet;
    assert MapKeys(m) == keys;
  }

  lemma SampleEntries(index: u32)
    ensures var m := SampleMap(index);
            && m == [SampleEntry(1, index), SampleEntry(2, index), SampleEntry(3, index)]
            && DistinctFingerprints(m) && forall i :: 0 <= i < 3 ==> m[i].key == SampleKeys()[i]
  {
    hide ToyKey, LexLess;
    assert SampleEntry(1, index).fingerprint[0] == 1 && SampleEntry(2, index).fingerprint[0] == 2
        && SampleEntry(3, index).fingerprint[0] == 3;
  }

  lemma SampleChange(index: u32)
    requires index < 0x8000_0000
    ensures ChangeMap(SampleCurve(), SampleMap(index), Unprefixed(SampleDescriptor(Internal)), index)
  {
    hide *;
    SampleOutput(Internal, index);
    SameOutput(SampleCurve(), SampleDescriptor(Internal), index);
    SamplePath(1, index);
    SamplePath(2, index);
    SamplePath(3, index);
    SampleEntries(index);
    MapOf(SampleCurve(), Unprefixed(SampleDescriptor(Internal)), SampleMap(index), index, SampleKeys());
  }

  /** One such wallet and its change at any index: accepted without the `m/`, a panic with it. */
  lemma SampleChangePanics(index: u32)
    requires index < 0x8000_0000
    ensures V4(SampleCurve(), SampleMap(index), Unprefixed(SampleDescriptor(Internal)), index).Passes?
    ensures V4(SampleCurve(), SampleMap(index), SampleDescriptor(Internal), index).Panics?
  {
    SampleOrigins(Internal);
    hide *;
    SampleChange(index);
    V4Iff(SampleCurve(), SampleMap(index), Unprefixed(SampleDescriptor(Internal)), index);
    HonestChangePanics(SampleCurve(), SampleMap(index), SampleDescriptor(Internal), index);
  }

  lemma SampleOrigins(b: Branch)
    ensures OriginsParsed(SampleDescriptor(b))
    ensures forall k :: 0 <= k < 3 ==> "m/" <= SampleDescriptor(b).keys[k].originPath
  {
    hide OriginPath.Validated, SampleDescriptor, SampleOrigin;
    SampleDescribes(b);
    SampleOriginSteps();
  }

  // --- Its texts -----------------------------------------------------------

  /** The characters its descriptors are written with. */
  predicate Written(s: string) {
    forall i :: 0 <= i < |s| ==> s[i] in "012348()[],'/*bdehilmoprstuwx"
  }

  lemma WrittenInCharset(s: string)
    requires Written(s)
    ensures InCharset(s)
  {
  }

  lemma WrittenConcat(s: string, t: string)
    requires Written(s) && Written(t)
    ensures Written(s + t)
  {
  }

  lemma SampleHex(n: u8)
    requires 1 <= n <= 3
    ensures Written(ToHex([n, 0, 0, 0]))
  {
    assert n / 16 == 0 && n % 16 == n;
    assert HexDigit(0) == '0' && '0' <= HexDigit(n) <= '9';
    hide HexDigit;
  }

  lemma SampleKeyText(key: KeyExpr, n: u8)
    requires 1 <= n <= 3 && key.fingerprint == [n, 0, 0, 0] && Written(key.originPath) && Written(key.xpub)
    ensures Written(KeyText(key, ToHex(key.fingerprint)))
  {
    assert Written("[") && Written("/") && Written("]") && Written(Suffix(key.derivation));
    SampleHex(n);
    hide Written, ToHex, Suffix;
    WrittenConcat(key.xpub, Suffix(key.derivation));
    WrittenConcat(key.originPath, "]");
    WrittenConcat(key.originPath + "]", key.xpub + Suffix(key.derivation));
    WrittenConcat("[", ToHex(key.fingerprint));
    WrittenConcat("[" + ToHex(key.fingerprint), "/");
    WrittenConcat("[" + ToHex(key.fingerprint) + "/", key.originPath + "]" + (key.xpub + Suffix(key.derivation)));
  }

  lemma WrittenBody(d: ParsedDescriptor, hex: seq<string>)
    requires |hex| == 3 && Written(KeyText(d.keys[0], hex[0])) && Written(KeyText(d.keys[1], hex[1]))
    requires Written(KeyText(d.keys[2], hex[2]))
    ensures Written(BodyText(d, hex))
  {
    assert Written("wsh(") && Written("sortedmulti(") && Written("2,") && Written(",") && Written("))");
    hide Written, KeyText;
    var a, b, c := KeyText(d.keys[0], hex[0]), KeyText(d.keys[1], hex[1]), KeyText(d.keys[2], hex[2]);
    WrittenConcat(c, "))");
    WrittenConcat(",", c + "))");
    WrittenConcat(b, "," + (c + "))"));
    WrittenConcat(",", b + ("," + (c + "))")));
    WrittenConcat(a, "," + (b + ("," + (c + "))"))));
    WrittenConcat("2,", a + ("," + (b + ("," + (c + "))")))));
    WrittenConcat("sortedmulti(", "2," + (a + ("," + (b + ("," + (c + "))"))))));
    WrittenConcat("wsh(", "sortedmulti(" + ("2," + (a + ("," + (b + ("," + (c + "))")))))));
  }

  /** The text of a descriptor of this wallet, with its checksum. */
  function TextOf(d: ParsedDescriptor): string {
    var body := BodyText(d, CanonicalHex(d));
    if InCharset(body) then body + "#" + CreatedChecksum(body) else body
  }

  /** A key expression the grammar can express, with an extended key that decodes. */
  predicate Readable(c: Curve, key: KeyExpr) {
    && OriginPath.Validated(key.originPath).Ok?
    && "xpub" <= key.xpub && !OriginPath.HasMultipath(key.xpub)
    && ',' !in key.xpub && ')' !in key.xpub && c.decodeXpub(key.xpub).Some?
  }

  lemma ReadableFits(c: Curve, key: KeyExpr, decodes: string -> bool)
    requires Readable(c, key) && decodes(key.xpub)
    ensures WellFormedKey(key, decodes)
  {
    hide OriginPath.Validated, OriginPath.HasMultipath;
    assert key.xpub[0] == 'x' && key.xpub[2] == 'u';
    assert "xprv"[2] == 'r' && "tprv"[0] == 't';
  }

  lemma TextParses(c: Curve, d: ParsedDescriptor)
    requires d.k == 2 && InCharset(BodyText(d, CanonicalHex(d)))
    requires forall i :: 0 <= i < 3 ==> Readable(c, d.keys[i])
    ensures ParsedWith(c, TextOf(d)) == Ok(d)
  {
    var decodes := (xpub: string) => c.decodeXpub(xpub).Some?;
    forall i | 0 <= i < 3 ensures WellFormedKey(d.keys[i], decodes) {
      ReadableFits(c, d.keys[i], decodes);
    }
    hide Parsed, BodyText, HexOf, CreatedChecksum, InCharset, WellFormedKey, Readable;
    CanonicalHexFits(d);
    DescriptorRoundTrip(d, CanonicalHex(d), decodes);
  }

  function SampleWallet(b: Branch, prefixed: bool): (d: ParsedDescriptor)
    ensures d.k == 2
  {
    if prefixed then SampleDescriptor(b) else Unprefixed(SampleDescriptor(b))
  }

  lemma TrimmedIsValid()
    ensures OriginPath.Validated(OriginPath.Trimmed(SampleOrigin())).Ok?
  {
    hide OriginPath.Validated;
    var p, z, s := "48'", "0'", "2'";
    assert SampleOrigin() == "m/" + OriginPath.Path4(p, z, z, s);
    OriginPath.TrimmedForms(p, z, z, s);
    OriginPath.WrittenIsValid(OriginPath.Path4(p, z, z, s), p, z, z, s);
  }

  lemma OriginFits()
    ensures OriginPath.Validated(SampleOrigin()).Ok? && Written(SampleOrigin())
    ensures OriginPath.Validated(OriginPath.Trimmed(SampleOrigin())).Ok? && Written(OriginPath.Trimmed(SampleOrigin()))
  {
    assert Written(SampleOrigin());
    hide SampleOrigin, OriginPath.Validated;
    TrimmedIsValid();
    SampleOriginSteps();
  }

  lemma KeyFits(n: u8, b: Branch, origin: string)
    requires OriginPath.Validated(origin).Ok?
    ensures var key := SampleKey(n, b).(originPath := origin);
            Readable(SampleCurve(), key) && Written(key.xpub) && key.fingerprint == [n, 0, 0, 0]
  {
    hide OriginPath.Validated, ToyKey, SampleRoot;
    var xpub := SampleKey(n, b).xpub;
    assert forall i :: 0 <= i < |xpub| ==> xpub[i] in "xpub";
    assert xpub[..4] == "xpub";
  }

  lemma SampleFits(b: Branch, prefixed: bool, i: nat)
    requires i < 3
    ensures var key := SampleWallet(b, prefixed).keys[i];
            && Readable(SampleCurve(), key) && Written(key.originPath) && Written(key.xpub)
            && key.fingerprint == [i + 1, 0, 0, 0]
  {
    OriginFits();
    var origin := if prefixed then SampleOrigin() else OriginPath.Trimmed(SampleOrigin());
    hide OriginPath.Validated, OriginPath.Trimmed, SampleOrigin, Readable, Written, SampleCurve;
    KeyFits(1, b, origin);
    KeyFits(2, b, origin);
    KeyFits(3, b, origin);
  }

  lemma SampleKeyFits(b: Branch, prefixed: bool, i: nat)
    requires i < 3
    ensures var key := SampleWallet(b, prefixed).keys[i];
            Readable(SampleCurve(), key) && Written(KeyText(key, ToHex(key.fingerprint)))
  {
    hide *;
    SampleFits(b, prefixed, i);
    SampleKeyText(SampleWallet(b, prefixed).keys[i], i + 1);
  }

  lemma WrittenParses(c: Curve, d: ParsedDescriptor)
    requires d.k == 2
    requires forall i :: 0 <= i < 3 ==>
               Readable(c, d.keys[i]) && Written(KeyText(d.keys[i], ToHex(d.keys[i].fingerprint)))
    ensures ParsedWith(c, TextOf(d)) == Ok(d)
  {
    hide Readable, Written, KeyText, ToHex, ParsedWith, TextOf, BodyText, InCharset;
    WrittenBody(d, CanonicalHex(d));
    WrittenInCharset(BodyText(d, CanonicalHex(d)));
    TextParses(c, d);
  }

  /** Both branches of the wallet are parsed from their texts, written either way. */
  lemma SampleParses(b: Branch, prefixed: bool)
    ensures ParsedWith(SampleCurve(), TextOf(SampleWallet(b, prefixed))) == Ok(SampleWallet(b, prefixed))
  {
    hide *;
    forall i | 0 <= i < 3
      ensures var key := SampleWallet(b, prefixed).keys[i];
              Readable(SampleCurve(), key) && Written(KeyText(key, ToHex(key.fingerprint)))
    {
      SampleKeyFits(b, prefixed, i);
    }
    WrittenParses(SampleCurve(), SampleWallet(b, prefixed));
  }

  // --- Its spend -----------------------------------------------------------

  /** One input of two sats, one output of one sat back to the wallet. */
  function SpendOf(coin: OutPoint, script: Bytes, m: Derivation): Psbt {
    Psbt(Transaction(2, 0, [TxIn(coin, [], 0, [])], [TxOut(1, script)]),
         [Input(Some(TxOut(2, script)), None, None, [], [], None, None, None, false)], [Output(m, false)], false)
  }

  /** Nobody is declared, a fee of one sat is allowed, and the coin is known. */
  function PolicyOf(coin: OutPoint, script: Bytes, change: string): VerifyPolicy {
    VerifyPolicy([], 0, 1, 1, None, 1, map[coin := TxOut(2, script)], Some(change), Mainnet)
  }

  /** Any library functions, but for these. */
  function HostOf(h: Host): Host {
    h.(curve := SampleCurve(), vsize := (tx: Transaction) => 1, address := (n: Network, script: Bytes) => Some(""))
  }

  lemma SpendInputsOk(h: Host, coin: OutPoint, script: Bytes, m: Derivation, text: string, receive: ParsedDescriptor,
                      change: ParsedDescriptor)
    requires IsChange(h.curve, m, change, script, 1)
    ensures InputsOk(h, SpendOf(coin, script, m), receive, Some(change), PolicyOf(coin, script, text))
  {
    hide DeriveAt, ChangeMap;
    assert Owned(h.curve, change, script, 1);
    hide Owned, IsChange;
    var psbt := SpendOf(coin, script, m);
    assert InWallet(h.curve, script, receive, Some(change), 1);
  }

  lemma {:induction false} OneIn(input: Input)
    requires input.witnessUtxo.Some?
    ensures SumInputs([input]) == input.witnessUtxo.value.value
  {
    var none: seq<Input> := [];
    assert [input][..0] == none && SumInputs(none) == 0;
  }

  lemma {:induction false} OneOut(out: TxOut)
    ensures SumOutputs([out]) == out.value
  {
    var none: seq<TxOut> := [];
    assert [out][..0] == none && SumOutputs(none) == 0;
  }

  lemma {:induction false} SpendFunded(h: Host, coin: OutPoint, script: Bytes, m: Derivation, text: string)
    requires h.vsize(SpendOf(coin, script, m).tx) == 1
    ensures Funded(h, SpendOf(coin, script, m), PolicyOf(coin, script, text))
    ensures DeclaredSum(h, PolicyOf(coin, script, text), SpendOf(coin, script, m).tx.outputs) == 0
  {
    var psbt := SpendOf(coin, script, m);
    OneIn(psbt.inputs[0]);
    OneOut(psbt.tx.outputs[0]);
    assert psbt.tx.outputs[..0] == [];
    hide SumInputs, SumOutputs, EqualIgnoringCase;
  }

  lemma SpendAcceptable(h: Host, coin: OutPoint, script: Bytes, m: Derivation, text: string, receive: ParsedDescriptor,
                        change: ParsedDescriptor)
    requires h.vsize(SpendOf(coin, script, m).tx) == 1 && h.address(Mainnet, script).Some?
    requires IsChange(h.curve, m, change, script, 1)
    ensures Acceptable(h, SpendOf(coin, script, m), receive, Some(change), PolicyOf(coin, script, text))
  {
    hide IsChange, InputsOk, Funded, DeclaredSum;
    SpendInputsOk(h, coin, script, m, text, receive, change);
    SpendFunded(h, coin, script, m, text);
  }

  function SampleScript(): Bytes {
    match DeriveAt(SampleCurve(), SampleWallet(Internal, true), 0)
    case Err(_) => []
    case Ok(o) => o.scriptPubkey
  }

  lemma SampleIsChange()
    ensures IsChange(SampleCurve(), SampleMap(0), SampleWallet(Internal, false), SampleScript(), 1)
  {
    SampleOutput(Internal, 0);
    SameOutput(SampleCurve(), SampleDescriptor(Internal), 0);
    SampleChange(0);
    hide DeriveAt, ChangeMap, SampleCurve, SampleDescriptor, SampleMap, Unprefixed;
    assert Matches(SampleCurve(), SampleWallet(Internal, false), SampleScript(), 0);
  }

  lemma OneDerives(c: Curve, d: ParsedDescriptor)
    requires DeriveAt(c, d, 0).Ok?
    ensures Derivable(c, d, 1)
  {
    hide DeriveAt;
  }

  lemma SampleWritten(b: Branch)
    ensures SampleWallet(b, true) == SampleDescriptor(b) && SampleWallet(b, false) == Unprefixed(SampleDescriptor(b))
  {
    hide SampleDescriptor, Unprefixed;
  }

  lemma SampleDerives(b: Branch, prefixed: bool)
    ensures Derivable(SampleCurve(), SampleWallet(b, prefixed), 1)
  {
    hide *;
    SampleWritten(b);
    SampleOutput(b, 0);
    SameOutput(SampleCurve(), SampleDescriptor(b), 0);
    OneDerives(SampleCurve(), SampleWallet(b, prefixed));
  }

  /** A whole call: with the texts written without `m/` the spend is accepted, with the same texts
      written with it the verifier panics. */
  lemma SampleSpendPanics(h: Host, coin: OutPoint)
    ensures var psbt := SpendOf(coin, SampleScript(), SampleMap(0));
            && Verdict(HostOf(h), psbt, TextOf(SampleWallet(External, false)),
                       PolicyOf(coin, SampleScript(), TextOf(SampleWallet(Internal, false)))).Ok?
            && Verdict(HostOf(h), psbt, TextOf(SampleWallet(External, true)),
                       PolicyOf(coin, SampleScript(), TextOf(SampleWallet(Internal, true)))) == Err(VerifierPanics)
  {
    hide *;
    SampleAccepted(h, coin);
    SamplePanics(h, coin);
  }

  lemma SampleAccepted(h: Host, coin: OutPoint)
    ensures Verdict(HostOf(h), SpendOf(coin, SampleScript(), SampleMap(0)), TextOf(SampleWallet(External, false)),
                    PolicyOf(coin, SampleScript(), TextOf(SampleWallet(Internal, false)))).Ok?
  {
    var script, text := SampleScript(), TextOf(SampleWallet(Internal, false));
    SampleParses(External, false);
    SampleParses(Internal, false);
    SampleDerives(External, false);
    SampleDerives(Internal, false);
    SampleIsChange();
    hide SampleScript, TextOf, SampleWallet, SampleMap, SampleCurve, ParsedWith, Verdict, Acceptable, IsChange,
         Derivable, SpendOf;
    SpendAcceptable(HostOf(h), coin, script, SampleMap(0), text, SampleWallet(External, false),
                    SampleWallet(Internal, false));
    AcceptedIff(HostOf(h), SpendOf(coin, script, SampleMap(0)), TextOf(SampleWallet(External, false)),
                PolicyOf(coin, script, text), SampleWallet(External, false), Some(SampleWallet(Internal, false)));
  }

  lemma SpendUndeclared(h: Host, coin: OutPoint, script: Bytes, m: Derivation, text: string)
    requires h.address(Mainnet, script).Some?
    ensures SameShape(SpendOf(coin, script, m))
    ensures Undeclared(h, SpendOf(coin, script, m), PolicyOf(coin, script, text), 0)
  {
    hide EqualIgnoringCase;
  }

  lemma SamplePrefixed()
    ensures AllPrefixed(SampleWallet(Internal, true))
  {
    hide SampleWallet, SampleDescriptor;
    SampleWritten(Internal);
    SampleOrigins(Internal);
  }

  lemma SamplePolicies(coin: OutPoint, script: Bytes, text: string, plain: string)
    ensures PolicyOf(coin, script, text).(changeDescriptor := Some(plain)) == PolicyOf(coin, script, plain)
    ensures PolicyOf(coin, script, text).gapLimit == 1
  {
  }

  lemma WindowOfOne(c: Curve, receive: ParsedDescriptor, change: ParsedDescriptor)
    requires Derivable(c, receive, 1) && Derivable(c, change, 1)
    ensures WindowDerives(c, receive, Some(change), 1)
  {
    hide Derivable;
  }

  lemma ChangeOf(c: Curve, coin: OutPoint, script: Bytes, text: string, d: ParsedDescriptor)
    requires ParsedWith(c, text) == Ok(d)
    ensures ParsedChange(c, PolicyOf(coin, script, text)) == Ok(Some(d))
  {
    hide ParsedWith;
  }

  lemma HostFits(h: Host, script: Bytes)
    ensures HostOf(h).curve == SampleCurve() && HostOf(h).address(Mainnet, script).Some?
  {
    hide SampleCurve;
  }

  lemma SamplePanics(h: Host, coin: OutPoint)
    ensures Verdict(HostOf(h), SpendOf(coin, SampleScript(), SampleMap(0)), TextOf(SampleWallet(External, true)),
                    PolicyOf(coin, SampleScript(), TextOf(SampleWallet(Internal, true)))) == Err(VerifierPanics)
  {
    hide *;
    var receive, change := SampleWallet(External, true), SampleWallet(Internal, true);
    var text, plain := TextOf(change), TextOf(SampleWallet(Internal, false));
    SampleWritten(External);
    SampleWritten(Internal);
    SampleParses(External, true);
    SampleParses(Internal, true);
    SampleParses(External, false);
    SampleParses(Internal, false);
    SampleDerives(External, true);
    SampleDerives(Internal, true);
    HostFits(h, SampleScript());
    WindowOfOne(SampleCurve(), receive, change);
    ChangeOf(SampleCurve(), coin, SampleScript(), text, change);
    SamplePolicies(coin, SampleScript(), text, plain);
    SamplePrefixed();
    SampleAccepted(h, coin);
    SpendUndeclared(HostOf(h), coin, SampleScript(), SampleMap(0), text);
    HonestSpendPanicsIff(HostOf(h), SpendOf(coin, SampleScript(), SampleMap(0)), TextOf(receive),
                         PolicyOf(coin, SampleScript(), text), receive, change,
                         TextOf(SampleWallet(External, false)), plain);
  }
}
