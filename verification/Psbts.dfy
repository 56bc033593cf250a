/** Partially signed transactions as the verifier and the signers read them, and the library
    functions they call on them. */
module Psbts {
  import opened Machine
  import opened Bitcoin
  import opened Order
  import opened Bip67
  import opened Descriptor
  import opened Derive

  datatype Network = Mainnet | Testnet | Signet | Regtest

  datatype TxOut = TxOut(value: u64, scriptPubkey: Bytes)
  datatype TxIn = TxIn(previousOutput: OutPoint, scriptSig: Bytes, sequence: u32, witnessStack: seq<Bytes>)
  datatype Transaction = Transaction(version: u32, lockTime: u32, inputs: seq<TxIn>, outputs: seq<TxOut>)

  datatype ChildNumber = Normal(index: u32) | Hardened(index: u32)

  /** One `bip32_derivation` entry. */
  datatype KeyOrigin = KeyOrigin(key: PubKey, fingerprint: Fingerprint, path: seq<ChildNumber>)

  /** The derivation map in the order it is iterated. */
  type Derivation = s: seq<KeyOrigin> | forall i, j :: 0 <= i < j < |s| ==> LexLess(s[i].key, s[j].key)
    witness []

  datatype SighashType = All | NoOutputs | Single | AllAnyone | NoOutputsAnyone | SingleAnyone

  datatype Signature = Signature(ecdsa: Bytes, sighashType: SighashType)

  datatype PublicKey = PublicKey(compressed: bool, inner: PubKey)

  datatype SigEntry = SigEntry(key: PublicKey, sig: Signature)

  /** The order of the signature map: uncompressed keys first, then by bytes. */
  predicate KeyBefore(a: PublicKey, b: PublicKey) {
    (!a.compressed && b.compressed) || (a.compressed == b.compressed && LexLess(a.inner, b.inner))
  }

  /** The signature map in the order it is iterated. */
  type PartialSigs = s: seq<SigEntry> | SigsOrdered(s) witness []

  predicate SigsOrdered(s: seq<SigEntry>) {
    forall i, j :: 0 <= i < j < |s| ==> KeyBefore(s[i].key, s[j].key)
  }

  datatype Input = Input(witnessUtxo: Option<TxOut>, nonWitnessUtxo: Option<Transaction>, witnessScript: Option<Bytes>,
                         derivation: Derivation, partialSigs: PartialSigs, sighashType: Option<u32>,
                         finalScriptSig: Option<Bytes>, finalScriptWitness: Option<seq<Bytes>>, proprietary: bool)

  datatype Output = Output(derivation: Derivation, proprietary: bool)

  datatype Psbt = Psbt(tx: Transaction, inputs: seq<Input>, outputs: seq<Output>, proprietary: bool)

  /** A `PsbtSighashType` reads as `SIGHASH_ALL` only with the standard value 1. */
  predicate IsSighashAll(t: u32) {
    t == 1
  }

  /** The library functions on transactions and signatures. */
  datatype Host = Host(
    curve: Curve,
    txid: Transaction -> Txid,
    vsize: Transaction -> nat,
    address: (Network, Bytes) -> Option<string>,
    p2wshSighash: (Transaction, nat, Bytes, u64) -> Option<Hash256>,
    verifyEcdsa: (Hash256, Bytes, PubKey) -> bool,
    normalizeS: Bytes -> Bytes)

  // --- The signature map ---------------------------------------------------

  function Lookup(sigs: seq<SigEntry>, key: PublicKey): (r: Option<Signature>)
    ensures r.Some? ==> SigEntry(key, r.value) in sigs
    ensures r.None? ==> forall e :: e in sigs ==> e.key != key
  {
    if sigs == [] then None
    else if sigs[0].key == key then Some(sigs[0].sig)
    else Lookup(sigs[1..], key)
  }

  lemma KeyBeforeTotal(a: PublicKey, b: PublicKey)
    ensures a == b || KeyBefore(a, b) || KeyBefore(b, a)
    ensures !KeyBefore(a, a) && !(KeyBefore(a, b) && KeyBefore(b, a))
  {
    LexTrichotomy(a.inner, b.inner);
    LexTrichotomy(a.inner, a.inner);
  }

  lemma KeyBeforeTransitive(a: PublicKey, b: PublicKey, c: PublicKey)
    requires KeyBefore(a, b) && KeyBefore(b, c)
    ensures KeyBefore(a, c)
  {
    if a.compressed == b.compressed == c.compressed {
      LexTransitive(a.inner, b.inner, c.inner);
    }
  }

  /** `BTreeMap::insert`: the key then has this signature and every other key keeps its own. */
  function InsertSig(sigs: PartialSigs, key: PublicKey, sig: Signature): (r: PartialSigs)
    ensures forall e :: e in r <==> e == SigEntry(key, sig) || (e in sigs && e.key != key)
    decreases |sigs|
  {
    var e := SigEntry(key, sig);
    if sigs == [] then [e]
    else
      assert sigs == [sigs[0]] + sigs[1..];
      KeyBeforeTotal(key, sigs[0].key);
      if key == sigs[0].key then
        NotBehind(sigs);
        [e] + sigs[1..]
      else if KeyBefore(key, sigs[0].key) then
        FrontBefore(key, sigs);
        [e] + sigs
      else
        var rest := InsertSig(sigs[1..], key, sig);
        NotBehind(sigs);
        assert forall x :: x in rest ==> KeyBefore(sigs[0].key, x.key);
        [sigs[0]] + rest
  }

  lemma NotBehind(sigs: PartialSigs)
    requires sigs != []
    ensures forall x :: x in sigs[1..] ==> KeyBefore(sigs[0].key, x.key) && x.key != sigs[0].key
  {
    forall x | x in sigs[1..] ensures KeyBefore(sigs[0].key, x.key) && x.key != sigs[0].key {
      var i :| 0 <= i < |sigs[1..]| && sigs[1..][i] == x;
      assert sigs[i + 1] == x;
      KeyBeforeTotal(sigs[0].key, x.key);
    }
  }

  lemma FrontBefore(key: PublicKey, sigs: PartialSigs)
    requires sigs != [] && KeyBefore(key, sigs[0].key)
    ensures forall x :: x in sigs ==> KeyBefore(key, x.key) && x.key != key
  {
    NotBehind(sigs);
    forall x | x in sigs ensures KeyBefore(key, x.key) && x.key != key {
      if x != sigs[0] {
        assert sigs == [sigs[0]] + sigs[1..];
        assert x in sigs[1..];
        KeyBeforeTransitive(key, sigs[0].key, x.key);
      }
      KeyBeforeTotal(key, x.key);
    }
  }

  lemma {:induction false} LookupUnique(sigs: PartialSigs, e: SigEntry)
    requires e in sigs
    ensures Lookup(sigs, e.key) == Some(e.sig)
  {
    NotBehind(sigs);
    assert sigs == [sigs[0]] + sigs[1..];
    if sigs[0] != e {
      LookupUnique(sigs[1..], e);
    }
  }
}
