/** Finding the address index whose derived output script is a given script: the plain scan of
    the gap window, and the scan that first tries the index written in the PSBT. */
module IndexSearch {
  import opened Machine
  import opened Errors
  import opened Bitcoin
  import opened Descriptor
  import opened Derive
  import opened Psbts

  predicate Matches(c: Curve, d: ParsedDescriptor, script: Bytes, i: u32) {
    DeriveAt(c, d, i).Ok? && DeriveAt(c, d, i).value.scriptPubkey == script
  }

  /** Every index of the gap window derives. */
  ghost predicate Derivable(c: Curve, d: ParsedDescriptor, gap: u32) {
    forall i: u32 :: i < gap ==> DeriveAt(c, d, i).Ok?
  }

  ghost predicate Owned(c: Curve, d: ParsedDescriptor, script: Bytes, gap: u32) {
    exists i: u32 :: i < gap && Matches(c, d, script, i)
  }

  ghost predicate DistinctScripts(c: Curve, d: ParsedDescriptor, gap: u32) {
    forall script, i: u32, j: u32 :: i < gap && j < gap && Matches(c, d, script, i) && Matches(c, d, script, j)
        ==> i == j
  }

  /** The scan from index `i` on, leaving out one index already tried. */
  function ScanFrom(c: Curve, d: ParsedDescriptor, script: Bytes, gap: u32, tried: Option<u32>, i: u32)
    : Result<Option<u32>, DeriveError>
    requires i <= gap
    decreases gap - i
  {
    if i == gap then Ok(None)
    else if tried == Some(i) then ScanFrom(c, d, script, gap, tried, i + 1)
    else match DeriveAt(c, d, i)
         case Err(e) => Err(e)
         case Ok(o) => if o.scriptPubkey == script then Ok(Some(i)) else ScanFrom(c, d, script, gap, tried, i + 1)
  }

  lemma {:induction false} ScanMeaning(c: Curve, d: ParsedDescriptor, script: Bytes, gap: u32, tried: Option<u32>,
                                       i: u32)
    requires i <= gap
    ensures var r := ScanFrom(c, d, script, gap, tried, i);
            && (r.Ok? && r.value.Some? ==> i <= r.value.value < gap && Matches(c, d, script, r.value.value))
            && (r.Ok? && r.value.None? ==>
                  forall k: u32 :: i <= k < gap && tried != Some(k) ==> !Matches(c, d, script, k))
            && (r.Err? ==> exists k: u32 :: i <= k < gap && DeriveAt(c, d, k).Err?)
    decreases gap - i
  {
    hide DeriveAt, CheckmultisigScript, P2wsh, PublicKeys;
    if i < gap {
      ScanMeaning(c, d, script, gap, tried, i + 1);
    }
  }

  /** The plain scan of `0..gap`. */
  function Scan(c: Curve, d: ParsedDescriptor, script: Bytes, gap: u32): Result<Option<u32>, DeriveError> {
    ScanFrom(c, d, script, gap, None, 0)
  }

  /** `find_index_matching`. */
  function Search(c: Curve, d: ParsedDescriptor, script: Bytes, gap: u32, hint: Option<u32>)
    : Result<Option<u32>, DeriveError>
  {
    if hint.Some? && hint.value < gap then
      match DeriveAt(c, d, hint.value)
      case Err(e) => Err(e)
      case Ok(o) => if o.scriptPubkey == script then Ok(hint) else ScanFrom(c, d, script, gap, hint, 0)
    else ScanFrom(c, d, script, gap, hint, 0)
  }

  /** Whatever the hint, a found index is in the window and derives to the script, and nothing
      found means no index of the window does. */
  lemma SearchSound(c: Curve, d: ParsedDescriptor, script: Bytes, gap: u32, hint: Option<u32>)
    ensures var r := Search(c, d, script, gap, hint);
            && (r.Ok? && r.value.Some? ==> r.value.value < gap && Matches(c, d, script, r.value.value))
            && (r.Ok? ==> (r.value.Some? <==> Owned(c, d, script, gap)))
  {
    hide DeriveAt;
    ScanMeaning(c, d, script, gap, hint, 0);
  }

  /** The hinted search succeeds exactly when the plain scan does, and finds the same index when
      no two indices of the window share a script. */
  lemma HintedIsScan(c: Curve, d: ParsedDescriptor, script: Bytes, gap: u32, hint: Option<u32>)
    requires Derivable(c, d, gap)
    ensures var r, s := Search(c, d, script, gap, hint), Scan(c, d, script, gap);
            && r.Ok? && s.Ok?
            && (r.value.Some? <==> s.value.Some?)
            && (r.value.Some? ==> r.value.value < gap && Matches(c, d, script, r.value.value))
            && (DistinctScripts(c, d, gap) ==> r == s)
  {
    hide DeriveAt;
    SearchSound(c, d, script, gap, hint);
    SearchSound(c, d, script, gap, None);
    ScanMeaning(c, d, script, gap, hint, 0);
    ScanMeaning(c, d, script, gap, None, 0);
    assert Search(c, d, script, gap, None) == Scan(c, d, script, gap);
  }

  // --- The loops -----------------------------------------------------------

  method FindIndexMatching(c: Curve, d: ParsedDescriptor, script: Bytes, gap: u32, hint: Option<u32>)
    returns (r: Result<Option<u32>, DeriveError>)
    ensures r == Search(c, d, script, gap, hint)
  {
    hide DeriveAt;
    if hint.Some? && hint.value < gap {
      var derived := DeriveAt(c, d, hint.value);
      if derived.Err? {
        return Err(derived.error);
      }
      if derived.value.scriptPubkey == script {
        return Ok(hint);
      }
    }
    var i: u32 := 0;
    while i < gap
      invariant i <= gap
      invariant ScanFrom(c, d, script, gap, hint, 0) == ScanFrom(c, d, script, gap, hint, i)
    {
      if hint != Some(i) {
        var derived := DeriveAt(c, d, i);
        if derived.Err? {
          return Err(derived.error);
        }
        if derived.value.scriptPubkey == script {
          return Ok(Some(i));
        }
      }
      i := i + 1;
    }
    return Ok(None);
  }

  /** `matches_descriptor` of the spend window: the plain scan, without a hint. */
  method MatchesDescriptor(c: Curve, d: ParsedDescriptor, script: Bytes, gap: u32)
    returns (r: Result<bool, DeriveError>)
    ensures r.Ok? ==> r.value == Owned(c, d, script, gap)
    ensures match Scan(c, d, script, gap)
            case Ok(found) => r == Ok(found.Some?)
            case Err(e) => r == Err(e)
  {
    hide DeriveAt;
    SearchSound(c, d, script, gap, None);
    var i: u32 := 0;
    while i < gap
      invariant i <= gap
      invariant Scan(c, d, script, gap) == ScanFrom(c, d, script, gap, None, i)
    {
      var derived := DeriveAt(c, d, i);
      if derived.Err? {
        return Err(derived.error);
      }
      if derived.value.scriptPubkey == script {
        return Ok(true);
      }
      i := i + 1;
    }
    return Ok(false);
  }

  // --- The hint ------------------------------------------------------------

  /** Every path of the map ends in this unhardened index. */
  predicate AgreeOn(derivation: Derivation, h: u32) {
    forall i :: 0 <= i < |derivation| ==> EndsIn(derivation[i].path, h)
  }

  predicate EndsIn(path: seq<ChildNumber>, h: u32) {
    path != [] && path[|path| - 1] == Normal(h)
  }

  /** `bip32_index_hint`: the index all paths agree on; none when the map is empty, a path is
      empty or ends hardened, or two paths disagree. */
  method Bip32IndexHint(derivation: Derivation) returns (hint: Option<u32>)
    ensures hint == HintOf(derivation)
  {
    hint := None;
    for i := 0 to |derivation|
      invariant i == 0 <==> hint.None?
      invariant hint.Some? ==> forall k :: 0 <= k < i ==> EndsIn(derivation[k].path, hint.value)
    {
      var path := derivation[i].path;
      if path == [] {
        return None;
      }
      var last := path[|path| - 1];
      if last.Hardened? {
        return None;
      }
      if hint.None? {
        hint := Some(last.index);
      } else if hint.value != last.index {
        return None;
      }
    }
  }

  function HintOf(derivation: Derivation): (r: Option<u32>)
    ensures r.Some? <==> derivation != [] && exists h: u32 :: AgreeOn(derivation, h)
    ensures r.Some? ==> AgreeOn(derivation, r.value)
  {
    if derivation == [] || derivation[0].path == [] then None
    else
      var last := derivation[0].path[|derivation[0].path| - 1];
      if last.Normal? && AgreeOn(derivation, last.index) then Some(last.index) else None
  }
}
