/** The one descriptor grammar this wallet accepts, its parser and its printer:
    `wsh(sortedmulti(2,K,K,K))#checksum`, each K an origin in brackets, an extended public key
    and the wildcard suffix of one of the two branches. */
module Descriptor {
  import opened Machine
  import opened Errors
  import opened Checksum
  import OriginPath

  datatype Branch = External | Internal

  type Fingerprint = s: seq<u8> | |s| == 4 witness [0, 0, 0, 0]

  datatype KeyExpr = KeyExpr(fingerprint: Fingerprint, originPath: string, xpub: string, derivation: Branch)

  datatype ParsedRaw = ParsedDescriptor(k: u32, keys: seq<KeyExpr>)
  type ParsedDescriptor = d: ParsedRaw | |d.keys| == 3
    witness ParsedDescriptor(2, seq(3, _ => KeyExpr([0, 0, 0, 0], "", "", External)))

  // --- Hexadecimal fingerprints --------------------------------------------

  function Nibble(c: char): Option<nat> {
    if '0' <= c <= '9' then Some(c as int - '0' as int)
    else if 'a' <= c <= 'f' then Some(c as int - 'a' as int + 10)
    else if 'A' <= c <= 'F' then Some(c as int - 'A' as int + 10)
    else None
  }

  function HexDigit(n: nat): char
    requires n < 16
  {
    "0123456789abcdef"[n]
  }

  function Lower(c: char): char {
    if 'A' <= c <= 'Z' then (c as int + 32) as char else c
  }

  predicate AllHex(s: string) {
    forall i :: 0 <= i < |s| ==> Nibble(s[i]).Some?
  }

  function ByteAt(s: string, i: nat): u8
    requires AllHex(s) && 2 * i + 1 < |s|
  {
    NibbleSmall(s[2 * i]);
    NibbleSmall(s[2 * i + 1]);
    Nibble(s[2 * i]).value * 16 + Nibble(s[2 * i + 1]).value
  }

  lemma NibbleSmall(c: char)
    ensures Nibble(c).Some? ==> Nibble(c).value < 16
  {
  }

  /** `Fingerprint::from_hex`. */
  function FromHex(s: string): Option<Fingerprint> {
    if |s| != 8 || !AllHex(s) then None
    else Some([ByteAt(s, 0), ByteAt(s, 1), ByteAt(s, 2), ByteAt(s, 3)])
  }

  /** `Fingerprint::to_hex`. */
  function ToHex(f: Fingerprint): (s: string)
    ensures |s| == 8
  {
    [HexDigit(f[0] / 16), HexDigit(f[0] % 16), HexDigit(f[1] / 16), HexDigit(f[1] % 16),
     HexDigit(f[2] / 16), HexDigit(f[2] % 16), HexDigit(f[3] / 16), HexDigit(f[3] % 16)]
  }

  lemma NibbleIsDigit(c: char, n: nat)
    requires n < 16
    ensures Nibble(c) == Some(n) <==> Lower(c) == HexDigit(n)
  {
    assert "0123456789abcdef"[..10] == "0123456789";
    if n < 10 {
      assert HexDigit(n) == ('0' as int + n) as char;
    } else {
      assert HexDigit(n) == ('a' as int + (n - 10)) as char;
    }
  }

  lemma TwoNibbles(x: nat, y: nat, b: u8)
    requires x < 16 && y < 16
    ensures x * 16 + y == b <==> x == b / 16 && y == b % 16
  {
  }

  lemma ByteIsDigits(s: string, i: nat, b: u8)
    requires 2 * i + 1 < |s|
    ensures Nibble(s[2 * i]) == Some(b / 16) && Nibble(s[2 * i + 1]) == Some(b % 16)
            <==> Lower(s[2 * i]) == HexDigit(b / 16) && Lower(s[2 * i + 1]) == HexDigit(b % 16)
  {
    hide Nibble, HexDigit, Lower;
    NibbleIsDigit(s[2 * i], b / 16);
    NibbleIsDigit(s[2 * i + 1], b % 16);
  }

  lemma ByteIsNibbles(s: string, i: nat, b: u8)
    requires AllHex(s) && 2 * i + 1 < |s|
    ensures ByteAt(s, i) == b <==> Nibble(s[2 * i]) == Some(b / 16) && Nibble(s[2 * i + 1]) == Some(b % 16)
  {
    hide Nibble;
    NibbleSmall(s[2 * i]);
    NibbleSmall(s[2 * i + 1]);
    TwoNibbles(Nibble(s[2 * i]).value, Nibble(s[2 * i + 1]).value, b);
  }

  predicate SameUpToCase(s: string, t: string) {
    |s| == |t| && forall i :: 0 <= i < |s| ==> Lower(s[i]) == t[i]
  }

  /** A string reads as a fingerprint exactly when it is its lower-case form up to case. */
  lemma FromHexIff(s: string, f: Fingerprint)
    ensures FromHex(s) == Some(f) <==> SameUpToCase(s, ToHex(f))
  {
    hide Nibble, HexDigit, Lower, ByteAt;
    if |s| == 8 {
      ByteIsDigits(s, 0, f[0]);
      ByteIsDigits(s, 1, f[1]);
      ByteIsDigits(s, 2, f[2]);
      ByteIsDigits(s, 3, f[3]);
      var t := ToHex(f);
      assert SameUpToCase(s, t)
             <==> && Lower(s[0]) == t[0] && Lower(s[1]) == t[1] && Lower(s[2]) == t[2] && Lower(s[3]) == t[3]
                  && Lower(s[4]) == t[4] && Lower(s[5]) == t[5] && Lower(s[6]) == t[6] && Lower(s[7]) == t[7];
      assert f == [f[0], f[1], f[2], f[3]];
      if AllHex(s) {
        ByteIsNibbles(s, 0, f[0]);
        ByteIsNibbles(s, 1, f[1]);
        ByteIsNibbles(s, 2, f[2]);
        ByteIsNibbles(s, 3, f[3]);
      } else {
        assert !(Nibble(s[0]).Some? && Nibble(s[1]).Some? && Nibble(s[2]).Some? && Nibble(s[3]).Some?
                 && Nibble(s[4]).Some? && Nibble(s[5]).Some? && Nibble(s[6]).Some? && Nibble(s[7]).Some?);
      }
    }
  }

  // --- Reading -------------------------------------------------------------

  /** Length of the longest prefix without any of the stop characters. */
  function Span(s: string, stops: string): (n: nat)
    ensures n <= |s|
    ensures forall i :: 0 <= i < n ==> s[i] !in stops
    ensures n < |s| ==> s[n] in stops
  {
    if s == "" || s[0] in stops then 0 else 1 + Span(s[1..], stops)
  }

  lemma {:induction false} SpanOf(token: string, stops: string, rest: string)
    requires forall i :: 0 <= i < |token| ==> token[i] !in stops
    requires rest == "" || rest[0] in stops
    ensures Span(token + rest, stops) == |token|
    ensures (token + rest)[..|token|] == token && (token + rest)[|token|..] == rest
  {
    if token == "" {
      assert token + rest == rest;
    } else {
      SpanOf(token[1..], stops, rest);
      assert (token + rest)[1..] == token[1..] + rest;
    }
  }

  const EXTERNAL_SUFFIX: string := "/0/*"
  const INTERNAL_SUFFIX: string := "/1/*"

  function Suffix(b: Branch): (s: string)
    ensures |s| == 4
  {
    match b case External => EXTERNAL_SUFFIX case Internal => INTERNAL_SUFFIX
  }

  /** `split_xpub_and_derivation` on the token up to the next `,` or `)`. */
  function SplitToken(token: string): Result<(string, Branch), ParseError> {
    if |token| < 4 then Err(MalformedKeyExpression)
    else
      var head, tail := token[..|token| - 4], token[|token| - 4..];
      if tail == EXTERNAL_SUFFIX then
        if head == "" then Err(MalformedXpub) else Ok((head, External))
      else if tail == INTERNAL_SUFFIX then
        if head == "" then Err(MalformedXpub) else Ok((head, Internal))
      else if '<' in token || ';' in token then Err(MultipathForbidden)
      else Err(MalformedDerivation)
  }

  /** The checks on the extended key itself; `decodes` stands for the foreign decoder. */
  function CheckXpub(xpub: string, decodes: string -> bool): Result<(), ParseError> {
    if "xprv" <= xpub || "tprv" <= xpub then Err(PrivateKeyForbidden)
    else if !("xpub" <= xpub || "tpub" <= xpub) then Err(MalformedXpub)
    else if OriginPath.HasMultipath(xpub) then Err(MultipathForbidden)
    else if !decodes(xpub) then Err(MalformedXpub)
    else Ok(())
  }

  function ReadFingerprint(rest: string): Result<(Fingerprint, string), ParseError> {
    if !("[" <= rest) then Err(MalformedKeyExpression)
    else
      var r := rest[1..];
      var n := Span(r, "/]");
      if n != 8 then Err(MalformedFingerprint)
      else match FromHex(r[..n])
           case None => Err(MalformedFingerprint)
           case Some(f) => if !("/" <= r[n..]) then Err(MalformedKeyExpression) else Ok((f, r[n + 1..]))
  }

  function ReadOrigin(rest: string): Result<(string, string), ParseError> {
    var n := Span(rest, "],)");
    var origin := rest[..n];
    if !("]" <= rest[n..]) then Err(MalformedKeyExpression)
    else if origin == "" then Err(MalformedOriginPath("empty"))
    else
      var _ :- OriginPath.Validated(origin);
      Ok((origin, rest[n + 1..]))
  }

  function ReadXpub(rest: string, decodes: string -> bool): Result<((string, Branch), string), ParseError> {
    var n := Span(rest, ",)");
    var split :- SplitToken(rest[..n]);
    var _ :- CheckXpub(split.0, decodes);
    Ok((split, rest[n..]))
  }

  /** `parse_keyexpr`: the key expression at the head of `rest` and what follows it. */
  function ReadKeyExpr(rest: string, decodes: string -> bool): Result<(KeyExpr, string), ParseError> {
    var (fingerprint, r1) :- ReadFingerprint(rest);
    var (origin, r2) :- ReadOrigin(r1);
    var ((xpub, branch), r3) :- ReadXpub(r2, decodes);
    Ok((KeyExpr(fingerprint, origin, xpub, branch), r3))
  }

  /** `expect_char`. */
  function Expect(rest: string, c: char): Result<string, ParseError> {
    if rest == "" then Err(UnexpectedEof)
    else if rest[0] == c then Ok(rest[1..])
    else Err(TrailingGarbage)
  }

  /** Key expressions beyond the third, counted before giving up. */
  function ExtraKeys(rest: string): nat
    decreases |rest|
  {
    if !("," <= rest) then 0
    else
      var r := rest[1..];
      1 + ExtraKeys(r[Span(r, ",)")..])
  }

  function ReadKeys(rest: string, decodes: string -> bool): (r: Result<(seq<KeyExpr>, string), ParseError>)
    ensures r.Ok? ==> |r.value.0| == 3
  {
    var (key0, r1) :- ReadKeyExpr(rest, decodes);
    var r2 :- Expect(r1, ',');
    var (key1, r3) :- ReadKeyExpr(r2, decodes);
    var r4 :- Expect(r3, ',');
    var (key2, r5) :- ReadKeyExpr(r4, decodes);
    Ok(([key0, key1, key2], r5))
  }

  /** What may follow the third key. */
  function ReadClose(rest: string, keys: seq<KeyExpr>): Result<ParsedDescriptor, ParseError>
    requires |keys| == 3
  {
    if "," <= rest then Err(WrongKeyCount(3 + ExtraKeys(rest)))
    else
      var r1 :- Expect(rest, ')');
      var r2 :- Expect(r1, ')');
      if r2 != "" then Err(TrailingGarbage)
      else Ok(ParsedDescriptor(2, keys))
  }

  /** `parse` after the checksum: the body up to `#`. */
  function ReadBody(body: string, decodes: string -> bool): Result<ParsedDescriptor, ParseError> {
    if !("wsh(" <= body) then Err(WrongTopLevel)
    else
      var r0 := body[4..];
      if !("sortedmulti(" <= r0) then Err(ExpectedSortedMulti)
      else
        var r1 := r0[12..];
        var n := Span(r1, ",");
        if n == |r1| then Err(UnexpectedEof)
        else if r1[..n] != "2" then Err(WrongThreshold(r1[..n]))
        else
          var (keys, r2) :- ReadKeys(r1[n + 1..], decodes);
          ReadClose(r2, keys)
  }

  /** `parse`. */
  function Parsed(s: string, decodes: string -> bool): Result<ParsedDescriptor, ParseError> {
    match Verified(s)
    case Err(e) => Err(e)
    case Ok(_) => ReadBody(s[..|s| - 9], decodes)
  }

  // --- Printing ------------------------------------------------------------

  /** A key expression written with the given fingerprint digits. */
  function KeyText(key: KeyExpr, hex: string): string {
    "[" + hex + "/" + (key.originPath + "]" + (key.xpub + Suffix(key.derivation)))
  }

  function BodyText(d: ParsedDescriptor, hex: seq<string>): string
    requires |hex| == 3
  {
    "wsh(" + ("sortedmulti(" + ("2," + (KeyText(d.keys[0], hex[0]) + ("," + (KeyText(d.keys[1], hex[1])
    + ("," + (KeyText(d.keys[2], hex[2]) + "))")))))))
  }

  function CanonicalHex(d: ParsedDescriptor): (r: seq<string>)
    ensures |r| == 3
  {
    [ToHex(d.keys[0].fingerprint), ToHex(d.keys[1].fingerprint), ToHex(d.keys[2].fingerprint)]
  }

  /** A key the grammar can express: a BIP-48 origin and an accepted extended public key. */
  predicate WellFormedKey(key: KeyExpr, decodes: string -> bool) {
    && OriginPath.Validated(key.originPath).Ok?
    && CheckXpub(key.xpub, decodes).Ok?
    && ',' !in key.xpub && ')' !in key.xpub
  }

  predicate WellFormed(d: ParsedDescriptor, decodes: string -> bool) {
    d.k == 2 && forall i :: 0 <= i < 3 ==> WellFormedKey(d.keys[i], decodes)
  }

  // --- A key expression and its text ---------------------------------------

  lemma FingerprintIff(rest: string, f: Fingerprint, after: string)
    ensures ReadFingerprint(rest) == Ok((f, after))
            <==> exists hex :: SameUpToCase(hex, ToHex(f)) && rest == "[" + hex + "/" + after
  {
    hide FromHex, ToHex, Span;
    if ReadFingerprint(rest) == Ok((f, after)) {
      var r := rest[1..];
      var n := Span(r, "/]");
      FromHexIff(r[..n], f);
      assert rest == "[" + r[..n] + "/" + after;
    }
    forall hex | SameUpToCase(hex, ToHex(f)) && rest == "[" + hex + "/" + after
      ensures ReadFingerprint(rest) == Ok((f, after))
    {
      FingerprintReads(rest, f, hex, after);
    }
  }

  lemma HexHasNoStops(hex: string, f: Fingerprint)
    requires FromHex(hex) == Some(f)
    ensures forall i :: 0 <= i < |hex| ==> hex[i] !in "/]"
  {
    forall i | 0 <= i < |hex| ensures hex[i] !in "/]" {
      assert Nibble(hex[i]).Some?;
    }
  }

  lemma FingerprintReads(rest: string, f: Fingerprint, hex: string, after: string)
    requires SameUpToCase(hex, ToHex(f)) && rest == "[" + hex + "/" + after
    ensures ReadFingerprint(rest) == Ok((f, after))
  {
    hide FromHex, ToHex, Span;
    FromHexIff(hex, f);
    HexHasNoStops(hex, f);
    var tail := "/" + after;
    var r := hex + tail;
    assert rest[1..] == r;
    SpanOf(hex, "/]", tail);
    assert r[8..] == tail && r[9..] == after;
  }

  lemma OriginIff(rest: string, origin: string, after: string)
    ensures ReadOrigin(rest) == Ok((origin, after))
            <==> OriginPath.Validated(origin).Ok? && rest == origin + "]" + after
  {
    hide OriginPath.Validated, Span;
    if ReadOrigin(rest) == Ok((origin, after)) {
      var n := Span(rest, "],)");
      assert rest == rest[..n] + "]" + rest[n + 1..];
    }
    if OriginPath.Validated(origin).Ok? && rest == origin + "]" + after {
      OriginPath.ValidatedIsContained(origin);
      var tail := "]" + after;
      assert rest == origin + tail;
      SpanOf(origin, "],)", tail);
      assert tail[1..] == after && rest[|origin| + 1..] == after;
    }
  }

  lemma SplitTokenIff(token: string, xpub: string, b: Branch)
    ensures SplitToken(token) == Ok((xpub, b)) <==> xpub != "" && token == xpub + Suffix(b)
  {
    if xpub != "" && token == xpub + Suffix(b) {
      assert token[..|token| - 4] == xpub && token[|token| - 4..] == Suffix(b);
      assert EXTERNAL_SUFFIX[1] != INTERNAL_SUFFIX[1];
    }
    if |token| >= 4 {
      assert token == token[..|token| - 4] + token[|token| - 4..];
    }
  }

  predicate Ended(after: string) {
    after == "" || after[0] in ",)"
  }

  lemma CheckedXpubNonEmpty(xpub: string, decodes: string -> bool)
    requires CheckXpub(xpub, decodes).Ok?
    ensures xpub != ""
  {
  }

  lemma XpubIff(rest: string, xpub: string, b: Branch, after: string, decodes: string -> bool)
    ensures ReadXpub(rest, decodes) == Ok(((xpub, b), after))
            <==> CheckXpub(xpub, decodes).Ok? && ',' !in xpub && ')' !in xpub
                 && rest == xpub + Suffix(b) + after && Ended(after)
  {
    hide SplitToken, CheckXpub, Span;
    if ReadXpub(rest, decodes) == Ok(((xpub, b), after)) {
      var n := Span(rest, ",)");
      SplitTokenIff(rest[..n], xpub, b);
      assert rest == rest[..n] + rest[n..];
      PrefixAvoids(rest[..n], xpub, Suffix(b));
    }
    if CheckXpub(xpub, decodes).Ok? && ',' !in xpub && ')' !in xpub && rest == xpub + Suffix(b) + after
        && Ended(after) {
      var token := xpub + Suffix(b);
      CheckedXpubNonEmpty(xpub, decodes);
      SplitTokenIff(token, xpub, b);
      SpanOf(token, ",)", after);
    }
  }

  lemma PrefixAvoids(token: string, head: string, tail: string)
    requires token == head + tail && forall i :: 0 <= i < |token| ==> token[i] !in ",)"
    ensures ',' !in head && ')' !in head
  {
    forall i | 0 <= i < |head| ensures head[i] !in ",)" {
      assert token[i] == head[i];
    }
  }

  /** Reading a key expression succeeds on exactly the texts of well-formed keys, the
      fingerprint in any case. */
  lemma KeyExprIff(rest: string, key: KeyExpr, after: string, decodes: string -> bool)
    ensures ReadKeyExpr(rest, decodes) == Ok((key, after))
            <==> WellFormedKey(key, decodes) && Ended(after)
                 && exists hex :: SameUpToCase(hex, ToHex(key.fingerprint)) && rest == KeyText(key, hex) + after
  {
    hide ReadFingerprint, ReadOrigin, ReadXpub, ToHex, CheckXpub, OriginPath.Validated, SameUpToCase;
    var tail := key.xpub + Suffix(key.derivation) + after;
    var mid := key.originPath + "]" + tail;
    FingerprintIff(rest, key.fingerprint, mid);
    OriginIff(mid, key.originPath, tail);
    XpubIff(tail, key.xpub, key.derivation, after, decodes);
    forall hex: string ensures "[" + hex + "/" + mid == KeyText(key, hex) + after {
      KeyTextThen(key, hex, after);
    }
    if ReadKeyExpr(rest, decodes) == Ok((key, after)) {
      KeyExprUnfolds(rest, key, after, decodes);
    }
  }

  lemma KeyTextThen(key: KeyExpr, hex: string, after: string)
    ensures "[" + hex + "/" + (key.originPath + "]" + (key.xpub + Suffix(key.derivation) + after))
        == KeyText(key, hex) + after
  {
  }

  lemma KeyExprUnfolds(rest: string, key: KeyExpr, after: string, decodes: string -> bool)
    requires ReadKeyExpr(rest, decodes) == Ok((key, after))
    ensures var tail := key.xpub + Suffix(key.derivation) + after;
            var mid := key.originPath + "]" + tail;
            && ReadFingerprint(rest) == Ok((key.fingerprint, mid))
            && ReadOrigin(mid) == Ok((key.originPath, tail))
            && ReadXpub(tail, decodes) == Ok(((key.xpub, key.derivation), after))
  {
    hide ReadFingerprint, ReadOrigin, ReadXpub, CheckXpub, OriginPath.Validated, Suffix;
    var r1 := ReadFingerprint(rest).value.1;
    var r2 := ReadOrigin(r1).value.1;
    var v := ReadXpub(r2, decodes).value;
    assert v.0.0 == key.xpub && v.0.1 == key.derivation && v.1 == after;
    assert v.0 == (v.0.0, v.0.1) && v == (v.0, v.1);
    OriginIff(r1, key.originPath, r2);
    XpubIff(r2, key.xpub, key.derivation, after, decodes);
    assert r2 == key.xpub + Suffix(key.derivation) + after && r1 == key.originPath + "]" + r2;
  }

  // --- The whole body ------------------------------------------------------

  predicate HexOf(hex: seq<string>, d: ParsedDescriptor) {
    && |hex| == 3
    && SameUpToCase(hex[0], ToHex(d.keys[0].fingerprint))
    && SameUpToCase(hex[1], ToHex(d.keys[1].fingerprint))
    && SameUpToCase(hex[2], ToHex(d.keys[2].fingerprint))
  }

  /** Every accepted body is the rendering of its parsed fields, up to the hex case of the
      fingerprints. */
  lemma RenderAfterParse(body: string, decodes: string -> bool)
    requires ReadBody(body, decodes).Ok?
    ensures var d := ReadBody(body, decodes).value;
            WellFormed(d, decodes) && exists hex: seq<string> :: HexOf(hex, d) && body == BodyText(d, hex)
  {
    hide ReadKeyExpr, KeyText, ToHex, SameUpToCase, WellFormedKey, Span;
    var d := ReadBody(body, decodes).value;
    var r1 := body[4..][12..];
    var r2 := r1[Span(r1, ",") + 1..];
    var r3 := ReadKeyExpr(r2, decodes).value.1;
    var r5 := ReadKeyExpr(r3[1..], decodes).value.1;
    var r7 := ReadKeyExpr(r5[1..], decodes).value.1;
    KeyExprIff(r2, d.keys[0], r3, decodes);
    KeyExprIff(r3[1..], d.keys[1], r5, decodes);
    KeyExprIff(r5[1..], d.keys[2], r7, decodes);
    var h0 :| SameUpToCase(h0, ToHex(d.keys[0].fingerprint)) && r2 == KeyText(d.keys[0], h0) + r3;
    var h1 :| SameUpToCase(h1, ToHex(d.keys[1].fingerprint)) && r3[1..] == KeyText(d.keys[1], h1) + r5;
    var h2 :| SameUpToCase(h2, ToHex(d.keys[2].fingerprint)) && r5[1..] == KeyText(d.keys[2], h2) + r7;
    assert HexOf([h0, h1, h2], d);
    BodyUnfolds(body, decodes);
    assert body == BodyText(d, [h0, h1, h2]);
  }

  /** The separators around the three key expressions of an accepted body. */
  lemma BodyUnfolds(body: string, decodes: string -> bool)
    requires ReadBody(body, decodes).Ok?
    ensures var r1 := body[4..][12..];
            var r2 := r1[Span(r1, ",") + 1..];
            && ReadKeyExpr(r2, decodes).Ok?
            && var r3 := ReadKeyExpr(r2, decodes).value.1;
            && r3 != "" && ReadKeyExpr(r3[1..], decodes).Ok?
            && var r5 := ReadKeyExpr(r3[1..], decodes).value.1;
            && r5 != "" && ReadKeyExpr(r5[1..], decodes).Ok?
            && ReadKeyExpr(r5[1..], decodes).value.1 == "))"
            && body == "wsh(" + ("sortedmulti(" + ("2," + r2)) && r3 == "," + r3[1..] && r5 == "," + r5[1..]
  {
    hide ReadKeyExpr, Span;
    var r1 := body[4..][12..];
    assert r1 == "2," + r1[Span(r1, ",") + 1..];
    assert body == "wsh(" + ("sortedmulti(" + r1);
  }

  /** Rendering any well-formed value, in any hex case, parses back to that value. */
  lemma ParseAfterRender(d: ParsedDescriptor, hex: seq<string>, decodes: string -> bool)
    requires WellFormed(d, decodes) && HexOf(hex, d)
    ensures ReadBody(BodyText(d, hex), decodes) == Ok(d)
  {
    hide ReadKeyExpr, KeyText, ToHex, SameUpToCase, WellFormedKey, Span;
    var t2 := KeyText(d.keys[2], hex[2]) + "))";
    var t1 := KeyText(d.keys[1], hex[1]) + ("," + t2);
    var t0 := KeyText(d.keys[0], hex[0]) + ("," + t1);
    KeyExprIff(t0, d.keys[0], "," + t1, decodes);
    KeyExprIff(t1, d.keys[1], "," + t2, decodes);
    KeyExprIff(t2, d.keys[2], "))", decodes);
    var body := BodyText(d, hex);
    assert body[4..] == "sortedmulti(" + ("2," + t0);
    assert body[4..][12..] == "2," + t0;
    var r1 := "2," + t0;
    SpanOf("2", ",", "," + t0);
    assert r1 == "2" + ("," + t0);
    assert r1[..1] == "2" && r1[2..] == t0;
    assert ("," + t1)[1..] == t1 && ("," + t2)[1..] == t2;
    assert "))"[1..] == ")" && ")"[1..] == "";
    assert d.keys == [d.keys[0], d.keys[1], d.keys[2]];
  }

  lemma CanonicalHexFits(d: ParsedDescriptor)
    ensures HexOf(CanonicalHex(d), d)
  {
    forall f: Fingerprint ensures SameUpToCase(ToHex(f), ToHex(f)) {
      ToHexIsLower(f);
    }
  }

  lemma ToHexIsLower(f: Fingerprint)
    ensures SameUpToCase(ToHex(f), ToHex(f))
  {
    hide Lower, HexDigit;
    forall n: nat | n < 16 ensures Lower(HexDigit(n)) == HexDigit(n) {
      DigitIsLower(n);
    }
  }

  lemma DigitIsLower(n: nat)
    requires n < 16
    ensures Lower(HexDigit(n)) == HexDigit(n)
  {
    assert !('A' <= HexDigit(n) <= 'Z');
  }

  /** The printer with its checksum is undone by the parser. */
  lemma DescriptorRoundTrip(d: ParsedDescriptor, hex: seq<string>, decodes: string -> bool)
    requires WellFormed(d, decodes) && HexOf(hex, d) && InCharset(BodyText(d, hex))
    ensures Parsed(BodyText(d, hex) + "#" + CreatedChecksum(BodyText(d, hex)), decodes) == Ok(d)
  {
    hide ReadBody, Verified, CreatedChecksum, SameUpToCase, ToHex, WellFormed, KeyText;
    var body := BodyText(d, hex);
    ParseAfterRender(d, hex, decodes);
    assert body != "";
    hide BodyText;
    VerifiedIffCreated(body, CreatedChecksum(body));
    var s := body + "#" + CreatedChecksum(body);
    assert s[..|s| - 9] == body;
  }

  /** The text of a descriptor: its body in the given hex case and the one checksum that fits. */
  ghost predicate IsTextOf(s: string, d: ParsedDescriptor, hex: seq<string>) {
    && HexOf(hex, d) && InCharset(BodyText(d, hex))
    && s == BodyText(d, hex) + "#" + CreatedChecksum(BodyText(d, hex))
  }

  /** Accepted descriptors are exactly the texts of well-formed values. */
  lemma ParsedIff(s: string, d: ParsedDescriptor, decodes: string -> bool)
    ensures Parsed(s, decodes) == Ok(d) <==> WellFormed(d, decodes) && exists hex: seq<string> :: IsTextOf(s, d, hex)
  {
    if Parsed(s, decodes) == Ok(d) {
      ParsedIsText(s, d, decodes);
    }
    hide Parsed, WellFormed;
    if WellFormed(d, decodes) && exists hex: seq<string> :: IsTextOf(s, d, hex) {
      var hex: seq<string> :| IsTextOf(s, d, hex);
      DescriptorRoundTrip(d, hex, decodes);
    }
  }

  lemma ParsedIsText(s: string, d: ParsedDescriptor, decodes: string -> bool)
    requires Parsed(s, decodes) == Ok(d)
    ensures WellFormed(d, decodes) && exists hex: seq<string> :: IsTextOf(s, d, hex)
  {
    hide ReadBody, CreatedChecksum, SameUpToCase, ToHex, WellFormed, BodyText, CodeWord;
    var body, checksum := s[..|s| - 9], s[|s| - 8..];
    assert s == body + "#" + checksum && InCharset(body) && body != "";
    assert Verified(body + "#" + checksum).Ok?;
    hide Verified;
    VerifiedIffCreated(body, checksum);
    RenderAfterParse(body, decodes);
    var hex: seq<string> :| HexOf(hex, d) && body == BodyText(d, hex);
    assert IsTextOf(s, d, hex);
  }
}
