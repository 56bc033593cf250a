/** Which error answers which fault of a descriptor text, and exactly which extended keys pass. */
module ParseRefusals {
  import opened Machine
  import opened Errors
  import opened PolymodCode
  import opened Checksum
  import opened Descriptor
  import OriginPath

  // --- The checksum --------------------------------------------------------

  ghost predicate OutsideCharset(s: string) {
    exists i :: 0 <= i < |s| && s[i] !in INPUT_CHARSET
  }

  ghost predicate OutsideChecksum(s: string) {
    exists i :: 0 <= i < |s| && s[i] !in CHECKSUM_CHARSET
  }

  /** No `#` nine characters before the end, a checksum character that is none, a payload character
      outside the charset, and a checksum that is not the payload's own. */
  lemma VerifiedRefuses(payload: string, checksum: string)
    requires payload != "" && |checksum| == 8
    ensures var r := Verified(payload + "#" + checksum);
            && (r == Err(MalformedChecksum) <==> OutsideChecksum(checksum))
            && (r == Err(InvalidCharset) <==> !OutsideChecksum(checksum) && OutsideCharset(payload))
            && (!OutsideChecksum(checksum) && !OutsideCharset(payload) ==>
                  InCharset(payload) && (r == Err(InvalidChecksum) <==> checksum != CreatedChecksum(payload)))
  {
    hide Fold, CodeWord, CreatedChecksum;
    CharsAgree(payload, checksum);
    hide InCharset, ChecksumChars, OutsideCharset, OutsideChecksum;
    var s := payload + "#" + checksum;
    assert s[..|s| - 9] == payload && s[|s| - 8..] == checksum && s[|s| - 9] == '#';
    if InCharset(payload) && ChecksumChars(checksum) {
      VerifiedIffCreated(payload, checksum);
    }
  }

  lemma CharsAgree(payload: string, checksum: string)
    ensures InCharset(payload) <==> !OutsideCharset(payload)
    ensures ChecksumChars(checksum) <==> !OutsideChecksum(checksum)
  {
  }

  lemma ChecksumMissing(s: string)
    ensures Verified(s) == Err(MissingChecksum)
            <==> !exists payload, checksum :: payload != "" && |checksum| == 8 && s == payload + "#" + checksum
  {
    hide Fold, CodeWord, InCharset, ChecksumChars;
    if Verified(s) != Err(MissingChecksum) {
      var payload, checksum := s[..|s| - 9], s[|s| - 8..];
      assert payload != "" && |checksum| == 8 && s == payload + "#" + checksum;
    }
  }

  // --- Origins -------------------------------------------------------------

  /** A path with a multipath character, one with another number of segments or a malformed one, and one
      that is not a BIP-48 account. */
  lemma OriginRefuses(path: string)
    ensures var r, parts := OriginPath.Validated(path), OriginPath.Split(OriginPath.Trimmed(path));
            var multi := '<' in path || ';' in path || '*' in path;
            var four := |parts| == 4 && forall i :: 0 <= i < 4 ==> OriginPath.SegmentIndex(parts[i]).Some?;
            && (r == Err(MultipathForbidden) <==> multi)
            && (r == Err(MalformedOriginPath(path)) <==> !multi && !four && |parts| <= 4)
            && (r == Err(InvalidOriginPath(path)) <==>
                  !multi && (|parts| > 4 || (four && !OriginPath.IsBip48(path))))
  {
    OriginPath.ValidatedIffBip48(path);
    hide OriginPath.SegmentIndex, OriginPath.Split, OriginPath.IsBip48;
  }

  /** A segment reads as an index exactly when it is a number below 2^31 without a leading zero, followed by
      `'` or `h`. */
  lemma SegmentIff(part: string, n: nat)
    ensures OriginPath.SegmentIndex(part) == Some(n)
            <==> exists digits ::
                   && OriginPath.Hardened(part, digits) && digits != "" && OriginPath.AllDigits(digits)
                   && (digits[0] == '0' ==> |digits| == 1)
                   && OriginPath.Number(digits) == n < 0x8000_0000
  {
    hide OriginPath.Number;
    if OriginPath.SegmentIndex(part) == Some(n) {
      var digits := part[..|part| - 1];
      assert part == digits + [part[|part| - 1]];
      assert OriginPath.Hardened(part, digits);
    }
    if digits :| && OriginPath.Hardened(part, digits) && digits != "" && OriginPath.AllDigits(digits)
                 && (digits[0] == '0' ==> |digits| == 1) && OriginPath.Number(digits) == n < 0x8000_0000 {
      assert part[..|part| - 1] == digits;
    }
  }

  // --- Extended keys -------------------------------------------------------

  /** Private keys are named as such, whatever follows; public ones must decode and hold no multipath
      character. */
  lemma XpubRefuses(xpub: string, decodes: string -> bool)
    ensures var r := CheckXpub(xpub, decodes);
            var private := "xprv" <= xpub || "tprv" <= xpub;
            var public := "xpub" <= xpub || "tpub" <= xpub;
            var multi := '<' in xpub || ';' in xpub || '*' in xpub;
            && (r == Err(PrivateKeyForbidden) <==> private)
            && (r == Err(MultipathForbidden) <==> public && multi)
            && (r == Err(MalformedXpub) <==> !private && (!public || (!multi && !decodes(xpub))))
            && (r.Ok? <==> public && !multi && decodes(xpub))
  {
    assert "xprv" <= xpub || "tprv" <= xpub ==> xpub[2] == 'r';
    assert "xpub" <= xpub || "tpub" <= xpub ==> xpub[2] == 'u';
  }

  /** A token too short for a branch suffix, one that is nothing but the suffix, and one with another
      ending, which is called multipath when it looks like one. */
  lemma TokenRefuses(token: string)
    ensures var r := SplitToken(token);
            var branched := exists head, b :: token == head + Suffix(b);
            var multi := '<' in token || ';' in token;
            && (r == Err(MalformedKeyExpression) <==> |token| < 4)
            && (r == Err(MalformedXpub) <==> token == "/0/*" || token == "/1/*")
            && (r == Err(MultipathForbidden) <==> |token| >= 4 && !branched && multi)
            && (r == Err(MalformedDerivation) <==> |token| >= 4 && !branched && !multi)
  {
    forall head, b: Branch | token == head + Suffix(b)
      ensures token[..|token| - 4] == head && token[|token| - 4..] == Suffix(b)
    {
    }
    if |token| >= 4 {
      var head, tail := token[..|token| - 4], token[|token| - 4..];
      assert token == head + tail;
      assert tail == Suffix(External) ==> token == head + Suffix(External);
      assert tail == Suffix(Internal) ==> token == head + Suffix(Internal);
      assert head == "" ==> token == tail;
    }
  }

  // --- A key expression ----------------------------------------------------

  /** No bracket; a fingerprint that is not eight hexadecimal digits up to the next `/` or `]`; and one that
      no origin follows. */
  lemma FingerprintRefuses(rest: string, token: string, tail: string)
    requires forall i :: 0 <= i < |token| ==> token[i] !in "/]"
    requires tail == "" || tail[0] in "/]"
    ensures rest == "" || rest[0] != '[' ==> ReadFingerprint(rest) == Err(MalformedKeyExpression)
    ensures rest == "[" + (token + tail) ==>
              && (FromHex(token).None? ==> ReadFingerprint(rest) == Err(MalformedFingerprint))
              && (FromHex(token).Some? && !("/" <= tail) ==> ReadFingerprint(rest) == Err(MalformedKeyExpression))
  {
    hide Span;
    if rest == "[" + (token + tail) {
      assert rest[1..] == token + tail;
      SpanOf(token, "/]", tail);
      hide FromHex;
      EightDigits(token);
    }
  }

  lemma EightDigits(s: string)
    ensures FromHex(s).Some? ==> |s| == 8
  {
  }

  /** An origin not closed by `]` before the next `,` or `)`, an empty one, and one `OriginRefuses` refuses. */
  lemma OriginTokenRefuses(rest: string, origin: string, tail: string)
    requires forall i :: 0 <= i < |origin| ==> origin[i] !in "],)"
    requires tail == "" || tail[0] in "],)"
    requires rest == origin + tail
    ensures !("]" <= tail) ==> ReadOrigin(rest) == Err(MalformedKeyExpression)
    ensures "]" <= tail && origin == "" ==> ReadOrigin(rest) == Err(MalformedOriginPath("empty"))
    ensures "]" <= tail && origin != "" && OriginPath.Validated(origin).Err? ==>
              ReadOrigin(rest) == Err(OriginPath.Validated(origin).error)
  {
    SpanOf(origin, "],)", tail);
    hide Span, OriginPath.Validated;
  }

  /** An extended key is the text up to the next `,` or `)`, split first and checked after. */
  lemma XpubTokenRefuses(rest: string, token: string, tail: string, decodes: string -> bool)
    requires forall i :: 0 <= i < |token| ==> token[i] !in ",)"
    requires tail == "" || tail[0] in ",)"
    requires rest == token + tail
    ensures var r, split := ReadXpub(rest, decodes), SplitToken(token);
            && (split.Err? ==> r == Err(split.error))
            && (split.Ok? && CheckXpub(split.value.0, decodes).Err? ==>
                  r == Err(CheckXpub(split.value.0, decodes).error))
  {
    SpanOf(token, ",)", tail);
    hide Span, SplitToken, CheckXpub;
  }

  /** The parts of a key expression are read in order, and the first at fault gives the error. */
  lemma KeyExprOrder(rest: string, decodes: string -> bool)
    ensures var r, fingerprint := ReadKeyExpr(rest, decodes), ReadFingerprint(rest);
            && (fingerprint.Err? ==> r == Err(fingerprint.error))
            && (fingerprint.Ok? ==>
                  var origin := ReadOrigin(fingerprint.value.1);
                  && (origin.Err? ==> r == Err(origin.error))
                  && (origin.Ok? && ReadXpub(origin.value.1, decodes).Err? ==>
                        r == Err(ReadXpub(origin.value.1, decodes).error)))
  {
    hide ReadFingerprint, ReadOrigin, ReadXpub;
  }

  // --- The body ------------------------------------------------------------

  /** What stands before the keys: `wsh(`, then `sortedmulti(`, then the threshold up to the first comma. */
  lemma HeadRefuses(body: string, rest: string, threshold: string, keys: string, decodes: string -> bool)
    requires ',' !in threshold
    ensures !("wsh(" <= body) ==> ReadBody(body, decodes) == Err(WrongTopLevel)
    ensures body == "wsh(" + rest && !("sortedmulti(" <= rest) ==>
              ReadBody(body, decodes) == Err(ExpectedSortedMulti)
    ensures body == "wsh(" + ("sortedmulti(" + threshold) ==> ReadBody(body, decodes) == Err(UnexpectedEof)
    ensures body == "wsh(" + ("sortedmulti(" + (threshold + ("," + keys))) && threshold != "2" ==>
              ReadBody(body, decodes) == Err(WrongThreshold(threshold))
  {
    hide ReadKeys, ReadClose;
    if body == "wsh(" + rest {
      assert body[4..] == rest;
    }
    if body == "wsh(" + ("sortedmulti(" + threshold) {
      assert body[4..][12..] == threshold;
      SpanOf(threshold, ",", "");
      assert threshold + "" == threshold;
    }
    if body == "wsh(" + ("sortedmulti(" + (threshold + ("," + keys))) {
      assert body[4..][12..] == threshold + ("," + keys);
      SpanOf(threshold, ",", "," + keys);
    }
  }

  lemma BodyIsKeys(body: string, keys: string, decodes: string -> bool)
    requires body == "wsh(" + ("sortedmulti(" + ("2" + ("," + keys)))
    ensures ReadBody(body, decodes)
            == match ReadKeys(keys, decodes)
               case Err(e) => Err(e)
               case Ok((three, after)) => ReadClose(after, three)
  {
    hide ReadKeys, ReadClose;
    assert body[4..][12..] == "2" + ("," + keys);
    SpanOf("2", ",", "," + keys);
    assert ("2" + ("," + keys))[2..] == keys;
  }

  /** The three keys are read in order; the first at fault gives the error, and where a comma is missing the
      text either ends or goes on otherwise. */
  lemma KeysRefuse(rest: string, decodes: string -> bool)
    ensures var r, first := ReadKeys(rest, decodes), ReadKeyExpr(rest, decodes);
            && (first.Err? ==> r == Err(first.error))
            && (first.Ok? && first.value.1 == "" ==> r == Err(UnexpectedEof))
            && (first.Ok? && first.value.1 != "" && first.value.1[0] != ',' ==> r == Err(TrailingGarbage))
            && (first.Ok? && "," <= first.value.1 ==>
                  var second := ReadKeyExpr(first.value.1[1..], decodes);
                  && (second.Err? ==> r == Err(second.error))
                  && (second.Ok? && second.value.1 == "" ==> r == Err(UnexpectedEof))
                  && (second.Ok? && second.value.1 != "" && second.value.1[0] != ',' ==> r == Err(TrailingGarbage))
                  && (second.Ok? && "," <= second.value.1 ==>
                        var third := ReadKeyExpr(second.value.1[1..], decodes);
                        && (third.Err? ==> r == Err(third.error))
                        && (third.Ok? ==> r == Ok(([first.value.0, second.value.0, third.value.0], third.value.1)))))
  {
    hide ReadKeyExpr;
  }

  /** After the third key: more keys are counted, `))` closes, and nothing may follow. */
  lemma {:induction false} CloseRefuses(rest: string, keys: seq<KeyExpr>)
    requires |keys| == 3
    ensures var r := ReadClose(rest, keys);
            && ("," <= rest ==> r.Err? && r.error.WrongKeyCount? && r.error.count == 3 + ExtraKeys(rest) > 3)
            && (rest == "" || rest == ")" ==> r == Err(UnexpectedEof))
            && (rest == "))" ==> r == Ok(ParsedDescriptor(2, keys)))
            && (rest != "" && rest[0] != ',' && rest != ")" && rest != "))" ==> r == Err(TrailingGarbage))
  {
    if rest != "" && rest[0] == ')' && rest[1..] != "" && rest[1..][0] == ')' && rest[1..][1..] == "" {
      assert rest == "))";
    }
    if |rest| == 1 {
      assert rest == [rest[0]];
    }
  }

  /** Keys beyond the third are counted by the commas that start them. */
  lemma {:induction false} ExtraKeysCount(more: seq<string>, tail: string)
    requires forall i :: 0 <= i < |more| ==> ',' !in more[i] && ')' !in more[i]
    requires tail == "" || tail[0] == ')'
    ensures ExtraKeys(Listed(more) + tail) == |more|
  {
    hide ExtraKeys, Listed;
    if more == [] {
      NoMoreKeys(tail);
    } else {
      var next := Listed(more[1..]) + tail;
      ExtraKeysCount(more[1..], tail);
      ListedStarts(more[1..], tail);
      ListedOnce(more, tail);
      OneMoreKey(more[0], next);
    }
  }

  lemma {:induction false} NoMoreKeys(tail: string)
    requires tail == "" || tail[0] == ')'
    ensures ExtraKeys(Listed([]) + tail) == 0
  {
    assert Listed([]) + tail == tail;
  }

  lemma {:induction false} ListedOnce(more: seq<string>, tail: string)
    requires more != []
    ensures Listed(more) + tail == "," + (more[0] + (Listed(more[1..]) + tail))
  {
  }

  lemma {:induction false} OneMoreKey(token: string, next: string)
    requires ',' !in token && ')' !in token && (next == "" || next[0] in ",)")
    ensures ExtraKeys("," + (token + next)) == 1 + ExtraKeys(next)
  {
    SpanOf(token, ",)", next);
    hide Span;
    assert ("," + (token + next))[1..] == token + next;
  }

  function Listed(more: seq<string>): string {
    if more == [] then "" else "," + more[0] + Listed(more[1..])
  }

  lemma {:induction false} ListedStarts(more: seq<string>, tail: string)
    requires tail == "" || tail[0] == ')'
    ensures Listed(more) + tail == "" || (Listed(more) + tail)[0] in ",)"
  {
  }
}
