/** The parser as the code runs it: a cursor over the body whose position every function moves. */
module DescriptorParser {
  import opened Machine
  import opened Errors
  import opened Checksum
  import opened Descriptor
  import OriginPath

  class Cursor {
    const s: string
    var pos: nat

    constructor (s: string)
      ensures this.s == s && pos == 0
    {
      this.s := s;
      pos := 0;
    }

    ghost predicate Valid()
      reads this
    {
      pos <= |s|
    }

    function Rest(): string
      requires Valid()
      reads this
    {
      s[pos..]
    }

    method Advance(n: nat)
      requires Valid() && n <= |Rest()|
      modifies this
      ensures Valid() && Rest() == old(Rest())[n..]
    {
      pos := pos + n;
    }

    /** `expect_char`: moves past the character or stays and says why not. */
    method ExpectChar(c: char) returns (r: Result<(), ParseError>)
      requires Valid()
      modifies this
      ensures Valid()
      ensures match Expect(old(Rest()), c)
              case Ok(rest) => r.Ok? && Rest() == rest
              case Err(e) => r == Err(e) && pos == old(pos)
    {
      var rest := Rest();
      if |rest| > 0 && rest[0] == c {
        Advance(1);
        return Ok(());
      } else if rest == "" {
        return Err(UnexpectedEof);
      } else {
        return Err(TrailingGarbage);
      }
    }

    /** `take_while` with the characters that stop it; `take_until_char` stops at one. */
    method TakeWhile(stops: string) returns (token: string)
      requires Valid()
      modifies this
      ensures Valid()
      ensures token == old(Rest())[..Span(old(Rest()), stops)]
      ensures Rest() == old(Rest())[Span(old(Rest()), stops)..]
    {
      var rest := Rest();
      var end := 0;
      while end < |rest| && rest[end] !in stops
        invariant end <= |rest| && Span(rest, stops) == end + Span(rest[end..], stops)
      {
        assert rest[end..][1..] == rest[end + 1..];
        end := end + 1;
      }
      token := rest[..end];
      Advance(end);
    }
  }

  /** `parse_keyexpr`. */
  method ParseKeyExpr(p: Cursor, decodes: string -> bool) returns (r: Result<KeyExpr, ParseError>)
    requires p.Valid()
    modifies p
    ensures p.Valid()
    ensures match ReadKeyExpr(old(p.Rest()), decodes)
            case Ok((key, rest)) => r == Ok(key) && p.Rest() == rest
            case Err(e) => r == Err(e)
  {
    hide Span, FromHex, OriginPath.Validated, SplitToken, CheckXpub;
    ghost var r0 := p.Rest();
    var fingerprint := ParseFingerprint(p);
    if fingerprint.Err? {
      return Err(fingerprint.error);
    }
    var origin := ParseOrigin(p);
    if origin.Err? {
      return Err(origin.error);
    }
    var rest := p.Rest();
    var token := p.TakeWhile(",)");
    var split := SplitToken(token);
    if split.Err? {
      return Err(split.error);
    }
    var (xpub, branch) := split.value;
    var checked := CheckXpub(xpub, decodes);
    if checked.Err? {
      return Err(checked.error);
    }
    return Ok(KeyExpr(fingerprint.value, origin.value, xpub, branch));
  }

  /** The opening bracket and the fingerprint, up to and past the slash. */
  method ParseFingerprint(p: Cursor) returns (r: Result<Fingerprint, ParseError>)
    requires p.Valid()
    modifies p
    ensures p.Valid()
    ensures match ReadFingerprint(old(p.Rest()))
            case Ok((f, rest)) => r == Ok(f) && p.Rest() == rest
            case Err(e) => r == Err(e)
  {
    hide Span, FromHex;
    var bracket := p.ExpectChar('[');
    if bracket.Err? {
      return Err(MalformedKeyExpression);
    }
    var hex := p.TakeWhile("/]");
    if |hex| != 8 {
      return Err(MalformedFingerprint);
    }
    var f := FromHex(hex);
    if f.None? {
      return Err(MalformedFingerprint);
    }
    if !("/" <= p.Rest()) {
      return Err(MalformedKeyExpression);
    }
    p.Advance(1);
    return Ok(f.value);
  }

  /** The origin path, up to and past the closing bracket. */
  method ParseOrigin(p: Cursor) returns (r: Result<string, ParseError>)
    requires p.Valid()
    modifies p
    ensures p.Valid()
    ensures match ReadOrigin(old(p.Rest()))
            case Ok((origin, rest)) => r == Ok(origin) && p.Rest() == rest
            case Err(e) => r == Err(e)
  {
    hide Span, OriginPath.Validated;
    var origin := p.TakeWhile("],)");
    if !("]" <= p.Rest()) {
      return Err(MalformedKeyExpression);
    }
    if origin == "" {
      return Err(MalformedOriginPath("empty"));
    }
    var checked := OriginPath.ValidateOriginPath(origin);
    if checked.Err? {
      return Err(checked.error);
    }
    p.Advance(1);
    return Ok(origin);
  }

  /** The loop that counts key expressions beyond the third. */
  method CountExtraKeys(p: Cursor) returns (extra: nat)
    requires p.Valid()
    modifies p
    ensures p.Valid() && extra == ExtraKeys(old(p.Rest()))
  {
    hide Span;
    extra := 0;
    while "," <= p.Rest()
      invariant p.Valid() && extra + ExtraKeys(p.Rest()) == ExtraKeys(old(p.Rest()))
      decreases |p.Rest()|
    {
      p.Advance(1);
      var _ := p.TakeWhile(",)");
      extra := extra + 1;
    }
  }

  /** The three key expressions and the commas between them. */
  method ParseKeys(p: Cursor, decodes: string -> bool) returns (r: Result<seq<KeyExpr>, ParseError>)
    requires p.Valid()
    modifies p
    ensures p.Valid()
    ensures match ReadKeys(old(p.Rest()), decodes)
            case Ok((keys, rest)) => r == Ok(keys) && p.Rest() == rest
            case Err(e) => r == Err(e)
  {
    hide ReadKeyExpr;
    var key0 := ParseKeyExpr(p, decodes);
    if key0.Err? {
      return Err(key0.error);
    }
    var comma := p.ExpectChar(',');
    if comma.Err? {
      return Err(comma.error);
    }
    var key1 := ParseKeyExpr(p, decodes);
    if key1.Err? {
      return Err(key1.error);
    }
    comma := p.ExpectChar(',');
    if comma.Err? {
      return Err(comma.error);
    }
    var key2 := ParseKeyExpr(p, decodes);
    if key2.Err? {
      return Err(key2.error);
    }
    return Ok([key0.value, key1.value, key2.value]);
  }

  /** The position of the last `#`. */
  method RFindHash(s: string) returns (at: int)
    ensures -1 <= at < |s| && (at >= 0 ==> s[at] == '#') && forall i :: at < i < |s| ==> s[i] != '#'
  {
    at := |s| - 1;
    while at >= 0 && s[at] != '#'
      invariant -1 <= at < |s| && forall i :: at < i < |s| ==> s[i] != '#'
    {
      at := at - 1;
    }
  }

  lemma HashBeforeChecksum(s: string)
    requires Verified(s).Ok?
    ensures |s| >= 10 && s[|s| - 9] == '#' && forall i :: |s| - 9 < i < |s| ==> s[i] != '#'
  {
    hide CodeWord;
    var checksum := s[|s| - 8..];
    forall i | |s| - 9 < i < |s| ensures s[i] != '#' {
      assert checksum[i - (|s| - 8)] == s[i];
      assert '#' !in CHECKSUM_CHARSET;
    }
  }

  /** The rest of the body after the three keys: nothing but the two closing parentheses. */
  method ParseClose(p: Cursor, keys: seq<KeyExpr>) returns (r: Result<ParsedDescriptor, ParseError>)
    requires p.Valid() && |keys| == 3
    modifies p
    ensures r == ReadClose(old(p.Rest()), keys)
  {
    hide ExtraKeys;
    if "," <= p.Rest() {
      var extra := CountExtraKeys(p);
      return Err(WrongKeyCount(3 + extra));
    }
    var closed := p.ExpectChar(')');
    if closed.Err? {
      return Err(closed.error);
    }
    closed := p.ExpectChar(')');
    if closed.Err? {
      return Err(closed.error);
    }
    if p.Rest() != "" {
      return Err(TrailingGarbage);
    }
    return Ok(ParsedDescriptor(2, keys));
  }

  /** `parse` after the checksum. */
  method ParseBody(body: string, decodes: string -> bool) returns (r: Result<ParsedDescriptor, ParseError>)
    ensures r == ReadBody(body, decodes)
  {
    hide ReadKeys, Span, ReadClose;
    var p := new Cursor(body);
    assert p.Rest() == body;
    if !("wsh(" <= p.Rest()) {
      return Err(WrongTopLevel);
    }
    p.Advance(4);
    if !("sortedmulti(" <= p.Rest()) {
      return Err(ExpectedSortedMulti);
    }
    p.Advance(12);
    var k := p.TakeWhile(",");
    if p.Rest() == "" {
      return Err(UnexpectedEof);
    }
    if k != "2" {
      return Err(WrongThreshold(k));
    }
    p.Advance(1);
    var keys := ParseKeys(p, decodes);
    if keys.Err? {
      return Err(keys.error);
    }
    r := ParseClose(p, keys.value);
  }

  /** `parse`. */
  method Parse(descriptor: string, decodes: string -> bool) returns (r: Result<ParsedDescriptor, ParseError>)
    ensures r == Parsed(descriptor, decodes)
  {
    hide Verified, ReadBody;
    var checked := VerifyChecksum(descriptor);
    if checked.Err? {
      return Err(checked.error);
    }
    HashBeforeChecksum(descriptor);
    var hashPos := RFindHash(descriptor);
    r := ParseBody(descriptor[..hashPos], decodes);
  }
}
