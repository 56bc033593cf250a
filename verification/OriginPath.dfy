/** Key-origin paths: exactly the BIP-48 script-type-2 accounts, in either hardened notation. */
module OriginPath {
  import opened Machine
  import opened Errors

  // --- Decimal numbers without leading zeros -------------------------------

  predicate Digit(c: char) {
    '0' <= c <= '9'
  }

  predicate AllDigits(s: string) {
    forall i :: 0 <= i < |s| ==> Digit(s[i])
  }

  function Number(s: string): nat
    requires AllDigits(s)
  {
    if s == "" then 0
    else Number(s[..|s| - 1]) * 10 + (s[|s| - 1] as int - '0' as int)
  }

  /** A number at least as long as three digits, not starting with zero, is at least 100. */
  lemma {:induction false} LongNumber(s: string)
    requires AllDigits(s) && s != "" && s[0] != '0'
    ensures Number(s) >= 1
    ensures |s| >= 2 ==> Number(s) >= 10
    ensures |s| >= 3 ==> Number(s) >= 100
  {
    var front := s[..|s| - 1];
    if |s| >= 2 {
      assert front[0] == s[0];
      LongNumber(front);
    }
  }

  /** The index of one hardened path segment; `None` when it is malformed. */
  function SegmentIndex(part: string): Option<nat> {
    if part == "" || (part[|part| - 1] != '\'' && part[|part| - 1] != 'h') then None
    else
      var num := part[..|part| - 1];
      if num == "" || !AllDigits(num) || (|num| > 1 && num[0] == '0') then None
      else if Number(num) > U64_MAX || Number(num) >= 0x8000_0000 then None
      else Some(Number(num))
  }

  /** A one-digit or two-digit index is written in exactly two ways. */
  predicate Hardened(part: string, digits: string) {
    part == digits + "'" || part == digits + "h"
  }

  lemma SmallSegment(part: string, n: nat)
    requires n < 10
    ensures SegmentIndex(part) == Some(n) <==> Hardened(part, [('0' as int + n) as char])
  {
    var d := [('0' as int + n) as char];
    assert d[..0] == "" && Number(d) == n;
    if Hardened(part, d) {
      assert part[..|part| - 1] == d && d[..0] == "";
    }
    if SegmentIndex(part) == Some(n) {
      var num := part[..|part| - 1];
      if |num| > 1 {
        LongNumber(num);
      }
      assert num[..0] == "" && num == d;
      assert part == num + [part[|part| - 1]];
    }
  }

  lemma PurposeSegment(part: string)
    ensures SegmentIndex(part) == Some(48) <==> Hardened(part, "48")
  {
    var d := "48";
    assert d[..1] == "4" && d[..1][..0] == "" && Number("4") == 4;
    if Hardened(part, d) {
      assert part[..|part| - 1] == d;
    }
    if SegmentIndex(part) == Some(48) {
      var num := part[..|part| - 1];
      if |num| > 2 {
        LongNumber(num);
      }
      assert num[..0] == "";
      if |num| == 2 {
        assert num[..1][..0] == "" && Number(num[..1]) == num[0] as int - '0' as int;
        assert num == [num[0], num[1]] && num == d;
      }
      assert part == num + [part[|part| - 1]];
    }
  }

  // --- Splitting at slashes ------------------------------------------------

  function Split(s: string): (r: seq<string>)
    ensures |r| >= 1
  {
    if s == "" then [""]
    else
      var rest := Split(s[1..]);
      if s[0] == '/' then [""] + rest else [[s[0]] + rest[0]] + rest[1..]
  }

  function Join(parts: seq<string>): string
    requires |parts| >= 1
  {
    if |parts| == 1 then parts[0] else parts[0] + "/" + Join(parts[1..])
  }

  /** Joining the pieces gives the string back, and no piece holds a slash. */
  lemma {:induction false} SplitJoins(s: string)
    ensures Join(Split(s)) == s
    ensures forall i :: 0 <= i < |Split(s)| ==> '/' !in Split(s)[i]
  {
    if s != "" {
      SplitJoins(s[1..]);
      var rest, all := Split(s[1..]), Split(s);
      if s[0] == '/' {
        assert all[1..] == rest;
        assert Join(all) == "" + "/" + s[1..];
      } else {
        assert all[1..] == rest[1..];
        if |rest| > 1 {
          assert Join(all) == ([s[0]] + rest[0]) + "/" + Join(rest[1..]);
        }
        assert Join(all) == [s[0]] + s[1..];
      }
    }
  }

  lemma {:induction false} JoinSplits(part: string, tail: string)
    requires '/' !in part
    ensures Split(part) == [part]
    ensures Split(part + "/" + tail) == [part] + Split(tail)
  {
    if part == "" {
      assert part + "/" + tail == "/" + tail && ("/" + tail)[1..] == tail;
    } else {
      JoinSplits(part[1..], tail);
      assert (part + "/" + tail)[1..] == part[1..] + "/" + tail;
      assert [part[0]] + part[1..] == part;
    }
  }

  // --- Validation ----------------------------------------------------------

  predicate HasMultipath(s: string) {
    '<' in s || ';' in s || '*' in s
  }

  function Trimmed(path: string): string {
    if "m/" <= path then path[2..] else path
  }

  /** `validate_origin_path`. */
  function Validated(path: string): Result<(), ParseError> {
    if HasMultipath(path) then Err(MultipathForbidden)
    else
      var parts := Split(Trimmed(path));
      if |parts| < 4 then Err(MalformedOriginPath(path))
      else if |parts| > 4 then Err(InvalidOriginPath(path))
      else
        var i0, i1, i2, i3 := SegmentIndex(parts[0]), SegmentIndex(parts[1]), SegmentIndex(parts[2]),
            SegmentIndex(parts[3]);
        if i0.None? || i1.None? || i2.None? || i3.None? then Err(MalformedOriginPath(path))
        else if i0.value == 48 && i1.value <= 1 && i2.value == 0 && i3.value == 2 then Ok(())
        else Err(InvalidOriginPath(path))
  }

  function Path4(a: string, b: string, c: string, d: string): string {
    a + "/" + (b + "/" + (c + "/" + d))
  }

  /** The four segments of a BIP-48 P2WSH account on mainnet or testnet. */
  predicate Bip48Segments(a: string, b: string, c: string, d: string) {
    Hardened(a, "48") && (Hardened(b, "0") || Hardened(b, "1")) && Hardened(c, "0") && Hardened(d, "2")
  }

  ghost predicate IsBip48(path: string) {
    exists a, b, c, d :: Bip48Segments(a, b, c, d) && (path == Path4(a, b, c, d) || path == "m/" + Path4(a, b, c, d))
  }

  lemma SplitPath4(a: string, b: string, c: string, d: string)
    requires '/' !in a && '/' !in b && '/' !in c && '/' !in d
    ensures Split(Path4(a, b, c, d)) == [a, b, c, d]
  {
    hide Split;
    JoinSplits(a, b + "/" + (c + "/" + d));
    JoinSplits(b, c + "/" + d);
    JoinSplits(c, d);
    JoinSplits(d, "");
  }

  lemma {:induction false} JoinFour(parts: seq<string>)
    requires |parts| == 4
    ensures Join(parts) == Path4(parts[0], parts[1], parts[2], parts[3])
  {
    assert parts[1..][1..] == parts[2..] && parts[2..][1..] == parts[3..];
    assert Join(parts[3..]) == parts[3];
    assert Join(parts[2..]) == parts[2] + "/" + parts[3];
  }

  lemma Bip48Indices(a: string, b: string, c: string, d: string)
    ensures Bip48Segments(a, b, c, d)
            <==> SegmentIndex(a) == Some(48) && (SegmentIndex(b) == Some(0) || SegmentIndex(b) == Some(1))
                 && SegmentIndex(c) == Some(0) && SegmentIndex(d) == Some(2)
  {
    hide SegmentIndex, Hardened;
    PurposeSegment(a);
    SmallSegment(b, 0);
    SmallSegment(b, 1);
    SmallSegment(c, 0);
    SmallSegment(d, 2);
  }

  /** Accepted are exactly the written forms of the BIP-48 paths, nothing else. */
  lemma ValidatedIffBip48(path: string)
    ensures Validated(path).Ok? <==> IsBip48(path)
  {
    hide SegmentIndex, Hardened, Split, Path4;
    if Validated(path).Ok? {
      var parts := Split(Trimmed(path));
      SplitJoins(Trimmed(path));
      JoinFour(parts);
      Bip48Indices(parts[0], parts[1], parts[2], parts[3]);
      assert path == Trimmed(path) || path == "m/" + Trimmed(path);
    }
    if IsBip48(path) {
      var a, b, c, d :| Bip48Segments(a, b, c, d) && (path == Path4(a, b, c, d) || path == "m/" + Path4(a, b, c, d));
      WrittenIsValid(path, a, b, c, d);
    }
  }

  predicate OriginChars(s: string) {
    forall i :: 0 <= i < |s| ==> Digit(s[i]) || s[i] in "'h/m"
  }

  lemma Path4Chars(a: string, b: string, c: string, d: string)
    requires Bip48Segments(a, b, c, d)
    ensures OriginChars(Path4(a, b, c, d)) && OriginChars("m/" + Path4(a, b, c, d))
    ensures '/' !in a && '/' !in b && '/' !in c && '/' !in d
  {
    assert OriginChars(a) && OriginChars(b) && OriginChars(c) && OriginChars(d);
    hide Hardened;
    CharsConcat(c, d);
    CharsConcat(b, c + "/" + d);
    CharsConcat(a, b + "/" + (c + "/" + d));
  }

  lemma CharsConcat(s: string, t: string)
    requires OriginChars(s) && OriginChars(t)
    ensures OriginChars(s + "/" + t) && OriginChars("m/" + (s + "/" + t))
  {
  }

  lemma CharsExclude(s: string)
    requires OriginChars(s)
    ensures ']' !in s && ',' !in s && ')' !in s && !HasMultipath(s)
  {
  }

  lemma WrittenIsValid(path: string, a: string, b: string, c: string, d: string)
    requires Bip48Segments(a, b, c, d) && (path == Path4(a, b, c, d) || path == "m/" + Path4(a, b, c, d))
    ensures Validated(path).Ok?
  {
    hide SegmentIndex, Split, Path4, Trimmed, Hardened, HasMultipath, OriginChars;
    Bip48Indices(a, b, c, d);
    Path4Chars(a, b, c, d);
    SplitPath4(a, b, c, d);
    CharsExclude(path);
    TrimmedForms(a, b, c, d);
  }

  lemma TrimmedForms(a: string, b: string, c: string, d: string)
    requires Hardened(a, "48")
    ensures Trimmed(Path4(a, b, c, d)) == Path4(a, b, c, d)
    ensures Trimmed("m/" + Path4(a, b, c, d)) == Path4(a, b, c, d)
  {
    assert Path4(a, b, c, d)[0] == '4' && "m/"[0] == 'm';
  }

  /** An accepted path never holds a character that ends the origin or the key expression. */
  lemma ValidatedIsContained(path: string)
    requires Validated(path).Ok?
    ensures path != "" && ']' !in path && ',' !in path && ')' !in path
  {
    ValidatedIffBip48(path);
    hide Validated, Path4, Hardened;
    var a, b, c, d :| Bip48Segments(a, b, c, d) && (path == Path4(a, b, c, d) || path == "m/" + Path4(a, b, c, d));
    Path4Chars(a, b, c, d);
    CharsExclude(path);
    Path4NonEmpty(a, b, c, d);
  }

  lemma Path4NonEmpty(a: string, b: string, c: string, d: string)
    ensures Path4(a, b, c, d) != ""
  {
  }

  // --- The loop over segments ----------------------------------------------

  /** The body of the segment loop of `validate_origin_path`. */
  method ParseSegment(part: string) returns (r: Option<nat>)
    ensures r == SegmentIndex(part)
  {
    if part == "" {
      return None;
    }
    var marker := part[|part| - 1];
    if marker != '\'' && marker != 'h' {
      return None;
    }
    var num := part[..|part| - 1];
    if num == "" {
      return None;
    }
    for i := 0 to |num|
      invariant AllDigits(num[..i])
    {
      if !Digit(num[i]) {
        return None;
      }
    }
    if |num| > 1 && num[0] == '0' {
      return None;
    }
    var n := Number(num);
    if n > U64_MAX || n >= 0x8000_0000 {
      return None;
    }
    return Some(n);
  }

  /** `validate_origin_path`, filling the array of four indices segment by segment. */
  method ValidateOriginPath(path: string) returns (r: Result<(), ParseError>)
    ensures r == Validated(path)
  {
    hide SegmentIndex, Split;
    if HasMultipath(path) {
      return Err(MultipathForbidden);
    }
    var segments := Split(Trimmed(path));
    if |segments| != 4 {
      return Err(if |segments| < 4 then MalformedOriginPath(path) else InvalidOriginPath(path));
    }
    var indices := new nat[4](_ => 0);
    for i := 0 to 4
      invariant forall k :: 0 <= k < i ==> SegmentIndex(segments[k]) == Some(indices[k])
    {
      var n := ParseSegment(segments[i]);
      if n.None? {
        return Err(MalformedOriginPath(path));
      }
      indices[i] := n.value;
    }
    assert SegmentIndex(segments[0]) == Some(indices[0]) && SegmentIndex(segments[1]) == Some(indices[1])
        && SegmentIndex(segments[2]) == Some(indices[2]) && SegmentIndex(segments[3]) == Some(indices[3]);
    if indices[0] == 48 && indices[2] == 0 && indices[3] == 2 && indices[1] <= 1 {
      return Ok(());
    } else {
      return Err(InvalidOriginPath(path));
    }
  }
}
