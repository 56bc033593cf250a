/** The persisted window counter: its fields, its byte codec and its sealed form. */
module StateCodec {
  import opened Machine
  import opened Errors
  import opened Bitcoin
  import opened LittleEndian

  const MAX_BOOKINGS: nat := 256
  const MAX_INPUTS: nat := 100
  const HEADER_LEN: nat := 32
  const NONCE_LEN: nat := 24
  const TAG_LEN: nat := 16
  const MAGIC: seq<u8> := [0x54, 0x52, 0x43, 0x53]
  const VERSION: u8 := 1
  const FIXED_LEN: nat := 48

  /** One booked spend, keyed by the set of outpoints it consumes. */
  datatype BookedSpend = BookedSpend(inputs: seq<OutPoint>, amountSat: u64, elapsedAtNs: u64)

  datatype CoreState = CoreState(
    initialized: bool,
    monotonicNsAtAnchor: u64,
    blockHeightAtAnchor: Option<u32>,
    bootIdAtAnchor: Option<u64>,
    wallUnixNsAtAnchor: Option<u64>,
    windowElapsedNs: u64,
    windowStartElapsedNs: u64,
    passphraseUsedSinceInstall: bool,
    bookings: seq<BookedSpend>)

  const Empty: CoreState := CoreState.CoreState(false, 0, None, None, None, 0, 0, false, [])

  // --- Sentinels -----------------------------------------------------------

  function OptU32(v: Option<u32>): u32 { v.GetOr(U32_MAX) }
  function OptU64(v: Option<u64>): u64 { v.GetOr(U64_MAX) }
  function FromOptU32(v: u32): Option<u32> { if v == U32_MAX then None else Some(v) }
  function FromOptU64(v: u64): Option<u64> { if v == U64_MAX then None else Some(v) }

  /** A known field that happens to hold the sentinel is stored as unknown. */
  predicate NoSentinel(s: CoreState) {
    && s.blockHeightAtAnchor != Some(U32_MAX)
    && s.bootIdAtAnchor != Some(U64_MAX)
    && s.wallUnixNsAtAnchor != Some(U64_MAX)
  }

  /** What survives storage: everything, except that a known sentinel is forgotten. */
  function Normalise(s: CoreState): (r: CoreState)
    ensures NoSentinel(r)
    ensures NoSentinel(s) <==> r == s
  {
    s.(blockHeightAtAnchor := FromOptU32(OptU32(s.blockHeightAtAnchor)),
       bootIdAtAnchor := FromOptU64(OptU64(s.bootIdAtAnchor)),
       wallUnixNsAtAnchor := FromOptU64(OptU64(s.wallUnixNsAtAnchor)))
  }

  // --- Plaintext layout ----------------------------------------------------

  predicate RowInLimits(b: BookedSpend) {
    1 <= |b.inputs| <= MAX_INPUTS
  }

  /** The states the plaintext encoder accepts: its row count is 16 bits wide. */
  predicate Encodable(s: CoreState) {
    |s.bookings| <= U16_MAX && forall b :: b in s.bookings ==> RowInLimits(b)
  }

  /** Exactly the states that can be sealed. */
  predicate InLimits(s: CoreState) {
    |s.bookings| <= MAX_BOOKINGS && forall b :: b in s.bookings ==> RowInLimits(b)
  }

  function Flags(s: CoreState): u8 {
    (if s.initialized then 1 else 0) + (if s.passphraseUsedSinceInstall then 2 else 0)
  }

  function InputBytes(o: OutPoint): (r: Bytes)
    ensures |r| == 36
  {
    o.txid + Le32(o.vout)
  }

  function InputsBytes(inputs: seq<OutPoint>): (r: Bytes)
    ensures |r| == 36 * |inputs|
  {
    if inputs == [] then [] else InputBytes(inputs[0]) + InputsBytes(inputs[1..])
  }

  function RowBytes(b: BookedSpend): (r: Bytes)
    requires RowInLimits(b)
    ensures |r| == 18 + 36 * |b.inputs|
  {
    Le64(b.elapsedAtNs) + Le64(b.amountSat) + Le16(|b.inputs|) + InputsBytes(b.inputs)
  }

  function RowsBytes(rows: seq<BookedSpend>): Bytes
    requires forall b :: b in rows ==> RowInLimits(b)
  {
    if rows == [] then [] else RowBytes(rows[0]) + RowsBytes(rows[1..])
  }

  function AnchorBytes(s: CoreState): (r: Bytes)
    ensures |r| == 28
  {
    Le64(s.monotonicNsAtAnchor) + Le32(OptU32(s.blockHeightAtAnchor))
    + Le64(OptU64(s.bootIdAtAnchor)) + Le64(OptU64(s.wallUnixNsAtAnchor))
  }

  function ProgressBytes(s: CoreState): (r: Bytes)
    requires |s.bookings| <= U16_MAX
    ensures |r| == 20
  {
    Le64(s.windowElapsedNs) + Le64(s.windowStartElapsedNs) + [Flags(s), 0] + Le16(|s.bookings|)
  }

  function FixedBytes(s: CoreState): (r: Bytes)
    requires |s.bookings| <= U16_MAX
    ensures |r| == FIXED_LEN
  {
    AnchorBytes(s) + ProgressBytes(s)
  }

  function EncodedPlaintext(s: CoreState): Bytes
    requires Encodable(s)
  {
    FixedBytes(s) + RowsBytes(s.bookings)
  }

  // --- Reading it back -----------------------------------------------------

  function ReadInput(buf: Bytes): (o: OutPoint)
    requires |buf| == 36
    ensures InputBytes(o) == buf
  {
    OutPoint(buf[..32], Get32(buf[32..]))
  }

  function ReadInputs(buf: Bytes, n: nat): (inputs: seq<OutPoint>)
    requires |buf| == 36 * n
    ensures |inputs| == n && InputsBytes(inputs) == buf
    decreases n
  {
    if n == 0 then [] else
      var rest := ReadInputs(buf[36..], n - 1);
      assert buf == buf[..36] + buf[36..];
      [ReadInput(buf[..36])] + rest
  }

  /** Length of the row at the head of `buf`, when a whole row within the limits is there. */
  function RowLength(buf: Bytes): (r: Option<nat>)
    ensures r.Some? ==> 18 < r.value <= |buf|
  {
    if |buf| < 18 then None
    else
      var ni := Get16(buf[16..18]);
      if ni == 0 || ni > MAX_INPUTS || |buf| < 18 + 36 * ni then None else Some(18 + 36 * ni)
  }

  function ReadRow(buf: Bytes): (b: BookedSpend)
    requires RowLength(buf).Some?
    ensures RowInLimits(b) && |RowBytes(b)| == RowLength(buf).value
  {
    var ni := Get16(buf[16..18]);
    BookedSpend(ReadInputs(buf[18..18 + 36 * ni], ni), Get64(buf[8..16]), Get64(buf[0..8]))
  }

  /** Rows left in `buf`; `None` as soon as one is cut short, out of limits, or bytes remain. */
  function ReadRows(buf: Bytes, n: nat): Option<seq<BookedSpend>>
    decreases n
  {
    if n == 0 then
      if buf == [] then Some([]) else None
    else match RowLength(buf)
         case None => None
         case Some(len) => Prepend([ReadRow(buf)], ReadRows(buf[len..], n - 1))
  }

  function Prepend(rows: seq<BookedSpend>, rest: Option<seq<BookedSpend>>): Option<seq<BookedSpend>> {
    match rest
    case None => None
    case Some(tail) => Some(rows + tail)
  }

  function DecodedFixed(buf: Bytes, rows: seq<BookedSpend>): CoreState
    requires |buf| >= FIXED_LEN
  {
    CoreState.CoreState(buf[44] % 2 == 1, Get64(buf[0..8]), FromOptU32(Get32(buf[8..12])),
        FromOptU64(Get64(buf[12..20])),
              FromOptU64(Get64(buf[20..28])), Get64(buf[28..36]), Get64(buf[36..44]), buf[44] / 2 == 1, rows)
  }

  function DecodedPlaintext(buf: Bytes): Result<CoreState, CoreStateError> {
    if |buf| < FIXED_LEN || buf[45] != 0 || buf[44] > 3 then Err(Plaintext)
    else
      var n := Get16(buf[46..48]);
      if n > MAX_BOOKINGS then Err(Plaintext)
      else match ReadRows(buf[FIXED_LEN..], n)
           case None => Err(Plaintext)
           case Some(rows) => Ok(DecodedFixed(buf, rows))
  }

  // --- The codec is a bijection --------------------------------------------

  lemma {:induction false} InputsBytesInjective(a: seq<OutPoint>, b: seq<OutPoint>)
    requires InputsBytes(a) == InputsBytes(b)
    ensures a == b
  {
    hide ToLe, FromLe;
    if a != [] && b != [] {
      var x, y := InputsBytes(a), InputsBytes(b);
      assert x[..36] == InputBytes(a[0]) && y[..36] == InputBytes(b[0]);
      assert x[36..] == InputsBytes(a[1..]) && y[36..] == InputsBytes(b[1..]);
      assert x[..36][..32] == a[0].txid && y[..36][..32] == b[0].txid;
      assert x[..36][32..] == Le32(a[0].vout) && y[..36][32..] == Le32(b[0].vout);
      assert a[0].vout == Get32(x[..36][32..]) == b[0].vout;
      InputsBytesInjective(a[1..], b[1..]);
    }
  }

  lemma RowAfterWrite(b: BookedSpend, rest: Bytes)
    requires RowInLimits(b)
    ensures RowLength(RowBytes(b) + rest) == Some(|RowBytes(b)|)
    ensures ReadRow(RowBytes(b) + rest) == b
  {
    hide ToLe, FromLe;
    var buf := RowBytes(b) + rest;
    var n := |b.inputs|;
    assert buf[0..8] == Le64(b.elapsedAtNs);
    assert buf[8..16] == Le64(b.amountSat);
    assert buf[16..18] == Le16(n);
    assert buf[18..18 + 36 * n] == InputsBytes(b.inputs);
    InputsBytesInjective(ReadInputs(buf[18..18 + 36 * n], n), b.inputs);
  }

  lemma RowAfterRead(buf: Bytes)
    requires RowLength(buf).Some?
    ensures RowBytes(ReadRow(buf)) == buf[..RowLength(buf).value]
  {
    hide ToLe, FromLe;
    var ni := Get16(buf[16..18]);
    var b := ReadRow(buf);
    assert RowBytes(b) == buf[0..8] + buf[8..16] + buf[16..18] + buf[18..18 + 36 * ni];
  }

  lemma {:induction false} ReadRowsAfterWrite(rows: seq<BookedSpend>)
    requires forall b :: b in rows ==> RowInLimits(b)
    ensures ReadRows(RowsBytes(rows), |rows|) == Some(rows)
  {
    hide RowBytes, ReadRow, RowLength, Get16, Get64;
    if rows != [] {
      var rest := RowsBytes(rows[1..]);
      RowAfterWrite(rows[0], rest);
      ReadRowsAfterWrite(rows[1..]);
      assert (RowBytes(rows[0]) + rest)[|RowBytes(rows[0])|..] == rest;
      assert rows == [rows[0]] + rows[1..];
    }
  }

  lemma {:induction false} WriteRowsAfterRead(buf: Bytes, n: nat)
    requires ReadRows(buf, n).Some?
    ensures var rows := ReadRows(buf, n).value;
            |rows| == n && (forall b :: b in rows ==> RowInLimits(b)) && RowsBytes(rows) == buf
    decreases n
  {
    hide RowBytes, ReadRow, RowLength, Get16, Get64;
    if n > 0 {
      var len := RowLength(buf).value;
      WriteRowsAfterRead(buf[len..], n - 1);
      RowAfterRead(buf);
      var rows := ReadRows(buf, n).value;
      assert rows[1..] == ReadRows(buf[len..], n - 1).value;
      assert buf == buf[..len] + buf[len..];
    }
  }

  lemma AnchorFields(s: CoreState, rest: Bytes)
    ensures var buf := AnchorBytes(s) + rest;
            && Get64(buf[0..8]) == s.monotonicNsAtAnchor
            && Get32(buf[8..12]) == OptU32(s.blockHeightAtAnchor)
            && Get64(buf[12..20]) == OptU64(s.bootIdAtAnchor)
            && Get64(buf[20..28]) == OptU64(s.wallUnixNsAtAnchor)
            && buf[28..] == rest
  {
    hide ToLe, FromLe;
    var buf := AnchorBytes(s) + rest;
    assert buf[0..8] == Le64(s.monotonicNsAtAnchor);
    assert buf[8..12] == Le32(OptU32(s.blockHeightAtAnchor));
    assert buf[12..20] == Le64(OptU64(s.bootIdAtAnchor));
    assert buf[20..28] == Le64(OptU64(s.wallUnixNsAtAnchor));
  }

  lemma ProgressFields(s: CoreState, rest: Bytes)
    requires |s.bookings| <= U16_MAX
    ensures var buf := ProgressBytes(s) + rest;
            && Get64(buf[0..8]) == s.windowElapsedNs
            && Get64(buf[8..16]) == s.windowStartElapsedNs
            && buf[16] == Flags(s) && buf[17] == 0
            && Get16(buf[18..20]) == |s.bookings|
            && buf[20..] == rest
  {
    hide ToLe, FromLe;
    var buf := ProgressBytes(s) + rest;
    assert buf[0..8] == Le64(s.windowElapsedNs);
    assert buf[8..16] == Le64(s.windowStartElapsedNs);
    assert buf[18..20] == Le16(|s.bookings|);
  }

  lemma FixedFields(s: CoreState, rest: Bytes)
    requires |s.bookings| <= U16_MAX
    ensures var buf := FixedBytes(s) + rest;
            && DecodedFixed(buf, s.bookings) == Normalise(s)
            && buf[44] <= 3 && buf[45] == 0
            && Get16(buf[46..48]) == |s.bookings|
            && buf[48..] == rest
  {
    hide ToLe, FromLe;
    var buf := FixedBytes(s) + rest;
    var tail := ProgressBytes(s) + rest;
    assert buf == AnchorBytes(s) + tail;
    AnchorFields(s, tail);
    ProgressFields(s, rest);
    assert buf[28..36] == tail[0..8] && buf[36..44] == tail[8..16] && buf[46..48] == tail[18..20];
    assert buf[48..] == tail[20..];
  }

  lemma AnchorAfterRead(buf: Bytes, rows: seq<BookedSpend>)
    requires |buf| >= FIXED_LEN
    ensures AnchorBytes(DecodedFixed(buf, rows)) == buf[..28]
  {
    hide ToLe, FromLe;
    var s := DecodedFixed(buf, rows);
    assert AnchorBytes(s) == buf[0..8] + buf[8..12] + buf[12..20] + buf[20..28];
  }

  lemma ProgressAfterRead(buf: Bytes, rows: seq<BookedSpend>)
    requires |buf| >= FIXED_LEN && buf[44] <= 3 && buf[45] == 0 && Get16(buf[46..48]) == |rows|
    ensures ProgressBytes(DecodedFixed(buf, rows)) == buf[28..FIXED_LEN]
  {
    hide ToLe, FromLe;
    var s := DecodedFixed(buf, rows);
    assert Flags(s) == buf[44];
    assert ProgressBytes(s) == buf[28..36] + buf[36..44] + [buf[44], buf[45]] + buf[46..48];
  }

  /** Decoding an encoded state gives its normal form, hence the state itself exactly when
      no known field equals a sentinel. */
  lemma DecodeAfterEncode(s: CoreState)
    requires InLimits(s)
    ensures DecodedPlaintext(EncodedPlaintext(s)) == Ok(Normalise(s))
    ensures DecodedPlaintext(EncodedPlaintext(s)) == Ok(s) <==> NoSentinel(s)
  {
    hide ToLe, FromLe;
    FixedFields(s, RowsBytes(s.bookings));
    ReadRowsAfterWrite(s.bookings);
  }

  lemma FixedIsNormal(buf: Bytes, rows: seq<BookedSpend>)
    requires |buf| >= FIXED_LEN
    ensures NoSentinel(DecodedFixed(buf, rows))
  {
    hide ToLe, FromLe;
  }

  /** Re-encoding any accepted plaintext gives the same bytes: no two plaintexts share a state. */
  lemma EncodeAfterDecode(buf: Bytes)
    requires DecodedPlaintext(buf).Ok?
    ensures var s := DecodedPlaintext(buf).value;
            InLimits(s) && NoSentinel(s) && EncodedPlaintext(s) == buf
  {
    hide ToLe, FromLe, ReadRows, RowsBytes, Get16, Get64, Get32, FromOptU32, FromOptU64;
    var rows := ReadRows(buf[FIXED_LEN..], Get16(buf[46..48])).value;
    FixedIsNormal(buf, rows);
    WriteRowsAfterRead(buf[FIXED_LEN..], Get16(buf[46..48]));
    AnchorAfterRead(buf, rows);
    ProgressAfterRead(buf, rows);
    hide AnchorBytes, ProgressBytes, NoSentinel;
    assert FixedBytes(DecodedFixed(buf, rows)) == buf[..FIXED_LEN];
    assert buf == buf[..FIXED_LEN] + buf[FIXED_LEN..];
  }

  // --- The loops of the codec ----------------------------------------------

  lemma {:induction false} InputsBytesSnoc(inputs: seq<OutPoint>, o: OutPoint)
    ensures InputsBytes(inputs + [o]) == InputsBytes(inputs) + InputBytes(o)
  {
    if inputs == [] {
      assert InputsBytes([o]) == InputBytes(o) + InputsBytes([]);
    } else {
      assert (inputs + [o])[1..] == inputs[1..] + [o];
      InputsBytesSnoc(inputs[1..], o);
    }
  }

  lemma {:induction false} RowsBytesSnoc(rows: seq<BookedSpend>, b: BookedSpend)
    requires RowInLimits(b) && forall r :: r in rows ==> RowInLimits(r)
    ensures RowsBytes(rows + [b]) == RowsBytes(rows) + RowBytes(b)
  {
    if rows == [] {
      assert RowsBytes([b]) == RowBytes(b) + RowsBytes([]);
    } else {
      assert (rows + [b])[1..] == rows[1..] + [b];
      RowsBytesSnoc(rows[1..], b);
    }
  }

  /** The inner loops of `encode_plaintext`: one row appended to the vector. */
  method EncodeRow(before: Bytes, b: BookedSpend) returns (out: Bytes)
    requires RowInLimits(b)
    ensures out == before + RowBytes(b)
  {
    hide ToLe, FromLe;
    out := before + Le64(b.elapsedAtNs) + Le64(b.amountSat) + Le16(|b.inputs|);
    ghost var head := out;
    for j := 0 to |b.inputs|
      invariant out == head + InputsBytes(b.inputs[..j])
    {
      assert b.inputs[..j + 1] == b.inputs[..j] + [b.inputs[j]];
      InputsBytesSnoc(b.inputs[..j], b.inputs[j]);
      out := out + b.inputs[j].txid + Le32(b.inputs[j].vout);
    }
    assert b.inputs[..|b.inputs|] == b.inputs;
  }

  /** `encode_plaintext`: a byte vector grown row by row; a row out of limits is refused. */
  method EncodePlaintext(s: CoreState) returns (r: Result<Bytes, CoreStateError>)
    ensures r == if Encodable(s) then Ok(EncodedPlaintext(s)) else Err(Plaintext)
  {
    hide ToLe, FromLe;
    if |s.bookings| > U16_MAX {
      return Err(Plaintext);
    }
    var out := FixedBytes(s);
    for i := 0 to |s.bookings|
      invariant forall b :: b in s.bookings[..i] ==> RowInLimits(b)
      invariant out == FixedBytes(s) + RowsBytes(s.bookings[..i])
    {
      var b := s.bookings[i];
      if |b.inputs| > MAX_INPUTS || b.inputs == [] {
        assert b in s.bookings && !RowInLimits(b);
        return Err(Plaintext);
      }
      assert s.bookings[..i + 1] == s.bookings[..i] + [b];
      RowsBytesSnoc(s.bookings[..i], b);
      out := EncodeRow(out, b);
    }
    assert s.bookings[..|s.bookings|] == s.bookings;
    return Ok(out);
  }

  lemma ReadInputsSnoc(buf: Bytes, off: nat, j: nat, inputs: seq<OutPoint>)
    requires off + 36 * (j + 1) <= |buf|
    requires inputs == ReadInputs(buf[off..off + 36 * j], j)
    ensures inputs + [ReadInput(buf[off + 36 * j..off + 36 * j + 36])]
            == ReadInputs(buf[off..off + 36 * (j + 1)], j + 1)
  {
    hide ToLe, FromLe, ReadInput, ReadInputs, InputsBytes;
    var o := ReadInput(buf[off + 36 * j..off + 36 * j + 36]);
    InputsBytesSnoc(inputs, o);
    assert buf[off..off + 36 * (j + 1)] == buf[off..off + 36 * j] + buf[off + 36 * j..off + 36 * j + 36];
    InputsBytesInjective(inputs + [o], ReadInputs(buf[off..off + 36 * (j + 1)], j + 1));
  }

  /** The inner loop of `decode_plaintext`: `ni` outpoints starting at `start`. */
  method DecodeInputs(buf: Bytes, start: nat, ni: nat) returns (inputs: seq<OutPoint>, off: nat)
    requires start + 36 * ni <= |buf|
    ensures off == start + 36 * ni
    ensures inputs == ReadInputs(buf[start..off], ni)
  {
    hide *;
    inputs, off := [], start;
    for j := 0 to ni
      invariant off == start + 36 * j
      invariant inputs == ReadInputs(buf[start..off], j)
    {
      ReadInputsSnoc(buf, start, j, inputs);
      inputs := inputs + [ReadInput(buf[off..off + 36])];
      off := off + 36;
    }
  }

  /** One turn of the outer loop: the row at `off`, every read bounds-checked first. */
  method DecodeRow(buf: Bytes, at: nat) returns (r: Option<BookedSpend>, off: nat)
    requires at <= |buf|
    ensures r.Some? <==> RowLength(buf[at..]).Some?
    ensures r.Some? ==> r.value == ReadRow(buf[at..]) && off == at + RowLength(buf[at..]).value
  {
    hide Le16, Le64, Get16, Get64;
    r, off := None, at;
    if off + 18 > |buf| {
      return;
    }
    ghost var tail := buf[at..];
    assert tail[0..8] == buf[off..off + 8] && tail[8..16] == buf[off + 8..off + 16]
        && tail[16..18] == buf[off + 16..off + 18];
    var elapsedAtNs := Get64(buf[off..off + 8]);
    var amountSat := Get64(buf[off + 8..off + 16]);
    var ni := Get16(buf[off + 16..off + 18]);
    off := off + 18;
    if ni == 0 || ni > MAX_INPUTS || off + 36 * ni > |buf| {
      return;
    }
    var inputs, next := DecodeInputs(buf, off, ni);
    assert tail[18..18 + 36 * ni] == buf[off..next];
    r, off := Some(BookedSpend(inputs, amountSat, elapsedAtNs)), next;
  }

  /** The whole result once `rows` have been read and `k` more are expected at `off`. */
  function Continued(buf: Bytes, off: nat, rows: seq<BookedSpend>, k: nat): Option<seq<BookedSpend>> {
    if off > |buf| then None else Prepend(rows, ReadRows(buf[off..], k))
  }

  lemma {:induction false} ContinuedStart(buf: Bytes, off: nat, k: nat)
    requires off <= |buf|
    ensures Continued(buf, off, [], k) == ReadRows(buf[off..], k)
  {
    var all := ReadRows(buf[off..], k);
    assert all.Some? ==> [] + all.value == all.value;
  }

  lemma ContinuedStep(buf: Bytes, off: nat, rows: seq<BookedSpend>, k: nat)
    requires off <= |buf|
    ensures RowLength(buf[off..]) == None ==> Continued(buf, off, rows, k + 1) == None
    ensures RowLength(buf[off..]).Some? ==>
              Continued(buf, off, rows, k + 1)
              == Continued(buf, off + RowLength(buf[off..]).value, rows + [ReadRow(buf[off..])], k)
  {
    hide ToLe, FromLe;
    if RowLength(buf[off..]).Some? {
      var next := off + RowLength(buf[off..]).value;
      assert buf[off..][next - off..] == buf[next..];
      var rest := ReadRows(buf[next..], k);
      if rest.Some? {
        assert rows + ([ReadRow(buf[off..])] + rest.value) == (rows + [ReadRow(buf[off..])]) + rest.value;
      }
    }
  }

  lemma ContinuedEnd(buf: Bytes, off: nat, rows: seq<BookedSpend>)
    requires off <= |buf|
    ensures Continued(buf, off, rows, 0) == if off != |buf| then None else Some(rows)
  {
    assert rows + [] == rows;
  }

  /** The outer loop of `decode_plaintext`: `n` rows from offset 48, rejecting any byte left over. */
  method DecodeRows(buf: Bytes, n: nat) returns (r: Option<seq<BookedSpend>>)
    requires |buf| >= FIXED_LEN
    ensures r == Continued(buf, FIXED_LEN, [], n)
  {
    hide *;
    var off := FIXED_LEN;
    var bookings := [];
    for i := 0 to n
      invariant FIXED_LEN <= off <= |buf|
      invariant Continued(buf, FIXED_LEN, [], n) == Continued(buf, off, bookings, n - i)
    {
      ContinuedStep(buf, off, bookings, n - i - 1);
      var row, next := DecodeRow(buf, off);
      if row == None {
        return None;
      }
      bookings, off := bookings + [row.value], next;
    }
    ContinuedEnd(buf, off, bookings);
    r := if off != |buf| then None else Some(bookings);
  }

  /** `decode_plaintext`. */
  method DecodePlaintext(buf: Bytes) returns (r: Result<CoreState, CoreStateError>)
    ensures r == DecodedPlaintext(buf)
  {
    hide ToLe, FromLe, ReadRows, Continued;
    if |buf| < FIXED_LEN {
      return Err(Plaintext);
    }
    var flags, reserved := buf[44], buf[45];
    if reserved != 0 || flags > 3 {
      return Err(Plaintext);
    }
    var n := Get16(buf[46..48]);
    if n > MAX_BOOKINGS {
      return Err(Plaintext);
    }
    ContinuedStart(buf, FIXED_LEN, n);
    var rows := DecodeRows(buf, n);
    if rows == None {
      return Err(Plaintext);
    }
    return Ok(DecodedFixed(buf, rows.value));
  }

  // --- Sealing -------------------------------------------------------------

  /** The authenticated cipher is foreign code: any pair of functions with this shape. */
  datatype Aead = Aead(
    seal: (Bytes, Bytes, Bytes, Bytes) -> Bytes,
    open: (Bytes, Bytes, Bytes, Bytes) -> Option<Bytes>)

  /** The one law used: opening what was sealed under the same key, nonce and header
      returns the plaintext, and the ciphertext carries a tag. */
  ghost predicate Lawful(c: Aead) {
    forall key: Bytes, nonce: Bytes, aad: Bytes, msg: Bytes ::
      && c.open(key, nonce, aad, c.seal(key, nonce, aad, msg)) == Some(msg)
      && |c.seal(key, nonce, aad, msg)| == |msg| + TAG_LEN
  }

  function Header(nonce: Bytes): (h: Bytes)
    requires |nonce| == NONCE_LEN
    ensures |h| == HEADER_LEN
  {
    MAGIC + [VERSION, 0, 0, 0] + nonce
  }

  function ParseHeader(h: Bytes): Result<(), CoreStateError>
    requires |h| == HEADER_LEN
  {
    if h[..4] != MAGIC then Err(BadMagic)
    else if h[4] != VERSION then Err(UnsupportedVersion(h[4]))
    else if h[5..8] != [0, 0, 0] then Err(UnsupportedReserved)
    else Ok(())
  }

  function Encrypted(c: Aead, kek: Bytes, nonce: Bytes, s: CoreState): Result<Bytes, CoreStateError>
    requires |nonce| == NONCE_LEN
  {
    if |s.bookings| > MAX_BOOKINGS || !Encodable(s) then Err(Plaintext)
    else Ok(Header(nonce) + c.seal(kek, nonce, Header(nonce), EncodedPlaintext(s)))
  }

  function Decrypted(c: Aead, kek: Bytes, blob: Bytes): Result<CoreState, CoreStateError> {
    if |blob| < HEADER_LEN + TAG_LEN then Err(Truncated)
    else
      var header := blob[..HEADER_LEN];
      var _ :- ParseHeader(header);
      match c.open(kek, header[8..], header, blob[HEADER_LEN..])
      case None => Err(AeadFailure)
      case Some(plaintext) => DecodedPlaintext(plaintext)
  }

  /** Sealing and reopening a state within the limits never fails and loses nothing but
      known sentinels. */
  lemma OpenAfterSeal(c: Aead, kek: Bytes, nonce: Bytes, s: CoreState)
    requires Lawful(c) && |nonce| == NONCE_LEN && InLimits(s)
    ensures Encrypted(c, kek, nonce, s).Ok?
    ensures Decrypted(c, kek, Encrypted(c, kek, nonce, s).value) == Ok(Normalise(s))
  {
    hide ToLe, FromLe;
    var body := c.seal(kek, nonce, Header(nonce), EncodedPlaintext(s));
    var blob := Encrypted(c, kek, nonce, s).value;
    assert blob[..HEADER_LEN] == Header(nonce) && blob[HEADER_LEN..] == body;
    assert Header(nonce)[8..] == nonce;
    assert Header(nonce)[..4] == MAGIC && Header(nonce)[5..8] == [0, 0, 0];
    DecodeAfterEncode(s);
  }
}
