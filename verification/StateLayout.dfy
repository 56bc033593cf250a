/** Where each field of the stored counter lies, byte by byte, and which refusal answers which fault
    of a sealed blob. */
module StateLayout {
  import opened Machine
  import opened Errors
  import opened Bitcoin
  import opened LittleEndian
  import opened StateCodec
  import opened Division

  // --- Integers ------------------------------------------------------------

  lemma {:induction false} ToLeAt(n: nat, k: nat, i: nat)
    requires i < k
    ensures ToLe(n, k)[i] == (n / Pow256(i)) % 256
  {
    if i > 0 {
      ToLeAt(n / 256, k - 1, i - 1);
      DivideTwice(n, 256, Pow256(i - 1));
    }
  }

  /** Byte `i` of a written integer is its `i`-th digit to the base 256, the least one first. */
  lemma {:induction false} Digits(a: u16, b: u32, c: u64, i: nat)
    ensures i < 2 ==> Le16(a)[i] == (a / Pow256(i)) % 256
    ensures i < 4 ==> Le32(b)[i] == (b / Pow256(i)) % 256
    ensures i < 8 ==> Le64(c)[i] == (c / Pow256(i)) % 256
  {
    if i < 2 { ToLeAt(a, 2, i); }
    if i < 4 { ToLeAt(b, 4, i); }
    if i < 8 { ToLeAt(c, 8, i); }
  }

  // --- The plaintext -------------------------------------------------------

  /** The offset of row `k`. */
  function RowStart(rows: seq<BookedSpend>, k: nat): nat
    requires k <= |rows|
  {
    if k == 0 then 48 else RowStart(rows, k - 1) + 18 + 36 * |rows[k - 1].inputs|
  }

  lemma {:induction false} RowStartShift(rows: seq<BookedSpend>, k: nat)
    requires 0 < k <= |rows|
    ensures RowStart(rows, k) == 18 + 36 * |rows[0].inputs| + RowStart(rows[1..], k - 1)
  {
    if k > 1 {
      RowStartShift(rows, k - 1);
    }
  }

  lemma {:induction false} RowsLength(rows: seq<BookedSpend>)
    requires forall b :: b in rows ==> RowInLimits(b)
    ensures |RowsBytes(rows)| + 48 == RowStart(rows, |rows|)
  {
    hide ToLe, RowBytes;
    if rows != [] {
      RowsLength(rows[1..]);
      RowStartShift(rows, |rows|);
    }
  }

  /** Row `k` fills the bytes between its offset and the next. */
  lemma {:induction false} RowLies(rows: seq<BookedSpend>, k: nat)
    requires (forall b :: b in rows ==> RowInLimits(b)) && k < |rows|
    ensures LiesAt(rows, k)
    decreases |rows|
  {
    hide ToLe, RowBytes, LiesAt, RowsBytes;
    if k == 0 {
      FirstLies(rows);
    } else {
      RowLies(rows[1..], k - 1);
      NextLies(rows, k);
    }
  }

  predicate LiesAt(rows: seq<BookedSpend>, k: nat)
    requires (forall b :: b in rows ==> RowInLimits(b)) && k < |rows|
  {
    var at, next := RowStart(rows, k), RowStart(rows, k + 1);
    48 <= at <= next <= |RowsBytes(rows)| + 48 && RowsBytes(rows)[at - 48..next - 48] == RowBytes(rows[k])
  }

  lemma {:induction false} FirstLies(rows: seq<BookedSpend>)
    requires (forall b :: b in rows ==> RowInLimits(b)) && rows != []
    ensures LiesAt(rows, 0)
  {
    hide ToLe, RowBytes;
    var first, rest := RowBytes(rows[0]), RowsBytes(rows[1..]);
    assert RowsBytes(rows) == first + rest;
    assert RowStart(rows, 0) == 48 && RowStart(rows, 1) == 48 + |first|;
    hide RowsBytes, RowStart;
    SliceOf(first, rest, 0, |first|);
  }

  lemma {:induction false} NextLies(rows: seq<BookedSpend>, k: nat)
    requires (forall b :: b in rows ==> RowInLimits(b)) && 0 < k < |rows|
    requires LiesAt(rows[1..], k - 1)
    ensures LiesAt(rows, k)
  {
    hide ToLe, RowBytes;
    RowStartShift(rows, k);
    RowStartShift(rows, k + 1);
    hide RowStart;
    var first, rest := RowBytes(rows[0]), RowsBytes(rows[1..]);
    assert RowsBytes(rows) == first + rest;
    hide RowsBytes;
    SliceOf(first, rest, RowStart(rows, k) - 48, RowStart(rows, k + 1) - 48);
  }

  lemma SliceOf(first: Bytes, rest: Bytes, i: nat, j: nat)
    requires i <= j <= |first| + |rest|
    ensures j <= |first| ==> (first + rest)[i..j] == first[i..j]
    ensures |first| <= i ==> (first + rest)[i..j] == rest[i - |first|..j - |first|]
  {
  }

  lemma {:induction false} InputLies(inputs: seq<OutPoint>, j: nat)
    requires j < |inputs|
    ensures InputsBytes(inputs)[36 * j..36 * j + 36] == InputBytes(inputs[j])
  {
    hide ToLe, InputBytes;
    if j > 0 {
      InputLies(inputs[1..], j - 1);
    }
  }

  /** The encoder takes up to 65535 rows of one to a hundred inputs, the sealer up to 256. */
  lemma Accepts(s: CoreState)
    ensures Encodable(s) <==>
              |s.bookings| < 65536 && forall k :: 0 <= k < |s.bookings| ==> 1 <= |s.bookings[k].inputs| <= 100
    ensures InLimits(s) <==> Encodable(s) && |s.bookings| <= 256
  {
    if forall k :: 0 <= k < |s.bookings| ==> 1 <= |s.bookings[k].inputs| <= 100 {
      assert forall b :: b in s.bookings ==> RowInLimits(b);
    } else {
      var k :| 0 <= k < |s.bookings| && !(1 <= |s.bookings[k].inputs| <= 100);
      assert s.bookings[k] in s.bookings && !RowInLimits(s.bookings[k]);
    }
  }

  /** The fields before the rows, at their offsets. */
  lemma FixedLayout(s: CoreState)
    requires Encodable(s)
    ensures var out := EncodedPlaintext(s);
            && |out| == RowStart(s.bookings, |s.bookings|) >= 48
            && out[0..8] == Le64(s.monotonicNsAtAnchor)
            && out[8..12] == Le32(s.blockHeightAtAnchor.GetOr(0xFFFF_FFFF))
            && out[12..20] == Le64(s.bootIdAtAnchor.GetOr(0xFFFF_FFFF_FFFF_FFFF))
            && out[20..28] == Le64(s.wallUnixNsAtAnchor.GetOr(0xFFFF_FFFF_FFFF_FFFF))
            && out[28..36] == Le64(s.windowElapsedNs)
            && out[36..44] == Le64(s.windowStartElapsedNs)
            && (out[44] % 2 == 1 <==> s.initialized)
            && (out[44] / 2 == 1 <==> s.passphraseUsedSinceInstall) && out[44] < 4
            && out[45] == 0
            && out[46..48] == Le16(|s.bookings|)
  {
    hide ToLe, FromLe, RowsBytes;
    RowsLength(s.bookings);
  }

  /** The fields of row `k` and of its input `j`, at their offsets. */
  lemma RowLayout(s: CoreState, k: nat, j: nat)
    requires Encodable(s) && k < |s.bookings| && j < |s.bookings[k].inputs|
    ensures var out := EncodedPlaintext(s);
            var row := s.bookings[k];
            var at := RowStart(s.bookings, k);
            var input := at + 18 + 36 * j;
            && row in s.bookings && 48 <= at && input + 36 <= RowStart(s.bookings, k + 1) <= |out|
            && out[at..at + 8] == Le64(row.elapsedAtNs)
            && out[at + 8..at + 16] == Le64(row.amountSat)
            && out[at + 16..at + 18] == Le16(|row.inputs|)
            && out[input..input + 32] == row.inputs[j].txid
            && out[input + 32..input + 36] == Le32(row.inputs[j].vout)
  {
    hide ToLe, FromLe, RowsBytes, FixedBytes;
    var out, row, at, next := EncodedPlaintext(s), s.bookings[k], RowStart(s.bookings, k), RowStart(s.bookings, k + 1);
    RowLies(s.bookings, k);
    var bytes := RowsBytes(s.bookings);
    assert out[at..next] == bytes[at - 48..next - 48];
    RowFields(row, j);
    Slices(out, at, next, row, j);
  }

  lemma RowFields(row: BookedSpend, j: nat)
    requires RowInLimits(row) && j < |row.inputs|
    ensures var bytes := RowBytes(row);
            && bytes[..8] == Le64(row.elapsedAtNs)
            && bytes[8..16] == Le64(row.amountSat)
            && bytes[16..18] == Le16(|row.inputs|)
            && bytes[18 + 36 * j..18 + 36 * j + 32] == row.inputs[j].txid
            && bytes[18 + 36 * j + 32..18 + 36 * j + 36] == Le32(row.inputs[j].vout)
  {
    hide ToLe, FromLe, InputsBytes;
    InputLies(row.inputs, j);
    var tail, input := InputsBytes(row.inputs), InputBytes(row.inputs[j]);
    assert RowBytes(row)[18..] == tail;
    assert tail[36 * j..36 * j + 36] == input;
    assert input[..32] == row.inputs[j].txid && input[32..] == Le32(row.inputs[j].vout);
  }

  lemma Slices(out: Bytes, at: nat, next: nat, row: BookedSpend, j: nat)
    requires RowInLimits(row) && j < |row.inputs|
    requires at + |RowBytes(row)| == next <= |out| && out[at..next] == RowBytes(row)
    ensures var bytes := RowBytes(row);
            var input := 18 + 36 * j;
            && out[at..at + 8] == bytes[..8]
            && out[at + 8..at + 16] == bytes[8..16]
            && out[at + 16..at + 18] == bytes[16..18]
            && out[at + input..at + input + 32] == bytes[input..input + 32]
            && out[at + input + 32..at + input + 36] == bytes[input + 32..input + 36]
  {
    hide ToLe, FromLe, InputsBytes;
    var bytes := RowBytes(row);
    hide *;
    Slice(out, at, next, bytes, 0, 8);
    Slice(out, at, next, bytes, 8, 16);
    Slice(out, at, next, bytes, 16, 18);
    Slice(out, at, next, bytes, 18 + 36 * j, 18 + 36 * j + 32);
    Slice(out, at, next, bytes, 18 + 36 * j + 32, 18 + 36 * j + 36);
  }

  lemma Slice(out: Bytes, at: nat, next: nat, bytes: Bytes, i: nat, j: nat)
    requires at <= next <= |out| && out[at..next] == bytes && i <= j <= |bytes|
    ensures out[at + i..at + j] == bytes[i..j]
  {
    assert |out[at + i..at + j]| == |bytes[i..j]|;
    forall k | 0 <= k < j - i ensures out[at + i..at + j][k] == bytes[i..j][k] {
      assert out[at..next][i + k] == out[at + i + k];
    }
  }

  // --- The sealed blob -----------------------------------------------------

  /** A sealed blob: `TRCS`, version 1, three zero bytes, the nonce, and the ciphertext bound to all of
      these. */
  lemma SealedLayout(c: Aead, kek: Bytes, nonce: Bytes, s: CoreState)
    requires |nonce| == NONCE_LEN
    ensures Encrypted(c, kek, nonce, s) == Err(Plaintext) || InLimits(s)
    ensures InLimits(s) ==>
              && Encrypted(c, kek, nonce, s).Ok?
              && var blob := Encrypted(c, kek, nonce, s).value;
                 && |blob| >= 32
                 && blob[..4] == [0x54, 0x52, 0x43, 0x53]
                 && blob[4..8] == [1, 0, 0, 0]
                 && blob[8..32] == nonce
                 && blob[32..] == c.seal(kek, nonce, blob[..32], EncodedPlaintext(s))
  {
    hide EncodedPlaintext;
    if InLimits(s) {
      var blob := Encrypted(c, kek, nonce, s).value;
      assert blob[..32] == Header(nonce);
    }
  }

  /** Which refusal answers which fault, in the order they are looked for. */
  lemma OpenRefusals(c: Aead, kek: Bytes, blob: Bytes)
    ensures var r := Decrypted(c, kek, blob);
            && (r == Err(Truncated) <==> |blob| < 48)
            && (|blob| >= 48 ==>
                  var named, versioned, reserved :=
                    blob[..4] == [0x54, 0x52, 0x43, 0x53], blob[4] == 1, blob[5..8] == [0, 0, 0];
                  var inside := c.open(kek, blob[8..32], blob[..32], blob[32..]);
                  && (r == Err(BadMagic) <==> !named)
                  && (r == Err(UnsupportedVersion(blob[4])) <==> named && !versioned)
                  && (r == Err(UnsupportedReserved) <==> named && versioned && !reserved)
                  && (r == Err(AeadFailure) <==> named && versioned && reserved && inside.None?)
                  && (named && versioned && reserved && inside.Some? ==> r == DecodedPlaintext(inside.value)))
  {
    if |blob| >= 48 {
      assert blob[..32][8..] == blob[8..32];
      assert blob[..32][..4] == blob[..4] && blob[..32][5..8] == blob[5..8];
      NoOtherRefusal(c.open(kek, blob[8..32], blob[..32], blob[32..]).GetOr([]));
    }
  }

  /** Every fault of a plaintext is answered alike. */
  lemma NoOtherRefusal(buf: Bytes)
    ensures DecodedPlaintext(buf).Err? ==> DecodedPlaintext(buf) == Err(Plaintext)
  {
    hide ReadRows;
  }
}
