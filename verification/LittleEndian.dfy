/** Little-endian integers, as `to_le_bytes` and `from_le_bytes` write and read them. */
module LittleEndian {
  import opened Machine

  function Pow256(k: nat): (r: nat)
    ensures r > 0
  {
    if k == 0 then 1 else 256 * Pow256(k - 1)
  }

  function ToLe(n: nat, k: nat): (r: seq<u8>)
    ensures |r| == k
  {
    if k == 0 then [] else [n % 256] + ToLe(n / 256, k - 1)
  }

  function FromLe(s: seq<u8>): (r: nat)
    ensures r < Pow256(|s|)
  {
    if s == [] then 0 else s[0] + 256 * FromLe(s[1..])
  }

  lemma {:induction false} FromTo(n: nat, k: nat)
    requires n < Pow256(k)
    ensures FromLe(ToLe(n, k)) == n
  {
    if k > 0 {
      FromTo(n / 256, k - 1);
      assert ToLe(n, k)[1..] == ToLe(n / 256, k - 1);
    }
  }

  lemma {:induction false} ToFrom(s: seq<u8>)
    ensures ToLe(FromLe(s), |s|) == s
  {
    if s != [] {
      ToFrom(s[1..]);
      assert FromLe(s) / 256 == FromLe(s[1..]) && FromLe(s) % 256 == s[0];
    }
  }

  lemma Widths()
    ensures Pow256(2) == U16_MAX + 1 && Pow256(4) == U32_MAX + 1 && Pow256(8) == U64_MAX + 1
  {
    assert Pow256(2) == 0x1_0000;
    assert Pow256(4) == 0x1_0000 * Pow256(2);
    assert Pow256(6) == 0x1_0000 * Pow256(4);
    assert Pow256(8) == 0x1_0000 * Pow256(6);
  }

  function Le16(n: u16): (r: seq<u8>)
    ensures |r| == 2
  {
    ToLe(n, 2)
  }

  function Le32(n: u32): (r: seq<u8>)
    ensures |r| == 4
  {
    ToLe(n, 4)
  }

  function Le64(n: u64): (r: seq<u8>)
    ensures |r| == 8
  {
    ToLe(n, 8)
  }

  /** Reading back the bytes of a written integer gives it back, and writing what was read
      gives the bytes back. */
  function Get16(s: seq<u8>): (r: u16)
    requires |s| == 2
    ensures Le16(r) == s
    ensures forall n: u16 :: Le16(n) == s ==> n == r
  {
    Widths();
    ToFrom(s);
    assert forall n: u16 :: ToLe(n, 2) == s ==> n == FromLe(s) by {
      forall n: u16 | ToLe(n, 2) == s ensures n == FromLe(s) { FromTo(n, 2); }
    }
    FromLe(s)
  }

  function Get32(s: seq<u8>): (r: u32)
    requires |s| == 4
    ensures Le32(r) == s
    ensures forall n: u32 :: Le32(n) == s ==> n == r
  {
    Widths();
    ToFrom(s);
    assert forall n: u32 :: ToLe(n, 4) == s ==> n == FromLe(s) by {
      forall n: u32 | ToLe(n, 4) == s ensures n == FromLe(s) { FromTo(n, 4); }
    }
    FromLe(s)
  }

  function Get64(s: seq<u8>): (r: u64)
    requires |s| == 8
    ensures Le64(r) == s
    ensures forall n: u64 :: Le64(n) == s ==> n == r
  {
    Widths();
    ToFrom(s);
    assert forall n: u64 :: ToLe(n, 8) == s ==> n == FromLe(s) by {
      forall n: u64 | ToLe(n, 8) == s ensures n == FromLe(s) { FromTo(n, 8); }
    }
    FromLe(s)
  }
}
