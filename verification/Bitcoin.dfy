/** Byte strings, transaction ids and outpoints. */
module Bitcoin {
  import opened Machine

  type Bytes = seq<u8>
  type Txid = s: seq<u8> | |s| == 32 witness seq(32, _ => 0)

  datatype OutPoint = OutPoint(txid: Txid, vout: u32)
}
