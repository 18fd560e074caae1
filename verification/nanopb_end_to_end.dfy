/** nanopb from one message struct to another: encoding into a buffer, and decoding what it holds. */
module NanopbEndToEnd {
  import opened Format
  import opened Coding
  import opened Nanopb
  import opened NanopbRoundTrip
  import opened NanopbEncode
  import opened NanopbDecode

  /** What one side encodes into a buffer of `room` bytes the other side decodes: it is encoded if
      and only if its size fits, and then the message that comes out is the one that went in, if
      and only if no field is lost for being zero. */
  method Transfer(fs: Fields, ms: seq<Slot>, room: nat) returns (encoded: bool, received: Option<seq<Slot>>)
    requires GoodTable(fs) && MessageFits(fs, ms) && room < TWO_32
    ensures encoded <==> |MessageBytes(fs, ms)| <= room
    ensures received == if encoded then Some(RestoredMessage(fs, ms)) else None
    ensures encoded ==> (received == Some(ms) <==> Lossless(fs, ms))
  {
    received := None;
    var size, buffer;
    size, encoded, buffer := EncodeToBuffer(fs, ms, room);
    if encoded {
      ReadsRestored(fs, ms);
      RestoredExactly(fs, ms);
      received := Decode(fs, buffer);
    }
  }
}
