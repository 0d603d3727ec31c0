/** Encoding a message into a buffer of its exact size and decoding it again. */
module PbRoundTrip {
  import opened Coding
  import opened PbFormat
  import opened PbMessages
  import opened PbStreams
  import opened PbEncode
  import opened PbDecode
  import opened PbStore
  import opened PbFold

  /** Every message in bounds survives the trip, whatever its description. */
  method ThereAndBack(d: Desc, m: Msg) returns (ok: bool, r: Msg)
    requires DescOk(d) && MsgOk(InBounds, d, m) && MsgOk(Shaped, d, m) && MsgSmall(d, m)
    ensures ok && r == m
  {
    WeakerMsg(InBounds, Encodable, d, m);
    WeakerMsg(InBounds, Shaped, d, m);
    var size := GetEncodedSize(d, m);
    var ostream := new OStream(true, [], size.value);
    var encoded := Encode(ostream, d, m);
    NoneBefore(EncodeMsg(d, m));
    var istream := new IStream(ostream.state, 0, ostream.bytesWritten);
    WholeWindow(ostream.state);
    RoundTrip(d, m);
    ok, r := Decode(istream, d);
    ok := ok && encoded;
  }

  lemma WholeWindow(b: Bytes)
    ensures Window(b, 0, |b|) == b
  {}

  /** One byte less of room and the encoder refuses. */
  method TooSmall(d: Desc, m: Msg, room: nat) returns (ok: bool)
    requires MsgOk(Shaped, d, m) && room < |EncodeMsg(d, m)|
    ensures !ok
  {
    var ostream := new OStream(true, [], room);
    ok := Encode(ostream, d, m);
  }
}
