/** The records that travel through msg.store and msg.push. Marshalling is lossless and left out. */
module Messages {
  import opened Common

  datatype Msg = Msg(
    msgId: string, convId: string, convType: int, senderId: int64, msgType: int,
    payload: seq<byte>, seqNo: int, timestamp: int)

  datatype Envelope = Envelope(recv: int64, msg: Msg)

  const CONV_TYPE_P2P := 1
  const CONV_TYPE_GROUP := 2
}
