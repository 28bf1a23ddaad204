/** Value types shared by the bridge: options, times and the common message model. */
module Models {

  datatype Option<+T> = None | Some(value: T)

  /** Seconds on a clock. Rounding of the source's floats is not modelled. */
  type Time = real

  /** The name of the transport that the daemon's MeshCore messages come from. */
  const MESHCORE := "homeassistant-meshcore"

  datatype RoomRef = RoomRef(transport: string, roomId: string)

  /** The envelope after construction: the source fills room, reply target, sender and identity
      with defaults, so none of them is ever absent (models.py:146-174). */
  datatype InboundMessage = InboundMessage(
    transport: string,
    messageId: Option<string>,
    senderId: string,
    channelIndex: int,
    text: string,
    receivedAt: int,
    sourceRoom: RoomRef,
    replyTarget: RoomRef,
    sender: string,
    platformId: Option<string>,
    correlationId: nat,
    selfSent: bool
  )

  datatype OutboundMessage = OutboundMessage(
    destination: string,
    channelIndex: int,
    text: string,
    replyTarget: RoomRef
  )

  /** Python truthiness of an optional string. */
  predicate Truthy(s: Option<string>) {
    s.Some? && s.value != ""
  }

  function Max(a: int, b: int): int {
    if a < b then b else a
  }

  lemma Associate<T>(a: seq<T>, b: seq<T>, c: seq<T>)
    ensures a + (b + c) == a + b + c
  {
  }
}
