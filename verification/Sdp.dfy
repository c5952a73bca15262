/** The parts of a session description that the filters read or rewrite. */
module Sdp {

  /** First payload type of the dynamic range of RTP. */
  const DYNAMIC_PAYLOAD_TYPE_START: int := 96

  datatype MediaType = Audio | Video | Application | Other(id: int)

  datatype Transport =
    | RtpAvp | RtpAvpf | RtpSavp | RtpSavpf | UdpTlsRtpSavp | UdpTlsRtpSavpf
    | OtherTransport(id: int)

  /** A connection line; an empty address means that the line is absent. */
  datatype SdpConnection = SdpConnection(network: int, addrType: int, address: string)

  const NO_CONNECTION := SdpConnection(0, 0, "")

  /** A negative payload type is not assigned yet. */
  datatype SdpPayload = SdpPayload(
    payloadType: int, encodingName: string, clockRate: int, encodingParam: int, format: string, parameters: string)

  datatype SdpMedia = SdpMedia(
    kind: MediaType, transport: Transport, port: nat, payloads: seq<SdpPayload>, conn: SdpConnection)

  function AudioCount(media: seq<SdpMedia>): (n: nat)
    ensures n <= |media|
  {
    if media == [] then 0
    else AudioCount(media[..|media| - 1]) + (if media[|media| - 1].kind.Audio? then 1 else 0)
  }

  /** A description whose session line and streams are edited in place. */
  class AmSdp {
    var conn: SdpConnection
    var media: seq<SdpMedia>

    constructor (conn: SdpConnection, media: seq<SdpMedia>)
      ensures this.conn == conn && this.media == media
    {
      this.conn, this.media := conn, media;
    }
  }
}
