/** One long-header packet as internal/quic/initial.go hands it on. */
module Packets {
  import opened Options
  import opened Bytes
  import Frames

  /** `frames` is set only for an Initial that decrypted. */
  datatype Packet = Packet(
    version: nat,
    dcid: seq<byte>,
    scid: seq<byte>,
    ptype: nat,
    tokenLen: nat,
    pn: nat,
    frames: Option<Frames.Summary>)
}
