/** Packets and the kinds of streams they belong to. */
module Packets {
  import opened Timestamps

  datatype MediaType = Audio | Video | Subtitle | Other

  /** `id` stands for the payload, `size` is its length. */
  datatype Packet = Packet(id: int, pts: int, dts: int, duration: int, tb: TimeBase, size: nat)
}
