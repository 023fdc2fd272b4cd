/** The protocol numbers that the BPF programs and the collectors share. */
module Protocols {
  const AF_INET: nat := 2
  const IPPROTO_TCP: nat := 6
  const IPPROTO_UDP: nat := 17
}
