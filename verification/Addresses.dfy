/** Addresses, canonical: IPv4-mapped IPv6 addresses are already unmapped. */
module Addresses {

  datatype Addr = NoAddr | V4(v: nat) | V6(v: nat)
}
