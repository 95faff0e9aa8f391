/** The wire contract between control plane and relay agent. */
module Api {

  /** The text of an inner address: a single IPv4 address in CIDR form, or anything else
      (empty, wider, several prefixes joined, malformed). */
  datatype InnerIP = Slash32(a: int, b: int, c: int, d: int) | Text(raw: string)

  datatype Peer = Peer(publicKey: string, innerIP: InnerIP)

  /** `Peer.Validate`: what may reach the kernel. */
  predicate Valid(p: Peer) {
    p.publicKey != "" && p.innerIP.Slash32?
  }
}
