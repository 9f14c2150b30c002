/** Types that every protocol of the stack shares. */
module Common {
  import opened Words

  /** An IPv4 address. */
  type Addr = b: seq<Byte> | |b| == 4 witness [0, 0, 0, 0]

  /** An Ethernet address. */
  type Mac = b: seq<Byte> | |b| == 6 witness [0, 0, 0, 0, 0, 0]

  datatype Option<T> = None | Some(value: T)

  /** What fits the mailbox of a UDP socket, and so the longest DNS or DHCP message. */
  const SOCK_BUF: nat := 576
}
