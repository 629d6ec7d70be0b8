/** Where datagrams go. */
module Addresses {

  /** A UDP host and port. */
  type Addr = (string, nat)
}
