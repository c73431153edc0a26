/** How a device that holds a request for another device chooses the pipe to write it to. */
module Forwarding {
  import opened Devices
  import opened Forest

  /** The Controller and Hubs look the destination up, a Timer has one child to write to, a leaf device has nobody. */
  datatype Post =
    | ByTable(table: Table)
    | ByChild(hasChild: bool, fd: int)
    | Nowhere

  function Forwarded(p: Post, destination: DeviceId): Option<int> {
    match p
    case ByTable(t) => if destination in t then Some(t[destination].hop) else None
    case ByChild(hasChild, fd) => if hasChild then Some(fd) else None
    case Nowhere => None
  }
}
