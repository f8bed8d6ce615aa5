/** Failure-compatible wrappers and the few standard-library values the core passes around. */
module Basics {

  datatype Option<+T> = None | Some(value: T)

  /** Rust's `Result<T, E>`. */
  datatype Result<+T, +E> = Ok(value: T) | Err(error: E)

  /** A wall-clock reading (`std::time::SystemTime`), as ticks since the Unix epoch. */
  type SystemTime = nat

  /** `SystemTime::UNIX_EPOCH`. */
  const UNIX_EPOCH: SystemTime := 0

  /** A monotonic clock reading (`std::time::Instant`); only ever stored, never inspected. */
  type Instant = nat

  /** `std::net::SocketAddr`: an address and a port. */
  datatype SocketAddr = SocketAddr(ip: seq<int>, port: nat)
}
