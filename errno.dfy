/** Linux error numbers used by the fake_id0 permission emulation.
    Handlers return them negated, as the kernel does. */
module Errno {
  /** Operation not permitted (chown by a non-owner). */
  const EPERM: int := 1
  /** Permission denied (a directory lacks the required bit). */
  const EACCES: int := 13
}
