/** The error numbers the link layer returns, negated, to its callers (Linux values). */
module Errno {
  const EINTR := 4
  const EIO := 5
  const EAGAIN := 11
  const EINVAL := 22
  const EPIPE := 32
  const ENOMSG := 42
  const EMSGSIZE := 90
  const ENOBUFS := 105
  const ENOTCONN := 107
  const ETIMEDOUT := 110
  const ESTALE := 116
}
