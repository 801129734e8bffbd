/** Status bytes of replies (src/errortable.h). */
module Status {
  const SUCCESS := 0x00
  const EPERM := 0x01
  const EBADF := 0x06
  const EINVAL := 0x0E
  const EMFILE := 0x10
  const ENOSYS := 0x16
  const EBADFD := 0x1C
  const EOF := 0x21
  const EBADSESSION := 0xFF
}
