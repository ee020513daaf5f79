/** The numbers client and server agree on (common/include/net.h:11-47). */
module Protocol {

  const FLAG_CREATE: int := 1
  const FLAG_LOCK: int := 2

  const MSG_NONE: int := 0
  const MSG_REQ_OPEN_SESSION: int := 1
  const MSG_REQ_CLOSE_SESSION: int := 2
  const MSG_REQ_OPEN_FILE: int := 3
  const MSG_REQ_CLOSE_FILE: int := 4
  const MSG_REQ_READ_FILE: int := 5
  const MSG_REQ_LOCK_FILE: int := 6
  const MSG_REQ_UNLOCK_FILE: int := 7
  const MSG_REQ_REMOVE_FILE: int := 8
  const MSG_REQ_READ_N_FILES: int := 9
  const MSG_REQ_WRITE_FILE: int := 10
  const MSG_REQ_APPEND_TO_FILE: int := 11
  const MSG_RESP_SIMPLE: int := 20
  const MSG_RESP_WITH_FILES: int := 21

  const RESP_STATUS_OK: int := 1
  const RESP_STATUS_GENERIC_ERROR: int := 2
  const RESP_STATUS_NOT_PERMITTED: int := 3
  const RESP_STATUS_INVALID_ARG: int := 4
  const RESP_STATUS_NOT_FOUND: int := 5

  /** The requests that carry a file. */
  predicate IsFileRequest(kind: int) {
    MSG_REQ_OPEN_FILE <= kind <= MSG_REQ_REMOVE_FILE || kind == MSG_REQ_WRITE_FILE || kind == MSG_REQ_APPEND_TO_FILE
  }
}
