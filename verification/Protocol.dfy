/** The wire vocabulary: commands and statuses. */
module Protocol {
  // Both enumerations are backed by quint16.
  type Quint16 = n: nat | n < 0x1_0000
  type Command = Quint16
  type Status = Quint16

  const INVALID: Command := 0
  const FIRST_EVENT: Command := 1000
  const SYNC_STUDY_PAGE: Command := 52
  const EVT_SESSION_LIST_UPDATED: Command := 1007
  const SUCCESS: Status := 200
  const BAD_REQUEST: Status := 400

  /** Commands from 1000 upwards are pushed by the server without a request. */
  predicate IsEventCommand(c: Command) {
    c >= FIRST_EVENT
  }
}
