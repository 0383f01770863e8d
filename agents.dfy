/** The record the daemon keeps per user and writes to its clients
    (agent_data_t), and the two enumerations it carries. The C layout lives in
    common.h, which is not part of this model: only the fields and their
    capacities matter here. */
module Agents {

  /** enum agent: which agent binary a record belongs to. */
  datatype AgentKind = SshAgent | GpgAgent

  /** The session status codes of the client protocol. */
  datatype Status = Stopped | Started | Running | Failed | BadUser

  /** agent_data_t: `sock` and `gpg` are NUL-terminated char arrays. */
  datatype AgentData = AgentData(
    status: Status,
    kind: AgentKind,
    pid: int,
    sock: string,
    gpg: string,
    firstRun: bool)

  /** Capacity of the `sock` and `gpg` arrays, NUL included (PATH_MAX). */
  const PATH_MAX: nat := 4096

  /** A record as calloc leaves it: every field zero. */
  const ZeroData := AgentData(Stopped, SshAgent, 0, "", "", false)

  /** The strings fit their arrays with their terminating NUL. */
  predicate Fits(d: AgentData)
  {
    |d.sock| < PATH_MAX && |d.gpg| < PATH_MAX
  }
}
