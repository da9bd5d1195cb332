/**
 * The table of running interactive programs: for every socket session, the
 * process it started and the stream that feeds that process's standard
 * input, kept in two maps that must stay in step.
 */
module ProcessManager {
  import opened Wrappers

  type SessionId = string

  /** A child process: an identity, the stream to its standard input, and whether it is still running. */
  datatype Process = Process(pid: nat, stdin: nat, alive: bool)

  datatype Manager = Manager(processes: map<SessionId, Process>, streams: map<SessionId, nat>)

  /** The two maps have the same sessions, and each stream is its process's standard input. */
  ghost predicate Valid(m: Manager) {
    && (forall s :: s in m.processes <==> s in m.streams)
    && (forall s :: s in m.processes ==> m.streams[s] == m.processes[s].stdin)
  }

  const Empty: Manager := Manager(map[], map[])

  lemma EmptyValid()
    ensures Valid(Empty)
  {
  }

  /** `getProcess(sessionId)`, null when unknown. */
  function GetProcess(m: Manager, s: SessionId): (r: Option<Process>)
    ensures r.Some? <==> s in m.processes
    ensures r.Some? ==> r.value == m.processes[s]
  {
    if s in m.processes then Some(m.processes[s]) else None
  }

  /** `getOutputStream(sessionId)`, null when unknown. */
  function GetOutputStream(m: Manager, s: SessionId): (r: Option<nat>)
    ensures r.Some? <==> s in m.streams
    ensures r.Some? ==> r.value == m.streams[s]
  {
    if s in m.streams then Some(m.streams[s]) else None
  }

  /** Both lookups agree on every session other than `s`. */
  ghost predicate SameElsewhere(m: Manager, r: Manager, s: SessionId) {
    forall t :: t != s ==> GetProcess(r, t) == GetProcess(m, t) && GetOutputStream(r, t) == GetOutputStream(m, t)
  }

  /** `addProcess(sessionId, process)`: registers, or replaces, both entries of the session. */
  function AddProcess(m: Manager, s: SessionId, p: Process): (r: Manager)
    ensures GetProcess(r, s) == Some(p)
    ensures GetOutputStream(r, s) == Some(p.stdin)
    ensures SameElsewhere(m, r, s)
    ensures Valid(m) ==> Valid(r)
  {
    Manager(m.processes[s := p], m.streams[s := p.stdin])
  }

  /**
   * `removeProcess(sessionId)`: drops both entries; the response is the
   * process that gets destroyed, which is the removed one if it was still
   * running.
   */
  function RemoveProcess(m: Manager, s: SessionId): (out: Handled<Option<Process>, Manager>)
    ensures GetProcess(out.state, s).None? && GetOutputStream(out.state, s).None?
    ensures SameElsewhere(m, out.state, s)
    ensures out.response.Some? <==> s in m.processes && m.processes[s].alive
    ensures out.response.Some? ==> out.response.value == m.processes[s]
    ensures Valid(m) ==> Valid(out.state)
  {
    var destroyed := if s in m.processes && m.processes[s].alive then Some(m.processes[s]) else None;
    Handled(destroyed, Manager(m.processes - {s}, m.streams - {s}))
  }

  /** Removing an unknown session changes nothing and destroys nothing. */
  lemma RemoveUnknown(m: Manager, s: SessionId)
    requires s !in m.processes && s !in m.streams
    ensures RemoveProcess(m, s) == Handled(None, m)
  {
    assert m.processes - {s} == m.processes;
    assert m.streams - {s} == m.streams;
  }

  /**
   * Registering a process for a new session and removing it again restores
   * the table exactly and destroys that process if it is running.
   */
  lemma AddThenRemove(m: Manager, s: SessionId, p: Process)
    requires s !in m.processes && s !in m.streams
    ensures RemoveProcess(AddProcess(m, s, p), s) == Handled(if p.alive then Some(p) else None, m)
  {
    assert m.processes[s := p] - {s} == m.processes;
    assert m.streams[s := p.stdin] - {s} == m.streams;
  }

  /** Registering twice for one session keeps only the second process. */
  lemma AddReplaces(m: Manager, s: SessionId, p: Process, q: Process)
    ensures AddProcess(AddProcess(m, s, p), s, q) == AddProcess(m, s, q)
  {
    assert m.processes[s := p][s := q] == m.processes[s := q];
    assert m.streams[s := p.stdin][s := q.stdin] == m.streams[s := q.stdin];
  }
}
