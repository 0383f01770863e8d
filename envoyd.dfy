/** envoyd: the daemon that keeps one agent per user. It listens on a unix
    socket, checks the peer's credentials, looks the user up in its
    registry, starts (or restarts) the user's agent when needed and writes
    the agent's record back. The operating system is abstracted: the
    outcome of fork/exec/wait, of the `kill(pid, 0)` probe and of the write
    to the client arrive as inputs, and the SIGTERMs sent at shutdown are
    recorded in a log. */
module Envoyd {
  import opened CText
  import opened Agents
  import opened Announcement

  /** struct agent_t: the binary to exec and its argument vector. */
  datatype AgentBinary = AgentBinary(bin: string, argv: seq<string>)

  /** The Agent[] table, indexed by enum agent. */
  const AgentTable: seq<AgentBinary> := [
    AgentBinary("/usr/bin/ssh-agent", ["ssh-agent"]),
    AgentBinary("/usr/bin/gpg-agent", ["gpg-agent", "--daemon", "--enable-ssh-support"])
  ]

  /** enum agent's INVALID_AGENT, also the number of table entries. */
  const INVALID_AGENT: nat := 2

  /** The first descriptor systemd passes to a socket-activated service. */
  const SD_LISTEN_FDS_START: int := 3

  const SIGINT: int := 2
  const SIGTERM: int := 15

  /** find_agent: the index of the first table entry whose argv[0] is
      `name`, or INVALID_AGENT when there is none. */
  method FindAgent(name: string) returns (i: nat)
    ensures i <= INVALID_AGENT
    ensures i < INVALID_AGENT ==> AgentTable[i].argv[0] == name
    ensures forall j :: 0 <= j < i ==> AgentTable[j].argv[0] != name
  {
    i := 0;
    while i < INVALID_AGENT
      invariant i <= INVALID_AGENT
      invariant forall j :: 0 <= j < i ==> AgentTable[j].argv[0] != name
    {
      if AgentTable[i].argv[0] == name {
        break;
      }
      i := i + 1;
    }
  }

  /** The reasons envoyd dies with err(EXIT_FAILURE, ...). */
  datatype Fault =
    | NoPasswdEntry   // getpwuid found no entry or no home directory
    | SpawnFailed     // pipe or fork failed
    | ParseFailed     // reading the agent's output failed
    | WaitFailed      // wait failed
    | ProbeFailed     // kill(pid, 0) failed with an errno other than ESRCH
    | WriteFailed     // writing the record to the client failed
    | TooManyFds      // systemd passed more than one socket
    | UnknownAgent    // -a named no agent of the table


  /** What happens when start_agent runs the agent binary: the passwd
      lookup, pipe and fork, then the text the agent printed (as one read
      sees it), whether wait succeeded and the child's wait status. */
  datatype Child =
    | NoPasswd
    | ForkFails
    | Ran(output: PipeRead, waited: bool, exitStatus: int)

  /** start_agent's effect on the record it fills in. */
  function AfterStart(child: Child, d: AgentData): Result<AgentData, Fault>
  {
    match child
    case NoPasswd => Err(NoPasswdEntry)
    case ForkFails => Err(SpawnFailed)
    case Ran(output, waited, status) =>
      if output.ReadFails? then Err(ParseFailed)
      else if !waited then Err(WaitFailed)
      else
        var parsed := ApplyLines(Lines(ReadUpTo(output.text, BUFSIZ - 1)), d.(firstRun := true));
        Ok(if status != 0 then parsed.(pid := 0) else parsed)
  }

  /** start_agent: the passwd lookup, first_run set, the agent's output
      parsed into the record, and the pid cleared when the agent exited
      with a non-zero status. */
  method StartAgent(child: Child, data: AgentData) returns (r: Result<AgentData, Fault>)
    ensures r == AfterStart(child, data)
  {
    match child
    case NoPasswd =>
      return Err(NoPasswdEntry);
    case ForkFails =>
      return Err(SpawnFailed);
    case Ran(output, waited, status) =>
      var d := data.(firstRun := true);
      var ret, parsed := ParseAgentData(output, d);
      if ret < 0 {
        return Err(ParseFailed);
      }
      if !waited {
        return Err(WaitFailed);
      }
      if status != 0 {
        parsed := parsed.(pid := 0);
      }
      return Ok(parsed);
  }

  /** A started agent's record is marked as a first run, keeps its status
      and kind, and has no pid when the agent exited with a failure. */
  lemma StartAgentMarks(child: Child, d: AgentData)
    requires AfterStart(child, d).Ok?
    ensures AfterStart(child, d).value.firstRun
    ensures AfterStart(child, d).value.status == d.status
    ensures AfterStart(child, d).value.kind == d.kind
    ensures child.exitStatus != 0 ==> AfterStart(child, d).value.pid == 0
  {
  }

  /** An ssh-agent that announces its socket and pid and exits with status
      0 leaves exactly that socket and pid in the record. */
  lemma StartAgentRecordsAnnouncement(sock: string, pid: int, d: AgentData)
    requires ';' !in sock && '\n' !in sock && '\0' !in sock
    requires |SshAgentOutput(sock, pid)| < BUFSIZ - 1
    ensures AfterStart(Ran(Pending(SshAgentOutput(sock, pid)), true, 0), d)
         == Ok(d.(firstRun := true, sock := sock, pid := pid))
  {
    SshAgentAnnouncementParsed(sock, pid, d.(firstRun := true));
  }

  /** struct agent_info_t without its link: the list is the registry. */
  datatype AgentInfo = AgentInfo(uid: int, d: AgentData)

  /** The linear search of the registry for the node of `uid`. */
  function Lookup(reg: seq<AgentInfo>, uid: int): (r: Option<nat>)
    ensures r.Some? ==> r.value < |reg| && reg[r.value].uid == uid
    decreases |reg|
  {
    if reg == [] then None
    else if reg[0].uid == uid then Some(0)
    else
      match Lookup(reg[1..], uid)
      case None => None
      case Some(i) => Some(i + 1)
  }

  /** The node found is the first of its uid, and none is found exactly
      when no node has that uid. */
  lemma {:induction false} LookupFirst(reg: seq<AgentInfo>, uid: int)
    ensures Lookup(reg, uid).Some? ==>
      forall k :: 0 <= k < Lookup(reg, uid).value ==> reg[k].uid != uid
    ensures Lookup(reg, uid).None? <==> forall k :: 0 <= k < |reg| ==> reg[k].uid != uid
    decreases |reg|
  {
    if reg != [] && reg[0].uid != uid {
      LookupFirst(reg[1..], uid);
      assert forall k :: 1 <= k < |reg| ==> reg[k] == reg[1..][k - 1];
    }
  }

  /** A node that is the first of its uid is the one the search finds. */
  lemma LookupAt(reg: seq<AgentInfo>, uid: int, i: nat)
    requires i < |reg| && reg[i].uid == uid
    requires forall k :: 0 <= k < i ==> reg[k].uid != uid
    ensures Lookup(reg, uid) == Some(i)
  {
    LookupFirst(reg, uid);
  }

  /** At most one node per uid. */
  predicate UniqueUids(reg: seq<AgentInfo>)
  {
    forall j, k :: 0 <= j < k < |reg| ==> reg[j].uid != reg[k].uid
  }

  /** The credentials of the peer of a connection (SO_PEERCRED). */
  datatype Peer = Peer(uid: int, gid: int)

  /** The outcome of kill(pid, 0) on the recorded agent. */
  datatype Probe = Alive | NoSuchProcess | ProbeError

  /** One accepted connection: who is asking, and what the operating
      system answers when envoyd probes, starts an agent or writes. */
  datatype Connection = Connection(peer: Peer, probe: Probe, child: Child, writeOk: bool)

  /** What the client receives: nothing, or one record. */
  datatype Reply = NoReply | Sent(d: AgentData)

  /** The registry after a connection, whether start_agent ran (the
      "starting ..." line on stdout), and the reply. */
  datatype Served = Served(registry: seq<AgentInfo>, started: bool, reply: Reply)

  /** The connection handling of envoyd's main loop, on the registry
      `reg`, for a daemon running with effective uid `euid`. */
  function Serve(euid: int, reg: seq<AgentInfo>, c: Connection): Result<Served, Fault>
  {
    if euid != 0 && euid != c.peer.uid then Ok(Served(reg, false, NoReply))
    else
      match Lookup(reg, c.peer.uid)
      case None => Respawn([AgentInfo(c.peer.uid, ZeroData)] + reg, 0, c)
      case Some(i) =>
        if reg[i].d.pid == 0 then Respawn(reg, i, c)
        else
          match c.probe
          case Alive => Answer(reg, i, false, c.writeOk)
          case NoSuchProcess => Respawn(reg, i, c)
          case ProbeError => Err(ProbeFailed)
  }

  /** start_agent on node `i`, then the reply. */
  function Respawn(reg: seq<AgentInfo>, i: nat, c: Connection): Result<Served, Fault>
    requires i < |reg|
  {
    match AfterStart(c.child, reg[i].d)
    case Err(f) => Err(f)
    case Ok(d) => Answer(reg[i := reg[i].(d := d)], i, true, c.writeOk)
  }

  /** The record of node `i` goes to the client only when it has a pid;
      first_run is cleared once it has been written. */
  function Answer(reg: seq<AgentInfo>, i: nat, started: bool, writeOk: bool): Result<Served, Fault>
    requires i < |reg|
  {
    if reg[i].d.pid == 0 then Ok(Served(reg, started, NoReply))
    else if !writeOk then Err(WriteFailed)
    else Ok(Served(reg[i := reg[i].(d := reg[i].d.(firstRun := false))], started, Sent(reg[i].d)))
  }

  /** A peer other than the daemon's own user is refused, unless the
      daemon runs as root: the registry stays as it was and nothing is
      written. */
  lemma ServeRejects(euid: int, reg: seq<AgentInfo>, c: Connection)
    ensures euid != 0 && euid != c.peer.uid ==> Serve(euid, reg, c) == Ok(Served(reg, false, NoReply))
    ensures Serve(euid, reg, c).Ok? && Serve(euid, reg, c).value.reply.Sent? ==>
      euid == 0 || euid == c.peer.uid
  {
  }

  /** `out` is `reg` with at most node `i` rewritten, its uid kept. */
  predicate SameBut(reg: seq<AgentInfo>, out: seq<AgentInfo>, i: nat)
  {
    |out| == |reg| &&
    forall k :: 0 <= k < |reg| ==> out[k].uid == reg[k].uid && (k != i ==> out[k] == reg[k])
  }

  lemma AnswerRewritesOne(reg: seq<AgentInfo>, i: nat, started: bool, writeOk: bool)
    requires i < |reg|
    requires Answer(reg, i, started, writeOk).Ok?
    ensures SameBut(reg, Answer(reg, i, started, writeOk).value.registry, i)
  {
  }

  lemma RespawnRewritesOne(reg: seq<AgentInfo>, i: nat, c: Connection)
    requires i < |reg|
    requires Respawn(reg, i, c).Ok?
    ensures SameBut(reg, Respawn(reg, i, c).value.registry, i)
  {
    var d := AfterStart(c.child, reg[i].d).value;
    var reg1 := reg[i := reg[i].(d := d)];
    AnswerRewritesOne(reg1, i, true, c.writeOk);
  }

  /** The registry changes in one place only: a miss prepends one node for
      the peer, a hit rewrites the peer's node, and every other node is
      left alone. */
  lemma ServeRegistry(euid: int, reg: seq<AgentInfo>, c: Connection)
    requires Serve(euid, reg, c).Ok?
    requires euid == 0 || euid == c.peer.uid
    ensures var out := Serve(euid, reg, c).value.registry;
      if forall k :: 0 <= k < |reg| ==> reg[k].uid != c.peer.uid then
        |out| == |reg| + 1 && out[0].uid == c.peer.uid && out[1..] == reg
      else
        |out| == |reg| &&
        forall k :: 0 <= k < |reg| ==> out[k].uid == reg[k].uid && (reg[k].uid != c.peer.uid ==> out[k] == reg[k])
  {
    LookupFirst(reg, c.peer.uid);
    var out := Serve(euid, reg, c).value.registry;
    match Lookup(reg, c.peer.uid)
    case None =>
      var reg1 := [AgentInfo(c.peer.uid, ZeroData)] + reg;
      RespawnRewritesOne(reg1, 0, c);
      assert forall k :: 1 <= k < |reg1| ==> out[k] == reg1[k];
      assert out[1..] == reg1[1..] == reg;
    case Some(i) =>
      if reg[i].d.pid == 0 || c.probe == NoSuchProcess {
        RespawnRewritesOne(reg, i, c);
      } else {
        AnswerRewritesOne(reg, i, false, c.writeOk);
      }
  }

  /** Serving a connection keeps at most one node per uid. */
  lemma ServeKeepsUidsUnique(euid: int, reg: seq<AgentInfo>, c: Connection)
    requires UniqueUids(reg)
    requires Serve(euid, reg, c).Ok?
    ensures UniqueUids(Serve(euid, reg, c).value.registry)
  {
    if euid == 0 || euid == c.peer.uid {
      ServeRegistry(euid, reg, c);
      var out := Serve(euid, reg, c).value.registry;
      if forall k :: 0 <= k < |reg| ==> reg[k].uid != c.peer.uid {
        forall j, k | 0 <= j < k < |out| ensures out[j].uid != out[k].uid {
          if j > 0 {
            assert out[j] == reg[j - 1] && out[k] == reg[k - 1];
          } else {
            assert out[k] == reg[k - 1];
          }
        }
      }
    }
  }

  /** A node of the peer whose agent needs (re)starting: it has no pid, or
      the probe says the process is gone. */
  predicate NeedsStart(reg: seq<AgentInfo>, c: Connection)
  {
    exists k :: 0 <= k < |reg| && reg[k].uid == c.peer.uid && (reg[k].d.pid == 0 || c.probe == NoSuchProcess)
  }

  /** An authorized connection starts an agent exactly when the registry
      has no node for the peer, or the peer's node has no pid, or its
      agent is gone; the probe failing any other way is fatal. */
  lemma ServeStartsIff(euid: int, reg: seq<AgentInfo>, c: Connection)
    requires UniqueUids(reg)
    requires euid == 0 || euid == c.peer.uid
    requires Serve(euid, reg, c).Ok?
    ensures Serve(euid, reg, c).value.started <==>
      (forall k :: 0 <= k < |reg| ==> reg[k].uid != c.peer.uid) || NeedsStart(reg, c)
  {
    LookupFirst(reg, c.peer.uid);
    match Lookup(reg, c.peer.uid)
    case None =>
    case Some(i) =>
      if NeedsStart(reg, c) {
        var k :| 0 <= k < |reg| && reg[k].uid == c.peer.uid && (reg[k].d.pid == 0 || c.probe == NoSuchProcess);
        assert k == i;
      }
  }

  /** The probe is consulted only for a node with a pid, and an error
      other than "no such process" is fatal. */
  lemma ServeProbeFatal(euid: int, reg: seq<AgentInfo>, c: Connection)
    requires euid == 0 || euid == c.peer.uid
    requires c.probe == ProbeError
    ensures Serve(euid, reg, c) == Err(ProbeFailed) <==>
      exists k :: 0 <= k < |reg| && reg[k].uid == c.peer.uid && reg[k].d.pid != 0 &&
        (forall j :: 0 <= j < k ==> reg[j].uid != c.peer.uid)
  {
    LookupFirst(reg, c.peer.uid);
    match Lookup(reg, c.peer.uid)
    case None =>
      RespawnNotProbe([AgentInfo(c.peer.uid, ZeroData)] + reg, 0, c);
    case Some(i) =>
      forall k | 0 <= k < |reg| && reg[k].uid == c.peer.uid && (forall j :: 0 <= j < k ==> reg[j].uid != c.peer.uid)
        ensures k == i
      {
      }
      if reg[i].d.pid == 0 {
        RespawnNotProbe(reg, i, c);
      }
  }

  /** Starting an agent never fails for the probe's reason. */
  lemma RespawnNotProbe(reg: seq<AgentInfo>, i: nat, c: Connection)
    requires i < |reg|
    ensures Respawn(reg, i, c) != Err(ProbeFailed)
  {
  }

  /** Only a record with a pid is written, and the registry keeps it with
      first_run cleared; a record without a pid is not written at all. */
  lemma ServeReplies(euid: int, reg: seq<AgentInfo>, c: Connection)
    requires euid == 0 || euid == c.peer.uid
    requires Serve(euid, reg, c).Ok?
    ensures var s := Serve(euid, reg, c).value;
      var i := Lookup(s.registry, c.peer.uid);
      i.Some? &&
      (s.reply.Sent? ==> c.writeOk && s.reply.d.pid != 0 &&
                         s.registry[i.value].d == s.reply.d.(firstRun := false)) &&
      (s.reply.NoReply? ==> s.registry[i.value].d.pid == 0)
  {
    var s := Serve(euid, reg, c).value;
    LookupFirst(reg, c.peer.uid);
    match Lookup(reg, c.peer.uid)
    case None =>
      var reg1 := [AgentInfo(c.peer.uid, ZeroData)] + reg;
      RespawnReplies(reg1, 0, c);
      LookupAt(s.registry, c.peer.uid, 0);
    case Some(i) =>
      if reg[i].d.pid == 0 || c.probe == NoSuchProcess {
        RespawnReplies(reg, i, c);
        RespawnRewritesOne(reg, i, c);
      } else {
        AnswerReplies(reg, i, false, c.writeOk);
        AnswerRewritesOne(reg, i, false, c.writeOk);
      }
      LookupAt(s.registry, c.peer.uid, i);
  }

  /** What Answer sends and what it leaves in node `i`. */
  lemma AnswerReplies(reg: seq<AgentInfo>, i: nat, started: bool, writeOk: bool)
    requires i < |reg|
    requires Answer(reg, i, started, writeOk).Ok?
    ensures var s := Answer(reg, i, started, writeOk).value;
      i < |s.registry| && s.registry[i].uid == reg[i].uid &&
      (s.reply.Sent? ==> writeOk && s.reply.d.pid != 0 && s.registry[i].d == s.reply.d.(firstRun := false)) &&
      (s.reply.NoReply? ==> s.registry[i].d.pid == 0)
  {
  }

  lemma RespawnReplies(reg: seq<AgentInfo>, i: nat, c: Connection)
    requires i < |reg|
    requires Respawn(reg, i, c).Ok?
    ensures var s := Respawn(reg, i, c).value;
      i < |s.registry| && s.registry[i].uid == reg[i].uid &&
      (s.reply.Sent? ==> c.writeOk && s.reply.d.pid != 0 && s.registry[i].d == s.reply.d.(firstRun := false)) &&
      (s.reply.NoReply? ==> s.registry[i].d.pid == 0)
  {
    var d := AfterStart(c.child, reg[i].d).value;
    AnswerReplies(reg[i := reg[i].(d := d)], i, true, c.writeOk);
  }

  /** A write that fails is fatal: serving ends with WriteFailed exactly
      when the peer is authorized, the write fails, and there is a record
      with a pid to write, either the live agent's or the one start_agent
      has just made of the peer's node (a zero record on a miss). When
      the write fails and serving still succeeds, nothing was sent. */
  lemma ServeWriteFails(euid: int, reg: seq<AgentInfo>, c: Connection)
    ensures Serve(euid, reg, c) == Err(WriteFailed) <==>
      !c.writeOk && (euid == 0 || euid == c.peer.uid) &&
      match Lookup(reg, c.peer.uid)
      case None =>
        AfterStart(c.child, ZeroData).Ok? && AfterStart(c.child, ZeroData).value.pid != 0
      case Some(i) =>
        if reg[i].d.pid != 0 && c.probe != NoSuchProcess then c.probe == Alive
        else AfterStart(c.child, reg[i].d).Ok? && AfterStart(c.child, reg[i].d).value.pid != 0
    ensures !c.writeOk && Serve(euid, reg, c).Ok? ==> Serve(euid, reg, c).value.reply == NoReply
  {
  }

  /** Once a live agent's record has been sent, the next request of the
      same user is answered from the registry without starting anything,
      with the same record and first_run cleared. */
  lemma SecondRequestNotFirstRun(euid: int, reg: seq<AgentInfo>, c1: Connection, c2: Connection)
    requires Serve(euid, reg, c1).Ok? && Serve(euid, reg, c1).value.reply.Sent?
    requires c2.peer.uid == c1.peer.uid && c2.probe == Alive && c2.writeOk
    ensures var s1 := Serve(euid, reg, c1).value;
      Serve(euid, s1.registry, c2) == Ok(Served(s1.registry, false, Sent(s1.reply.d.(firstRun := false))))
  {
    var s1 := Serve(euid, reg, c1).value;
    ServeReplies(euid, reg, c1);
    var i := Lookup(s1.registry, c1.peer.uid).value;
    assert s1.registry[i := s1.registry[i].(d := s1.registry[i].d.(firstRun := false))] == s1.registry;
  }

  /** A user's first connection, when ssh-agent starts and announces its
      socket and pid: the user gets a record holding them with first_run
      set, and the registry gains one node holding it with first_run
      cleared. */
  lemma FirstConnectionStartsAgent(euid: int, reg: seq<AgentInfo>, uid: int, gid: int, sock: string, pid: int)
    requires euid == 0 || euid == uid
    requires forall k :: 0 <= k < |reg| ==> reg[k].uid != uid
    requires ';' !in sock && '\n' !in sock && '\0' !in sock
    requires |SshAgentOutput(sock, pid)| < BUFSIZ - 1 && pid != 0
    ensures var c := Connection(Peer(uid, gid), Alive, Ran(Pending(SshAgentOutput(sock, pid)), true, 0), true);
      var rec := ZeroData.(firstRun := true, sock := sock, pid := pid);
      Serve(euid, reg, c) == Ok(Served([AgentInfo(uid, rec.(firstRun := false))] + reg, true, Sent(rec)))
  {
    var c := Connection(Peer(uid, gid), Alive, Ran(Pending(SshAgentOutput(sock, pid)), true, 0), true);
    StartAgentRecordsAnnouncement(sock, pid, ZeroData);
    ServeMiss(euid, reg, c, ZeroData.(firstRun := true, sock := sock, pid := pid));
  }

  /** A user without a node gets a fresh one, at the head of the registry,
      filled in by start_agent from an all-zero record. */
  lemma ServeMiss(euid: int, reg: seq<AgentInfo>, c: Connection, d: AgentData)
    requires euid == 0 || euid == c.peer.uid
    requires forall k :: 0 <= k < |reg| ==> reg[k].uid != c.peer.uid
    requires AfterStart(c.child, ZeroData) == Ok(d) && d.pid != 0 && c.writeOk
    ensures Serve(euid, reg, c) == Ok(Served([AgentInfo(c.peer.uid, d.(firstRun := false))] + reg, true, Sent(d)))
  {
    LookupFirst(reg, c.peer.uid);
    var reg1 := [AgentInfo(c.peer.uid, ZeroData)] + reg;
    assert Serve(euid, reg, c) == Respawn(reg1, 0, c);
    var reg2 := [AgentInfo(c.peer.uid, d)] + reg;
    assert reg1[0 := reg1[0].(d := d)] == reg2;
    assert reg2[0 := reg2[0].(d := d.(firstRun := false))] == [AgentInfo(c.peer.uid, d.(firstRun := false))] + reg;
  }

  /** The pids the shutdown sweep sends SIGTERM to, in registry order. */
  function TermTargets(reg: seq<AgentInfo>): (r: seq<int>)
    ensures |r| <= |reg|
  {
    if reg == [] then []
    else (if reg[0].d.pid > 0 then [reg[0].d.pid] else []) + TermTargets(reg[1..])
  }

  /** The number of records holding `pid`. */
  function PidCount(reg: seq<AgentInfo>, pid: int): nat
  {
    if reg == [] then 0
    else (if reg[0].d.pid == pid then 1 else 0) + PidCount(reg[1..], pid)
  }

  /** The sweep signals every record with a positive pid exactly once and
      nothing else. */
  lemma {:induction false} TermTargetsOnce(reg: seq<AgentInfo>, pid: int)
    ensures multiset(TermTargets(reg))[pid] == if pid > 0 then PidCount(reg, pid) else 0
    decreases |reg|
  {
    if reg != [] {
      TermTargetsOnce(reg[1..], pid);
    }
  }

  /** One step of cleanup's loop as the source writes it: a record with a
      pid of zero or less is skipped without moving to the next one. */
  function CleanupStepAsWritten(reg: seq<AgentInfo>): (r: (seq<AgentInfo>, seq<int>))
    requires reg != []
    ensures |r.0| <= |reg|
  {
    if reg[0].d.pid <= 0 then (reg, []) else (reg[1..], [reg[0].d.pid])
  }

  /** A registry whose head has no pid makes the source's loop spin
      forever: the step leaves the list as it was and signals nothing. */
  lemma CleanupAsWrittenStalls(reg: seq<AgentInfo>)
    requires reg != [] && reg[0].d.pid <= 0
    ensures CleanupStepAsWritten(reg) == (reg, [])
  {
  }

  /** Such a registry arises: an agent that exits with a failure leaves
      its user's node with pid 0. */
  lemma StalledRegistryReachable(uid: int, gid: int)
    ensures var c := Connection(Peer(uid, gid), Alive, Ran(Pending(""), true, 1), true);
      Serve(0, [], c) == Ok(Served([AgentInfo(uid, ZeroData.(firstRun := true))], true, NoReply))
  {
    var c := Connection(Peer(uid, gid), Alive, Ran(Pending(""), true, 1), true);
    assert ReadUpTo("", BUFSIZ - 1) == "";
    assert Lines("") == [];
    assert ApplyLines([], ZeroData.(firstRun := true)) == ZeroData.(firstRun := true);
    assert AfterStart(c.child, ZeroData) == Ok(ZeroData.(firstRun := true));
    var one := [AgentInfo(uid, ZeroData)];
    assert [AgentInfo(uid, ZeroData)] + [] == one;
    assert one[0 := one[0].(d := ZeroData.(firstRun := true))] == [AgentInfo(uid, ZeroData.(firstRun := true))];
  }

  /** The daemon's global state. */
  class Daemon {
    /** The effective uid envoyd runs as. */
    const euid: int
    /** The agent chosen with -a (an index into AgentTable). */
    var agent: nat
    /** The `agents` list, head first. */
    var agents: seq<AgentInfo>
    var sdActivated: bool
    /** Whether server_sock is open. */
    var listening: bool
    /** The pids SIGTERM was sent to, oldest first. */
    var signalled: seq<int>
    /** Whether the process has exited. */
    var exited: bool

    ghost predicate Valid()
      reads this
    {
      agent < INVALID_AGENT && UniqueUids(agents)
    }

    constructor (euid: int)
      ensures Valid()
      ensures this.euid == euid && agent == 0 && agents == [] && !sdActivated
      ensures !listening && signalled == [] && !exited
    {
      this.euid := euid;
      agent := 0;
      agents := [];
      sdActivated := false;
      listening := false;
      signalled := [];
      exited := false;
    }

    /** The -a option: the named agent becomes the one envoyd starts. */
    method SelectAgent(name: string) returns (r: Result<nat, Fault>)
      requires Valid()
      modifies this`agent
      ensures Valid()
      ensures r.Ok? ==> r.value < INVALID_AGENT && AgentTable[r.value].argv[0] == name && agent == r.value
      ensures r.Err? ==>
        r.fault == UnknownAgent && agent == old(agent) &&
        forall j :: 0 <= j < INVALID_AGENT ==> AgentTable[j].argv[0] != name
    {
      var id := FindAgent(name);
      if id == INVALID_AGENT {
        return Err(UnknownAgent);
      }
      agent := id;
      return Ok(id);
    }

    /** get_socket: one socket inherited from systemd is used as is and
      marks the daemon socket-activated; more than one is fatal; none
      means envoyd makes its own, whose creation outcome is `own`. */
    method GetSocket(listenFds: int, own: Result<int, Fault>) returns (r: Result<int, Fault>)
      requires Valid()
      modifies this`sdActivated, this`listening
      ensures Valid()
      ensures listenFds > 1 ==> r == Err(TooManyFds) && sdActivated == old(sdActivated)
      ensures listenFds == 1 ==> r == Ok(SD_LISTEN_FDS_START) && sdActivated
      ensures listenFds < 1 ==> r == own && sdActivated == old(sdActivated)
      ensures listening == (r.Ok? || old(listening))
    {
      if listenFds > 1 {
        return Err(TooManyFds);
      } else if listenFds == 1 {
        sdActivated := true;
        r := Ok(SD_LISTEN_FDS_START);
      } else {
        r := own;
      }
      if r.Ok? {
        listening := true;
      }
    }

    /** The walk of `agents` for the peer's node. */
    method FindNode(uid: int) returns (r: Option<nat>)
      ensures r == Lookup(agents, uid)
    {
      var i := 0;
      while i < |agents|
        invariant i <= |agents|
        invariant forall k :: 0 <= k < i ==> agents[k].uid != uid
      {
        if agents[i].uid == uid {
          LookupAt(agents, uid, i);
          return Some(i);
        }
        i := i + 1;
      }
      LookupFirst(agents, uid);
      return None;
    }

    /** One pass of the main loop after accept: the credentials check, the
      registry lookup, start_agent when needed, and the reply. A fault
      ends the process. */
    method HandleConnection(c: Connection) returns (r: Result<Reply, Fault>, started: bool)
      requires Valid()
      modifies this`agents
      ensures match Serve(euid, old(agents), c)
        case Ok(s) => r == Ok(s.reply) && started == s.started && agents == s.registry && Valid()
        case Err(f) => r == Err(f)
    {
      if euid != 0 && euid != c.peer.uid {
        return Ok(NoReply), false;
      }
      ghost var reg := agents;
      var node := FindNode(c.peer.uid);
      var i: nat;
      started := false;
      if node.None? || agents[node.value].d.pid == 0 || c.probe != Alive {
        if node.Some? && agents[node.value].d.pid != 0 {
          if c.probe == ProbeError {
            return Err(ProbeFailed), false;
          }
          i := node.value;
        } else if node.None? {
          agents := [AgentInfo(c.peer.uid, ZeroData)] + agents;
          i := 0;
        } else {
          i := node.value;
        }
        var d := StartAgent(c.child, agents[i].d);
        if d.Err? {
          return Err(d.fault), true;
        }
        agents := agents[i := agents[i].(d := d.value)];
        started := true;
      } else {
        i := node.value;
      }
      if agents[i].d.pid != 0 {
        if !c.writeOk {
          return Err(WriteFailed), started;
        }
        r := Ok(Sent(agents[i].d));
        agents := agents[i := agents[i].(d := agents[i].d.(firstRun := false))];
      } else {
        r := Ok(NoReply);
      }
      ServeKeepsUidsUnique(euid, reg, c);
    }

    /** cleanup, with the walk advancing past every record: the server
      socket is closed, each record with a positive pid gets SIGTERM, in
      order, and the list is used up. */
    method Cleanup()
      requires Valid()
      modifies this`agents, this`signalled, this`listening
      ensures Valid()
      ensures !listening && agents == []
      ensures signalled == old(signalled) + TermTargets(old(agents))
    {
      listening := false;
      while agents != []
        invariant !listening
        invariant signalled + TermTargets(agents) == old(signalled) + TermTargets(old(agents))
        decreases |agents|
      {
        var head: seq<int> := if agents[0].d.pid > 0 then [agents[0].d.pid] else [];
        assert TermTargets(agents) == head + TermTargets(agents[1..]);
        assert signalled + TermTargets(agents) == (signalled + head) + TermTargets(agents[1..]);
        signalled := signalled + head;
        agents := agents[1..];
      }
    }

    /** sighandler: SIGINT or SIGTERM runs cleanup unless systemd owns the
      socket, then exits; other signals do nothing. */
    method OnSignal(signum: int)
      requires Valid()
      modifies this`agents, this`signalled, this`listening, this`exited
      ensures Valid()
      ensures signum != SIGINT && signum != SIGTERM ==>
        exited == old(exited) && agents == old(agents) && signalled == old(signalled) && listening == old(listening)
      ensures signum == SIGINT || signum == SIGTERM ==> exited
      ensures (signum == SIGINT || signum == SIGTERM) && sdActivated ==>
        agents == old(agents) && signalled == old(signalled) && listening == old(listening)
      ensures (signum == SIGINT || signum == SIGTERM) && !sdActivated ==>
        !listening && agents == [] && signalled == old(signalled) + TermTargets(old(agents))
    {
      if signum == SIGINT || signum == SIGTERM {
        if !sdActivated {
          Cleanup();
        }
        exited := true;
      }
    }
  }
}
