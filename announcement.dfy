/** How envoyd reads what a freshly started agent prints on its standard
    output: lines of the form `NAME=value; export NAME;` that fill in an
    agent record (parse_agentdata and parse_agentdata_line). */
module Announcement {
  import opened CText
  import opened Agents

  /** stdio's BUFSIZ: the size of parse_agentdata's buffer. */
  const BUFSIZ: nat := 8192

  /** What parse_agentdata_line keeps of a line: the text before its first
      ';' (strchr finds it and a NUL is stored over it). */
  function CutAtSemicolon(line: string): string
  {
    if line == [] || line[0] == ';' then [] else [line[0]] + CutAtSemicolon(line[1..])
  }

  /** The cut keeps a prefix free of ';' and stops only at a ';'. */
  lemma {:induction false} CutAtSemicolonSpec(line: string)
    ensures CutAtSemicolon(line) <= line && ';' !in CutAtSemicolon(line)
    ensures |CutAtSemicolon(line)| < |line| ==> line[|CutAtSemicolon(line)|] == ';'
    decreases |line|
  {
    if line != [] && line[0] != ';' {
      CutAtSemicolonSpec(line[1..]);
    }
  }

  /** A prefix free of ';' followed by a ';' is exactly what the cut keeps. */
  lemma {:induction false} CutAfter(a: string, b: string)
    requires ';' !in a
    ensures CutAtSemicolon(a + [';'] + b) == a
    decreases |a|
  {
    if a == [] {
      assert (a + [';'] + b)[0] == ';';
    } else {
      assert (a + [';'] + b)[1..] == a[1..] + [';'] + b;
      CutAfter(a[1..], b);
    }
  }

  /** A `NAME=value` pair. */
  datatype Assignment = Assignment(name: string, value: string)

  /** strsep(&val, "=") on the cut line: the name runs to the first '=' and
      the value is the rest of the cut line after it; a line with no '='
      before its first ';' assigns nothing. */
  function Assign(line: string): Option<Assignment>
  {
    if line == [] || line[0] == ';' then None
    else if line[0] == '=' then Some(Assignment([], CutAtSemicolon(line[1..])))
    else
      match Assign(line[1..])
      case None => None
      case Some(a) => Some(Assignment([line[0]] + a.name, a.value))
  }

  /** A line assigns something exactly when its cut holds an '='; the
      name is free of '=', the value of ';', and together they make up the
      cut line. */
  lemma {:induction false} AssignSpec(line: string)
    ensures Assign(line).None? <==> '=' !in CutAtSemicolon(line)
    ensures Assign(line).Some? ==>
      '=' !in Assign(line).value.name && ';' !in Assign(line).value.value
    ensures Assign(line).Some? ==>
      CutAtSemicolon(line) == Assign(line).value.name + "=" + Assign(line).value.value
    decreases |line|
  {
    if line == [] || line[0] == ';' {
    } else if line[0] == '=' {
      CutAtSemicolonSpec(line[1..]);
      assert CutAtSemicolon(line) == "=" + CutAtSemicolon(line[1..]);
    } else {
      AssignSpec(line[1..]);
      var c := CutAtSemicolon(line[1..]);
      assert CutAtSemicolon(line) == [line[0]] + c;
      match Assign(line[1..])
      case None =>
      case Some(a) =>
        assert [line[0]] + (a.name + "=" + a.value) == ([line[0]] + a.name) + "=" + a.value;
    }
  }

  /** A name free of '=' and ';' followed by '=' assigns the cut of the rest. */
  lemma {:induction false} AssignAfterName(name: string, rest: string)
    requires '=' !in name && ';' !in name
    ensures Assign(name + "=" + rest) == Some(Assignment(name, CutAtSemicolon(rest)))
    decreases |name|
  {
    var line := name + "=" + rest;
    if name == [] {
      assert line[0] == '=' && line[1..] == rest;
    } else {
      assert line[0] == name[0] && line[1..] == name[1..] + "=" + rest;
      AssignAfterName(name[1..], rest);
      assert [name[0]] + name[1..] == name;
    }
  }

  /** The unchecked strcpy calls stay inside their arrays only when the
      copied value is shorter than PATH_MAX. */
  predicate LineFits(line: string)
  {
    match Assign(line)
    case None => true
    case Some(a) =>
      (a.name == "SSH_AUTH_SOCK" ==> |a.value| < PATH_MAX) &&
      (a.name == "GPG_AGENT_INFO" ==> |a.value| < PATH_MAX)
  }

  predicate AllFit(lines: seq<string>)
  {
    forall k :: 0 <= k < |lines| ==> LineFits(lines[k])
  }

  /** parse_agentdata_line: the three recognised names set `sock`, `pid`
      (through atoi) and `gpg`; any other line leaves the record alone. */
  function ApplyLine(line: string, d: AgentData): (r: AgentData)
    ensures r.status == d.status && r.kind == d.kind && r.firstRun == d.firstRun
  {
    match Assign(line)
    case None => d
    case Some(a) =>
      if a.name == "SSH_AUTH_SOCK" then d.(sock := a.value)
      else if a.name == "SSH_AGENT_PID" then d.(pid := Atoi(a.value))
      else if a.name == "GPG_AGENT_INFO" then d.(gpg := a.value)
      else d
  }

  /** A line whose values fit keeps the record within its capacities, and a
      line with no '=' before its first ';' changes nothing. */
  lemma ApplyLineFrame(line: string, d: AgentData)
    ensures LineFits(line) && Fits(d) ==> Fits(ApplyLine(line, d))
    ensures '=' !in CutAtSemicolon(line) ==> ApplyLine(line, d) == d
  {
    AssignSpec(line);
  }

  /** The complete lines of a read buffer, as parse_agentdata's walk finds
      them: each ends at a '\n', the walk stops at the first NUL, and text
      after the last '\n' is not a line. */
  function Lines(s: string): seq<string>
    decreases |s|
  {
    match FindBeforeNul(s, '\n')
    case None => []
    case Some(i) => [s[..i]] + Lines(s[i + 1..])
  }

  /** Each line is free of newlines and NULs. */
  lemma {:induction false} LinesClean(s: string)
    ensures forall k :: 0 <= k < |Lines(s)| ==> '\n' !in Lines(s)[k] && '\0' !in Lines(s)[k]
    decreases |s|
  {
    FindBeforeNulFirst(s, '\n');
    match FindBeforeNul(s, '\n')
    case None =>
    case Some(i) =>
      LinesClean(s[i + 1..]);
      assert '\n' !in s[..i] && '\0' !in s[..i];
  }

  /** The lines applied in order, each to the record the previous one left. */
  function ApplyLines(lines: seq<string>, d: AgentData): (r: AgentData)
    ensures r.status == d.status && r.kind == d.kind && r.firstRun == d.firstRun
  {
    if lines == [] then d else ApplyLines(lines[1..], ApplyLine(lines[0], d))
  }

  /** Lines whose values all fit keep the record within its capacities. */
  lemma {:induction false} ApplyLinesFits(lines: seq<string>, d: AgentData)
    requires AllFit(lines) && Fits(d)
    ensures Fits(ApplyLines(lines, d))
    decreases |lines|
  {
    if lines != [] {
      assert LineFits(lines[0]);
      assert AllFit(lines[1..]) by {
        forall k | 0 <= k < |lines[1..]| ensures LineFits(lines[1..][k]) {
          assert lines[1..][k] == lines[k + 1];
        }
      }
      ApplyLineFrame(lines[0], d);
      ApplyLinesFits(lines[1..], ApplyLine(lines[0], d));
    }
  }

  /** The value the last line assigning `name` gives it, if any line does. */
  function LastAssigned(lines: seq<string>, name: string): Option<string>
  {
    if lines == [] then None
    else
      match Assign(lines[|lines| - 1])
      case Some(a) =>
        if a.name == name then Some(a.value) else LastAssigned(lines[..|lines| - 1], name)
      case None => LastAssigned(lines[..|lines| - 1], name)
  }

  lemma {:induction false} ApplyLinesAppend(a: seq<string>, b: seq<string>, d: AgentData)
    ensures ApplyLines(a + b, d) == ApplyLines(b, ApplyLines(a, d))
    decreases |a|
  {
    if a != [] {
      assert (a + b)[0] == a[0];
      assert (a + b)[1..] == a[1..] + b;
      var h := ApplyLine(a[0], d);
      assert ApplyLines(a + b, d) == ApplyLines(a[1..] + b, h);
      assert ApplyLines(a, d) == ApplyLines(a[1..], h);
      ApplyLinesAppend(a[1..], b, h);
    } else {
      assert a + b == b;
    }
  }

  /** Each field ends up with the value of the LAST line that assigns it:
      a later assignment overwrites an earlier one, and a field no line
      names keeps the value it had. */
  lemma LastAssignmentWins(lines: seq<string>, d: AgentData)
    ensures ApplyLines(lines, d).sock ==
      (match LastAssigned(lines, "SSH_AUTH_SOCK") case Some(v) => v case None => d.sock)
    ensures ApplyLines(lines, d).pid ==
      (match LastAssigned(lines, "SSH_AGENT_PID") case Some(v) => Atoi(v) case None => d.pid)
    ensures ApplyLines(lines, d).gpg ==
      (match LastAssigned(lines, "GPG_AGENT_INFO") case Some(v) => v case None => d.gpg)
  {
    LastWinsSock(lines, d);
    LastWinsPid(lines, d);
    LastWinsGpg(lines, d);
  }

  /** Peeling the last line off: the fold applies it last, and LastAssigned
      looks at it first. */
  lemma ApplyLinesSnoc(lines: seq<string>, d: AgentData)
    requires lines != []
    ensures ApplyLines(lines, d) ==
      ApplyLine(lines[|lines| - 1], ApplyLines(lines[..|lines| - 1], d))
  {
    var init, last := lines[..|lines| - 1], lines[|lines| - 1];
    assert lines == init + [last];
    ApplyLinesAppend(init, [last], d);
    assert [last][1..] == [];
  }

  lemma {:induction false} LastWinsSock(lines: seq<string>, d: AgentData)
    ensures ApplyLines(lines, d).sock ==
      (match LastAssigned(lines, "SSH_AUTH_SOCK") case Some(v) => v case None => d.sock)
    decreases |lines|
  {
    if lines != [] {
      var init, last := lines[..|lines| - 1], lines[|lines| - 1];
      ApplyLinesSnoc(lines, d);
      LastWinsSock(init, d);
    }
  }

  lemma {:induction false} LastWinsPid(lines: seq<string>, d: AgentData)
    ensures ApplyLines(lines, d).pid ==
      (match LastAssigned(lines, "SSH_AGENT_PID") case Some(v) => Atoi(v) case None => d.pid)
    decreases |lines|
  {
    if lines != [] {
      var init, last := lines[..|lines| - 1], lines[|lines| - 1];
      ApplyLinesSnoc(lines, d);
      LastWinsPid(init, d);
    }
  }

  lemma {:induction false} LastWinsGpg(lines: seq<string>, d: AgentData)
    ensures ApplyLines(lines, d).gpg ==
      (match LastAssigned(lines, "GPG_AGENT_INFO") case Some(v) => v case None => d.gpg)
    decreases |lines|
  {
    if lines != [] {
      var init, last := lines[..|lines| - 1], lines[|lines| - 1];
      ApplyLinesSnoc(lines, d);
      LastWinsGpg(init, d);
    }
  }

  /** What read(fd, b, count) returns from a pipe holding `pending`. */
  function ReadUpTo(pending: string, count: nat): (r: string)
    ensures |r| <= count && r <= pending
    ensures |r| < count ==> r == pending
  {
    if |pending| <= count then pending else pending[..count]
  }

  /** The outcome of the read system call on the pipe from the agent. */
  datatype PipeRead = ReadFails | Pending(text: string)

  /** Every line the parser will apply fits the record (see LineFits). */
  predicate OutputFits(input: PipeRead)
  {
    input.Pending? ==> AllFit(Lines(ReadUpTo(input.text, BUFSIZ - 1)))
  }

  /** The slot the code as written NUL-terminates: it asks read for
      sizeof(b) bytes and then stores at b[bytes_r]. */
  function TerminatorSlotAsWritten(pending: string): nat
  {
    |ReadUpTo(pending, BUFSIZ)|
  }

  /** An agent that prints BUFSIZ bytes or more makes the code as written
      store its NUL one past the end of the buffer. */
  lemma TerminatorOverrunsAsWritten()
    ensures TerminatorSlotAsWritten(seq(BUFSIZ, _ => 'x')) == BUFSIZ
  {
  }

  /** parse_agentdata: one read of at most BUFSIZ - 1 bytes into a buffer of
      BUFSIZ, NUL-terminated, then a walk over its complete lines, each cut
      out in place and handed to parse_agentdata_line. Returns -1 when the
      read fails and 0 otherwise. */
  method ParseAgentData(input: PipeRead, data: AgentData) returns (ret: int, out: AgentData)
    ensures ret == (if input.ReadFails? then -1 else 0)
    ensures input.ReadFails? ==> out == data
    ensures input.Pending? ==> out == ApplyLines(Lines(ReadUpTo(input.text, BUFSIZ - 1)), data)
  {
    if input.ReadFails? {
      return -1, data;
    }
    var chunk := ReadUpTo(input.text, BUFSIZ - 1);
    var n := |chunk|;
    if n == 0 {
      return 0, data;
    }
    var b := LoadBuffer(chunk);
    out := WalkLines(b, n, chunk, data);
    ret := 0;
  }

  /** The buffer after the read: the bytes read, then the NUL stored after them. */
  method LoadBuffer(chunk: string) returns (b: array<char>)
    requires |chunk| < BUFSIZ
    ensures fresh(b) && b.Length == BUFSIZ
    ensures b[..|chunk|] == chunk && b[|chunk|] == '\0'
  {
    b := new char[BUFSIZ];
    forall i | 0 <= i < |chunk| {
      b[i] := chunk[i];
    }
    b[|chunk|] := '\0';
  }

  /** The walk over the buffer: each complete line is cut out in place (its
      newline overwritten by a NUL) and applied to the record. */
  method WalkLines(b: array<char>, n: nat, ghost chunk: string, data: AgentData)
    returns (out: AgentData)
    requires n < b.Length && |chunk| == n
    requires forall k :: 0 <= k < n ==> b[k] == chunk[k]
    requires b[n] == '\0'
    modifies b
    ensures out == ApplyLines(Lines(chunk), data)
  {
    var l := 0;
    out := data;
    while l < n
      invariant 0 <= l <= n
      invariant forall k :: l <= k < n ==> b[k] == chunk[k]
      invariant b[n] == '\0'
      invariant ApplyLines(Lines(chunk), data) == ApplyLines(Lines(chunk[l..]), out)
      decreases n - l
    {
      var nl := FindNewline(b, l, chunk);
      if nl.None? {
        return;
      }
      var e := nl.value;
      var line := TakeLine(b, l, e, chunk);
      WalkStep(chunk, l, e, line, out);
      out := ApplyLine(line, out);
      l := e + 1;
    }
    assert chunk[l..] == [];
  }

  /** `*nl = '\0'`: the line from `l` to the newline at `e` becomes a string
      of its own; the buffer after the newline keeps its contents. */
  method TakeLine(b: array<char>, l: nat, e: nat, ghost chunk: string) returns (line: string)
    requires l <= e < |chunk| < b.Length && b[|chunk|] == '\0'
    requires forall k :: l <= k < |chunk| ==> b[k] == chunk[k]
    modifies b
    ensures line == chunk[l..e]
    ensures b[|chunk|] == '\0' && forall k :: e < k < |chunk| ==> b[k] == chunk[k]
  {
    line := b[l..e];
    assert line == chunk[l..e];
    b[e] := '\0';
  }

  /** One step of the walk: the next line runs from `l` to the newline at `e`. */
  lemma LinesStep(chunk: string, l: nat, e: nat)
    requires l <= e < |chunk| && FindBeforeNul(chunk[l..], '\n') == Some(e - l)
    ensures Lines(chunk[l..]) == [chunk[l..e]] + Lines(chunk[e + 1..])
  {
    var rest := chunk[l..];
    LinesAt(rest, e - l);
    assert rest[..e - l] == chunk[l..e];
    assert rest[e - l + 1..] == chunk[e + 1..];
  }

  lemma LinesAt(s: string, i: nat)
    requires FindBeforeNul(s, '\n') == Some(i)
    ensures Lines(s) == [s[..i]] + Lines(s[i + 1..])
  {
  }

  /** What the walk keeps true when it applies the line from `l` to `e`. */
  lemma WalkStep(chunk: string, l: nat, e: nat, line: string, d: AgentData)
    requires l <= e < |chunk| && FindBeforeNul(chunk[l..], '\n') == Some(e - l)
    requires line == chunk[l..e]
    ensures ApplyLines(Lines(chunk[l..]), d) ==
      ApplyLines(Lines(chunk[e + 1..]), ApplyLine(line, d))
  {
    LinesStep(chunk, l, e);
    assert ([chunk[l..e]] + Lines(chunk[e + 1..]))[1..] == Lines(chunk[e + 1..]);
  }

  /** strchr(l, '\n') on the buffer: the index of the next newline at or
      after `from`, unless a NUL comes first. The buffer holds `s` from
      `from` on, then a NUL. */
  method FindNewline(b: array<char>, from: nat, ghost s: string) returns (r: Option<nat>)
    requires from <= |s| < b.Length && b[|s|] == '\0'
    requires forall k :: from <= k < |s| ==> b[k] == s[k]
    ensures r.None? ==> FindBeforeNul(s[from..], '\n') == None
    ensures r.Some? ==> from <= r.value < |s| && FindBeforeNul(s[from..], '\n') == Some(r.value - from)
  {
    var j := from;
    while b[j] != '\n' && b[j] != '\0'
      invariant from <= j <= |s|
      invariant FindBeforeNul(s[from..], '\n') == (match FindBeforeNul(s[j..], '\n')
                                                  case None => None
                                                  case Some(i) => Some(j - from + i))
      decreases |s| - j
    {
      assert s[j..][1..] == s[j + 1..];
      j := j + 1;
    }
    if b[j] == '\n' {
      assert s[j..][0] == '\n';
      r := Some(j);
    } else {
      assert j < |s| ==> s[j..][0] == '\0';
      r := None;
    }
  }

  /** One line of an agent's announcement, in the sh syntax ssh-agent and
      gpg-agent print. */
  function ExportLine(name: string, value: string): string
  {
    name + "=" + value + "; export " + name + ";"
  }

  /** An export line assigns exactly its value to its name. */
  lemma ExportLineAssigns(name: string, value: string)
    requires '=' !in name && ';' !in name && ';' !in value
    ensures Assign(ExportLine(name, value)) == Some(Assignment(name, value))
  {
    var rest := value + [';'] + (" export " + name + ";");
    assert ExportLine(name, value) == name + "=" + rest;
    AssignAfterName(name, rest);
    CutAfter(value, " export " + name + ";");
  }

  /** The lines joined, each ended by a newline. */
  function Unlines(lines: seq<string>): string
  {
    if lines == [] then "" else lines[0] + "\n" + Unlines(lines[1..])
  }

  /** Reading back newline-terminated lines gives them again, and a trailing
      fragment with no newline contributes nothing. */
  lemma {:induction false} LinesOfUnlines(lines: seq<string>, fragment: string)
    requires forall k :: 0 <= k < |lines| ==> '\n' !in lines[k] && '\0' !in lines[k]
    requires '\n' !in fragment
    ensures Lines(Unlines(lines) + fragment) == lines
    decreases |lines|
  {
    var s := Unlines(lines) + fragment;
    if lines == [] {
      assert s == fragment;
    } else {
      var head, tail := lines[0], Unlines(lines[1..]) + fragment;
      assert s == head + "\n" + tail;
      assert s[|head|] == '\n';
      assert s[..|head|] == head;
      FindBeforeNulAt(head, '\n', tail);
      assert s[|head| + 1..] == tail;
      LinesOfUnlines(lines[1..], fragment);
    }
  }

  /** What ssh-agent prints on its standard output in sh syntax: the socket,
      the pid, and an echo of the pid. */
  function SshAgentOutput(sock: string, pid: int): string
  {
    Unlines(SshAgentLines(sock, FormatInt(pid)))
  }

  function SshAgentLines(sock: string, p: string): seq<string>
  {
    [ExportLine("SSH_AUTH_SOCK", sock), ExportLine("SSH_AGENT_PID", p), "echo Agent pid " + p + ";"]
  }

  /** The record envoyd builds from ssh-agent's announcement holds exactly
      the socket and the pid the agent announced; nothing else changes. */
  lemma SshAgentAnnouncementParsed(sock: string, pid: int, d: AgentData)
    requires ';' !in sock && '\n' !in sock && '\0' !in sock
    ensures ApplyLines(Lines(SshAgentOutput(sock, pid)), d) == d.(sock := sock, pid := pid)
  {
    var p := FormatInt(pid);
    FormatIntChars(pid);
    assert ';' !in p && '\n' !in p && '\0' !in p && '=' !in p;
    var lines := SshAgentLines(sock, p);
    SshAgentLinesClean(sock, p);
    LinesOfUnlines(lines, "");
    assert Unlines(lines) + "" == Unlines(lines);
    SshAgentLinesApplied(sock, p, d);
    AtoiFormatInt(pid);
  }

  lemma SshAgentLinesClean(sock: string, p: string)
    requires ';' !in sock && '\n' !in sock && '\0' !in sock
    requires ';' !in p && '\n' !in p && '\0' !in p && '=' !in p
    ensures forall k :: 0 <= k < |SshAgentLines(sock, p)| ==>
      '\n' !in SshAgentLines(sock, p)[k] && '\0' !in SshAgentLines(sock, p)[k]
  {
    SshNames();
    ExportLineClean("SSH_AUTH_SOCK", sock);
    ExportLineClean("SSH_AGENT_PID", p);
    EchoLine(p, ZeroData);
  }

  lemma SshAgentLinesApplied(sock: string, p: string, d: AgentData)
    requires ';' !in sock && '\n' !in sock && '\0' !in sock
    requires ';' !in p && '\n' !in p && '\0' !in p && '=' !in p
    ensures ApplyLines(SshAgentLines(sock, p), d) == d.(sock := sock, pid := Atoi(p))
  {
    var l0, l1, l2 := ExportLine("SSH_AUTH_SOCK", sock), ExportLine("SSH_AGENT_PID", p),
      "echo Agent pid " + p + ";";
    SshNames();
    ExportLineApplied("SSH_AUTH_SOCK", sock, d);
    ExportLineApplied("SSH_AGENT_PID", p, d.(sock := sock));
    EchoLine(p, d.(sock := sock, pid := Atoi(p)));
    ApplyThree(l0, l1, l2, d);
  }

  /** An export line sets the field its name stands for, or nothing when
      parse_agentdata_line does not know the name. */
  lemma ExportLineApplied(name: string, value: string, d: AgentData)
    requires '=' !in name && ';' !in name && ';' !in value
    ensures ApplyLine(ExportLine(name, value), d) ==
      if name == "SSH_AUTH_SOCK" then d.(sock := value)
      else if name == "SSH_AGENT_PID" then d.(pid := Atoi(value))
      else if name == "GPG_AGENT_INFO" then d.(gpg := value)
      else d
  {
    ExportLineAssigns(name, value);
  }

  /** The names ssh-agent exports are plain identifiers. */
  lemma SshNames()
    ensures '=' !in "SSH_AUTH_SOCK" && ';' !in "SSH_AUTH_SOCK"
    ensures '\n' !in "SSH_AUTH_SOCK" && '\0' !in "SSH_AUTH_SOCK"
    ensures '=' !in "SSH_AGENT_PID" && ';' !in "SSH_AGENT_PID"
    ensures '\n' !in "SSH_AGENT_PID" && '\0' !in "SSH_AGENT_PID"
  {
  }

  /** An export line holds a newline or a NUL only if its value does. */
  lemma ExportLineClean(name: string, value: string)
    requires '\n' !in name && '\0' !in name && '\n' !in value && '\0' !in value
    ensures '\n' !in ExportLine(name, value) && '\0' !in ExportLine(name, value)
  {
  }

  /** ssh-agent's closing `echo Agent pid N;` assigns nothing. */
  lemma EchoLine(p: string, d: AgentData)
    requires '=' !in p && ';' !in p && '\n' !in p && '\0' !in p
    ensures ApplyLine("echo Agent pid " + p + ";", d) == d
    ensures '\n' !in "echo Agent pid " + p + ";" && '\0' !in "echo Agent pid " + p + ";"
  {
    var prefix := "echo Agent pid ";
    assert '=' !in prefix && ';' !in prefix && '\n' !in prefix && '\0' !in prefix;
    var echo := prefix + p;
    assert forall k :: 0 <= k < |echo| ==> echo[k] == if k < |prefix| then prefix[k] else p[k - |prefix|];
    assert '=' !in echo && ';' !in echo;
    var line := echo + [';'] + [];
    assert line == "echo Agent pid " + p + ";";
    CutAfter(echo, []);
    ApplyLineFrame(line, d);
  }

  lemma ApplyThree(l0: string, l1: string, l2: string, d: AgentData)
    ensures ApplyLines([l0, l1, l2], d) == ApplyLine(l2, ApplyLine(l1, ApplyLine(l0, d)))
  {
    var d0 := ApplyLine(l0, d);
    var d1 := ApplyLine(l1, d0);
    assert [l0, l1, l2][1..] == [l1, l2];
    assert ApplyLines([l0, l1, l2], d) == ApplyLines([l1, l2], d0);
    assert [l1, l2][1..] == [l2];
    assert ApplyLines([l1, l2], d0) == ApplyLines([l2], d1);
    assert [l2][1..] == [];
    assert ApplyLines([l2], d1) == ApplyLines([], ApplyLine(l2, d1));
  }
}
