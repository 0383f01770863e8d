/** envoy: the client. It asks envoyd for the user's agent, optionally
    sources its environment (telling a gpg-agent which terminal to use),
    and then prints the environment, adds keys with ssh-add, signals the
    agent, or, invoked as `ssh`, runs the real ssh. The passwd entry,
    access(2), execv, the terminal and environment variables are answers
    of the host; the daemon's replies are given as readings. */
module Envoy {
  import opened CText
  import opened Agents
  import opened Process

  /** stdio's BUFSIZ on glibc: the size of the control-line buffer. */
  const BUFSIZ: nat := 8192

  const SIGHUP: int := 1
  const SIGTERM: int := 15

  const SSH_ADD := "/usr/bin/ssh-add"
  const SSH := "/usr/bin/ssh"

  /** The reasons envoy dies with err/errx. */
  datatype Fault =
    | NoPasswd          // no passwd entry or home directory for the user
    | LaunchFailed      // execv returned
    | ConnectFailed     // nothing listens at gpg-agent's control socket
    | ReadFailed        // reading gpg-agent's greeting failed
    | BadGreeting       // gpg-agent's greeting does not start with "OK"
    | WriteFailed       // the requested agent kind could not be sent
    | AgentFailed       // the daemon reports that the agent failed to start
    | Unauthorized      // the daemon rejected the user
    | NoData            // the daemon sent nothing
    | UnknownAgent      // -t named no known agent
    | ClearUnsupported  // -k with an agent other than gpg-agent
    | Usage             // an unknown option

  /** What envoy learns from the system it runs on. */
  datatype Client = Client(
    existing: set<string>,      // the paths access(.., F_OK) accepts
    home: Option<string>,       // pw_dir of the user's passwd entry
    runnable: set<string>,      // the paths execv succeeds on
    tty: Option<string>,        // ttyname(STDIN_FILENO)
    term: Option<string>,       // $TERM
    display: Option<string>)    // $DISPLAY

  // ----- get_key_path and add_keys -----

  /** get_key_path: a fragment naming an existing path is taken as it is;
      anything else is a key file in the user's ~/.ssh. */
  function KeyPath(c: Client, home: string, fragment: string): string
  {
    if fragment in c.existing then fragment else home + "/.ssh/" + fragment
  }

  /** The path always ends with the fragment; it is the fragment itself
      exactly when that exists, and otherwise home, "/.ssh/", fragment. */
  lemma KeyPathSpec(c: Client, home: string, fragment: string)
    ensures var path := KeyPath(c, home, fragment);
      |fragment| <= |path| && path[|path| - |fragment|..] == fragment &&
      (fragment in c.existing ==> path == fragment) &&
      (fragment !in c.existing ==>
        |path| == |home| + 6 + |fragment| && path[..|home|] == home && path[|home|..|home| + 6] == "/.ssh/")
  {
    if fragment !in c.existing {
      var path := home + "/.ssh/" + fragment;
      assert path[|path| - |fragment|..] == fragment;
      assert path[..|home|] == home;
      assert path[|home|..|home| + 6] == "/.ssh/";
    }
  }

  /** The key paths of the operands, in order. */
  function KeyPaths(c: Client, home: string, keys: seq<string>): (r: seq<string>)
    ensures |r| == |keys|
  {
    if keys == [] then [] else [KeyPath(c, home, keys[0])] + KeyPaths(c, home, keys[1..])
  }

  lemma {:induction false} KeyPathsAt(c: Client, home: string, keys: seq<string>)
    ensures forall i :: 0 <= i < |keys| ==> KeyPaths(c, home, keys)[i] == KeyPath(c, home, keys[i])
    decreases |keys|
  {
    if keys != [] {
      KeyPathsAt(c, home, keys[1..]);
    }
  }

  /** The argument vector add_keys hands to ssh-add. */
  function AddKeysArgv(c: Client, home: string, keys: seq<string>): seq<Option<string>>
  {
    [Some(SSH_ADD), Some("--")] + Wrapped(KeyPaths(c, home, keys)) + [None]
  }

  /** ssh-add runs as itself, with "--" ending its options, then one path
      per key in the order given, then the terminating NULL. */
  lemma AddKeysArgvShape(c: Client, home: string, keys: seq<string>)
    ensures |AddKeysArgv(c, home, keys)| == |keys| + 3
    ensures AddKeysArgv(c, home, keys)[0] == Some(SSH_ADD) && AddKeysArgv(c, home, keys)[1] == Some("--")
    ensures forall j :: 2 <= j < |keys| + 2 ==> AddKeysArgv(c, home, keys)[j] == Some(KeyPath(c, home, keys[j - 2]))
    ensures AddKeysArgv(c, home, keys)[|keys| + 2] == None
  {
    var w := Wrapped(KeyPaths(c, home, keys));
    var v := [Some(SSH_ADD), Some("--")] + w + [None];
    assert AddKeysArgv(c, home, keys) == v;
    KeyPathsAt(c, home, keys);
    WrappedAt(KeyPaths(c, home, keys));
    assert forall j :: 2 <= j < |keys| + 2 ==> v[j] == w[j - 2];
  }

  /** add_keys: the passwd lookup comes first; then ssh-add is executed. */
  function AddKeysLaunch(c: Client, keys: seq<string>): Result<Launch, Fault>
  {
    if c.home.None? then Err(NoPasswd)
    else if SSH_ADD in c.runnable then Ok(Launch(SSH_ADD, AddKeysArgv(c, c.home.value, keys)))
    else Err(LaunchFailed)
  }

  /** add_keys: fill `args` and execv it. */
  method AddKeys(c: Client, keys: seq<string>) returns (r: Result<Launch, Fault>)
    ensures r == AddKeysLaunch(c, keys)
  {
    if c.home.None? {
      return Err(NoPasswd);
    }
    var home := c.home.value;
    var args := new Option<string>[|keys| + 3];
    args[0] := Some(SSH_ADD);
    args[1] := Some("--");
    var i := 0;
    while i < |keys|
      invariant 0 <= i <= |keys|
      invariant args[0] == Some(SSH_ADD) && args[1] == Some("--")
      invariant forall j :: 2 <= j < 2 + i ==> args[j] == Some(KeyPath(c, home, keys[j - 2]))
    {
      args[2 + i] := Some(KeyPath(c, home, keys[i]));
      i := i + 1;
    }
    args[2 + |keys|] := None;
    AddKeysArgvShape(c, home, keys);
    assert args[..] == AddKeysArgv(c, home, keys);
    if SSH_ADD !in c.runnable {
      return Err(LaunchFailed);
    }
    r := Ok(Launch(args[0].value, args[..]));
  }

  // ----- exec_ssh -----

  /** The argument vector exec_ssh hands to ssh. With no arguments at all
      the terminating NULL overwrites the program name. */
  function SshArgv(argv: seq<string>): seq<Option<string>>
  {
    if argv == [] then [None] else [Some(SSH)] + Wrapped(argv[1..]) + [None]
  }

  /** ssh sees its own path as argv[0], then envoy's arguments after the
      first, then the terminating NULL: argc + 1 entries. */
  lemma SshArgvShape(argv: seq<string>)
    requires argv != []
    ensures |SshArgv(argv)| == |argv| + 1
    ensures SshArgv(argv)[0] == Some(SSH) && SshArgv(argv)[|argv|] == None
    ensures forall i :: 1 <= i < |argv| ==> SshArgv(argv)[i] == Some(argv[i])
  {
    var w := Wrapped(argv[1..]);
    var v := [Some(SSH)] + w + [None];
    assert SshArgv(argv) == v;
    WrappedAt(argv[1..]);
    assert forall i :: 1 <= i < |argv| ==> v[i] == w[i - 1];
  }

  /** exec_ssh: execv(args[0], args); a NULL path fails like a missing one. */
  function SshLaunch(c: Client, argv: seq<string>): Result<Launch, Fault>
  {
    if argv != [] && SSH in c.runnable then Ok(Launch(SSH, SshArgv(argv))) else Err(LaunchFailed)
  }

  /** exec_ssh: fill `args` from argv and execv it. */
  method ExecSsh(c: Client, argv: seq<string>) returns (r: Result<Launch, Fault>)
    ensures r == SshLaunch(c, argv)
  {
    var args := new Option<string>[|argv| + 1];
    args[0] := Some(SSH);
    var i := 0;
    while i < |argv| - 1
      invariant 0 <= i <= if argv == [] then 0 else |argv| - 1
      invariant args[0] == Some(SSH)
      invariant forall j :: 1 <= j <= i ==> args[j] == Some(argv[j])
    {
      args[1 + i] := Some(argv[1 + i]);
      i := i + 1;
    }
    args[|argv|] := None;
    if args[0].None? {
      return Err(LaunchFailed);
    }
    SshArgvShape(argv);
    assert args[..] == SshArgv(argv);
    if args[0].value !in c.runnable {
      return Err(LaunchFailed);
    }
    r := Ok(Launch(args[0].value, args[..]));
  }

  // ----- gpg_send_message -----

  /** What vsnprintf(buf, BUFSIZ - 1, ..) keeps of a line: at most
      BUFSIZ - 2 characters, the NUL taking the last place. */
  function Formatted(line: string): string
  {
    if |line| <= BUFSIZ - 2 then line else line[..BUFSIZ - 2]
  }

  /** The bytes one control line goes out as: what vsnprintf kept, then
      the newline in place of its NUL. */
  function Framed(line: string): string
  {
    Formatted(line) + "\n"
  }

  /** A line that fits is sent exactly, with one newline appended; the
      frame never outgrows the buffer and ends in its only added newline. */
  lemma FramedSpec(line: string)
    ensures var f := Framed(line);
      1 <= |f| <= BUFSIZ - 1 && f[|f| - 1] == '\n' && f[..|f| - 1] <= line &&
      (|line| <= BUFSIZ - 2 <==> f == line + "\n")
  {
    var f := Framed(line);
    assert f[..|f| - 1] == Formatted(line);
    if |line| > BUFSIZ - 2 {
      assert |f| < |line| + 1;
    }
  }

  /** gpg_send_message as written: the index of the newline is vsnprintf's
      return value, the length the whole line would have had. None stands
      for a store outside buf; a line one short of BUFSIZ keeps the NUL
      vsnprintf put in its last kept place. */
  function FrameAsWritten(line: string): Option<string>
  {
    var nbytes := |line|;
    if nbytes >= BUFSIZ then None
    else if nbytes == BUFSIZ - 1 then Some(line[..BUFSIZ - 2] + "\0\n")
    else Some(line + "\n")
  }

  /** A line of BUFSIZ characters (a long $DISPLAY or home directory is
      enough) makes the code as written store its newline past the end of
      buf, and one of BUFSIZ - 1 characters goes out with a NUL inside it,
      where the clamped frame is the cut line and one newline. */
  lemma FrameOverrunAsWritten()
    ensures FrameAsWritten(seq(BUFSIZ, _ => 'x')).None?
    ensures var line := seq(BUFSIZ - 1, _ => 'x');
      FrameAsWritten(line).Some? && '\0' in FrameAsWritten(line).value &&
      '\0' !in Framed(line) && Framed(line) == line[..BUFSIZ - 2] + "\n"
  {
    var line := seq(BUFSIZ - 1, _ => 'x');
    var w := FrameAsWritten(line).value;
    assert w[BUFSIZ - 2] == '\0';
    var f := Framed(line);
    assert forall k :: 0 <= k < |f| - 1 ==> f[k] == 'x';
  }

  /** The buffer as envoy left it before a read: the frame, then zeros. */
  function Padded(frame: string): (b: string)
    requires |frame| <= BUFSIZ
    ensures |b| == BUFSIZ
  {
    frame + seq(BUFSIZ - |frame|, _ => '\0')
  }

  /** The buffer after read(fd, buf, BUFSIZ) returned `reply`. */
  function AfterRead(reply: string, frame: string): (b: string)
    requires |reply| <= BUFSIZ && |frame| <= BUFSIZ
    ensures |b| == BUFSIZ
  {
    reply + Padded(frame)[|reply|..]
  }

  /** strncmp(buf, "OK\n", 3) == 0 on the buffer after the read. */
  predicate Acked(frame: string, reply: string)
    requires |reply| <= BUFSIZ && |frame| <= BUFSIZ
  {
    var b := AfterRead(reply, frame);
    b[0] == 'O' && b[1] == 'K' && b[2] == '\n'
  }

  /** For a frame whose third byte is not a newline (every control line
      envoy sends), the reply counts as an acknowledgement exactly when it
      starts with "OK\n": a shorter reply never does, whatever it says. */
  lemma AckedIffOk(frame: string, reply: string)
    requires |reply| <= BUFSIZ && 3 <= |frame| <= BUFSIZ && frame[2] != '\n'
    ensures Acked(frame, reply) <==> |reply| >= 3 && reply[..3] == "OK\n"
  {
    var b := AfterRead(reply, frame);
    if |reply| < 3 {
      assert b[2] == Padded(frame)[2] == frame[2];
    } else {
      assert b[..3] == reply[..3];
    }
  }

  /** What gpg_send_message returns: -1 when the write or the read fails,
      otherwise whether the reply acknowledged the line. */
  function SendStatus(writable: bool, reply: Option<string>, frame: string): int
    requires reply.Some? ==> |reply.value| <= BUFSIZ
    requires |frame| <= BUFSIZ
  {
    if !writable || reply.None? then -1
    else if Acked(frame, reply.value) then 1
    else 0
  }

  /** What the next read returns: the next answer, or nothing at the end
      of the stream. */
  function Next(replies: seq<Option<string>>): Option<string>
  {
    if replies == [] then Some([]) else replies[0]
  }

  /** The answers left after `n` reads. */
  function Drop(replies: seq<Option<string>>, n: nat): seq<Option<string>>
  {
    if n >= |replies| then [] else replies[n..]
  }

  /** The frames of several control lines, in order. */
  function Frames(lines: seq<string>): (r: seq<string>)
    ensures |r| == |lines|
  {
    if lines == [] then [] else [Framed(lines[0])] + Frames(lines[1..])
  }

  lemma {:induction false} FramesAppend(a: seq<string>, b: seq<string>)
    ensures Frames(a + b) == Frames(a) + Frames(b)
    decreases |a|
  {
    if a == [] {
      assert a + b == b;
    } else {
      assert (a + b)[1..] == a[1..] + b;
      FramesAppend(a[1..], b);
    }
  }

  /** What a socket records after `lines` were sent: their frames when
      writes reach the agent, nothing otherwise. */
  function Wrote(writable: bool, lines: seq<string>): seq<string>
  {
    if writable then Frames(lines) else []
  }

  /** The answers left after `lines` were sent: one read per line that
      was written. */
  function Left(writable: bool, replies: seq<Option<string>>, lines: seq<string>): seq<Option<string>>
  {
    if writable then Drop(replies, |lines|) else replies
  }

  /** Sending `a` and then `b` is sending `a + b`. */
  lemma Chain(writable: bool, w0: seq<string>, r0: seq<Option<string>>, a: seq<string>, b: seq<string>)
    ensures w0 + Wrote(writable, a) + Wrote(writable, b) == w0 + Wrote(writable, a + b)
    ensures Left(writable, Left(writable, r0, a), b) == Left(writable, r0, a + b)
  {
    WroteChain(writable, w0, a, b);
    if writable {
      DropDrop(r0, |a|, |b|);
    }
  }

  lemma WroteChain(writable: bool, w0: seq<string>, a: seq<string>, b: seq<string>)
    ensures w0 + Wrote(writable, a) + Wrote(writable, b) == w0 + Wrote(writable, a + b)
  {
    if writable {
      FramesAppend(a, b);
      assert w0 + Frames(a) + Frames(b) == w0 + (Frames(a) + Frames(b));
    } else {
      assert w0 + [] + [] == w0;
    }
  }


  lemma DropDrop(rs: seq<Option<string>>, m: nat, n: nat)
    ensures Drop(Drop(rs, m), n) == Drop(rs, m + n)
  {
    if m < |rs| && n < |rs| - m {
      assert rs[m..][n..] == rs[m + n..];
    }
  }

  // ----- gpg_send_messages -----

  /** "OPTION name=value" when the value is there, nothing otherwise. */
  function OptionLine(name: string, value: Option<string>): seq<string>
  {
    if value.Some? then ["OPTION " + name + "=" + value.value] else []
  }

  /** The control lines gpg_send_messages sends, in order, for the
      terminal, $TERM, $DISPLAY and the home directory the client has.
      Without a passwd entry it dies before the $DISPLAY lines. */
  function ControlLines(c: Client): seq<string>
  {
    ["RESET"] + OptionLine("ttyname", c.tty) + OptionLine("ttytype", c.term) + DisplayLines(c)
  }

  /** The lines from the $DISPLAY test on. */
  function DisplayLines(c: Client): seq<string>
  {
    if c.display.None? then ["UPDATESTARTUPTTY"]
    else if c.home.None? then []
    else
      var xauthority := Some(c.home.value + "/.Xauthority");
      OptionLine("display", c.display) + OptionLine("xauthority", xauthority) + ["UPDATESTARTUPTTY"]
  }

  /** Whether gpg_send_messages runs to its end. */
  predicate ControlCompletes(c: Client)
  {
    c.display.None? || c.home.Some?
  }

  /** The session begins with RESET and, exactly when it completes, ends
      with UPDATESTARTUPTTY, with one line per option present between. */
  lemma ControlLinesEnds(c: Client)
    ensures var ls := ControlLines(c);
      |ls| == 1 + |OptionLine("ttyname", c.tty)| + |OptionLine("ttytype", c.term)| +
        (if c.display.Some? && c.home.Some? then 2 else 0) + (if ControlCompletes(c) then 1 else 0) &&
      ls[0] == "RESET" &&
      (ControlCompletes(c) ==> ls[|ls| - 1] == "UPDATESTARTUPTTY")
  {
    var a, b, e := OptionLine("ttyname", c.tty), OptionLine("ttytype", c.term), DisplayLines(c);
    assert ControlLines(c) == ["RESET"] + a + b + e;
  }

  /** The terminal options come right after RESET: ttyname when there is a
      terminal, then ttytype when $TERM is set. */
  lemma ControlLinesTerminal(c: Client)
    ensures var ls, t := ControlLines(c), |OptionLine("ttyname", c.tty)|;
      (c.tty.Some? ==> |ls| > 1 && ls[1] == "OPTION ttyname=" + c.tty.value) &&
      (c.term.Some? ==> |ls| > 1 + t && ls[1 + t] == "OPTION ttytype=" + c.term.value)
  {
    var a, b, e := OptionLine("ttyname", c.tty), OptionLine("ttytype", c.term), DisplayLines(c);
    var ls := ["RESET"] + a + b + e;
    assert ControlLines(c) == ls;
    assert forall k :: 0 <= k < |b| ==> ls[1 + |a| + k] == b[k];
  }

  /** With $DISPLAY set and a home directory, the display option and then
      the xauthority option follow the terminal options. */
  lemma ControlLinesDisplay(c: Client)
    requires c.display.Some? && c.home.Some?
    ensures var ls, n := ControlLines(c), 1 + |OptionLine("ttyname", c.tty)| + |OptionLine("ttytype", c.term)|;
      |ls| > n + 1 &&
      ls[n] == "OPTION display=" + c.display.value &&
      ls[n + 1] == "OPTION xauthority=" + c.home.value + "/.Xauthority"
  {
    var a, b, e := OptionLine("ttyname", c.tty), OptionLine("ttytype", c.term), DisplayLines(c);
    var ls := ["RESET"] + a + b + e;
    assert ControlLines(c) == ls;
    assert forall k :: 0 <= k < |e| ==> ls[1 + |a| + |b| + k] == e[k];
  }

  /** A line whose frame cannot be mistaken for a bare newline: it is long
      enough and its third character is not the one Framed may replace. */
  predicate FramesWhole(ls: seq<string>)
  {
    forall l :: l in ls ==> |l| >= 5 && l[2] != '\n'
  }

  lemma OptionLineWhole(name: string, value: Option<string>)
    ensures FramesWhole(OptionLine(name, value))
  {
    if value.Some? {
      var l := "OPTION " + name + "=" + value.value;
      assert l[2] == 'T';
    }
  }

  lemma WholeAppend(a: seq<string>, b: seq<string>)
    requires FramesWhole(a) && FramesWhole(b)
    ensures FramesWhole(a + b)
  {
  }

  lemma StartupWhole()
    ensures FramesWhole(["UPDATESTARTUPTTY"])
  {
    var l := "UPDATESTARTUPTTY";
    assert |l| == 16 && l[2] == 'D';
  }

  lemma DisplayLinesWhole(c: Client)
    ensures FramesWhole(DisplayLines(c))
  {
    StartupWhole();
    if c.display.Some? && c.home.Some? {
      var x := OptionLine("display", c.display);
      var y := OptionLine("xauthority", Some(c.home.value + "/.Xauthority"));
      var z: seq<string> := ["UPDATESTARTUPTTY"];
      OptionLineWhole("display", c.display);
      OptionLineWhole("xauthority", Some(c.home.value + "/.Xauthority"));
      WholeAppend(x, y);
      WholeAppend(x + y, z);
    }
  }



  lemma ControlLinesWhole(c: Client)
    ensures FramesWhole(ControlLines(c))
  {
    var a, b, e := OptionLine("ttyname", c.tty), OptionLine("ttytype", c.term), DisplayLines(c);
    OptionLineWhole("ttyname", c.tty);
    OptionLineWhole("ttytype", c.term);
    DisplayLinesWhole(c);
    WholeAppend(["RESET"], a);
    WholeAppend(["RESET"] + a, b);
    WholeAppend(["RESET"] + a + b, e);
  }

  /** Every control line's frame has a letter as its third byte, so each
      reply counts as an acknowledgement exactly when it starts "OK\n". */
  lemma ControlLinesAcked(c: Client, reply: string)
    requires |reply| <= BUFSIZ
    ensures forall k :: 0 <= k < |ControlLines(c)| ==>
      (Acked(Framed(ControlLines(c)[k]), reply) <==> |reply| >= 3 && reply[..3] == "OK\n")
  {
    ControlLinesWhole(c);
    forall k | 0 <= k < |ControlLines(c)|
      ensures Acked(Framed(ControlLines(c)[k]), reply) <==> |reply| >= 3 && reply[..3] == "OK\n"
    {
      var line := ControlLines(c)[k];
      assert line in ControlLines(c);
      FramedSpec(line);
      assert Framed(line)[2] == Formatted(line)[2] == line[2];
      AckedIffOk(Framed(line), reply);
    }
  }

  // ----- gpg_update_tty -----

  /** The control socket named by a GPG_AGENT_INFO string: the text before
      its first ':'. */
  function ControlPath(info: string): string
  {
    info[..FieldEnd(info, ':')]
  }

  /** The path is exactly the prefix of the info string up to, and not
      including, its first ':'. */
  lemma ControlPathSpec(info: string)
    requires ':' in info
    ensures ':' !in ControlPath(info) && ControlPath(info) + ":" <= info
  {
    FieldEndSpec(info, ':');
    var e := FieldEnd(info, ':');
    var w :| 0 <= w < |info| && info[w] == ':';
    assert e <= w;
    assert ControlPath(info) + ":" == info[..e + 1];
  }

  /** strncmp(buf, "OK", 2) == 0 on a fresh buffer after the greeting. */
  predicate Greeted(greeting: string)
    requires |greeting| <= BUFSIZ
  {
    var b := AfterRead(greeting, []);
    b[0] == 'O' && b[1] == 'K'
  }

  /** The greeting is accepted exactly when it starts with "OK". */
  lemma GreetedIffOk(greeting: string)
    requires |greeting| <= BUFSIZ
    ensures Greeted(greeting) <==> |greeting| >= 2 && greeting[..2] == "OK"
  {
    var b := AfterRead(greeting, []);
    if |greeting| >= 2 {
      assert b[..2] == greeting[..2];
    } else {
      assert b[1] == '\0';
    }
  }

  /** The vsnprintf into a zeroed buf and the newline stored after it. */
  method FillFrame(buf: array<char>, line: string) returns (n: nat)
    requires buf.Length == BUFSIZ && forall k :: 0 <= k < BUFSIZ ==> buf[k] == '\0'
    modifies buf
    ensures buf[..] == Padded(Framed(line)) && n == |Framed(line)|
  {
    n := if |line| <= BUFSIZ - 2 then |line| else BUFSIZ - 2;
    var i := 0;
    while i < n
      invariant 0 <= i <= n
      invariant forall k :: 0 <= k < i ==> buf[k] == line[k]
      invariant forall k :: i <= k < BUFSIZ ==> buf[k] == '\0'
    {
      buf[i] := line[i];
      i := i + 1;
    }
    buf[n] := '\n';
    n := n + 1;
    FramedSpec(line);
  }

  /** read(fd, buf, BUFSIZ) returning `reply`: the reply overwrites the start
      of buf and the rest stays as it was. */
  method ReadInto(buf: array<char>, reply: string)
    requires buf.Length == BUFSIZ && |reply| <= BUFSIZ
    modifies buf
    ensures buf[..] == reply + old(buf[..])[|reply|..]
  {
    var j := 0;
    while j < |reply|
      invariant 0 <= j <= |reply|
      invariant forall k :: 0 <= k < j ==> buf[k] == reply[k]
      invariant forall k :: j <= k < BUFSIZ ==> buf[k] == old(buf[k])
    {
      buf[j] := reply[j];
      j := j + 1;
    }
  }

  /** A gpg-agent's control socket, seen through envoy's connection to it:
      where the agent listens, whether writes reach it, the answer each
      coming read returns (None: the read fails), and what envoy wrote. */
  class AgentSocket {
    const path: string
    const writable: bool
    var replies: seq<Option<string>>
    var written: seq<string>

    /** One read returns at most BUFSIZ bytes. */
    predicate Valid()
      reads this
    {
      forall k :: 0 <= k < |replies| && replies[k].Some? ==> |replies[k].value| <= BUFSIZ
    }

    constructor(path: string, writable: bool, replies: seq<Option<string>>)
      requires forall k :: 0 <= k < |replies| && replies[k].Some? ==> |replies[k].value| <= BUFSIZ
      ensures Valid()
      ensures this.path == path && this.writable == writable && this.replies == replies && written == []
    {
      this.path := path;
      this.writable := writable;
      this.replies := replies;
      written := [];
    }

    /** read(fd, .., BUFSIZ): the next answer. */
    method Read() returns (reply: Option<string>)
      requires Valid()
      modifies this
      ensures Valid()
      ensures reply == Next(old(replies)) && replies == Drop(old(replies), 1)
      ensures reply.Some? ==> |reply.value| <= BUFSIZ
      ensures written == old(written)
    {
      if replies == [] {
        return Some([]);
      }
      reply := replies[0];
      replies := replies[1..];
    }

    /** gpg_send_message with the newline clamped into the buffer: format
        the line into buf, append the newline, write, read the reply over
        the same buffer and compare its start with "OK\n". */
    method SendMessage(line: string) returns (status: int)
      requires Valid()
      modifies this
      ensures Valid()
      ensures written == old(written) + Wrote(writable, [line])
      ensures replies == Left(writable, old(replies), [line])
      ensures status == SendStatus(writable, Next(old(replies)), Framed(line))
    {
      var buf := new char[BUFSIZ](_ => '\0');
      var n := FillFrame(buf, line);
      if !writable {
        return -1;
      }
      assert Frames([line]) == [Framed(line)];
      written := written + [buf[..n]];
      var reply := Read();
      if reply.None? {
        return -1;
      }
      ReadInto(buf, reply.value);
      status := if buf[0] == 'O' && buf[1] == 'K' && buf[2] == '\n' then 1 else 0;
    }

    /** One gpg_send_message whose status is ignored. */
    method Send(line: string)
      requires Valid()
      modifies this
      ensures Valid()
      ensures written == old(written) + Wrote(writable, [line])
      ensures replies == Left(writable, old(replies), [line])
    {
      var status := SendMessage(line);
    }

    /** `if (value) gpg_send_message(fd, "OPTION name=%s", value)`. */
    method SendOption(name: string, value: Option<string>)
      requires Valid()
      modifies this
      ensures Valid()
      ensures written == old(written) + Wrote(writable, OptionLine(name, value))
      ensures replies == Left(writable, old(replies), OptionLine(name, value))
    {
      if value.Some? {
        Send("OPTION " + name + "=" + value.value);
      }
    }

    /** gpg_send_messages: send the control lines in order, ignoring each
        status; a $DISPLAY without a passwd entry ends it with an error. */
    method SendMessages(c: Client) returns (r: Result<(), Fault>)
      requires Valid()
      modifies this
      ensures Valid()
      ensures written == old(written) + Wrote(writable, ControlLines(c))
      ensures replies == Left(writable, old(replies), ControlLines(c))
      ensures r.Err? <==> !ControlCompletes(c)
      ensures r.Err? ==> r.fault == NoPasswd
    {
      ghost var w0, r0 := written, replies;
      Send("RESET");
      ghost var sent := ["RESET"];
      SendOption("ttyname", c.tty);
      Chain(writable, w0, r0, sent, OptionLine("ttyname", c.tty));
      sent := sent + OptionLine("ttyname", c.tty);
      SendOption("ttytype", c.term);
      Chain(writable, w0, r0, sent, OptionLine("ttytype", c.term));
      sent := sent + OptionLine("ttytype", c.term);
      if c.display.Some? {
        if c.home.None? {
          assert sent == ControlLines(c);
          return Err(NoPasswd);
        }
        SendOption("display", c.display);
        Chain(writable, w0, r0, sent, OptionLine("display", c.display));
        sent := sent + OptionLine("display", c.display);
        SendOption("xauthority", Some(c.home.value + "/.Xauthority"));
        Chain(writable, w0, r0, sent, OptionLine("xauthority", Some(c.home.value + "/.Xauthority")));
        sent := sent + OptionLine("xauthority", Some(c.home.value + "/.Xauthority"));
      }
      Send("UPDATESTARTUPTTY");
      Chain(writable, w0, r0, sent, ["UPDATESTARTUPTTY"]);
      sent := sent + ["UPDATESTARTUPTTY"];
      assert sent == ControlLines(c);
      r := Ok(());
    }

    /** gpg_update_tty: connect to the control socket named by the info
        string, read the greeting, insist that it starts with "OK", then
        send the control lines. */
    method UpdateTty(c: Client, info: string) returns (r: Result<(), Fault>)
      requires Valid() && ':' in info
      modifies this
      ensures Valid()
      ensures ControlPath(info) != path ==>
        r == Err(ConnectFailed) && written == old(written) && replies == old(replies)
      ensures ControlPath(info) == path && Next(old(replies)).None? ==>
        r == Err(ReadFailed) && written == old(written)
      ensures ControlPath(info) == path && Next(old(replies)).Some? && !Greeted(Next(old(replies)).value) ==>
        r == Err(BadGreeting) && written == old(written)
      ensures ControlPath(info) == path && Next(old(replies)).Some? && Greeted(Next(old(replies)).value) ==>
        written == old(written) + Wrote(writable, ControlLines(c)) &&
        replies == Left(writable, Drop(old(replies), 1), ControlLines(c)) &&
        (r.Ok? <==> ControlCompletes(c))
    {
      var split := FieldEnd(info, ':');
      if info[..split] != path {
        return Err(ConnectFailed);
      }
      var buf := new char[BUFSIZ](_ => '\0');
      var greeting := Read();
      if greeting.None? {
        return Err(ReadFailed);
      }
      var g := greeting.value;
      var j := 0;
      while j < |g|
        modifies buf
        invariant 0 <= j <= |g|
        invariant forall k :: 0 <= k < j ==> buf[k] == g[k]
        invariant forall k :: j <= k < BUFSIZ ==> buf[k] == '\0'
      {
        buf[j] := g[j];
        j := j + 1;
      }
      assert buf[..] == AfterRead(g, []);
      if !(buf[0] == 'O' && buf[1] == 'K') {
        return Err(BadGreeting);
      }
      r := SendMessages(c);
    }
  }

  // ----- print_env -----

  /** One line of print_env: export NAME='VALUE'. */
  function Export(name: string, value: string): string
  {
    "export " + name + "='" + value + "'\n"
  }

  /** The assignments print_env makes, in order: GPG_AGENT_INFO for a
      gpg-agent only, then SSH_AUTH_SOCK and SSH_AGENT_PID always. */
  function EnvAssignments(d: AgentData): seq<(string, string)>
  {
    (if d.kind == GpgAgent then [("GPG_AGENT_INFO", d.gpg)] else [])
    + [("SSH_AUTH_SOCK", d.sock), ("SSH_AGENT_PID", FormatInt(d.pid))]
  }

  /** Assignments printed one line each. */
  function Exports(pairs: seq<(string, string)>): (r: seq<string>)
    ensures |r| == |pairs|
  {
    if pairs == [] then [] else [Export(pairs[0].0, pairs[0].1)] + Exports(pairs[1..])
  }

  /** print_env's output. */
  function EnvExports(d: AgentData): seq<string>
  {
    Exports(EnvAssignments(d))
  }

  /** How a shell reads one such line back: the name up to the first '=',
      then the value between single quotes. */
  function ParseExport(line: string): Option<(string, string)>
  {
    if |line| < 7 || line[..7] != "export " then None
    else
      var rest := line[7..];
      var e := FieldEnd(rest, '=');
      if e + 1 >= |rest| || rest[e + 1] != '\'' then None
      else
        var v := rest[e + 2..];
        var q := FieldEnd(v, '\'');
        if v[q..] != "'\n" then None else Some((rest[..e], v[..q]))
  }

  /** A line reads back as the name and value it was printed from, as long
      as the name has no '=' and the value no single quote. */
  lemma ParseExportRoundTrip(name: string, value: string)
    requires '=' !in name && '\'' !in value
    ensures ParseExport(Export(name, value)) == Some((name, value))
  {
    var line := Export(name, value);
    assert line[..7] == "export ";
    var rest := line[7..];
    var tail := "'" + value + "'\n";
    assert rest == name + ['='] + tail;
    FieldEndAfter(name, '=', tail);
    assert rest[|name| + 1] == '\'';
    var v := rest[|name| + 2..];
    assert v == value + ['\''] + "\n";
    FieldEndAfter(value, '\'', "\n");
    assert v[|value|..] == "'\n";
    assert rest[..|name|] == name;
    assert v[..|value|] == value;
  }

  lemma NamesPlain()
    ensures '=' !in "GPG_AGENT_INFO" && '=' !in "SSH_AUTH_SOCK" && '=' !in "SSH_AGENT_PID"
  {
  }

  /** Names without '=' and values without a single quote. */
  predicate Plain(pairs: seq<(string, string)>)
  {
    forall k :: 0 <= k < |pairs| ==> '=' !in pairs[k].0 && '\'' !in pairs[k].1
  }

  /** Each printed line reads back as the assignment it came from. */
  lemma {:induction false} ExportsReadBack(pairs: seq<(string, string)>)
    requires Plain(pairs)
    ensures forall k :: 0 <= k < |pairs| ==> ParseExport(Exports(pairs)[k]) == Some(pairs[k])
    decreases |pairs|
  {
    if pairs != [] {
      ParseExportRoundTrip(pairs[0].0, pairs[0].1);
      ExportsReadBack(pairs[1..]);
    }
  }

  /** A shell evaluating print_env's output gets GPG_AGENT_INFO only for a
      gpg-agent, then the socket and the pid, and the pid reads back as the
      number the daemon reported; this holds while no path holds a quote. */
  lemma PrintEnvReadBack(d: AgentData)
    requires '\'' !in d.sock && '\'' !in d.gpg
    ensures var pairs := EnvAssignments(d);
      |EnvExports(d)| == |pairs| == (if d.kind == GpgAgent then 3 else 2) &&
      (forall k :: 0 <= k < |pairs| ==> ParseExport(EnvExports(d)[k]) == Some(pairs[k])) &&
      (d.kind == GpgAgent <==> pairs[0] == ("GPG_AGENT_INFO", d.gpg)) &&
      pairs[|pairs| - 2] == ("SSH_AUTH_SOCK", d.sock) &&
      pairs[|pairs| - 1].0 == "SSH_AGENT_PID" && Atoi(pairs[|pairs| - 1].1) == d.pid
  {
    NamesPlain();
    PidPlain(d.pid);
    ExportsReadBack(EnvAssignments(d));
    AtoiFormatInt(d.pid);
  }

  /** `%d` never prints a quote. */
  lemma PidPlain(pid: int)
    ensures '\'' !in FormatInt(pid)
  {
    FormatIntChars(pid);
    forall k | 0 <= k < |FormatInt(pid)|
      ensures FormatInt(pid)[k] != '\''
    {
    }
  }

  // ----- get_agent -----

  /** One read_agent: what read returned (-1 for an error) and the record
      as it stands after the read. */
  datatype Reading = Reading(count: int, data: AgentData)

  /** What the daemon's connection yields to get_agent: the first reading,
      whether writing the requested kind succeeds, and the reading that
      follows that write. */
  datatype Exchange = Exchange(first: Reading, writeOk: bool, second: Reading)

  /** What get_agent leaves behind: the count it returns, the record in
      `data`, and the agent kind it wrote to the daemon, if it wrote one. */
  datatype Fetched = Fetched(count: int, data: AgentData, requested: Option<AgentKind>)

  /** get_agent's switch on the status of the first record: a stopped
      agent is asked for by the kind `id` and the record read again; a
      started or running one is taken as it is; a failed or refused one is
      fatal. The count returned is the first read's, and the second record
      is not inspected. */
  function GetAgent(x: Exchange, id: AgentKind): (r: Result<Fetched, Fault>)
    ensures r.Ok? <==> (x.first.data.status == Started || x.first.data.status == Running ||
      (x.first.data.status == Stopped && x.writeOk))
    ensures x.first.data.status == Failed ==> r == Err(AgentFailed)
    ensures x.first.data.status == BadUser ==> r == Err(Unauthorized)
    ensures x.first.data.status == Stopped && !x.writeOk ==> r == Err(WriteFailed)
    ensures r.Ok? ==> (r.value.count == x.first.count &&
      (r.value.requested.Some? <==> x.first.data.status == Stopped) &&
      (r.value.requested.Some? ==> r.value.requested.value == id) &&
      r.value.data == if x.first.data.status == Stopped then x.second.data else x.first.data)
  {
    var first := x.first;
    match first.data.status
    case Stopped => if x.writeOk then Ok(Fetched(first.count, x.second.data, Some(id))) else Err(WriteFailed)
    case Started => Ok(Fetched(first.count, first.data, None))
    case Running => Ok(Fetched(first.count, first.data, None))
    case Failed => Err(AgentFailed)
    case BadUser => Err(Unauthorized)
  }

  // ----- main -----

  /** enum action. */
  datatype Action = PrintAction | AddAction | ForceAddAction | ClearAction | KillAction | ListAction

  /** What getopt_long hands main, one option at a time; `-t` carries the
      agent find_agent named, None when it named none. */
  datatype Opt =
    | HelpOpt | VersionOpt | AddOpt | ClearOpt | KillOpt | ListOpt | PrintOpt
    | AgentOpt(kind: Option<AgentKind>)
    | BadOpt

  /** The variables main's option loop updates. */
  datatype Settings = Settings(verb: Action, source: bool, kind: AgentKind)

  /** How the option loop ends: go on with the settings, or exit after
      printing the usage or the version. */
  datatype Parsed = Proceed(settings: Settings) | ShowUsage | ShowVersion

  /** One turn of the option switch. */
  function ApplyOption(s: Settings, o: Opt): Result<Parsed, Fault>
  {
    match o
    case HelpOpt => Ok(ShowUsage)
    case VersionOpt => Ok(ShowVersion)
    case AddOpt => Ok(Proceed(s.(verb := ForceAddAction)))
    case ClearOpt => Ok(Proceed(s.(verb := ClearAction, source := false)))
    case KillOpt => Ok(Proceed(s.(verb := KillAction, source := false)))
    case ListOpt => Ok(Proceed(s.(verb := ListAction)))
    case PrintOpt => Ok(Proceed(s.(verb := PrintAction)))
    case AgentOpt(k) => if k.None? then Err(UnknownAgent) else Ok(Proceed(s.(kind := k.value)))
    case BadOpt => Err(Usage)
  }

  /** The whole option loop: each option in turn until one ends it. */
  function ParseOptions(opts: seq<Opt>, s: Settings): Result<Parsed, Fault>
  {
    if opts == [] then Ok(Proceed(s))
    else
      match ApplyOption(s, opts[0])
      case Ok(Proceed(next)) => ParseOptions(opts[1..], next)
      case other => other
  }

  /** The options that pick the action. */
  predicate IsAction(o: Opt)
  {
    o == AddOpt || o == ClearOpt || o == KillOpt || o == ListOpt || o == PrintOpt
  }

  function ActionOf(o: Opt): Action
    requires IsAction(o)
  {
    match o
    case AddOpt => ForceAddAction
    case ClearOpt => ClearAction
    case KillOpt => KillAction
    case ListOpt => ListAction
    case PrintOpt => PrintAction
  }

  /** When the loop runs through: the last action option decides the
      action (the default when there is none), and the environment is
      sourced unless some -k or -K was given. */
  lemma {:induction false} ParseOptionsSpec(opts: seq<Opt>, s: Settings)
    ensures ParseOptions(opts, s).Ok? && ParseOptions(opts, s).value.Proceed? ==>
      var t := ParseOptions(opts, s).value.settings;
      (t.source <==> s.source && forall k :: 0 <= k < |opts| ==> opts[k] != ClearOpt && opts[k] != KillOpt) &&
      ((forall k :: 0 <= k < |opts| ==> !IsAction(opts[k])) ==> t.verb == s.verb) &&
      (forall k :: 0 <= k < |opts| && IsAction(opts[k]) && (forall j :: k < j < |opts| ==> !IsAction(opts[j])) ==>
        t.verb == ActionOf(opts[k]))
    decreases |opts|
  {
    if opts != [] && ApplyOption(s, opts[0]).Ok? && ApplyOption(s, opts[0]).value.Proceed? {
      var next := ApplyOption(s, opts[0]).value.settings;
      ParseOptionsSpec(opts[1..], next);
      assert forall k :: 1 <= k < |opts| ==> opts[k] == opts[1..][k - 1];
    }
  }

  /** main's option loop, over the options getopt_long returns. */
  method ReadOptions(opts: seq<Opt>, defaultKind: AgentKind) returns (r: Result<Parsed, Fault>)
    ensures r == ParseOptions(opts, Settings(AddAction, true, defaultKind))
  {
    var verb, source, kind := AddAction, true, defaultKind;
    var i := 0;
    while i < |opts|
      invariant 0 <= i <= |opts|
      invariant ParseOptions(opts, Settings(AddAction, true, defaultKind)) ==
        ParseOptions(opts[i..], Settings(verb, source, kind))
    {
      assert opts[i..][1..] == opts[i + 1..];
      match opts[i] {
        case HelpOpt => return Ok(ShowUsage);
        case VersionOpt => return Ok(ShowVersion);
        case AddOpt => verb := ForceAddAction;
        case ClearOpt => verb, source := ClearAction, false;
        case KillOpt => verb, source := KillAction, false;
        case ListOpt => verb := ListAction;
        case PrintOpt => verb := PrintAction;
        case AgentOpt(k) =>
          if k.None? {
            return Err(UnknownAgent);
          }
          kind := k.value;
        case BadOpt => return Err(Usage);
      }
      i := i + 1;
    }
    r := Ok(Proceed(Settings(verb, source, kind)));
  }

  /** What envoy does after it has the record, in order; each step may end
      the process (an exec, or a failure inside it). */
  datatype Step =
    | Request(kind: AgentKind)        // get_agent's write of the kind to start
    | UpdateTty(info: string)         // gpg_update_tty on the info string
    | SetSock(sock: string)           // setenv("SSH_AUTH_SOCK", ..)
    | Print(lines: seq<string>)       // print_env
    | Exec(launch: Launch)            // an execv that replaced envoy
    | Signal(pid: int, signal: int)   // kill(2)
    | Fail(fault: Fault)              // err or errx

  /** source_env. */
  function SourceEnv(d: AgentData): seq<Step>
  {
    (if d.kind == GpgAgent then [UpdateTty(d.gpg)] else []) + [SetSock(d.sock)]
  }

  function Launched(r: Result<Launch, Fault>): Step
  {
    match r
    case Ok(l) => Exec(l)
    case Err(f) => Fail(f)
  }

  /** execl("/usr/bin/ssh-add", "ssh-add", "-l", NULL). */
  function ListLaunch(c: Client): Result<Launch, Fault>
  {
    if SSH_ADD in c.runnable then Ok(Launch(SSH_ADD, [Some("ssh-add"), Some("-l"), None])) else Err(LaunchFailed)
  }

  /** The action switch of main. */
  function Act(c: Client, verb: Action, d: AgentData, operands: seq<string>): seq<Step>
  {
    match verb
    case PrintAction => (if d.kind == GpgAgent then [UpdateTty(d.gpg)] else []) + [Print(EnvExports(d))]
    case AddAction =>
      if d.status == Running || d.kind == GpgAgent then [] else [Launched(AddKeysLaunch(c, operands))]
    case ForceAddAction => [Launched(AddKeysLaunch(c, operands))]
    case ClearAction => if d.kind == GpgAgent then [Signal(d.pid, SIGHUP)] else [Fail(ClearUnsupported)]
    case KillAction => [Signal(d.pid, SIGTERM)]
    case ListAction => [Launched(ListLaunch(c))]
  }

  /** The write get_agent made to the daemon, as a step. */
  function Requested(f: Fetched): seq<Step>
  {
    if f.requested.Some? then [Request(f.requested.value)] else []
  }

  /** main after the option loop: fetch the record for the chosen kind,
      refuse an empty answer, source the environment unless told not to,
      then act. */
  function ClientSteps(c: Client, s: Settings, x: Exchange, operands: seq<string>): seq<Step>
  {
    match GetAgent(x, s.kind)
    case Err(f) => [Fail(f)]
    case Ok(f) =>
      Requested(f) +
      (if f.count == 0 then [Fail(NoData)]
       else (if s.source then SourceEnv(f.data) else []) + Act(c, s.verb, f.data, operands))
  }

  /** main invoked as ssh: fetch the default agent, source its
      environment, run the real ssh. */
  function SshSteps(c: Client, x: Exchange, defaultKind: AgentKind, argv: seq<string>): seq<Step>
  {
    match GetAgent(x, defaultKind)
    case Err(f) => [Fail(f)]
    case Ok(f) =>
      Requested(f) +
      (if f.count == 0 then [Fail(NoData)] else SourceEnv(f.data) + [Launched(SshLaunch(c, argv))])
  }

  /** The action table: plain `envoy` adds keys only to an ssh-agent that
      is not yet running, and otherwise behaves as `envoy -a`; -k sends
      SIGHUP to a gpg-agent and fails for any other; -K sends SIGTERM. */
  lemma ActTable(c: Client, d: AgentData, operands: seq<string>)
    ensures Act(c, AddAction, d, operands) ==
      if d.status == Running || d.kind == GpgAgent then [] else Act(c, ForceAddAction, d, operands)
    ensures Signal(d.pid, SIGHUP) in Act(c, ClearAction, d, operands) <==> d.kind == GpgAgent
    ensures d.kind != GpgAgent ==> Act(c, ClearAction, d, operands) == [Fail(ClearUnsupported)]
    ensures Act(c, KillAction, d, operands) == [Signal(d.pid, SIGTERM)]
  {
  }

  /** Whatever the action, envoy signals only the pid the daemon reported,
      only with SIGHUP (and then only a gpg-agent) or SIGTERM, and runs
      nothing but ssh-add. */
  lemma ActEffects(c: Client, verb: Action, d: AgentData, operands: seq<string>)
    ensures forall st :: st in Act(c, verb, d, operands) && st.Signal? ==>
      st.pid == d.pid && (st.signal == SIGTERM || (st.signal == SIGHUP && d.kind == GpgAgent))
    ensures forall st :: st in Act(c, verb, d, operands) && st.Exec? ==> st.launch.path == SSH_ADD
  {
  }

  /** No action exports the socket, and only printing talks to gpg-agent. */
  lemma ActLeavesSock(c: Client, verb: Action, d: AgentData, operands: seq<string>)
    ensures forall st :: st in Act(c, verb, d, operands) ==> !st.SetSock? && (st.UpdateTty? ==> verb == PrintAction)
  {
  }

  /** -k and -K leave the environment alone: no socket is exported, and
      only printing talks to gpg-agent. Otherwise the socket is exported
      before the action, after the kind was requested from a stopped
      daemon and a gpg-agent was told the terminal. */
  lemma ClientSourcing(c: Client, s: Settings, x: Exchange, operands: seq<string>)
    ensures !s.source ==> forall st :: st in ClientSteps(c, s, x, operands) ==>
      !st.SetSock? && (st.UpdateTty? ==> s.verb == PrintAction)
    ensures s.source && GetAgent(x, s.kind).Ok? && GetAgent(x, s.kind).value.count != 0 ==>
      var f := GetAgent(x, s.kind).value;
      var pre := Requested(f) + SourceEnv(f.data);
      |pre| <= |ClientSteps(c, s, x, operands)| &&
      ClientSteps(c, s, x, operands)[..|pre|] == pre &&
      SourceEnv(f.data)[|SourceEnv(f.data)| - 1] == SetSock(f.data.sock)
  {
    if GetAgent(x, s.kind).Ok? {
      var f := GetAgent(x, s.kind).value;
      if f.count != 0 {
        var act := Act(c, s.verb, f.data, operands);
        if !s.source {
          assert ClientSteps(c, s, x, operands) == Requested(f) + act;
          assert forall st :: st in Requested(f) ==> st.Request?;
          ActLeavesSock(c, s.verb, f.data, operands);
        } else {
          var pre := Requested(f) + SourceEnv(f.data);
          assert ClientSteps(c, s, x, operands) == pre + act;
        }
      }
    }
  }

  /** Only get_agent writes a kind to the daemon, as the first step and
      only when the daemon reports a stopped agent and the write succeeds;
      the kind written is the one the options chose. */
  lemma ClientRequestsKind(c: Client, s: Settings, x: Exchange, operands: seq<string>)
    ensures var steps := ClientSteps(c, s, x, operands);
      (forall k :: Request(k) in steps <==> k == s.kind && x.first.data.status == Stopped && x.writeOk) &&
      (forall i :: 0 < i < |steps| ==> !steps[i].Request?)
  {
    var steps := ClientSteps(c, s, x, operands);
    if GetAgent(x, s.kind).Ok? {
      var f := GetAgent(x, s.kind).value;
      var rest := if f.count == 0 then [Fail(NoData)]
        else (if s.source then SourceEnv(f.data) else []) + Act(c, s.verb, f.data, operands);
      assert steps == Requested(f) + rest;
      assert forall st :: st in rest ==> !st.Request?;
      forall i | |Requested(f)| <= i < |steps|
        ensures !steps[i].Request?
      {
        assert steps[i] == rest[i - |Requested(f)|];
      }
    }
  }

  /** The kind the options leave is the one the last -t named, or the
      starting one when no -t was given. */
  lemma {:induction false} ParseOptionsKind(opts: seq<Opt>, s: Settings)
    ensures ParseOptions(opts, s).Ok? && ParseOptions(opts, s).value.Proceed? ==>
      var t := ParseOptions(opts, s).value.settings;
      ((forall k :: 0 <= k < |opts| ==> !opts[k].AgentOpt?) ==> t.kind == s.kind) &&
      (forall k :: 0 <= k < |opts| && opts[k].AgentOpt? && (forall j :: k < j < |opts| ==> !opts[j].AgentOpt?) ==>
        opts[k].kind == Some(t.kind))
    decreases |opts|
  {
    if opts != [] && ApplyOption(s, opts[0]).Ok? && ApplyOption(s, opts[0]).value.Proceed? {
      var next := ApplyOption(s, opts[0]).value.settings;
      ParseOptionsKind(opts[1..], next);
      assert forall k :: 1 <= k < |opts| ==> opts[k] == opts[1..][k - 1];
    }
  }

  /** The kind envoy asks a stopped daemon for is the one the last -t
      named, or AGENT_DEFAULT. */
  lemma RequestsChosenAgent(c: Client, opts: seq<Opt>, defaultKind: AgentKind, x: Exchange, operands: seq<string>)
    requires ParseOptions(opts, Settings(AddAction, true, defaultKind)).Ok?
    requires ParseOptions(opts, Settings(AddAction, true, defaultKind)).value.Proceed?
    ensures var s := ParseOptions(opts, Settings(AddAction, true, defaultKind)).value.settings;
      forall k :: Request(k) in ClientSteps(c, s, x, operands) ==>
        ((forall i :: 0 <= i < |opts| ==> !opts[i].AgentOpt?) ==> k == defaultKind) &&
        (forall i :: 0 <= i < |opts| && opts[i].AgentOpt? && (forall j :: i < j < |opts| ==> !opts[j].AgentOpt?) ==>
          opts[i].kind == Some(k))
  {
    var s := ParseOptions(opts, Settings(AddAction, true, defaultKind)).value.settings;
    ParseOptionsKind(opts, Settings(AddAction, true, defaultKind));
    ClientRequestsKind(c, s, x, operands);
  }

  /** Invoked as ssh, envoy asks a stopped daemon for AGENT_DEFAULT only,
      and runs nothing but the real ssh, with the arguments it was given,
      and only as its last step, right after the agent's socket has been
      exported. */
  lemma SshStepsSpec(c: Client, x: Exchange, defaultKind: AgentKind, argv: seq<string>)
    ensures forall k :: Request(k) in SshSteps(c, x, defaultKind, argv) <==>
      k == defaultKind && x.first.data.status == Stopped && x.writeOk
    ensures var steps := SshSteps(c, x, defaultKind, argv);
      (exists st :: st in steps && st.Exec?) ==>
        GetAgent(x, defaultKind).Ok? && |steps| >= 2 && SSH in c.runnable &&
        steps[|steps| - 2] == SetSock(GetAgent(x, defaultKind).value.data.sock) &&
        steps[|steps| - 1] == Exec(Launch(SSH, SshArgv(argv)))
  {
    var steps := SshSteps(c, x, defaultKind, argv);
    if GetAgent(x, defaultKind).Ok? {
      var f := GetAgent(x, defaultKind).value;
      if f.count != 0 {
        var last := Launched(SshLaunch(c, argv));
        assert steps == Requested(f) + SourceEnv(f.data) + [last];
        if SshLaunch(c, argv).Err? {
          assert forall st :: st in steps ==> !st.Exec?;
        }
      }
    }
  }

  /** A failed or refused agent, a failed write of the kind, or an empty
      answer stops envoy: nothing is exported, printed, signalled or
      executed. */
  lemma ClientRefuses(c: Client, s: Settings, x: Exchange, operands: seq<string>)
    ensures x.first.data.status == Failed ==> ClientSteps(c, s, x, operands) == [Fail(AgentFailed)]
    ensures x.first.data.status == BadUser ==> ClientSteps(c, s, x, operands) == [Fail(Unauthorized)]
    ensures x.first.data.status == Stopped && !x.writeOk ==> ClientSteps(c, s, x, operands) == [Fail(WriteFailed)]
    ensures GetAgent(x, s.kind).Ok? && GetAgent(x, s.kind).value.count == 0 ==>
      var steps := ClientSteps(c, s, x, operands);
      steps != [] && steps[|steps| - 1] == Fail(NoData) &&
      forall st :: st in steps ==> st.Request? || st.Fail?
  {
  }
}
