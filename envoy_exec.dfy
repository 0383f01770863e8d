/** envoy-exec: a wrapper that sources the agent's environment and then
    runs the real command. Invoked through a symlink or as the interpreter
    of a `#!` script, it finds the command (named in the script, or by its
    own name), refuses to exec itself, and falls back to a PATH search.
    Files, realpath(3), execv and $PATH are answers of the host. */
module EnvoyExec {
  import opened CText
  import opened Agents
  import opened Process

  /** The reasons envoy-exec dies: err/errx, or a read through a failed
      mapping. */
  datatype Fault =
    | ScriptOpenFailed   // the script exists but cannot be opened
    | ScriptStatFailed   // fstat on the script failed
    | MappingUnreadable  // memblock[0] read through MAP_FAILED
    | NoSelfExe          // /proc/self/exe cannot be resolved
    | CommandNotFound    // no PATH candidate could be executed
    | Usage              // envoy-exec with nothing to run


  // ----- strstrip -----

  /** A character of WHITESPACE (space, tab, newline, carriage return). */
  predicate IsBlank(c: char)
  {
    c == ' ' || c == '\t' || c == '\n' || c == '\r'
  }

  function TrimLeft(s: string): string
    decreases |s|
  {
    if s != [] && IsBlank(s[0]) then TrimLeft(s[1..]) else s
  }

  function TrimRight(s: string): string
    decreases |s|
  {
    if s != [] && IsBlank(s[|s| - 1]) then TrimRight(s[..|s| - 1]) else s
  }

  /** `s` without its leading and trailing blanks. */
  function Strip(s: string): string
  {
    TrimRight(TrimLeft(s))
  }

  /** The number of leading blanks. */
  function LeadBlanks(s: string): nat
  {
    if s != [] && IsBlank(s[0]) then 1 + LeadBlanks(s[1..]) else 0
  }

  lemma {:induction false} TrimLeftSpec(s: string)
    ensures LeadBlanks(s) <= |s| && TrimLeft(s) == s[LeadBlanks(s)..]
    ensures forall k :: 0 <= k < LeadBlanks(s) ==> IsBlank(s[k])
    ensures TrimLeft(s) != [] ==> !IsBlank(TrimLeft(s)[0])
    decreases |s|
  {
    if s != [] && IsBlank(s[0]) {
      TrimLeftSpec(s[1..]);
      assert forall k :: 1 <= k < LeadBlanks(s) ==> s[k] == s[1..][k - 1];
    }
  }

  lemma {:induction false} TrimRightSpec(s: string)
    ensures |TrimRight(s)| <= |s| && TrimRight(s) == s[..|TrimRight(s)|]
    ensures forall k :: |TrimRight(s)| <= k < |s| ==> IsBlank(s[k])
    ensures TrimRight(s) != [] ==> !IsBlank(TrimRight(s)[|TrimRight(s)| - 1])
    decreases |s|
  {
    if s != [] && IsBlank(s[|s| - 1]) {
      TrimRightSpec(s[..|s| - 1]);
    }
  }

  /** strstrip's result is the contiguous piece of its input between the
      leading and the trailing blanks: everything cut off is blank, and the
      piece neither starts nor ends with a blank. */
  lemma StripSpec(s: string)
    ensures LeadBlanks(s) + |Strip(s)| <= |s|
    ensures Strip(s) == s[LeadBlanks(s)..LeadBlanks(s) + |Strip(s)|]
    ensures forall k :: 0 <= k < LeadBlanks(s) ==> IsBlank(s[k])
    ensures LeadBlanks(s) < |s| ==> !IsBlank(s[LeadBlanks(s)])
    ensures forall k :: LeadBlanks(s) + |Strip(s)| <= k < |s| ==> IsBlank(s[k])
    ensures Strip(s) != [] ==> !IsBlank(Strip(s)[0]) && !IsBlank(Strip(s)[|Strip(s)| - 1])
  {
    var t := TrimLeft(s);
    TrimLeftSpec(s);
    TrimRightSpec(t);
    var i := LeadBlanks(s);
    assert i < |s| ==> s[i] == t[0];
    forall k | i + |Strip(s)| <= k < |s| ensures IsBlank(s[k]) {
      assert s[k] == t[k - i];
    }
  }

  /** An input made only of blanks strips to the empty string, and only
      such an input does. */
  lemma StripEmpty(s: string)
    ensures Strip(s) == [] <==> forall k :: 0 <= k < |s| ==> IsBlank(s[k])
  {
    StripSpec(s);
    if Strip(s) != [] {
      assert !IsBlank(s[LeadBlanks(s)]);
    }
  }

  /** Stripping twice is stripping once. */
  lemma StripIdempotent(s: string)
    ensures Strip(Strip(s)) == Strip(s)
  {
    StripSpec(s);
    var x := Strip(s);
    if x != [] {
      assert TrimLeft(x) == x;
      assert TrimRight(x) == x;
    }
  }

  /** Strip picks out the window from the first non-blank character to the
      last one. */
  lemma StripWindow(s: string, i: nat, j: nat)
    requires i <= j <= |s|
    requires forall k :: 0 <= k < i ==> IsBlank(s[k])
    requires i < |s| ==> !IsBlank(s[i])
    requires forall k :: j <= k < |s| ==> IsBlank(s[k])
    requires i < j ==> !IsBlank(s[j - 1])
    ensures Strip(s) == s[i..j]
  {
    StripSpec(s);
    var l := LeadBlanks(s);
    var e := l + |Strip(s)|;
    assert l == i;
    assert Strip(s) != [] ==> s[e - 1] == Strip(s)[|Strip(s)| - 1];
    assert e == j;
  }

  /** strstrip on the NUL-terminated string `s` held at the start of `b`:
      the start is moved over leading blanks, the end back over trailing
      blanks, and a NUL is stored at the new end. The result is the string
      from `start` to that NUL. */
  method StrStrip(b: array<char>, ghost s: string) returns (start: nat, end: nat)
    requires |s| < b.Length && '\0' !in s && b[|s|] == '\0'
    requires forall k :: 0 <= k < |s| ==> b[k] == s[k]
    modifies b
    ensures start <= end < b.Length && b[end] == '\0'
    ensures b[start..end] == Strip(s)
  {
    start := 0;
    while IsBlank(b[start])
      invariant start <= |s| && forall k :: 0 <= k < start ==> IsBlank(s[k])
      decreases |s| - start
    {
      start := start + 1;
    }
    assert forall k :: 0 <= k < |s| ==> s[k] != '\0';
    end := start;
    while b[end] != '\0'
      invariant start <= end <= |s|
      decreases |s| - end
    {
      end := end + 1;
    }
    while end > start && IsBlank(b[end - 1])
      invariant start <= end <= |s|
      invariant forall k :: end <= k < |s| ==> IsBlank(s[k])
    {
      end := end - 1;
    }
    StripWindow(s, start, end);
    b[end] := '\0';
    assert b[start..end] == s[start..end];
  }

  // ----- extract_binary -----

  /** The bytes before the first NUL: every scan of the mapped script
      stops there. */
  function CStr(f: string): (t: string)
    ensures |t| <= |f|
    decreases |f|
  {
    if f == [] || f[0] == '\0' then [] else [f[0]] + CStr(f[1..])
  }

  lemma {:induction false} CStrSpec(f: string)
    ensures '\0' !in CStr(f)
    decreases |f|
  {
    if f != [] && f[0] != '\0' {
      CStrSpec(f[1..]);
    }
  }

  /** The byte at `i` of a NUL-terminated text (its NUL at the end). */
  function At(t: string, i: nat): char
  {
    if i < |t| then t[i] else '\0'
  }

  /** A byte strspn(.., "#\t ") skips. */
  predicate IsSkip(c: char)
  {
    c == '#' || c == '\t' || c == ' '
  }

  /** strspn(s, "#\t "). */
  function SkipCount(s: string): (n: nat)
    ensures n <= |s|
  {
    if s != [] && IsSkip(s[0]) then 1 + SkipCount(s[1..]) else 0
  }

  /** strcspn(s, "\n#"). */
  function CommandLen(s: string): (n: nat)
    ensures n <= |s|
  {
    if s != [] && s[0] != '\n' && s[0] != '#' then 1 + CommandLen(s[1..]) else 0
  }

  /** A line without its leading '#', tab and space characters. */
  function SkipLead(line: string): string
  {
    if line != [] && IsSkip(line[0]) then SkipLead(line[1..]) else line
  }

  /** A line up to its first '#'. */
  function UpToHash(line: string): string
  {
    if line == [] || line[0] == '#' then [] else [line[0]] + UpToHash(line[1..])
  }

  /** The piece kept is a prefix of the line and holds no '#'. */
  lemma {:induction false} UpToHashSpec(line: string)
    ensures UpToHash(line) <= line && '#' !in UpToHash(line)
    decreases |line|
  {
    if line != [] && line[0] != '#' {
      UpToHashSpec(line[1..]);
    }
  }

  /** The command line among `lines`: the first line that is not made only
      of '#', tab and space, without those leading characters, cut at its
      first '#'. */
  function FirstCommand(lines: seq<string>): Option<string>
  {
    if lines == [] then None
    else if SkipLead(lines[0]) == [] then FirstCommand(lines[1..])
    else Some(UpToHash(SkipLead(lines[0])))
  }

  function StripSome(o: Option<string>): Option<string>
  {
    match o
    case None => None
    case Some(c) => Some(Strip(c))
  }

  /** What extract_binary finds in a script: nothing unless it starts with
      `#!`, else the command line of the lines after the first, stripped of
      surrounding white space. */
  function ScriptCommand(bytes: string): Option<string>
  {
    var t := CStr(bytes);
    if |t| < 2 || t[0] != '#' || t[1] != '!' then None
    else StripSome(FirstCommand(Split(t, '\n')[1..]))
  }

  /** The command the script's own line never contributes to, and what the
      command never holds. */
  lemma ScriptCommandClean(bytes: string)
    ensures ScriptCommand(bytes).Some? ==>
      '\n' !in ScriptCommand(bytes).value && '#' !in ScriptCommand(bytes).value &&
      '\0' !in ScriptCommand(bytes).value
  {
    var t := CStr(bytes);
    CStrSpec(bytes);
    if |t| >= 2 && t[0] == '#' && t[1] == '!' {
      var lines := Split(t, '\n');
      SplitFields(t, '\n');
      SplitWithout(t, '\n', '\0');
      FirstCommandClean(lines[1..]);
      match FirstCommand(lines[1..])
      case None =>
      case Some(c) =>
        StripSpec(c);
        SliceWithout(c, LeadBlanks(c), LeadBlanks(c) + |Strip(c)|, '\n');
        SliceWithout(c, LeadBlanks(c), LeadBlanks(c) + |Strip(c)|, '#');
        SliceWithout(c, LeadBlanks(c), LeadBlanks(c) + |Strip(c)|, '\0');
    }
  }

  /** A character absent from a string is absent from its fields. */
  lemma {:induction false} SplitWithout(s: string, sep: char, c: char)
    requires c !in s
    ensures forall k :: 0 <= k < |Split(s, sep)| ==> c !in Split(s, sep)[k]
    decreases |s|
  {
    var i := FieldEnd(s, sep);
    if i < |s| {
      SplitWithout(s[i + 1..], sep, c);
      SliceWithout(s, 0, i, c);
      SliceWithout(s, i + 1, |s|, c);
    }
  }

  lemma {:induction false} FirstCommandClean(lines: seq<string>)
    requires forall k :: 0 <= k < |lines| ==> '\n' !in lines[k] && '\0' !in lines[k]
    ensures FirstCommand(lines).Some? ==>
      '\n' !in FirstCommand(lines).value && '#' !in FirstCommand(lines).value &&
      '\0' !in FirstCommand(lines).value
    decreases |lines|
  {
    if lines != [] {
      if SkipLead(lines[0]) == [] {
        FirstCommandClean(lines[1..]);
      } else {
        var rest := SkipLead(lines[0]);
        SkipLeadSuffix(lines[0]);
        UpToHashSpec(rest);
      }
    }
  }

  lemma {:induction false} SkipLeadSuffix(line: string)
    ensures SkipLead(line) == line[SkipCount(line)..]
    decreases |line|
  {
    if line != [] && IsSkip(line[0]) {
      SkipLeadSuffix(line[1..]);
    }
  }

  /** What is left to find once the scan stands at `p`: a newline still to
      be consumed, or the end of the text. */
  function Tail(t: string, p: nat): Option<string>
  {
    if p < |t| then FirstCommand(Split(t[p + 1..], '\n')) else None
  }

  lemma DropHead<T>(a: T, xs: seq<T>)
    ensures ([a] + xs)[1..] == xs
  {
  }

  /** The scan starts at the end of the shebang line. */
  lemma ScanStart(t: string)
    ensures FirstCommand(Split(t, '\n')[1..]) == Tail(t, FieldEnd(t, '\n'))
  {
    var e := FieldEnd(t, '\n');
    if e < |t| {
      DropHead(t[..e], Split(t[e + 1..], '\n'));
    }
  }

  /** strspn counts exactly the leading skip characters. */
  lemma {:induction false} SkipCountSpec(s: string)
    ensures forall k :: 0 <= k < SkipCount(s) ==> IsSkip(s[k])
    ensures SkipCount(s) < |s| ==> !IsSkip(s[SkipCount(s)])
    decreases |s|
  {
    if s != [] && IsSkip(s[0]) {
      SkipCountSpec(s[1..]);
    }
  }

  lemma {:induction false} SkipCountPrefix(s: string, e: nat)
    requires SkipCount(s) <= e <= |s|
    ensures SkipCount(s[..e]) == SkipCount(s)
    decreases |s|
  {
    if s != [] && IsSkip(s[0]) && e > 0 {
      SkipCountPrefix(s[1..], e - 1);
      assert s[..e][1..] == s[1..][..e - 1];
    }
  }

  /** strcspn(s, "\n#") on a line that ends at `e` gives the line up to its
      first '#'. */
  lemma {:induction false} CommandLenLine(s: string, e: nat)
    requires e <= |s| && (e == |s| || s[e] == '\n')
    requires forall j :: 0 <= j < e ==> s[j] != '\n'
    ensures UpToHash(s[..e]) == s[..CommandLen(s)]
    decreases |s|
  {
    if e > 0 && s[0] != '#' {
      CommandLenLine(s[1..], e - 1);
      assert s[..e][1..] == s[1..][..e - 1];
      assert s[..CommandLen(s)] == [s[0]] + s[1..][..CommandLen(s[1..])];
    }
  }

  /** One turn of extract_binary's loop from the newline at `p`: skip the
      '#', tab and space characters after it, then either the text ends,
      or the line is blank and the scan goes on from the next newline, or
      the command is the rest of the line up to a newline or '#'. */
  lemma ScanStep(t: string, p: nat)
    requires '\0' !in t && p < |t| && t[p] == '\n'
    ensures var q := p + 1 + SkipCount(t[p + 1..]);
      q <= |t| &&
      (q == |t| ==> Tail(t, p) == None) &&
      (q < |t| && t[q] == '\n' ==> Tail(t, p) == Tail(t, q)) &&
      (q < |t| && t[q] != '\n' ==> Tail(t, p) == Some(t[q..q + CommandLen(t[q..])]))
  {
    var u := t[p + 1..];
    var k := SkipCount(u);
    var q := p + 1 + k;
    assert Tail(t, p) == FirstCommand(Split(u, '\n'));
    if k == |u| {
      ScanEnd(u);
    } else if u[k] == '\n' {
      assert u[k + 1..] == t[q + 1..];
      assert Tail(t, q) == FirstCommand(Split(u[k + 1..], '\n'));
      ScanBlank(u, k);
    } else {
      assert u[k..][..CommandLen(u[k..])] == t[q..q + CommandLen(t[q..])] by {
        assert u[k..] == t[q..];
      }
      ScanCommand(u, k);
    }
  }

  /** Only '#', tab and space characters left: no command. */
  lemma ScanEnd(u: string)
    requires SkipCount(u) == |u|
    ensures FirstCommand(Split(u, '\n')) == None
  {
    SkipCountSpec(u);
    assert forall j :: 0 <= j < |u| ==> u[j] != '\n';
    SplitNone(u, '\n');
    SkipLeadSuffix(u);
  }

  /** A line of only '#', tab and space characters is passed over. */
  lemma ScanBlank(u: string, k: nat)
    requires k == SkipCount(u) && k < |u| && u[k] == '\n'
    ensures FirstCommand(Split(u, '\n')) == FirstCommand(Split(u[k + 1..], '\n'))
  {
    var a, rest := u[..k], u[k + 1..];
    SkippedLead(u, k);
    assert u == a + ['\n'] + rest;
    SplitCons(a, '\n', rest);
    assert Split(u, '\n') == [a] + Split(rest, '\n');
  }

  /** The characters strspn skipped hold no newline and leave nothing of the line. */
  lemma SkippedLead(u: string, k: nat)
    requires k == SkipCount(u)
    ensures '\n' !in u[..k] && SkipLead(u[..k]) == []
  {
    SkipCountSpec(u);
    var a := u[..k];
    assert forall j :: 0 <= j < k ==> IsSkip(a[j]);
    SkipCountPrefix(u, k);
    SkipLeadSuffix(a);
  }


  /** The end of the line that starts `u`, past its leading skip characters. */
  lemma LineAfterSkip(u: string, k: nat)
    requires k == SkipCount(u) && k < |u| && u[k] != '\n'
    ensures k < FieldEnd(u, '\n') <= |u|
    ensures forall j :: 0 <= j < FieldEnd(u, '\n') ==> u[j] != '\n'
    ensures FieldEnd(u, '\n') < |u| ==> u[FieldEnd(u, '\n')] == '\n'
    ensures Split(u, '\n')[0] == u[..FieldEnd(u, '\n')]
  {
    SkippedLead(u, k);
    assert u[..k + 1] == u[..k] + [u[k]];
    FieldEndAtLeast(u, '\n', k + 1);
    FieldEndSpec(u, '\n');
    SplitHead(u, '\n');
  }


  /** Past its leading skip characters, the line that ends at `e` is the
      text from `k` to `e`. */
  lemma SkipLeadOfLine(u: string, k: nat, e: nat)
    requires k == SkipCount(u) && k <= e <= |u|
    ensures SkipLead(u[..e]) == u[k..][..e - k]
  {
    SkipCountPrefix(u, e);
    SkipLeadSuffix(u[..e]);
  }

  /** Cut at its first '#', the piece of a line from `k` to its end `e` is
      what strcspn(.., "\n#") measures from `k`. */
  lemma CommandOfLine(u: string, k: nat, e: nat)
    requires k <= e <= |u| && (e == |u| || u[e] == '\n')
    requires forall j :: k <= j < e ==> u[j] != '\n'
    ensures UpToHash(u[k..][..e - k]) == u[k..][..CommandLen(u[k..])]
  {
    var w, n := u[k..], e - k;
    assert forall j :: 0 <= j < n ==> w[j] == u[k + j];
    CommandLenLine(w, n);
    assert UpToHash(w[..n]) == w[..CommandLen(w)];
  }

  lemma FirstCommandHead(lines: seq<string>)
    requires lines != [] && SkipLead(lines[0]) != []
    ensures FirstCommand(lines) == Some(UpToHash(SkipLead(lines[0])))
  {
  }

  lemma ScanCommand(u: string, k: nat)
    requires k == SkipCount(u) && k < |u| && u[k] != '\n'
    ensures FirstCommand(Split(u, '\n')) == Some(u[k..][..CommandLen(u[k..])])
  {
    LineAfterSkip(u, k);
    ScanCommandAt(u, k, FieldEnd(u, '\n'));
  }

  /** The same, with the end of the first line named `e`. */
  lemma ScanCommandAt(u: string, k: nat, e: nat)
    requires k == SkipCount(u) && k < e <= |u| && (e == |u| || u[e] == '\n')
    requires forall j :: 0 <= j < e ==> u[j] != '\n'
    requires Split(u, '\n')[0] == u[..e]
    ensures FirstCommand(Split(u, '\n')) == Some(u[k..][..CommandLen(u[k..])])
  {
    SkipLeadOfLine(u, k, e);
    CommandOfLine(u, k, e);
    FirstCommandHead(Split(u, '\n'));
  }

  /** The raw line extract_binary's loop copies, from the newline at `p`,
      turn by turn: skip the '#', tab and space characters after it, then
      stop at the end of the text, go on from a newline, or take the line
      up to a newline or '#'. */
  function ScanFrom(t: string, p: nat): Option<string>
    requires p < |t| && t[p] == '\n'
    decreases |t| - p
  {
    var q := p + 1 + SkipCount(t[p + 1..]);
    if q == |t| then None
    else if t[q] == '\n' then ScanFrom(t, q)
    else Some(t[q..q + CommandLen(t[q..])])
  }

  /** One turn of the loop, from the newline at `p`. */
  lemma ScanFromStep(t: string, p: nat)
    requires p < |t| && t[p] == '\n'
    ensures var q := p + 1 + SkipCount(t[p + 1..]);
      (q == |t| ==> ScanFrom(t, p) == None) &&
      (q < |t| && t[q] == '\n' ==> ScanFrom(t, p) == ScanFrom(t, q)) &&
      (q < |t| && t[q] != '\n' ==> ScanFrom(t, p) == Some(t[q..q + CommandLen(t[q..])]))
  {
  }

  /** The loop finds the command of the first line after `p` that is not
      made only of '#', tab and space characters. */
  lemma {:induction false} ScanFromTail(t: string, p: nat)
    requires '\0' !in t && p < |t| && t[p] == '\n'
    ensures ScanFrom(t, p) == Tail(t, p)
    decreases |t| - p
  {
    ScanStep(t, p);
    var q := p + 1 + SkipCount(t[p + 1..]);
    if q < |t| && t[q] == '\n' {
      ScanFromTail(t, q);
    }
  }

  /** The script's command is what the loop finds from the end of the
      shebang line, stripped. */
  lemma ScriptCommandScan(bytes: string)
    ensures var t := CStr(bytes);
      '\0' !in t &&
      ScriptCommand(bytes) ==
        if |t| < 2 || t[0] != '#' || t[1] != '!' || FieldEnd(t, '\n') == |t| then None
        else StripSome(ScanFrom(t, FieldEnd(t, '\n')))
  {
    var t := CStr(bytes);
    CStrSpec(bytes);
    ScanStart(t);
    if FieldEnd(t, '\n') < |t| {
      ScanFromTail(t, FieldEnd(t, '\n'));
    }
  }

  /** extract_binary, as the process sees the script at a path. */
  datatype ScriptFile =
    | Missing                 // open fails with ENOENT
    | OpenFails               // open fails otherwise
    | StatFails               // fstat fails
    | Unmappable              // mmap fails, as it does on a directory
    | Mapped(bytes: string)   // the file's bytes as mmap shows them

  /** mmap returns MAP_FAILED: the file cannot be mapped, or it is empty
      (a mapping of length 0 is refused with EINVAL). */
  predicate MapFails(file: ScriptFile)
  {
    file.Unmappable? || (file.Mapped? && file.bytes == [])
  }

  /** extract_binary as written: the result of mmap is never checked, so
      a failed mapping is read through at memblock[0] and the process
      dies. */
  function ScriptResultAsWritten(file: ScriptFile): Result<Option<string>, Fault>
  {
    if MapFails(file) then Err(MappingUnreadable) else ScriptResult(file)
  }

  /** What extract_binary returns, or the fault it dies with, with the
      failed mapping sent to the `error` label as its MAP_FAILED guard
      there expects: a file that cannot be mapped names no command. */
  function ScriptResult(file: ScriptFile): Result<Option<string>, Fault>
  {
    match file
    case Missing => Ok(None)
    case OpenFails => Err(ScriptOpenFailed)
    case StatFails => Err(ScriptStatFailed)
    case Unmappable => Ok(None)
    case Mapped(bytes) => if bytes == [] then Ok(None) else Ok(ScriptCommand(bytes))
  }

  /** As written, extract_binary differs from the corrected one exactly on
      the files mmap refuses, where it dies instead of finding no command;
      an empty script is one. */
  lemma UnmappedScriptAsWritten(file: ScriptFile)
    ensures ScriptResultAsWritten(file) != ScriptResult(file) <==> MapFails(file)
    ensures MapFails(file) ==> ScriptResultAsWritten(file) == Err(MappingUnreadable)
    ensures ScriptResultAsWritten(Mapped([])) == Err(MappingUnreadable) && ScriptResult(Mapped([])) == Ok(None)
  {
  }

  lemma SliceWithout(s: string, i: nat, j: nat, c: char)
    requires i <= j <= |s| && c !in s
    ensures c !in s[i..j]
  {
    assert forall k :: 0 <= k < j - i ==> s[i..j][k] == s[i + k];
  }

  /** In a text without NUL, At gives NUL only at the end. */
  lemma NulAtEnd(t: string, p: nat)
    requires '\0' !in t && p <= |t| && At(t, p) == '\0'
    ensures p == |t|
  {
    assert forall k :: 0 <= k < |t| ==> t[k] != '\0';
  }

  /** strndup: a fresh NUL-terminated copy. */
  method StrnDup(s: string) returns (b: array<char>)
    ensures fresh(b) && b.Length == |s| + 1 && b[|s|] == '\0'
    ensures forall k :: 0 <= k < |s| ==> b[k] == s[k]
  {
    b := new char[|s| + 1];
    forall k | 0 <= k < |s| {
      b[k] := s[k];
    }
    b[|s|] := '\0';
  }

  /** One turn of extract_binary's loop from the newline at `p`: skip the
      '#', tab and space characters after it; at the text's NUL the walk is
      done with nothing, at a newline it goes on from there, otherwise the
      walk is done with the line up to a newline or '#'. */
  method ScanTurn(t: string, p: nat) returns (next: nat, command: Option<string>, done: bool)
    requires '\0' !in t && p < |t| && t[p] == '\n'
    ensures p < next <= |t|
    ensures !done ==> next < |t| && t[next] == '\n' && ScanFrom(t, next) == ScanFrom(t, p)
    ensures done ==> command == ScanFrom(t, p)
    ensures command.Some? ==> '\0' !in command.value
  {
    ScanFromStep(t, p);
    next := p + 1;
    next := next + SkipCount(t[next..]);
    if At(t, next) == '\0' {
      NulAtEnd(t, next);
      return next, None, true;
    } else if At(t, next) == '\n' {
      return next, None, false;
    }
    var eol := CommandLen(t[next..]);
    SliceWithout(t, next, next + eol, '\0');
    return next, Some(t[next..next + eol]), true;
  }

  /** The lines after the shebang line, from the newline at `p0` (or the end
      of the text), walked until one names a command; the raw line is
      returned. */
  method WalkLines(t: string, p0: nat) returns (command: Option<string>)
    requires '\0' !in t && p0 <= |t| && (p0 < |t| ==> t[p0] == '\n')
    ensures command == if p0 < |t| then ScanFrom(t, p0) else None
    ensures command.Some? ==> '\0' !in command.value
  {
    ghost var goal := if p0 < |t| then ScanFrom(t, p0) else None;
    var p := p0;
    while At(t, p) == '\n'
      invariant p <= |t|
      invariant p < |t| ==> t[p] == '\n' && ScanFrom(t, p) == goal
      invariant p == |t| ==> goal == None
      decreases |t| - p
    {
      var done;
      p, command, done := ScanTurn(t, p);
      if done {
        return;
      }
    }
    return None;
  }

  /** extract_binary: check the `#!`, move to the end of its line, walk the
      following lines until one names a command, copy it and strip it. */
  method ExtractBinary(file: ScriptFile) returns (r: Result<Option<string>, Fault>)
    ensures r == ScriptResult(file)
  {
    match file
    case Missing =>
      return Ok(None);
    case OpenFails =>
      return Err(ScriptOpenFailed);
    case StatFails =>
      return Err(ScriptStatFailed);
    case Unmappable =>
      return Ok(None);
    case Mapped(bytes) =>
      if |bytes| == 0 {
        return Ok(None);
      }
      var t := CStr(bytes);
      ScriptCommandScan(bytes);
      if At(t, 0) != '#' || At(t, 1) != '!' {
        return Ok(None);
      }
      var p := FieldEnd(t, '\n');
      ScanStart(t);
      var command := WalkLines(t, p);
      if command.None? {
        return Ok(None);
      }
      var cmd := command.value;
      var b := StrnDup(cmd);
      var start, end := StrStrip(b, cmd);
      return Ok(Some(b[start..end]));
  }

  // ----- safe_execv and exec_from_path -----

  /** What the wrapper learns from the system it runs on. */
  datatype Host = Host(
    scripts: map<string, ScriptFile>,   // how each path opens; a path not in the map is missing
    realPath: map<string, string>,      // realpath(3) where it resolves
    runnable: set<string>,              // the paths execv succeeds on
    selfExe: Option<string>,            // realpath("/proc/self/exe")
    pathVar: Option<string>,            // getenv("PATH")
    join: (string, string) -> string)   // joinpath(segment, command)

  /** How the file at a path opens, as extract_binary sees it. */
  function ScriptAt(host: Host, path: string): ScriptFile
  {
    if path in host.scripts then host.scripts[path] else Missing
  }

  /** Whether the real path of `path` is the wrapper's own executable. */
  predicate IsSelf(host: Host, path: string, exe: string)
  {
    path in host.realPath && host.realPath[path] == exe
  }

  /** safe_execv: no exec when the path resolves to the wrapper itself;
      otherwise execv, which replaces the process when it succeeds. None
      means the call returned. */
  function SafeExecv(host: Host, path: string, exe: string, argv: seq<Option<string>>): (r: Option<Launch>)
    ensures r.Some? <==> !IsSelf(host, path, exe) && path in host.runnable
    ensures r.Some? ==> r.value == Launch(path, argv)
  {
    if IsSelf(host, path, exe) then None
    else if path in host.runnable then Some(Launch(path, argv))
    else None
  }

  /** The fields strtok_r(.., ":") hands out: the non-empty ones, in order. */
  function NonEmpty(fields: seq<string>): (r: seq<string>)
    ensures |r| <= |fields|
  {
    if fields == [] then []
    else if fields[0] == [] then NonEmpty(fields[1..])
    else [fields[0]] + NonEmpty(fields[1..])
  }

  function Segments(path: string): seq<string>
  {
    NonEmpty(Split(path, ':'))
  }

  lemma {:induction false} NonEmptyAppend(a: seq<string>, b: seq<string>)
    ensures NonEmpty(a + b) == NonEmpty(a) + NonEmpty(b)
    decreases |a|
  {
    if a == [] {
      assert a + b == b;
    } else {
      assert (a + b)[0] == a[0];
      assert (a + b)[1..] == a[1..] + b;
      NonEmptyAppend(a[1..], b);
      if a[0] != [] {
        assert [a[0]] + NonEmpty(a[1..]) + NonEmpty(b) == [a[0]] + (NonEmpty(a[1..]) + NonEmpty(b));
      }
    }
  }

  /** Each segment is a non-empty run of PATH without ':'; together they
      are exactly PATH's non-empty fields. */
  lemma {:induction false} NonEmptySpec(fields: seq<string>)
    ensures forall k :: 0 <= k < |NonEmpty(fields)| ==>
      NonEmpty(fields)[k] != [] && NonEmpty(fields)[k] in fields
    decreases |fields|
  {
    if fields != [] {
      NonEmptySpec(fields[1..]);
    }
  }

  lemma SegmentsSpec(path: string)
    ensures forall k :: 0 <= k < |Segments(path)| ==>
      Segments(path)[k] != [] && ':' !in Segments(path)[k]
  {
    NonEmptySpec(Split(path, ':'));
    SplitFields(path, ':');
  }

  /** The PATH candidates for a command, in the order they are tried. */
  function Candidates(host: Host, segs: seq<string>, cmd: string): (r: seq<string>)
    ensures |r| == |segs|
  {
    if segs == [] then [] else [host.join(segs[0], cmd)] + Candidates(host, segs[1..], cmd)
  }

  /** The first candidate whose safe_execv replaces the process. */
  function FirstLaunch(host: Host, cands: seq<string>, exe: string, argv: seq<Option<string>>): Option<Launch>
  {
    if cands == [] then None
    else if SafeExecv(host, cands[0], exe, argv).Some? then SafeExecv(host, cands[0], exe, argv)
    else FirstLaunch(host, cands[1..], exe, argv)
  }

  /** The launch found is the first candidate that is runnable and not the
      wrapper itself; every earlier candidate is one or the other. */
  lemma {:induction false} FirstLaunchSpec(host: Host, cands: seq<string>, exe: string, argv: seq<Option<string>>)
    ensures FirstLaunch(host, cands, exe, argv).None? <==>
      forall k :: 0 <= k < |cands| ==> SafeExecv(host, cands[k], exe, argv).None?
    ensures FirstLaunch(host, cands, exe, argv).Some? ==>
      exists k :: 0 <= k < |cands| && FirstLaunch(host, cands, exe, argv) == SafeExecv(host, cands[k], exe, argv) &&
        forall j :: 0 <= j < k ==> SafeExecv(host, cands[j], exe, argv).None?
    decreases |cands|
  {
    if cands != [] {
      FirstLaunchSpec(host, cands[1..], exe, argv);
      if SafeExecv(host, cands[0], exe, argv).None? && FirstLaunch(host, cands, exe, argv).Some? {
        var k :| 0 <= k < |cands[1..]| && FirstLaunch(host, cands[1..], exe, argv) == SafeExecv(host, cands[1..][k], exe, argv) &&
          forall j :: 0 <= j < k ==> SafeExecv(host, cands[1..][j], exe, argv).None?;
        assert forall j :: 1 <= j < k + 1 ==> cands[j] == cands[1..][j - 1];
        assert FirstLaunch(host, cands, exe, argv) == SafeExecv(host, cands[k + 1], exe, argv);
      }
      if FirstLaunch(host, cands, exe, argv).None? {
        assert forall k :: 1 <= k < |cands| ==> cands[k] == cands[1..][k - 1];
      }
    }
  }

  /** exec_from_path: the launch of the first PATH candidate that succeeds,
      or "command not found". */
  function PathLaunch(host: Host, cmd: string, exe: string, argv: seq<Option<string>>): Result<Launch, Fault>
  {
    match host.pathVar
    case None => Err(CommandNotFound)
    case Some(path) =>
      match FirstLaunch(host, Candidates(host, Segments(path), cmd), exe, argv)
      case None => Err(CommandNotFound)
      case Some(l) => Ok(l)
  }

  /** The text of PATH after its next field; empty after the last one. */
  function AfterField(s: string): (r: string)
    ensures |r| < |s| || s == []
  {
    var e := FieldEnd(s, ':');
    if e < |s| then s[e + 1..] else []
  }

  /** Splitting PATH at its next ':' takes one field off the segments. */
  lemma SegmentsStep(s: string)
    ensures Segments(s) == NonEmpty([s[..FieldEnd(s, ':')]]) + Segments(AfterField(s))
  {
    var e := FieldEnd(s, ':');
    if e < |s| {
      NonEmptyAppend([s[..e]], Split(s[e + 1..], ':'));
    } else {
      assert s[..e] == s;
      assert Split([], ':') == [[]];
    }
  }

  /** Trying the candidates of one non-empty segment and then the rest. */
  lemma FirstLaunchSegments(host: Host, seg: string, rest: seq<string>, cmd: string, exe: string, argv: seq<Option<string>>)
    requires seg != []
    ensures FirstLaunch(host, Candidates(host, [seg] + rest, cmd), exe, argv) ==
      if SafeExecv(host, host.join(seg, cmd), exe, argv).Some? then SafeExecv(host, host.join(seg, cmd), exe, argv)
      else FirstLaunch(host, Candidates(host, rest, cmd), exe, argv)
  {
    assert ([seg] + rest)[1..] == rest;
  }

  /** One strtok_r step over the rest of PATH: its next field, tried with
      safe_execv unless it is empty. */
  method TrySegment(host: Host, s: string, cmd: string, exe: string, argv: seq<Option<string>>)
    returns (launch: Option<Launch>, next: string)
    requires s != []
    ensures next == AfterField(s)
    ensures launch.Some? ==>
      launch == FirstLaunch(host, Candidates(host, Segments(s), cmd), exe, argv)
    ensures launch.None? ==>
      FirstLaunch(host, Candidates(host, Segments(s), cmd), exe, argv) ==
      FirstLaunch(host, Candidates(host, Segments(next), cmd), exe, argv)
  {
    var e := FieldEnd(s, ':');
    SegmentsStep(s);
    var field := s[..e];
    next := if e < |s| then s[e + 1..] else [];
    if field == [] {
      assert NonEmpty([field]) == [];
      return None, next;
    }
    assert NonEmpty([field]) == [field];
    FirstLaunchSegments(host, field, Segments(next), cmd, exe, argv);
    launch := SafeExecv(host, host.join(field, cmd), exe, argv);
  }

  /** exec_from_path: walk PATH's segments in order and exec the first
      candidate that is runnable and is not the wrapper; "command not
      found" when none is. */
  method ExecFromPath(host: Host, cmd: string, exe: string, argv: seq<Option<string>>) returns (r: Result<Launch, Fault>)
    ensures r == PathLaunch(host, cmd, exe, argv)
  {
    if host.pathVar.None? {
      return Err(CommandNotFound);
    }
    var path := host.pathVar.value;
    var rest := path;
    while rest != []
      invariant FirstLaunch(host, Candidates(host, Segments(path), cmd), exe, argv) ==
        FirstLaunch(host, Candidates(host, Segments(rest), cmd), exe, argv)
      decreases |rest|
    {
      var launch;
      launch, rest := TrySegment(host, rest, cmd, exe, argv);
      if launch.Some? {
        return Ok(launch.value);
      }
    }
    assert Split([], ':') == [[]];
    return Err(CommandNotFound);
  }

  // ----- exec_wrapper -----

  /** The command to run and the path that stands for the wrapper itself. */
  datatype Resolved = Resolved(cmd: string, exe: string)

  /** The first half of exec_wrapper: a command named by the script at
      argv[0], with argv[0] standing for the wrapper; otherwise argv[0]
      itself, with the wrapper's own executable. */
  function Resolve(host: Host, argv: seq<string>): (r: Result<Resolved, Fault>)
    requires |argv| >= 1
    ensures r.Err? ==> ScriptResult(ScriptAt(host, argv[0])).Err? || host.selfExe.None?
  {
    match ScriptResult(ScriptAt(host, argv[0]))
    case Err(f) => Err(f)
    case Ok(Some(c)) => Ok(Resolved(c, argv[0]))
    case Ok(None) =>
      if host.selfExe.None? then Err(NoSelfExe) else Ok(Resolved(argv[0], host.selfExe.value))
  }

  /** A file at argv[0] that cannot be mapped, an empty one included, is
      not taken for a script: argv[0] is the command, and the wrapper is
      its own executable. */
  lemma UnmappedFallsBack(host: Host, argv: seq<string>)
    requires |argv| >= 1 && MapFails(ScriptAt(host, argv[0]))
    ensures host.selfExe.None? ==> Resolve(host, argv) == Err(NoSelfExe)
    ensures host.selfExe.Some? ==> Resolve(host, argv) == Ok(Resolved(argv[0], host.selfExe.value))
  {
  }

  /** new_argv: the command in place of argv[0], the other arguments, NULL. */
  function NewArgv(cmd: string, argv: seq<string>): seq<Option<string>>
    requires |argv| >= 1
  {
    [Some(cmd)] + Wrapped(argv[1..]) + [None]
  }

  /** The wrapped program sees the command as its argv[0], the wrapper's
      own arguments after it, and the terminating NULL last. */
  lemma NewArgvShape(cmd: string, argv: seq<string>)
    requires |argv| >= 1
    ensures |NewArgv(cmd, argv)| == |argv| + 1
    ensures NewArgv(cmd, argv)[0] == Some(cmd) && NewArgv(cmd, argv)[|argv|] == None
    ensures forall i :: 1 <= i < |argv| ==> NewArgv(cmd, argv)[i] == Some(argv[i])
  {
    WrappedAt(argv[1..]);
  }

  /** `cmd[0] == '/' || cmd[0] == '.'`: a command given as a path. */
  predicate IsPathLike(cmd: string)
  {
    cmd != [] && (cmd[0] == '/' || cmd[0] == '.')
  }

  /** exec_wrapper: a command given as a path is tried directly first;
      when that returns, the wrapper was called by its full path and its
      own short name is looked up in PATH instead. */
  function WrapperLaunch(host: Host, argv: seq<string>, shortName: string): Result<Launch, Fault>
    requires |argv| >= 1
  {
    match Resolve(host, argv)
    case Err(f) => Err(f)
    case Ok(Resolved(cmd, exe)) =>
      var args := NewArgv(cmd, argv);
      if IsPathLike(cmd) && SafeExecv(host, cmd, exe, args).Some? then Ok(SafeExecv(host, cmd, exe, args).value)
      else PathLaunch(host, if IsPathLike(cmd) then shortName else cmd, exe, args)
  }

  /** What safe_execv exists for: the wrapper never replaces itself with
      itself. Whatever it launches is runnable and does not resolve to the
      path standing for the wrapper, and it hands over new_argv. */
  lemma WrapperNeverExecsItself(host: Host, argv: seq<string>, shortName: string)
    requires |argv| >= 1
    ensures WrapperLaunch(host, argv, shortName).Ok? ==>
      Resolve(host, argv).Ok? &&
      WrapperLaunch(host, argv, shortName).value.path in host.runnable &&
      !IsSelf(host, WrapperLaunch(host, argv, shortName).value.path, Resolve(host, argv).value.exe) &&
      WrapperLaunch(host, argv, shortName).value.argv == NewArgv(Resolve(host, argv).value.cmd, argv)
  {
    var r := WrapperLaunch(host, argv, shortName);
    if r.Ok? {
      var Resolved(cmd, exe) := Resolve(host, argv).value;
      var args := NewArgv(cmd, argv);
      if !(IsPathLike(cmd) && SafeExecv(host, cmd, exe, args).Some?) {
        var name := if IsPathLike(cmd) then shortName else cmd;
        var cands := Candidates(host, Segments(host.pathVar.value), name);
        FirstLaunchSpec(host, cands, exe, args);
      }
    }
  }

  /** A command that is not a path, or a path whose exec returned, is
      looked up in PATH: the launch is the first runnable candidate that is
      not the wrapper, and the PATH lookup fails only when none is. */
  lemma WrapperSearchesPath(host: Host, argv: seq<string>, shortName: string)
    requires |argv| >= 1 && Resolve(host, argv).Ok? && host.pathVar.Some?
    requires var Resolved(cmd, exe) := Resolve(host, argv).value;
      !(IsPathLike(cmd) && SafeExecv(host, cmd, exe, NewArgv(cmd, argv)).Some?)
    ensures var Resolved(cmd, exe) := Resolve(host, argv).value;
      var cands := Candidates(host, Segments(host.pathVar.value), if IsPathLike(cmd) then shortName else cmd);
      (WrapperLaunch(host, argv, shortName).Err? <==>
        forall k :: 0 <= k < |cands| ==> SafeExecv(host, cands[k], exe, NewArgv(cmd, argv)).None?) &&
      (WrapperLaunch(host, argv, shortName).Ok? ==>
        exists k :: 0 <= k < |cands| && WrapperLaunch(host, argv, shortName).value.path == cands[k] &&
          forall j :: 0 <= j < k ==> SafeExecv(host, cands[j], exe, NewArgv(cmd, argv)).None?)
  {
    var Resolved(cmd, exe) := Resolve(host, argv).value;
    var cands := Candidates(host, Segments(host.pathVar.value), if IsPathLike(cmd) then shortName else cmd);
    FirstLaunchSpec(host, cands, exe, NewArgv(cmd, argv));
    assert WrapperLaunch(host, argv, shortName).Err? <==> FirstLaunch(host, cands, exe, NewArgv(cmd, argv)).None?;
  }

  /** exec_wrapper: resolve the command, fill new_argv, try a path command
      directly, then search PATH. */
  method ExecWrapper(host: Host, argv: seq<string>, shortName: string) returns (r: Result<Launch, Fault>)
    requires |argv| >= 1
    ensures r == WrapperLaunch(host, argv, shortName)
  {
    var found := ExtractBinary(ScriptAt(host, argv[0]));
    if found.Err? {
      return Err(found.fault);
    }
    var cmd, exe;
    if found.value.Some? {
      cmd, exe := found.value.value, argv[0];
    } else {
      cmd := argv[0];
      if host.selfExe.None? {
        return Err(NoSelfExe);
      }
      exe := host.selfExe.value;
    }
    assert Resolve(host, argv) == Ok(Resolved(cmd, exe));
    var newArgv := new Option<string>[|argv| + 1];
    newArgv[0] := Some(cmd);
    var i := 1;
    while i < |argv|
      invariant 1 <= i <= |argv|
      invariant newArgv[0] == Some(cmd)
      invariant forall j :: 1 <= j < i ==> newArgv[j] == Some(argv[j])
    {
      newArgv[i] := Some(argv[i]);
      i := i + 1;
    }
    newArgv[|argv|] := None;
    NewArgvShape(cmd, argv);
    assert newArgv[..] == NewArgv(cmd, argv);
    if IsPathLike(cmd) {
      var direct := SafeExecv(host, cmd, exe, newArgv[..]);
      if direct.Some? {
        return Ok(direct.value);
      }
      cmd := shortName;
    }
    r := ExecFromPath(host, cmd, exe, newArgv[..]);
  }

  // ----- source_agent_env -----

  const SSH_AUTH_SOCK := "SSH_AUTH_SOCK"
  const GPG_AGENT_INFO := "GPG_AGENT_INFO"

  /** The environment after the putenvf calls: SSH_AUTH_SOCK always points
      at the agent's socket, GPG_AGENT_INFO is set only when the record
      names a gpg socket, and every other variable is left alone. */
  function AgentVars(vars: map<string, string>, d: AgentData): (r: map<string, string>)
    ensures SSH_AUTH_SOCK in r && r[SSH_AUTH_SOCK] == d.sock
    ensures d.gpg != [] ==> GPG_AGENT_INFO in r && r[GPG_AGENT_INFO] == d.gpg
    ensures d.gpg == [] ==> (GPG_AGENT_INFO in r <==> GPG_AGENT_INFO in vars)
    ensures d.gpg == [] && GPG_AGENT_INFO in vars ==> r[GPG_AGENT_INFO] == vars[GPG_AGENT_INFO]
    ensures forall k :: k in vars ==> k in r
    ensures forall k :: k in r && k != SSH_AUTH_SOCK && k != GPG_AGENT_INFO ==> k in vars && r[k] == vars[k]
  {
    var withGpg := if d.gpg != [] then vars[GPG_AGENT_INFO := d.gpg] else vars;
    withGpg[SSH_AUTH_SOCK := d.sock]
  }

  /** The process state source_agent_env touches: the environment, the gpg
      sockets whose agent was told the terminal, and the warnings printed. */
  class Environment {
    var vars: map<string, string>
    var ttyUpdates: seq<string>
    var warnings: nat

    constructor(vars0: map<string, string>)
      ensures vars == vars0 && ttyUpdates == [] && warnings == 0
    {
      vars := vars0;
      ttyUpdates := [];
      warnings := 0;
    }

    /** source_agent_env with the daemon's answer `ret` and record `data`:
        a failed fetch only warns; a failed or refused agent warns and
        leaves the environment alone; otherwise a gpg agent is told the
        terminal and the variables are exported. */
    method SourceAgentEnv(ret: int, data: AgentData)
      modifies this
      ensures var refused := data.status == Failed || data.status == BadUser;
        warnings == old(warnings) + (if ret < 0 then 1 else 0) + (if refused then 1 else 0) &&
        (refused ==> vars == old(vars) && ttyUpdates == old(ttyUpdates)) &&
        (!refused ==> (vars == AgentVars(old(vars), data) &&
          ttyUpdates == old(ttyUpdates) + (if data.kind == GpgAgent then [data.gpg] else [])))
    {
      if ret < 0 {
        warnings := warnings + 1;
      }
      match data.status {
        case Stopped =>
        case Started =>
        case Running =>
        case Failed =>
          warnings := warnings + 1;
          return;
        case BadUser =>
          warnings := warnings + 1;
          return;
      }
      if data.kind == GpgAgent {
        ttyUpdates := ttyUpdates + [data.gpg];
      }
      if data.gpg != [] {
        vars := vars[GPG_AGENT_INFO := data.gpg];
      }
      vars := vars[SSH_AUTH_SOCK := data.sock];
    }
  }

  // ----- main -----

  /** The argument shift in main: under the name envoy-exec the options up
      to `optind` are consumed and nothing left to run is a usage error;
      under any other name (a symlink) argv is used as it is. */
  function MainArgs(asEnvoyExec: bool, argv: seq<string>, optind: nat): (r: Result<seq<string>, Fault>)
    requires |argv| >= 1 && (asEnvoyExec ==> 1 <= optind <= |argv|)
    ensures r.Err? <==> asEnvoyExec && optind == |argv|
    ensures r.Err? ==> r.fault == Usage
    ensures r.Ok? ==> 1 <= |r.value| <= |argv| && r.value == argv[|argv| - |r.value|..]
    ensures r.Ok? && asEnvoyExec ==> r.value == argv[optind..]
    ensures r.Ok? && !asEnvoyExec ==> r.value == argv
  {
    if !asEnvoyExec then Ok(argv)
    else if optind == |argv| then Err(Usage)
    else Ok(argv[optind..])
  }

  /** main after the environment is sourced: shift argv, then exec_wrapper. */
  function Run(host: Host, asEnvoyExec: bool, argv: seq<string>, optind: nat, shortName: string): Result<Launch, Fault>
    requires |argv| >= 1 && (asEnvoyExec ==> 1 <= optind <= |argv|)
  {
    match MainArgs(asEnvoyExec, argv, optind)
    case Err(f) => Err(f)
    case Ok(args) => WrapperLaunch(host, args, shortName)
  }

  /** Whatever main ends up executing is runnable and is not the wrapper. */
  lemma RunNeverExecsItself(host: Host, asEnvoyExec: bool, argv: seq<string>, optind: nat, shortName: string)
    requires |argv| >= 1 && (asEnvoyExec ==> 1 <= optind <= |argv|)
    ensures Run(host, asEnvoyExec, argv, optind, shortName).Ok? ==>
      var args := MainArgs(asEnvoyExec, argv, optind).value;
      Run(host, asEnvoyExec, argv, optind, shortName).value.path in host.runnable &&
      !IsSelf(host, Run(host, asEnvoyExec, argv, optind, shortName).value.path, Resolve(host, args).value.exe)
  {
    if MainArgs(asEnvoyExec, argv, optind).Ok? {
      WrapperNeverExecsItself(host, MainArgs(asEnvoyExec, argv, optind).value, shortName);
    }
  }
}
