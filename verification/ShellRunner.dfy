/**
 * Running a parsed pipeline: the evaluator loop, and the recursive reading
 * "group operator (group operator ...)" that it implements.
 */
module ShellRunner {
  import opened Wrappers
  import opened ShellParser
  import opened ShellGrammar

  /** A stream as handed to a new process; files are numbered in the order of opening. */
  datatype Handle = InheritHandle | PipeFrom(pid: nat) | FileHandle(h: nat) | NewPipe | SameAsStdout | DevNull

  /** What the runner does to its environment; processes are numbered in the order of starting. */
  datatype Event =
    | Open(h: nat, name: string, forWriting: bool)
    | StartProcess(pid: nat, argv: seq<string>, stdin: Handle, stdout: Handle, stderr: Handle,
                   envVars: EnvVars, cwd: Option<string>)
    | Wait(pid: nat)
    | Close(h: nat)

  datatype RunResult = Returned(status: int) | IndexError | TypeError

  datatype Outcome = Outcome(result: RunResult, trace: seq<Event>)

  // ---------- Commands with their working directory ----------

  datatype Item = Item(cmd: Node, cwd: string)

  type Group = seq<Item>

  /** os.path.join of two components on a POSIX system. */
  function PathJoin(a: string, b: string): string {
    if b != "" && b[0] == '/' then b
    else if a == "" || a[|a| - 1] == '/' then a + b
    else a + "/" + b
  }

  predicate IsNullDevice(name: string) {
    name == "NUL:" || name == "/dev/null"
  }

  function ProcessCwd(cwd: string): Option<string> {
    if cwd == "." then None else Some(cwd)
  }

  // ---------- The program that a pipeline denotes ----------

  /** Right-nested groups; Broken is a group cut short by a failing cd. */
  datatype Program =
    | Last(group: Group)
    | Then(group: Group, op: Node, rest: Program)
    | Broken(group: Group, error: RunResult)

  /** Resolve every cd into the working directory of the commands behind it, and group by pipes. */
  ghost function Compile(p: seq<Node>, cwd: string, group: Group): Program {
    if p == [] then Broken(group, IndexError) else
      match p[0]
      case Chdir(dir) =>
        if |p| == 1 then Broken(group, IndexError)
        else if dir.None? then Broken(group, TypeError)
        else Compile(p[2..], PathJoin(cwd, dir.value), group)
      case _ =>
        var g := group + [Item(p[0], cwd)];
        if |p| == 1 then Last(g)
        else if p[1].Pipe? then Compile(p[2..], cwd, g)
        else Then(g, p[1], Compile(p[2..], cwd, []))
  }

  // ---------- What running one group does ----------

  function OpensOut(s: Stream): nat {
    if s.File? && !IsNullDevice(s.name) then 1 else 0
  }

  function OutHandle(s: Stream, h: nat): Handle {
    match s
    case Inherited => InheritHandle
    case File(name) => if IsNullDevice(name) then DevNull else FileHandle(h)
    case PIPE => NewPipe
    case STDOUT => SameAsStdout
  }

  function OpenOut(s: Stream, h: nat): seq<Event> {
    if s.File? && !IsNullDevice(s.name) then [Open(h, s.name, true)] else []
  }

  /** Only the first command of a group reads its own standard input. */
  function OpensIn(item: Item, first: bool): nat {
    if item.cmd.Command? && first && item.cmd.stdin.File? then 1 else 0
  }

  ghost function ItemOpens(item: Item, first: bool): nat {
    if item.cmd.Command? then OpensIn(item, first) + OpensOut(item.cmd.stdout) + OpensOut(item.cmd.stderr) else 0
  }

  ghost function ItemTrace(item: Item, first: bool, pid: nat, h: nat): seq<Event>
    requires first || pid > 0
  {
    match item.cmd
    case Command(_, argv, stdin, stdout, stderr, env) =>
      var h1 := h + OpensIn(item, first);
      var h2 := h1 + OpensOut(stdout);
      var input := if !first then PipeFrom(pid - 1) else if stdin.File? then FileHandle(h) else InheritHandle;
      (if first && stdin.File? then [Open(h, stdin.name, false)] else []) +
      OpenOut(stdout, h1) + OpenOut(stderr, h2) +
      [StartProcess(pid, argv, input, OutHandle(stdout, h1), OutHandle(stderr, h2), env, ProcessCwd(item.cwd))]
    case _ => []
  }

  ghost function GroupOpens(g: Group): nat {
    if g == [] then 0 else GroupOpens(g[..|g| - 1]) + ItemOpens(g[|g| - 1], |g| == 1)
  }

  /** All commands of the group are started, left to right. */
  ghost function StartTrace(g: Group, pid: nat, h: nat): seq<Event> {
    if g == [] then [] else
      var front := g[..|g| - 1];
      StartTrace(front, pid, h) + ItemTrace(g[|g| - 1], |g| == 1, pid + |front|, h + GroupOpens(front))
  }

  /** Processes first..first+n-1 are waited for in order. */
  ghost function WaitTrace(first: nat, n: nat): seq<Event> {
    seq(n, i requires 0 <= i => Wait(first + i))
  }

  ghost function CloseTrace(first: nat, n: nat): seq<Event> {
    seq(n, i requires 0 <= i => Close(first + i))
  }

  ghost function GroupTrace(g: Group, pid: nat, h: nat): seq<Event> {
    StartTrace(g, pid, h) + WaitTrace(pid, |g|) + CloseTrace(h, GroupOpens(g))
  }

  /** Whether the group behind op runs after a group that ended with status st. */
  predicate Proceeds(op: Node, st: int) {
    if op.Or? then st != 0 else st == 0
  }

  /**
   * The right-nested reading g1 op (g2 op ...): a group's status is that of its last command,
   * and a short-circuited operator ends the whole run.
   */
  ghost function Eval(prog: Program, status: int -> int, pid: nat, h: nat): Outcome {
    match prog
    case Broken(g, error) => Outcome(error, StartTrace(g, pid, h))
    case Last(g) => Outcome(Returned(status(pid + |g| - 1)), GroupTrace(g, pid, h))
    case Then(g, op, rest) =>
      var st := status(pid + |g| - 1);
      if Proceeds(op, st) then
        var later := Eval(rest, status, pid + |g|, h + GroupOpens(g));
        Outcome(later.result, GroupTrace(g, pid, h) + later.trace)
      else Outcome(Returned(st), GroupTrace(g, pid, h))
  }

  // ---------- The runner ----------

  /** The handles that CloseFiles closes. */
  ghost function RealFiles(files: seq<Handle>): seq<Event> {
    if files == [] then [] else
      RealFiles(files[..|files| - 1]) +
      match files[|files| - 1]
      case FileHandle(h) => [Close(h)]
      case _ => []
  }

  lemma RealFilesAppend(files: seq<Handle>, f: Handle)
    ensures RealFiles(files + [f]) == RealFiles(files) + if f.FileHandle? then [Close(f.h)] else []
  {
    assert (files + [f])[..|files|] == files;
  }

  /** _exec_piped_commands: wait for all, and report the last status. */
  method ExecPipedCommands(commands: seq<nat>, status: int -> int) returns (retval: int, events: seq<Event>)
    requires commands != []
    ensures retval == status(commands[|commands| - 1])
    ensures events == seq(|commands|, i requires 0 <= i < |commands| => Wait(commands[i]))
  {
    var retvals: seq<int> := [];
    events := [];
    for i := 0 to |commands|
      invariant retvals == seq(i, j requires 0 <= j < i => status(commands[j]))
      invariant events == seq(i, j requires 0 <= j < i => Wait(commands[j]))
    {
      events := events + [Wait(commands[i])];
      retvals := retvals + [status(commands[i])];
    }
    assert retvals[|commands| - 1] == status(commands[|commands| - 1]);
    retval := 0;
    for i := 0 to |retvals|
      invariant retval == 0 && forall j :: 0 <= j < i ==> retvals[j] == 0
    {
      if retvals[i] != 0 {
        retval := retvals[|retvals| - 1];
        break;
      }
    }
  }

  /** Close every file but the null device. */
  method CloseFiles(files: seq<Handle>) returns (events: seq<Event>)
    ensures events == RealFiles(files)
  {
    events := [];
    for i := 0 to |files|
      invariant events == RealFiles(files[..i])
    {
      assert files[..i + 1][..i] == files[..i];
      match files[i] {
        case FileHandle(h) => events := events + [Close(h)];
        case _ =>
      }
    }
    assert files[..|files|] == files;
  }

  lemma CloseConcat(files: seq<Event>, h: nat, m: nat, n: nat)
    ensures files + CloseTrace(h, m) + CloseTrace(h + m, n) == files + CloseTrace(h, m + n)
    ensures files + CloseTrace(h, 0) == files
  {
    assert CloseTrace(h, m) + CloseTrace(h + m, n) == CloseTrace(h, m + n);
    assert files + CloseTrace(h, m) + CloseTrace(h + m, n) == files + (CloseTrace(h, m) + CloseTrace(h + m, n));
  }

  /** Open the files of one command and start its process. */
  method Launch(cmd: Node, cwd: string, inPipe: bool, pid: nat, opens0: nat, files0: seq<Handle>)
    returns (events: seq<Event>, opens: nat, files: seq<Handle>)
    requires cmd.Command? && CommandBodyOk(cmd) && cmd.stdout != STDOUT && (inPipe ==> pid > 0)
    ensures events == ItemTrace(Item(cmd, cwd), !inPipe, pid, opens0)
    ensures opens == opens0 + ItemOpens(Item(cmd, cwd), !inPipe)
    ensures RealFiles(files) == RealFiles(files0) + CloseTrace(opens0, opens - opens0)
  {
    hide RealFiles, CloseTrace, OpenOut, OutHandle, OpensOut;
    ghost var closing := RealFiles(files0);
    var stdin, input := OpenStdin(cmd, inPipe, pid, opens0);
    files, opens := files0, opens0;
    CloseConcat(closing, opens0, 0, 0);
    if stdin.FileHandle? {
      RealFilesAppend(files, stdin);
      OneClose(opens0);
      files, opens := files + [stdin], opens + 1;
    }
    ghost var opens1 := opens;
    var stdout, out, next, all := OpenOutFile(cmd.stdout, opens, files);
    CloseConcat(closing, opens0, opens1 - opens0, next - opens1);
    opens, files := next, all;
    ghost var opens2 := opens;
    var stderr, err;
    stderr, err, next, all := OpenOutFile(cmd.stderr, opens, files);
    CloseConcat(closing, opens0, opens2 - opens0, next - opens2);
    opens, files := next, all;
    events := input + out + err +
      [StartProcess(pid, cmd.argv, stdin, stdout, stderr, cmd.envVars, ProcessCwd(cwd))];
  }

  lemma OneClose(h: nat)
    ensures CloseTrace(h, 1) == [Close(h)]
  {
  }

  /** A piped command reads from its predecessor, whatever its own redirection says. */
  method OpenStdin(cmd: Node, inPipe: bool, pid: nat, opens: nat) returns (stdin: Handle, events: seq<Event>)
    requires cmd.Command? && CommandBodyOk(cmd) && (inPipe ==> pid > 0)
    ensures stdin == if inPipe then PipeFrom(pid - 1) else if cmd.stdin.File? then FileHandle(opens) else InheritHandle
    ensures events == if !inPipe && cmd.stdin.File? then [Open(opens, cmd.stdin.name, false)] else []
  {
    stdin, events := InheritHandle, [];
    if inPipe {
      stdin := PipeFrom(pid - 1);
    } else if cmd.stdin != Inherited {
      stdin := FileHandle(opens);
      events := [Open(opens, cmd.stdin.name, false)];
    }
  }

  /** The handle for an output stream; a named file other than the null device is opens. */
  method OpenOutFile(s: Stream, opens0: nat, files0: seq<Handle>)
    returns (handle: Handle, events: seq<Event>, opens: nat, files: seq<Handle>)
    ensures handle == OutHandle(s, opens0) && events == OpenOut(s, opens0) && opens == opens0 + OpensOut(s)
    ensures RealFiles(files) == RealFiles(files0) + CloseTrace(opens0, opens - opens0)
  {
    events, opens, files := [], opens0, files0;
    match s {
      case Inherited => handle := InheritHandle;
      case PIPE => handle := NewPipe;
      case STDOUT => handle := SameAsStdout;
      case File(name) =>
        if IsNullDevice(name) {
          handle := DevNull;
        } else {
          handle := FileHandle(opens0);
          events, opens := [Open(opens0, name, true)], opens0 + 1;
        }
        RealFilesAppend(files0, handle);
        files := files0 + [handle];
    }
  }

  ghost predicate Consecutive(pids: seq<nat>, first: nat, n: nat) {
    |pids| == n && forall i :: 0 <= i < n ==> pids[i] == first + i
  }

  /** A run so far: finished groups behind, and the started part of a group in hand. */
  ghost predicate InGroup(group: Group, pid: nat, h: nat, pids: seq<nat>, files: seq<Handle>,
                          started: nat, opens: nat) {
    && started == pid + |group| && opens == h + GroupOpens(group)
    && Consecutive(pids, pid, |group|)
    && RealFiles(files) == CloseTrace(h, GroupOpens(group))
  }

  ghost function Prepend(before: seq<Event>, o: Outcome): Outcome {
    Outcome(o.result, before + o.trace)
  }

  lemma Opening(p: seq<Node>)
    requires WellFormed(p)
    ensures |p| > 0 && (p[0].Chdir? || (p[0].Command? && CommandBodyOk(p[0]) && p[0].stdout != STDOUT))
    ensures |p| > 1 ==> |p| > 2 && WellFormed(p[2..]) && IsOp(p[1]) && (p[0].Chdir? ==> p[1] == And)
  {
    PairAt(p, 0);
    if |p| > 1 {
      var front, tail := p[..|p| - 1], p[2..];
      assert tail[..|tail| - 1] == front[2..];
      forall i | 0 <= i < |front[2..]|
        ensures SlotOk(front[2..], i)
      {
        assert SlotOk(front, i + 2);
        assert front[2..][i] == front[i + 2];
        assert i % 2 == 0 ==> front[2..][i + 1] == front[i + 3];
      }
    }
  }

  lemma GroupGrows(group: Group, item: Item, pid: nat, h: nat)
    ensures StartTrace(group + [item], pid, h) ==
            StartTrace(group, pid, h) + ItemTrace(item, group == [], pid + |group|, h + GroupOpens(group))
    ensures GroupOpens(group + [item]) == GroupOpens(group) + ItemOpens(item, group == [])
  {
    hide ItemTrace, ItemOpens;
    var g := group + [item];
    assert g[..|g| - 1] == group && g[|g| - 1] == item;
    assert |g| == 1 <==> group == [];
  }

  // ---------- The reading, one loop step at a time ----------

  lemma ReadChdir(p: seq<Node>, cwd: string, group: Group, status: int -> int, pid: nat, h: nat)
    requires WellFormed(p) && p[0].Chdir? && (|p| == 1 || |p| > 2)
    ensures var o := Eval(Compile(p, cwd, group), status, pid, h);
            if |p| == 1 then o == Outcome(IndexError, StartTrace(group, pid, h))
            else if p[0].dir.None? then o == Outcome(TypeError, StartTrace(group, pid, h))
            else o == Eval(Compile(p[2..], PathJoin(cwd, p[0].dir.value), group), status, pid, h)
  {
  }

  lemma CompileCommand(p: seq<Node>, cwd: string, group: Group)
    requires WellFormed(p) && p[0].Command?
    ensures var g := group + [Item(p[0], cwd)];
            Compile(p, cwd, group) ==
            if |p| == 1 then Last(g)
            else if p[1].Pipe? then Compile(p[2..], cwd, g)
            else Then(g, p[1], Compile(p[2..], cwd, []))
  {
    Opening(p);
    if |p| > 1 {
      assert p != [] && !p[0].Chdir?;
    }
  }

  lemma EvalThen(g: Group, op: Node, rest: Program, status: int -> int, pid: nat, h: nat)
    ensures var st := status(pid + |g| - 1);
            Eval(Then(g, op, rest), status, pid, h) ==
            if Proceeds(op, st) then Prepend(GroupTrace(g, pid, h), Eval(rest, status, pid + |g|, h + GroupOpens(g)))
            else Outcome(Returned(st), GroupTrace(g, pid, h))
  {
    hide GroupTrace, GroupOpens, Proceeds;
  }

  lemma EvalLast(g: Group, status: int -> int, pid: nat, h: nat)
    ensures Eval(Last(g), status, pid, h) == Outcome(Returned(status(pid + |g| - 1)), GroupTrace(g, pid, h))
  {
  }

  lemma ReadCommand(p: seq<Node>, cwd: string, group: Group, status: int -> int, pid: nat, h: nat)
    requires WellFormed(p) && p[0].Command? && (|p| == 1 || |p| > 2)
    ensures var g := group + [Item(p[0], cwd)];
            var o := Eval(Compile(p, cwd, group), status, pid, h);
            var st := status(pid + |g| - 1);
            if |p| == 1 then o == Outcome(Returned(st), GroupTrace(g, pid, h))
            else if p[1].Pipe? then o == Eval(Compile(p[2..], cwd, g), status, pid, h)
            else if !Proceeds(p[1], st) then o == Outcome(Returned(st), GroupTrace(g, pid, h))
            else o == Prepend(GroupTrace(g, pid, h),
                              Eval(Compile(p[2..], cwd, []), status, pid + |g|, h + GroupOpens(g)))
  {
    hide *;
    var g := group + [Item(p[0], cwd)];
    CompileCommand(p, cwd, group);
    if |p| == 1 {
      EvalLast(g, status, pid, h);
    } else if !p[1].Pipe? {
      EvalThen(g, p[1], Compile(p[2..], cwd, []), status, pid, h);
    }
  }

  lemma PrependTwice(a: seq<Event>, b: seq<Event>, o: Outcome)
    ensures Prepend(a, Prepend(b, o)) == Prepend(a + b, o)
    ensures Prepend(a, Outcome(o.result, b)) == Outcome(o.result, a + b)
    ensures Prepend([], o) == o
  {
    assert a + (b + o.trace) == a + b + o.trace;
    assert [] + o.trace == o.trace;
  }

  lemma NoGroupYet(pid: nat, h: nat)
    ensures InGroup([], pid, h, [], [], pid, h) && StartTrace([], pid, h) == []
  {
  }

  lemma GroupExtended(group: Group, item: Item, pid: nat, h: nat, pids: seq<nat>, files: seq<Handle>,
                      started: nat, opens: nat, opens': nat, files': seq<Handle>)
    requires InGroup(group, pid, h, pids, files, started, opens)
    requires opens' == opens + ItemOpens(item, group == [])
    requires RealFiles(files') == RealFiles(files) + CloseTrace(opens, opens' - opens)
    ensures InGroup(group + [item], pid, h, pids + [started], files', started + 1, opens')
  {
    hide RealFiles, ItemOpens, CloseTrace, ItemTrace, StartTrace;
    GroupGrows(group, item, pid, h);
    CloseConcat([], h, opens - h, opens' - opens);
    assert [] + CloseTrace(h, opens - h) == CloseTrace(h, opens - h);
    assert [] + CloseTrace(h, opens' - h) == CloseTrace(h, opens' - h);
  }

  /** Waiting for the group and closing its files completes its trace. */
  lemma GroupDone(group: Group, pid: nat, h: nat, pids: seq<nat>, files: seq<Handle>, started: nat, opens: nat)
    requires InGroup(group, pid, h, pids, files, started, opens) && group != []
    ensures |pids| == |group| && pids[|pids| - 1] == pid + |group| - 1
    ensures started == pid + |group| && opens == h + GroupOpens(group)
    ensures StartTrace(group, pid, h) + seq(|pids|, i requires 0 <= i < |pids| => Wait(pids[i])) + RealFiles(files) ==
            GroupTrace(group, pid, h)
  {
    assert seq(|pids|, i requires 0 <= i < |pids| => Wait(pids[i])) == WaitTrace(pid, |group|);
  }

  lemma Associate(a: seq<Event>, b: seq<Event>, c: seq<Event>, d: seq<Event>)
    ensures a + b + c + d == a + (b + c + d)
  {
  }

  /** The runner carries out the right-nested reading, with every cd applied to what follows it. */
  method Run(commands: seq<Node>, status: int -> int) returns (result: RunResult, trace: seq<Event>)
    requires WellFormed(commands)
    ensures Outcome(result, trace) == Eval(Compile(commands, ".", []), status, 0, 0)
  {
    hide *;
    var pipeline := commands;
    var filesToClose: seq<Handle> := [];
    var pipedCommands: seq<nat> := [];
    var inPipe := false;
    var cwd := ".";
    var started: nat, opens: nat := 0, 0;
    trace := [];
    ghost var group: Group, pid0: nat, h0: nat, before: seq<Event> := [], 0, 0, [];
    ghost var expected := Eval(Compile(commands, cwd, group), status, 0, 0);
    PrependTwice([], [], expected);
    NoGroupYet(0, 0);
    while true
      invariant WellFormed(pipeline)
      invariant expected == Prepend(before, Eval(Compile(pipeline, cwd, group), status, pid0, h0))
      invariant trace == before + StartTrace(group, pid0, h0)
      invariant InGroup(group, pid0, h0, pipedCommands, filesToClose, started, opens)
      invariant inPipe <==> group != []
      decreases |pipeline|
    {
      Opening(pipeline);
      ghost var current := pipeline;
      var node := pipeline[0];
      pipeline := pipeline[1..];
      if node.Chdir? {
        ReadChdir(current, cwd, group, status, pid0, h0);
        if pipeline == [] {
          PrependTwice(before, StartTrace(group, pid0, h0), Outcome(IndexError, []));
          return IndexError, trace;
        }
        pipeline := pipeline[1..];
        if node.dir.None? {
          PrependTwice(before, StartTrace(group, pid0, h0), Outcome(TypeError, []));
          return TypeError, trace;
        }
        assert pipeline == current[2..];
        cwd := PathJoin(cwd, node.dir.value);
        continue;
      }
      ReadCommand(current, cwd, group, status, pid0, h0);
      ghost var item := Item(node, cwd);
      StartedIsNext(group, pid0, h0, pipedCommands, filesToClose, started, opens);
      GroupGrows(group, item, pid0, h0);
      var events, opens', files' := Launch(node, cwd, inPipe, started, opens, filesToClose);
      GroupExtended(group, item, pid0, h0, pipedCommands, filesToClose, started, opens, opens', files');
      trace := trace + events;
      opens, filesToClose := opens', files';
      pipedCommands := pipedCommands + [started];
      started := started + 1;
      group := group + [item];
      assert trace == before + StartTrace(group, pid0, h0);
      if pipeline != [] && pipeline[0].Pipe? {
        pipeline := pipeline[1..];
        assert pipeline == current[2..];
        inPipe := true;
        continue;
      }
      GroupDone(group, pid0, h0, pipedCommands, filesToClose, started, opens);
      var retval, waits := ExecPipedCommands(pipedCommands, status);
      var closes := CloseFiles(filesToClose);
      Associate(before, StartTrace(group, pid0, h0), waits, closes);
      trace := trace + waits + closes;
      PrependTwice(before, GroupTrace(group, pid0, h0), Outcome(Returned(retval), []));
      if pipeline == [] {
        return Returned(retval), trace;
      }
      var nextNode := pipeline[0];
      pipeline := pipeline[1..];
      assert pipeline == current[2..];
      ProceedsWhen(nextNode, retval);
      if nextNode.Or? {
        if retval == 0 {
          return Returned(retval), trace;
        }
      } else {
        if retval != 0 {
          return Returned(retval), trace;
        }
      }
      PrependTwice(before, GroupTrace(group, pid0, h0), Eval(Compile(pipeline, cwd, []), status, started, opens));
      before, pid0, h0, group := trace, started, opens, [];
      filesToClose, inPipe, pipedCommands := [], false, [];
      NoGroupYet(pid0, h0);
    }
  }

  lemma ProceedsWhen(op: Node, st: int)
    ensures Proceeds(op, st) <==> if op.Or? then st != 0 else st == 0
  {
  }

  lemma StartedIsNext(group: Group, pid: nat, h: nat, pids: seq<nat>, files: seq<Handle>, started: nat, opens: nat)
    requires InGroup(group, pid, h, pids, files, started, opens)
    ensures started == pid + |group| && opens == h + GroupOpens(group)
  {
  }
}
