/**
 * Lists of pipelines as a shell reads them, and exactly when the runner reads them the same way.
 */
module ShellLists {
  import opened Wrappers
  import opened ShellParser
  import opened ShellGrammar
  import opened ShellRunner

  // ---------- The reading of the shell ----------

  /**
   * What the standard leaves to the environment: where a cd without a name goes, and whether a cd
   * behind a pipe moves the shell itself.
   */
  datatype Shell = Shell(home: string, pipedCdMoves: bool)

  /** A shell between two pipelines: last status, directory, process and file counters, and its trace. */
  datatype State = State(status: int, cwd: string, pid: nat, opens: nat, trace: seq<Event>)

  const READY := State(0, ".", 0, 0, [])

  predicate IsListOp(n: Node) {
    n == And || n == Or
  }

  /** The nodes in front of the first && or ||. */
  function PipelineLength(p: seq<Node>): (n: nat)
    ensures n <= |p| && (n < |p| ==> IsListOp(p[n]))
    ensures forall i :: 0 <= i < n ==> !IsListOp(p[i])
  {
    if p == [] || IsListOp(p[0]) then 0 else 1 + PipelineLength(p[1..])
  }

  /** The commands of one pipeline, all in the same directory. */
  function Commands(q: seq<Node>, cwd: string): Group {
    if q == [] then [] else (if q[0].Command? then [Item(q[0], cwd)] else []) + Commands(q[1..], cwd)
  }

  function CdTarget(shell: Shell, cwd: string, dir: Option<string>): string {
    if dir.Some? then PathJoin(cwd, dir.value) else shell.home
  }

  predicate EndsInCd(q: seq<Node>) {
    q != [] && q[|q| - 1].Chdir?
  }

  /** A cd succeeds and starts no process; a pipeline's status is that of its last command. */
  ghost function RunPipeline(shell: Shell, s: State, q: seq<Node>, status: int -> int): State {
    var g := Commands(q, s.cwd);
    State(
      if EndsInCd(q) then 0 else status(s.pid + |g| - 1),
      if EndsInCd(q) && (g == [] || shell.pipedCdMoves) then CdTarget(shell, s.cwd, q[|q| - 1].dir) else s.cwd,
      s.pid + |g|,
      s.opens + GroupOpens(g),
      s.trace + if g == [] then [] else GroupTrace(g, s.pid, s.opens))
  }

  /**
   * Section 2.9.3: && and || have equal precedence and associate to the left. The pipeline behind op
   * runs if the list up to op ended with a suitable status, and is skipped otherwise.
   */
  ghost function RunList(shell: Shell, s: State, op: Node, p: seq<Node>, status: int -> int): State
    decreases |p|
  {
    var n := PipelineLength(p);
    var next := if Proceeds(op, s.status) then RunPipeline(shell, s, p[..n], status) else s;
    if n == |p| then next else RunList(shell, next, p[n], p[n + 1..], status)
  }

  ghost function Final(s: State): Outcome {
    Outcome(Returned(s.status), s.trace)
  }

  ghost function ShellReading(shell: Shell, p: seq<Node>, status: int -> int): Outcome {
    Final(RunList(shell, READY, And, p, status))
  }

  /** What the runner does, by the contract of Run. */
  ghost function RunnerReading(p: seq<Node>, status: int -> int): Outcome {
    Eval(Compile(p, ".", []), status, 0, 0)
  }

  // ---------- When the two agree ----------

  /** A cd has a name, something behind it, and no pipe in front of it. */
  predicate CdOk(p: seq<Node>, i: nat)
    requires i < |p|
  {
    p[i].Chdir? ==> p[i].dir.Some? && i + 1 < |p| && (i > 0 ==> !p[i - 1].Pipe?)
  }

  predicate PlainCds(p: seq<Node>) {
    forall i :: 0 <= i < |p| ==> CdOk(p, i)
  }

  /** The list from its first command on. */
  function FromFirstCommand(p: seq<Node>): seq<Node> {
    if |p| < 2 || !p[0].Chdir? then p else FromFirstCommand(p[2..])
  }

  /** From the first command on, all list operators are alike, those behind cds included. */
  predicate OneKind(p: seq<Node>) {
    And !in FromFirstCommand(p) || Or !in FromFirstCommand(p)
  }

  function OtherKind(op: Node): Node {
    if op == And then Or else And
  }

  // ---------- Pipelines in the runner's program ----------

  lemma LengthStep(p: seq<Node>)
    requires WellFormed(p)
    ensures |p| == 1 ==> PipelineLength(p) == 1
    ensures |p| > 1 && p[1].Pipe? ==> |p| > 2 && PipelineLength(p) == 2 + PipelineLength(p[2..])
    ensures |p| > 1 && !p[1].Pipe? ==> PipelineLength(p) == 1
  {
    Opening(p);
    if |p| > 1 {
      assert p[1..][0] == p[1] && p[1..][1..] == p[2..];
    }
  }

  lemma CommandsStep(q: seq<Node>, n: Node, cwd: string)
    ensures Commands([n] + q, cwd) == (if n.Command? then [Item(n, cwd)] else []) + Commands(q, cwd)
    ensures Commands([], cwd) == []
  {
    assert ([n] + q)[1..] == q;
  }

  lemma CommandsPiped(p: seq<Node>, m: nat, cwd: string)
    requires |p| > 2 && p[0].Command? && p[1].Pipe? && m + 2 <= |p|
    ensures Commands(p[..m + 2], cwd) == [Item(p[0], cwd)] + Commands(p[2..][..m], cwd)
  {
    hide Commands;
    var q := p[2..][..m];
    assert p[..m + 2] == [p[0]] + ([p[1]] + q);
    CommandsStep([p[1]] + q, p[0], cwd);
    CommandsStep(q, p[1], cwd);
  }

  lemma CommandsOne(n: Node, cwd: string)
    ensures Commands([n], cwd) == if n.Command? then [Item(n, cwd)] else []
  {
    CommandsStep([], n, cwd);
    assert [n] + [] == [n];
  }

  /** What the runner's program does with the pipeline at the front of a list. */
  ghost predicate CompilesTo(p: seq<Node>, n: nat, cwd: string, group: Group, prog: Program)
    requires 0 < n <= |p|
  {
    var g := group + Commands(p[..n], cwd);
    prog ==
    if p[n - 1].Chdir? then Compile(p[n - 1..], cwd, g)
    else if n == |p| then Last(g)
    else Then(g, p[n], Compile(p[n + 1..], cwd, []))
  }

  lemma CompileSingle(p: seq<Node>, cwd: string, group: Group)
    requires WellFormed(p) && p[0].Command? && (|p| > 1 ==> !p[1].Pipe?)
    ensures PipelineLength(p) == 1 && Commands(p[..1], cwd) != []
    ensures |p| > 1 ==> |p| > 2 && WellFormed(p[2..])
    ensures CompilesTo(p, 1, cwd, group, Compile(p, cwd, group))
  {
    hide WellFormed, Compile, PathJoin, CommandBodyOk;
    Opening(p);
    LengthStep(p);
    assert p[..1] == [p[0]];
    CommandsOne(p[0], cwd);
    CompileCommand(p, cwd, group);
  }

  lemma CompilePiped(p: seq<Node>, m: nat, cwd: string, group: Group)
    requires WellFormed(p) && p[0].Command? && |p| > 2 && p[1].Pipe? && 0 < m <= |p[2..]|
    ensures Commands(p[..m + 2], cwd) != []
    ensures CompilesTo(p[2..], m, cwd, group + [Item(p[0], cwd)], Compile(p, cwd, group)) <==>
            CompilesTo(p, m + 2, cwd, group, Compile(p, cwd, group))
  {
    hide WellFormed, Compile, PathJoin, CommandBodyOk;
    var item, rest := Item(p[0], cwd), p[2..];
    CommandsPiped(p, m, cwd);
    assert group + [item] + Commands(rest[..m], cwd) == group + ([item] + Commands(rest[..m], cwd));
    assert rest[m - 1] == p[m + 1] && rest[m - 1..] == p[m + 1..];
    if m < |rest| {
      assert rest[m] == p[m + 2] && rest[m + 1..] == p[m + 3..];
    }
  }

  lemma CompiledAtCd(p: seq<Node>, cwd: string, group: Group)
    requires WellFormed(p) && p[0].Chdir?
    ensures PipelineLength(p) == 1
    ensures |p| > 1 ==> |p| > 2 && p[1] == And && WellFormed(p[2..])
    ensures CompilesTo(p, 1, cwd, group, Compile(p, cwd, group))
  {
    Opening(p);
    LengthStep(p);
    CommandsOne(p[0], cwd);
    assert p[..1] == [p[0]] && group + [] == group && p[0..] == p;
  }

  lemma {:induction false} CompilePipeline(p: seq<Node>, cwd: string, group: Group)
    requires WellFormed(p) && p[0].Command?
    ensures var n := PipelineLength(p);
            && 0 < n && Commands(p[..n], cwd) != []
            && (n < |p| ==> WellFormed(p[n + 1..]))
            && CompilesTo(p, n, cwd, group, Compile(p, cwd, group))
            && (p[n - 1].Chdir? ==> n > 2 && p[n - 2].Pipe? && WellFormed(p[n - 1..]))
    decreases |p|
  {
    hide *;
    Opening(p);
    LengthStep(p);
    if |p| == 1 || !p[1].Pipe? {
      CompileSingle(p, cwd, group);
    } else {
      var item, rest := Item(p[0], cwd), p[2..];
      var m := PipelineLength(rest);
      Opening(rest);
      CompileCommand(p, cwd, group);
      if rest[0].Chdir? {
        CompiledAtCd(rest, cwd, group + [item]);
      } else {
        CompilePipeline(rest, cwd, group + [item]);
        assert rest[m - 1] == p[m + 1] && rest[m - 1..] == p[m + 1..];
        assert m > 1 ==> rest[m - 2] == p[m];
      }
      if m < |rest| { assert rest[m + 1..] == p[m + 3..]; }
      CompilePiped(p, m, cwd, group);
    }
  }

  // ---------- One pipeline at a time ----------

  /** The runner from the state that a shell has reached. */
  ghost function Runner(s: State, p: seq<Node>, status: int -> int): Outcome {
    Prepend(s.trace, Eval(Compile(p, s.cwd, []), status, s.pid, s.opens))
  }

  ghost function AfterGroup(s: State, g: Group, status: int -> int): State {
    State(status(s.pid + |g| - 1), s.cwd, s.pid + |g|, s.opens + GroupOpens(g), s.trace + GroupTrace(g, s.pid, s.opens))
  }

  lemma ListStep(shell: Shell, s: State, op: Node, p: seq<Node>, status: int -> int)
    ensures var n := PipelineLength(p);
            var next := if Proceeds(op, s.status) then RunPipeline(shell, s, p[..n], status) else s;
            RunList(shell, s, op, p, status) ==
            if n == |p| then next else RunList(shell, next, p[n], p[n + 1..], status)
  {
  }

  lemma RunCommands(shell: Shell, s: State, q: seq<Node>, status: int -> int)
    requires Commands(q, s.cwd) != [] && !EndsInCd(q)
    ensures RunPipeline(shell, s, q, status) == AfterGroup(s, Commands(q, s.cwd), status)
  {
  }

  lemma RunCd(shell: Shell, s: State, q: seq<Node>, status: int -> int)
    requires |q| == 1 && q[0].Chdir?
    ensures RunPipeline(shell, s, q, status) == s.(status := 0, cwd := CdTarget(shell, s.cwd, q[0].dir))
  {
    CommandsOne(q[0], s.cwd);
    assert q == [q[0]] && GroupOpens([]) == 0 && s.trace + [] == s.trace;
  }

  /** A cd with a name and something behind it. */
  lemma CdInStep(shell: Shell, s: State, op: Node, p: seq<Node>, status: int -> int)
    requires WellFormed(p) && p[0].Chdir? && p[0].dir.Some? && |p| > 1 && Proceeds(op, s.status)
    ensures |p| > 2 && WellFormed(p[2..])
    ensures var next := s.(status := 0, cwd := PathJoin(s.cwd, p[0].dir.value));
            && RunList(shell, s, op, p, status) == RunList(shell, next, And, p[2..], status)
            && Runner(s, p, status) == Runner(next, p[2..], status)
  {
    hide WellFormed, Compile, Eval, PathJoin, RunList, RunPipeline;
    CompiledAtCd(p, s.cwd, []);
    ListStep(shell, s, op, p, status);
    assert p[..1] == [p[0]];
    RunCd(shell, s, p[..1], status);
    ReadChdir(p, s.cwd, [], status, s.pid, s.opens);
  }

  /** A pipeline of commands. */
  lemma GroupInStep(shell: Shell, s: State, op: Node, p: seq<Node>, status: int -> int)
    requires WellFormed(p) && p[0].Command? && Proceeds(op, s.status)
    requires PipelineLength(p) > 0 ==> !p[PipelineLength(p) - 1].Chdir?
    ensures var n := PipelineLength(p);
            var g := Commands(p[..n], s.cwd);
            var next := AfterGroup(s, g, status);
            && n > 0 && g != [] && (n < |p| ==> WellFormed(p[n + 1..]))
            && RunList(shell, s, op, p, status) ==
               (if n == |p| then next else RunList(shell, next, p[n], p[n + 1..], status))
            && Runner(s, p, status) ==
               if n == |p| || !Proceeds(p[n], next.status) then Final(next) else Runner(next, p[n + 1..], status)
  {
    hide WellFormed, Compile, Eval, RunList, RunPipeline, Commands, GroupTrace, GroupOpens, Proceeds;
    var n := PipelineLength(p);
    CompilePipeline(p, s.cwd, []);
    ListStep(shell, s, op, p, status);
    var g := Commands(p[..n], s.cwd);
    RunCommands(shell, s, p[..n], status);
    assert [] + g == g;
    if n == |p| {
      EvalLast(g, status, s.pid, s.opens);
    } else {
      var rest := Compile(p[n + 1..], s.cwd, []);
      EvalThen(g, p[n], rest, status, s.pid, s.opens);
      PrependTwice(s.trace, GroupTrace(g, s.pid, s.opens), Eval(rest, status, s.pid + |g|, s.opens + GroupOpens(g)));
    }
  }

  // ---------- With plain cds and one kind of operator the readings agree ----------

  lemma {:induction false} SkipAll(shell: Shell, s: State, kind: Node, p: seq<Node>, status: int -> int)
    requires IsListOp(kind) && OtherKind(kind) !in p && !Proceeds(kind, s.status)
    ensures RunList(shell, s, kind, p, status) == s
    decreases |p|
  {
    hide *;
    var n := PipelineLength(p);
    ListStep(shell, s, kind, p, status);
    if n < |p| {
      OnlyKind(p, n, kind);
      SkipAll(shell, s, kind, p[n + 1..], status);
    }
  }

  lemma {:induction false} FromFirstCommandMembers(p: seq<Node>, n: Node)
    requires n in FromFirstCommand(p)
    ensures n in p
  {
    if |p| >= 2 && p[0].Chdir? { FromFirstCommandMembers(p[2..], n); }
  }

  lemma FirstCommandSuffix(p: seq<Node>, n: nat, kind: Node)
    requires p != [] && n <= |p| && kind !in FromFirstCommand(p)
    ensures p[0].Command? ==> kind !in p && kind !in FromFirstCommand(p[n..])
    ensures p[0].Chdir? && |p| > 1 ==> kind !in FromFirstCommand(p[2..])
  {
    if kind in FromFirstCommand(p[n..]) { FromFirstCommandMembers(p[n..], kind); }
  }

  lemma PlainFrom(p: seq<Node>, n: nat)
    requires PlainCds(p) && 0 < n <= |p|
    ensures PlainCds(p[n..])
    ensures p[0].Chdir? ==> p[0].dir.Some? && |p| > 1
    ensures p[n - 1].Chdir? && n > 1 ==> !p[n - 2].Pipe?
  {
    assert CdOk(p, 0) && CdOk(p, n - 1);
    forall i | 0 <= i < |p[n..]|
      ensures CdOk(p[n..], i)
    {
      assert CdOk(p, n + i);
    }
  }

  lemma {:induction false} Agrees(shell: Shell, s: State, op: Node, p: seq<Node>, kind: Node, status: int -> int)
    requires WellFormed(p) && PlainCds(p) && Proceeds(op, s.status)
    requires IsListOp(kind) && OtherKind(kind) !in FromFirstCommand(p)
    ensures Final(RunList(shell, s, op, p, status)) == Runner(s, p, status)
    decreases |p|
  {
    hide *;
    Opening(p);
    PlainFrom(p, 1);
    if p[0].Chdir? {
      CdInStep(shell, s, op, p, status);
      AfterCdProceeds();
      FirstCommandSuffix(p, 2, OtherKind(kind));
      PlainFrom(p, 2);
      Agrees(shell, s.(status := 0, cwd := PathJoin(s.cwd, p[0].dir.value)), And, p[2..], kind, status);
    } else {
      var n := PipelineLength(p);
      CompilePipeline(p, s.cwd, []);
      PlainFrom(p, n);
      GroupInStep(shell, s, op, p, status);
      var next := AfterGroup(s, Commands(p[..n], s.cwd), status);
      if n < |p| {
        FirstCommandSuffix(p, n + 1, OtherKind(kind));
        OnlyKind(p, n, kind);
        PlainFrom(p, n + 1);
        if Proceeds(p[n], next.status) {
          Agrees(shell, next, p[n], p[n + 1..], kind, status);
        } else {
          SkipAll(shell, next, kind, p[n + 1..], status);
        }
      }
    }
  }

  lemma AfterCdProceeds()
    ensures Proceeds(And, 0) && !Proceeds(Or, 0) && Proceeds(Or, 1) && !Proceeds(And, 1)
  {
  }

  lemma OnlyKind(p: seq<Node>, n: nat, kind: Node)
    requires n < |p| && IsListOp(p[n]) && IsListOp(kind) && OtherKind(kind) !in p
    ensures p[n] == kind
    ensures OtherKind(kind) !in p[n + 1..]
  {
    assert p[n] in p;
  }

  // ---------- With two kinds of operator they differ ----------

  lemma NextPipeline(p: seq<Node>)
    requires WellFormed(p)
    ensures var n := PipelineLength(p);
            && 0 < n && (n < |p| ==> WellFormed(p[n + 1..]))
            && (forall i :: 0 <= i < n - 1 ==> !p[i].Chdir?)
  {
    hide *;
    Opening(p);
    if p[0].Chdir? {
      CompiledAtCd(p, ".", []);
    } else {
      CompilePipeline(p, ".", []);
    }
    forall i | 0 <= i < PipelineLength(p) - 1
      ensures !p[i].Chdir?
    {
      NoCdInFront(p, i);
    }
  }

  lemma NoCdInFront(p: seq<Node>, i: nat)
    requires WellFormed(p) && i + 1 < |p| && !IsListOp(p[i + 1])
    ensures !p[i].Chdir?
  {
    hide CommandBodyOk;
    assert SlotOk(p[..|p| - 1], i);
  }

  lemma {:induction false} TraceExtends(shell: Shell, s: State, op: Node, p: seq<Node>, status: int -> int)
    ensures s.trace <= RunList(shell, s, op, p, status).trace
    decreases |p|
  {
    hide GroupTrace, Commands, CdTarget, GroupOpens, Proceeds;
    var n := PipelineLength(p);
    ListStep(shell, s, op, p, status);
    if n < |p| {
      var next := if Proceeds(op, s.status) then RunPipeline(shell, s, p[..n], status) else s;
      TraceExtends(shell, next, p[n], p[n + 1..], status);
    }
  }

  lemma FirstBehind(a: seq<Event>, b: seq<Event>, c: seq<Event>)
    requires b != []
    ensures a + [b[0]] <= a + b + c && |a| < |a + b + c|
  {
  }

  lemma FirstWait(pid: nat, n: nat)
    requires n > 0
    ensures WaitTrace(pid, n) != [] && WaitTrace(pid, n)[0] == Wait(pid)
  {
  }

  lemma GroupTraceWaits(g: Group, pid: nat, h: nat)
    requires g != []
    ensures |StartTrace(g, pid, h)| < |GroupTrace(g, pid, h)|
    ensures StartTrace(g, pid, h) + [Wait(pid)] <= GroupTrace(g, pid, h)
  {
    hide StartTrace, WaitTrace, CloseTrace, GroupOpens;
    FirstWait(pid, |g|);
    FirstBehind(StartTrace(g, pid, h), WaitTrace(pid, |g|), CloseTrace(h, GroupOpens(g)));
  }

  lemma AfterGroupLonger(s: State, g: Group, status: int -> int)
    requires g != []
    ensures var next := AfterGroup(s, g, status);
            |next.trace| > |s.trace| && next.pid == s.pid + |g| && next.status == status(s.pid + |g| - 1)
  {
    GroupTraceWaits(g, s.pid, s.opens);
  }

  /** Whatever runs next, some process starts unless only cds are left. */
  lemma {:induction false} GoesOn(shell: Shell, s: State, op: Node, p: seq<Node>, status: int -> int)
    requires WellFormed(p) && PlainCds(p) && Proceeds(op, s.status)
    ensures |RunList(shell, s, op, p, status).trace| > |s.trace|
    decreases |p|
  {
    hide *;
    Opening(p);
    PlainFrom(p, 1);
    if p[0].Chdir? {
      CdInStep(shell, s, op, p, status);
      AfterCdProceeds();
      PlainFrom(p, 2);
      GoesOn(shell, s.(status := 0, cwd := PathJoin(s.cwd, p[0].dir.value)), And, p[2..], status);
    } else {
      var n := PipelineLength(p);
      CompilePipeline(p, s.cwd, []);
      PlainFrom(p, n);
      GroupInStep(shell, s, op, p, status);
      var g := Commands(p[..n], s.cwd);
      AfterGroupLonger(s, g, status);
      if n < |p| {
        TraceExtends(shell, AfterGroup(s, g, status), p[n], p[n + 1..], status);
      }
    }
  }

  lemma OtherProceeds(kind: Node, op: Node, st: int)
    requires IsListOp(kind) && IsListOp(op) && op != kind && !Proceeds(kind, st)
    ensures Proceeds(op, st)
  {
  }

  lemma OtherBehind(p: seq<Node>, n: nat, kind: Node)
    requires n == PipelineLength(p) && IsListOp(kind) && kind in p
    ensures n < |p| && (p[n] == kind || kind in p[n + 1..])
  {
    hide *;
    var i :| 0 <= i < |p| && p[i] == kind;
    assert i > n ==> p[n + 1..][i - n - 1] == kind;
  }

  /** Behind a short-circuited operator, the first operator of the other kind makes something run. */
  lemma {:induction false} MixedGoesOn(shell: Shell, s: State, kind: Node, p: seq<Node>, status: int -> int)
    requires WellFormed(p) && PlainCds(p) && IsListOp(kind) && OtherKind(kind) in p && !Proceeds(kind, s.status)
    ensures |RunList(shell, s, kind, p, status).trace| > |s.trace|
    decreases |p|
  {
    hide WellFormed, PlainCds, Proceeds, RunList, RunPipeline;
    var n := PipelineLength(p);
    NextPipeline(p);
    ListStep(shell, s, kind, p, status);
    OtherBehind(p, n, OtherKind(kind));
    PlainFrom(p, n + 1);
    if p[n] == kind {
      MixedGoesOn(shell, s, kind, p[n + 1..], status);
    } else {
      OtherProceeds(kind, p[n], s.status);
      GoesOn(shell, s, p[n], p[n + 1..], status);
    }
  }

  /** The first pipeline ends with a status that stops the runner, but not the shell. */
  lemma {:induction false} MixedDiffers(shell: Shell, s: State, op: Node, p: seq<Node>, kind: Node, status: int -> int)
    requires WellFormed(p) && PlainCds(p) && Proceeds(op, s.status)
    requires var q := FromFirstCommand(p);
             PipelineLength(q) < |q| && q[PipelineLength(q)] == kind && OtherKind(kind) in q
    requires forall i :: !Proceeds(kind, status(i))
    ensures Final(RunList(shell, s, op, p, status)) != Runner(s, p, status)
    decreases |p|
  {
    hide WellFormed, PlainCds, Proceeds, RunList, RunPipeline, Compile, Eval;
    hide GroupTrace, GroupOpens, Commands, PathJoin;
    Opening(p);
    PlainFrom(p, 1);
    if p[0].Chdir? {
      CdInStep(shell, s, op, p, status);
      AfterCdProceeds();
      PlainFrom(p, 2);
      MixedDiffers(shell, s.(status := 0, cwd := PathJoin(s.cwd, p[0].dir.value)), And, p[2..], kind, status);
    } else {
      var n := PipelineLength(p);
      CompilePipeline(p, s.cwd, []);
      PlainFrom(p, n);
      GroupInStep(shell, s, op, p, status);
      OtherBehind(p, n, OtherKind(kind));
      PlainFrom(p, n + 1);
      MixedGoesOn(shell, AfterGroup(s, Commands(p[..n], s.cwd), status), kind, p[n + 1..], status);
    }
  }

  // ---------- With other cds they differ ----------

  /** Statuses that make the runner go through the whole list. */
  function Drive(p: seq<Node>, pid: nat, i: int): int
    decreases |p|
  {
    var n := PipelineLength(p);
    var g := |Commands(p[..n], "")|;
    if n == |p| then 0
    else if g > 0 && i == pid + g - 1 then if p[n] == Or then 1 else 0
    else Drive(p[n + 1..], pid + g, i)
  }

  ghost predicate Drives(status: int -> int, p: seq<Node>, pid: nat) {
    forall i :: pid <= i ==> status(i) == Drive(p, pid, i)
  }

  lemma {:induction false} CommandsAnywhere(q: seq<Node>, cwd: string)
    ensures |Commands(q, cwd)| == |Commands(q, "")|
  {
    if q != [] { CommandsAnywhere(q[1..], cwd); }
  }

  lemma DriveStep(p: seq<Node>, cwd: string, pid: nat, i: int)
    requires PipelineLength(p) < |p|
    ensures var n := PipelineLength(p);
            var g := |Commands(p[..n], cwd)|;
            Drive(p, pid, i) ==
            if g > 0 && i == pid + g - 1 then if p[n] == Or then 1 else 0 else Drive(p[n + 1..], pid + g, i)
  {
    hide Commands, PipelineLength;
    CommandsAnywhere(p[..PipelineLength(p)], cwd);
  }

  lemma DrivesOn(status: int -> int, p: seq<Node>, cwd: string, pid: nat)
    requires Drives(status, p, pid) && PipelineLength(p) < |p|
    ensures var n := PipelineLength(p);
            var g := Commands(p[..n], cwd);
            && Drives(status, p[n + 1..], pid + |g|)
            && (g != [] ==> Proceeds(p[n], status(pid + |g| - 1)))
  {
    hide Commands, PipelineLength, Drive;
    var n := PipelineLength(p);
    var g := |Commands(p[..n], cwd)|;
    forall i | pid + g <= i
      ensures status(i) == Drive(p[n + 1..], pid + g, i)
    {
      DriveStep(p, cwd, pid, i);
    }
    if g > 0 {
      DriveStep(p, cwd, pid, pid + g - 1);
    }
  }

  lemma ItemStarts(item: Item, first: bool, pid: nat, h: nat)
    requires item.cmd.Command? && (first || pid > 0)
    ensures ItemTrace(item, first, pid, h) != [] && !ItemTrace(item, first, pid, h)[0].Wait?
  {
  }

  ghost predicate StartsMore(o: Outcome, started: seq<Event>) {
    started <= o.trace && |started| < |o.trace| && !o.trace[|started|].Wait?
  }

  lemma StartsMoreItem(o: Outcome, g: Group, item: Item, pid: nat, h: nat)
    requires item.cmd.Command? && g != [] && StartTrace(g + [item], pid, h) <= o.trace
    ensures StartsMore(o, StartTrace(g, pid, h))
  {
    hide ItemTrace, StartTrace, GroupOpens;
    GroupGrows(g, item, pid, h);
    var more := ItemTrace(item, false, pid + |g|, h + GroupOpens(g));
    ItemStarts(item, false, pid + |g|, h + GroupOpens(g));
    var n := |StartTrace(g, pid, h)|;
    assert (StartTrace(g, pid, h) + more)[n] == more[0];
    assert StartTrace(g, pid, h) <= StartTrace(g, pid, h) + more;
  }

  /** The runner goes on with a started group behind a cd: it fails or starts one more process. */
  lemma {:induction false} GroupContinues(p: seq<Node>, cwd: string, g: Group, status: int -> int, pid: nat, h: nat)
    requires WellFormed(p) && g != []
    ensures var o := Eval(Compile(p, cwd, g), status, pid, h);
            !o.result.Returned? || StartsMore(o, StartTrace(g, pid, h))
    decreases |p|
  {
    hide WellFormed, StartTrace, GroupOpens, StartsMore, Proceeds, PathJoin, Compile, Eval, ItemTrace;
    Opening(p);
    if p[0].Chdir? {
      ReadChdir(p, cwd, g, status, pid, h);
      if |p| > 1 && p[0].dir.Some? {
        GroupContinues(p[2..], PathJoin(cwd, p[0].dir.value), g, status, pid, h);
      }
    } else {
      var item := Item(p[0], cwd);
      var o := Eval(Compile(p, cwd, g), status, pid, h);
      ReadCommand(p, cwd, g, status, pid, h);
      if |p| > 1 && p[1].Pipe? {
        GroupContinues(p[2..], cwd, g + [item], status, pid, h);
        MoreIsStarted(o, StartTrace(g + [item], pid, h));
      }
      if o.result.Returned? {
        StartsMoreItem(o, g, item, pid, h);
      }
    }
  }

  lemma MoreIsStarted(o: Outcome, started: seq<Event>)
    ensures StartsMore(o, started) ==> started <= o.trace
  {
  }

  /** Behind a piped cd the runner goes on with the pipe, where every shell waits. */
  lemma PipedCdDiffers(shell: Shell, s: State, op: Node, p: seq<Node>, status: int -> int)
    requires WellFormed(p) && p[0].Command? && Proceeds(op, s.status)
    requires PipelineLength(p) > 0 && p[PipelineLength(p) - 1].Chdir?
    ensures Final(RunList(shell, s, op, p, status)) != Runner(s, p, status)
  {
    hide WellFormed, Compile, Eval, RunList, Commands, GroupTrace, StartTrace, GroupOpens, Proceeds, CdTarget;
    var n := PipelineLength(p);
    CompilePipeline(p, s.cwd, []);
    ListStep(shell, s, op, p, status);
    var g := Commands(p[..n], s.cwd);
    assert [] + g == g;
    var next := RunPipeline(shell, s, p[..n], status);
    if n < |p| { TraceExtends(shell, next, p[n], p[n + 1..], status); }
    GroupContinues(p[n - 1..], s.cwd, g, status, s.pid, s.opens);
    GroupTraceWaits(g, s.pid, s.opens);
    var started := StartTrace(g, s.pid, s.opens);
    var k := |s.trace| + |started|;
    assert next.trace == s.trace + GroupTrace(g, s.pid, s.opens);
    assert next.trace[k] == GroupTrace(g, s.pid, s.opens)[|started|] == (started + [Wait(s.pid)])[|started|];
    assert RunList(shell, s, op, p, status).trace[k] == Wait(s.pid);
  }

  /** A trailing or nameless cd ends the runner with an error, which no shell reports. */
  lemma BadCdFails(s: State, p: seq<Node>, status: int -> int)
    requires WellFormed(p) && p[0].Chdir? && (|p| == 1 || p[0].dir.None?)
    ensures forall t :: Final(t) != Runner(s, p, status)
  {
    hide WellFormed, Compile, Eval, StartTrace;
    Opening(p);
    ReadChdir(p, s.cwd, [], status, s.pid, s.opens);
  }

  lemma PlainOrNot(p: seq<Node>, n: nat)
    requires WellFormed(p) && n == PipelineLength(p) && !PlainCds(p)
    requires p[0].Chdir? ==> p[0].dir.Some? && |p| > 1
    requires 0 < n && p[0].Command? ==> !p[n - 1].Chdir?
    ensures 0 < n < |p| && !PlainCds(p[n + 1..])
  {
    hide WellFormed, PlainCds, CommandBodyOk, PipelineLength;
    NextPipeline(p);
    Opening(p);
    if p[0].Chdir? { CompiledAtCd(p, ".", []); }
    NotPlain(p);
    var i :| 0 <= i < |p| && !CdOk(p, i);
    if i > n { CdOkFrom(p, n + 1, i); }
  }

  lemma CdOkFrom(p: seq<Node>, n: nat, i: nat)
    requires 0 < n <= i < |p| && !p[n - 1].Pipe? && !CdOk(p, i)
    ensures !PlainCds(p[n..])
  {
    assert !CdOk(p[n..], i - n);
  }

  lemma NotPlain(p: seq<Node>)
    requires !PlainCds(p)
    ensures exists i :: 0 <= i < |p| && !CdOk(p, i)
  {
  }

  lemma NoCommands(p: seq<Node>, cwd: string)
    requires p != [] && p[0].Chdir?
    ensures Commands(p[..1], cwd) == []
  {
    assert p[..1] == [p[0]];
    CommandsOne(p[0], cwd);
  }

  lemma {:induction false} CdDiffers(shell: Shell, s: State, op: Node, p: seq<Node>, status: int -> int)
    requires WellFormed(p) && !PlainCds(p) && Proceeds(op, s.status) && Drives(status, p, s.pid)
    ensures Final(RunList(shell, s, op, p, status)) != Runner(s, p, status)
    decreases |p|
  {
    hide *;
    var n := PipelineLength(p);
    Opening(p);
    NextPipeline(p);
    if p[0].Chdir? && (|p| == 1 || p[0].dir.None?) {
      BadCdFails(s, p, status);
    } else if p[0].Chdir? {
      CdInStep(shell, s, op, p, status);
      AfterCdProceeds();
      CompiledAtCd(p, s.cwd, []);
      DrivesOn(status, p, s.cwd, s.pid);
      NoCommands(p, s.cwd);
      PlainOrNot(p, n);
      CdDiffers(shell, s.(status := 0, cwd := PathJoin(s.cwd, p[0].dir.value)), And, p[2..], status);
    } else if p[n - 1].Chdir? {
      PipedCdDiffers(shell, s, op, p, status);
    } else {
      GroupInStep(shell, s, op, p, status);
      PlainOrNot(p, n);
      DrivesOn(status, p, s.cwd, s.pid);
      AfterGroupLonger(s, Commands(p[..n], s.cwd), status);
      CdDiffers(shell, AfterGroup(s, Commands(p[..n], s.cwd), status), p[n], p[n + 1..], status);
    }
  }

  // ---------- The theorem ----------

  lemma RunnerIsReady(p: seq<Node>, status: int -> int)
    ensures RunnerReading(p, status) == Runner(READY, p, status)
  {
    var o := Eval(Compile(p, ".", []), status, 0, 0);
    assert [] + o.trace == o.trace;
  }

  /** Some exit codes tell the readings apart unless all cds are plain and all operators alike. */
  lemma OtherwiseDiffers(shell: Shell, p: seq<Node>) returns (status: int -> int)
    requires WellFormed(p) && !(PlainCds(p) && OneKind(p))
    ensures ShellReading(shell, p, status) != RunnerReading(p, status)
  {
    AfterCdProceeds();
    if PlainCds(p) {
      var q := FromFirstCommand(p);
      OtherBehind(q, PipelineLength(q), And);
      var kind := q[PipelineLength(q)];
      var st := if kind == And then 1 else 0;
      status := _ => st;
      MixedDiffers(shell, READY, And, p, kind, status);
    } else {
      status := i => Drive(p, 0, i);
      CdDiffers(shell, READY, And, p, status);
    }
    RunnerIsReady(p, status);
  }

  /**
   * The runner reads a parsed command line as a shell does, for all exit codes, exactly when every cd
   * is named, in front of something and not behind a pipe, and all && and || from the first command
   * on are of one kind.
   */
  lemma AgreesIffOneKind(shell: Shell, p: seq<Node>)
    requires WellFormed(p)
    ensures PlainCds(p) && OneKind(p) <==>
            forall status: int -> int :: ShellReading(shell, p, status) == RunnerReading(p, status)
  {
    if PlainCds(p) && OneKind(p) {
      var kind := if Or !in FromFirstCommand(p) then And else Or;
      forall status: int -> int
        ensures ShellReading(shell, p, status) == RunnerReading(p, status)
      {
        AfterCdProceeds();
        Agrees(shell, READY, And, p, kind, status);
        RunnerIsReady(p, status);
      }
    } else {
      var status := OtherwiseDiffers(shell, p);
    }
  }

  /** In particular, a command line with plain cds that uses only && or only || is read as the shell reads it. */
  lemma SingleOperatorAgrees(shell: Shell, p: seq<Node>, status: int -> int)
    requires WellFormed(p) && PlainCds(p) && (And !in p || Or !in p)
    ensures ShellReading(shell, p, status) == RunnerReading(p, status)
  {
    hide *;
    if And in FromFirstCommand(p) { FromFirstCommandMembers(p, And); }
    if Or in FromFirstCommand(p) { FromFirstCommandMembers(p, Or); }
    ThenOneKind(p);
    AgreesIffOneKind(shell, p);
  }

  lemma ThenOneKind(p: seq<Node>)
    requires And !in FromFirstCommand(p) || Or !in FromFirstCommand(p)
    ensures OneKind(p)
  {
  }

  // ---------- Examples ----------

  function Plain(name: string): Node {
    NewCommand(name, [])
  }

  lemma PlainOk(name: string, next: Option<Node>)
    requires '=' !in name && name != "cd" && next != Some(Pipe)
    ensures NodeOk(Plain(name), next)
  {
    assert FirstEquals(name) == |name|;
  }

  lemma ThreeWellFormed(a: Node, op: Node, b: Node, op': Node, c: Node)
    requires NodeOk(a, Some(op)) && IsOp(op) && NodeOk(b, Some(op')) && IsOp(op') && NodeOk(c, None)
    ensures WellFormed([a, op, b, op', c])
  {
    hide NodeOk;
    CommittedAppend([], a, op);
    CommittedAppend([] + [a] + [op], b, op');
    var p := [a, op, b, op', c];
    assert p[..4] == [] + [a] + [op] + [b] + [op'];
  }

  lemma OneCommand(shell: Shell, s: State, op: Node, p: seq<Node>, status: int -> int)
    requires p != [] && p[0].Command? && (|p| > 1 ==> IsListOp(p[1])) && Proceeds(op, s.status)
    ensures var next := AfterGroup(s, [Item(p[0], s.cwd)], status);
            RunList(shell, s, op, p, status) ==
            if |p| == 1 then next else RunList(shell, next, p[1], p[2..], status)
  {
    hide GroupTrace, GroupOpens, Commands, RunList, RunPipeline, Proceeds;
    assert PipelineLength(p) == 1;
    assert p[..1] == [p[0]];
    CommandsOne(p[0], s.cwd);
    ListStep(shell, s, op, p, status);
    RunCommands(shell, s, p[..1], status);
  }

  lemma Skipped(shell: Shell, s: State, op: Node, p: seq<Node>, status: int -> int)
    requires |p| > 1 && !IsListOp(p[0]) && IsListOp(p[1]) && !Proceeds(op, s.status)
    ensures RunList(shell, s, op, p, status) == RunList(shell, s, p[1], p[2..], status)
  {
    hide RunList, RunPipeline, Proceeds;
    assert PipelineLength(p) == 1;
    ListStep(shell, s, op, p, status);
  }

  lemma RunnerStops(p: seq<Node>, status: int -> int)
    requires WellFormed(p) && p[0].Command? && |p| > 1 && !p[1].Pipe? && !Proceeds(p[1], status(0))
    ensures RunnerReading(p, status) == Final(AfterGroup(READY, [Item(p[0], ".")], status))
  {
    hide WellFormed, Compile, Eval, GroupTrace, GroupOpens, Proceeds;
    Opening(p);
    ReadCommand(p, ".", [], status, 0, 0);
    assert [] + [Item(p[0], ".")] == [Item(p[0], ".")];
    assert [] + GroupTrace([Item(p[0], ".")], 0, 0) == GroupTrace([Item(p[0], ".")], 0, 0);
  }

  /** The list "a && b || c" with a failing a: the runner stops, a shell goes on to c. */
  lemma MixedExample(shell: Shell)
    ensures var p := [Plain("a"), And, Plain("b"), Or, Plain("c")];
            var fails := (pid: int) => if pid == 0 then 1 else 0;
            && WellFormed(p)
            && RunnerReading(p, fails).result == Returned(1)
            && ShellReading(shell, p, fails).result == Returned(0)
  {
    hide WellFormed, RunList, RunnerReading, GroupTrace, GroupOpens, NodeOk;
    var a, b, c := Plain("a"), Plain("b"), Plain("c");
    var p := [a, And, b, Or, c];
    PlainOk("a", Some(And));
    PlainOk("b", Some(Or));
    PlainOk("c", None);
    ThreeWellFormed(a, And, b, Or, c);
    var fails := (pid: int) => if pid == 0 then 1 else 0;
    var s := AfterGroup(READY, [Item(a, ".")], fails);
    assert p[2..] == [b, Or, c] && [b, Or, c][2..] == [c];
    RunnerStops(p, fails);
    OneCommand(shell, READY, And, p, fails);
    Skipped(shell, s, And, [b, Or, c], fails);
    OneCommand(shell, s, Or, [c], fails);
  }

  /** What a shell does with a command, an or-operator, a cd and another command, if all commands succeed. */
  lemma CdSkipped(shell: Shell, a: Node, cd: Node, b: Node, works: int -> int)
    requires a.Command? && b.Command? && cd.Chdir? && works(0) == 0
    ensures RunList(shell, READY, And, [a, Or, cd, And, b], works) ==
            AfterGroup(AfterGroup(READY, [Item(a, ".")], works), [Item(b, ".")], works)
  {
    hide RunList, GroupTrace, GroupOpens;
    var p := [a, Or, cd, And, b];
    var s := AfterGroup(READY, [Item(a, ".")], works);
    assert p[2..] == [cd, And, b] && [cd, And, b][2..] == [b];
    OneCommand(shell, READY, And, p, works);
    Skipped(shell, s, Or, [cd, And, b], works);
    OneCommand(shell, s, And, [b], works);
  }

  lemma CdExampleWellFormed()
    ensures WellFormed([Plain("a"), Or, Chdir(Some("x")), And, Plain("b")])
  {
    hide WellFormed, NodeOk;
    PlainOk("a", Some(Or));
    CdNodeOk("x");
    PlainOk("b", None);
    ThreeWellFormed(Plain("a"), Or, Chdir(Some("x")), And, Plain("b"));
  }

  /** The list "a || cd x && b" with a successful a: the runner stops, a shell runs b where it is. */
  lemma CdExample(shell: Shell)
    ensures var a, b := Plain("a"), Plain("b");
            var p := [a, Or, Chdir(Some("x")), And, b];
            var works := (pid: int) => 0;
            && WellFormed(p)
            && RunnerReading(p, works) == Outcome(Returned(0), GroupTrace([Item(a, ".")], 0, 0))
            && ShellReading(shell, p, works) ==
               Outcome(Returned(0), GroupTrace([Item(a, ".")], 0, 0) + GroupTrace([Item(b, ".")], 1, 0))
  {
    hide WellFormed, RunList, RunnerReading, GroupTrace, GroupOpens, NodeOk;
    var a, cd, b := Plain("a"), Chdir(Some("x")), Plain("b");
    var works := (pid: int) => 0;
    CdExampleWellFormed();
    NothingOpened(a, ".");
    RunnerStops([a, Or, cd, And, b], works);
    CdSkipped(shell, a, cd, b, works);
    assert [] + GroupTrace([Item(a, ".")], 0, 0) == GroupTrace([Item(a, ".")], 0, 0);
  }

  lemma CdNodeOk(dir: string)
    requires dir != "&&"
    ensures NodeOk(Chdir(Some(dir)), Some(And)) && NodeOk(Chdir(Some(dir)), None)
  {
  }

  lemma NothingOpened(c: Node, cwd: string)
    requires c.Command? && c.stdin == Inherited && c.stdout == Inherited && c.stderr == Inherited
    ensures GroupOpens([Item(c, cwd)]) == 0
  {
    assert [Item(c, cwd)][..0] == [];
    assert GroupOpens([]) == 0;
  }

  /** A cd alone: the runner runs off the end of its list, a shell returns 0. */
  lemma LoneCdExample(shell: Shell, status: int -> int)
    ensures var p := [Chdir(Some("x"))];
            && WellFormed(p)
            && RunnerReading(p, status) == Outcome(IndexError, [])
            && ShellReading(shell, p, status) == Outcome(Returned(0), [])
  {
    var p := [Chdir(Some("x"))];
    CdNodeOk("x");
    assert p[..0] == [];
    assert PipelineLength(p) == 1 && p[..1] == p;
    ListStep(shell, READY, And, p, status);
    RunCd(shell, READY, p, status);
  }
}
