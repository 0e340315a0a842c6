/**
 * Properties of the right-nested reading that the runner carries out: where commands run, and the
 * order of what it does to processes and files.
 */
module ShellTheorems {
  import opened Wrappers
  import opened ShellParser
  import opened ShellGrammar
  import opened ShellRunner

  // ---------- Working directories ----------

  /** The directory that all cds in front of position i lead to. */
  ghost function CwdAt(p: seq<Node>, i: nat): string
    requires i <= |p|
  {
    if i == 0 then "." else
      match p[i - 1]
      case Chdir(Some(dir)) => PathJoin(CwdAt(p, i - 1), dir)
      case _ => CwdAt(p, i - 1)
  }

  /** Whether the command at position i reads from a pipe: cds in front of it do not break the pipe. */
  ghost predicate PipedAt(p: seq<Node>, i: nat)
    requires i < |p|
  {
    i >= 2 && if p[i - 2].Chdir? then PipedAt(p, i - 2) else p[i - 1].Pipe?
  }

  /** A command to be run, its directory, and whether it reads from its predecessor. */
  datatype Slot = Slot(cmd: Node, cwd: string, piped: bool)

  /** The commands in front of position n. */
  ghost function SlotsOf(p: seq<Node>, n: nat): seq<Slot>
    requires n <= |p|
  {
    if n == 0 then [] else
      SlotsOf(p, n - 1) + if p[n - 1].Command? then [Slot(p[n - 1], CwdAt(p, n - 1), PipedAt(p, n - 1))] else []
  }

  ghost function GroupSlots(g: Group): seq<Slot> {
    seq(|g|, i requires 0 <= i < |g| => Slot(g[i].cmd, g[i].cwd, i > 0))
  }

  /** All commands of a program in order. */
  ghost function ProgramSlots(prog: Program): seq<Slot> {
    match prog
    case Then(g, _, rest) => GroupSlots(g) + ProgramSlots(rest)
    case _ => GroupSlots(prog.group)
  }

  lemma GroupSlotsGrow(g: Group, item: Item)
    ensures GroupSlots(g + [item]) == GroupSlots(g) + [Slot(item.cmd, item.cwd, g != [])]
    ensures GroupSlots([]) == []
  {
  }

  lemma SlotsPair(p: seq<Node>, i: nat)
    requires i + 2 < |p| && IsOp(p[i + 1])
    ensures CwdAt(p, i + 2) == CwdAt(p, i + 1) && SlotsOf(p, i + 2) == SlotsOf(p, i + 1)
    ensures PipedAt(p, i + 2) <==> if p[i].Chdir? then PipedAt(p, i) else p[i + 1].Pipe?
    ensures p[i].Command? ==> CwdAt(p, i + 1) == CwdAt(p, i)
    ensures p[i].Command? ==> SlotsOf(p, i + 1) == SlotsOf(p, i) + [Slot(p[i], CwdAt(p, i), PipedAt(p, i))]
    ensures p[i].Chdir? ==> SlotsOf(p, i + 1) == SlotsOf(p, i)
    ensures p[i].Chdir? && p[i].dir.Some? ==> CwdAt(p, i + 1) == PathJoin(CwdAt(p, i), p[i].dir.value)
  {
  }

  lemma SlotsLast(p: seq<Node>, i: nat)
    requires i + 1 == |p|
    ensures SlotsOf(p, |p|) ==
            SlotsOf(p, i) + if p[i].Command? then [Slot(p[i], CwdAt(p, i), PipedAt(p, i))] else []
  {
  }

  lemma {:induction false} SlotsGrow(p: seq<Node>, i: nat, n: nat)
    requires i <= n <= |p|
    ensures SlotsOf(p, i) <= SlotsOf(p, n)
    decreases n - i
  {
    hide CwdAt, PipedAt;
    if i < n {
      SlotsGrow(p, i, n - 1);
      assert SlotsOf(p, n - 1) <= SlotsOf(p, n);
    }
  }

  lemma CompileChdir(p: seq<Node>, cwd: string, group: Group)
    requires WellFormed(p) && p[0].Chdir? && (|p| == 1 || |p| > 2)
    ensures Compile(p, cwd, group) ==
            if |p| == 1 then Broken(group, IndexError)
            else if p[0].dir.None? then Broken(group, TypeError)
            else Compile(p[2..], PathJoin(cwd, p[0].dir.value), group)
  {
  }

  ghost predicate NamedCds(p: seq<Node>) {
    forall j :: 0 <= j < |p| && p[j].Chdir? ==> p[j].dir.Some?
  }

  lemma {:induction false} SlotsFrom(p: seq<Node>, i: nat, done: seq<Slot>, group: Group)
    requires i < |p| && WellFormed(p[i..]) && done + GroupSlots(group) == SlotsOf(p, i)
    requires group != [] <==> PipedAt(p, i)
    ensures done + ProgramSlots(Compile(p[i..], CwdAt(p, i), group)) <= SlotsOf(p, |p|)
    ensures NamedCds(p) ==> done + ProgramSlots(Compile(p[i..], CwdAt(p, i), group)) == SlotsOf(p, |p|)
    decreases |p| - i
  {
    hide WellFormed, SlotsOf, CwdAt, PipedAt, Compile, PathJoin, GroupSlots;
    var rest, cwd := p[i..], CwdAt(p, i);
    Opening(rest);
    assert rest[0] == p[i];
    SlotsGrow(p, i, |p|);
    if i + 1 == |p| {
      SlotsLast(p, i);
    } else {
      assert rest[1] == p[i + 1] && rest[2..] == p[i + 2..];
      SlotsPair(p, i);
    }
    if rest[0].Chdir? {
      CompileChdir(rest, cwd, group);
      if i + 1 < |p| && p[i].dir.Some? {
        SlotsFrom(p, i + 2, done, group);
      }
    } else {
      var item, slot := Item(p[i], cwd), Slot(p[i], cwd, group != []);
      var g := group + [item];
      CompileCommand(rest, cwd, group);
      GroupSlotsGrow(group, item);
      assert done + GroupSlots(g) == done + GroupSlots(group) + [slot];
      if i + 1 < |p| {
        if p[i + 1].Pipe? {
          SlotsFrom(p, i + 2, done, g);
        } else {
          assert done + GroupSlots(g) + GroupSlots([]) == done + GroupSlots(g);
          SlotsFrom(p, i + 2, done + GroupSlots(g), []);
          var later := ProgramSlots(Compile(p[i + 2..], cwd, []));
          assert done + (GroupSlots(g) + later) == done + GroupSlots(g) + later;
        }
      }
    }
  }

  lemma NoSlotsYet(p: seq<Node>)
    requires WellFormed(p)
    ensures p != [] && SlotsOf(p, 0) == [] && CwdAt(p, 0) == "." && !PipedAt(p, 0) && GroupSlots([]) == []
  {
  }

  /**
   * The commands that the program runs are those of the pipeline, in order, each in the directory
   * accumulated from all cds in front of it; a nameless cd ends the list.
   */
  lemma CommandsLocated(p: seq<Node>)
    requires WellFormed(p)
    ensures ProgramSlots(Compile(p, ".", [])) <= SlotsOf(p, |p|)
    ensures NamedCds(p) ==> ProgramSlots(Compile(p, ".", [])) == SlotsOf(p, |p|)
  {
    hide *;
    NoSlotsYet(p);
    assert p[0..] == p;
    SlotsFrom(p, 0, [], []);
    assert [] + ProgramSlots(Compile(p, ".", [])) == ProgramSlots(Compile(p, ".", []));
  }

  lemma JoinedDirectories()
    ensures PathJoin(".", "x") == "./x" && PathJoin("./x", "y") == "./x/y"
    ensures PathJoin("./x/", "y") == "./x/y" && PathJoin("./x", "/tmp") == "/tmp"
  {
  }

  ghost predicate AllCommands(s: seq<Slot>) {
    forall k :: 0 <= k < |s| ==> s[k].cmd.Command?
  }

  ghost predicate PipeMatches(s: seq<Slot>, k: nat)
    requires k < |s| && AllCommands(s)
  {
    s[k].piped <==> k > 0 && s[k - 1].cmd.stdout == PIPE
  }

  /** A command reads from a pipe exactly if the command in front of it writes into one. */
  ghost predicate PipesMatch(s: seq<Slot>) {
    AllCommands(s) && forall k :: 0 <= k < |s| ==> PipeMatches(s, k)
  }

  lemma PipesMatchAppend(s: seq<Slot>, slot: Slot)
    requires PipesMatch(s) && slot.cmd.Command?
    requires slot.piped <==> s != [] && s[|s| - 1].cmd.stdout == PIPE
    ensures PipesMatch(s + [slot])
    ensures s + [slot] != [] && (s + [slot])[|s + [slot]| - 1] == slot
  {
    var t := s + [slot];
    forall k | 0 <= k < |t|
      ensures PipeMatches(t, k)
    {
      if k < |s| {
        assert PipeMatches(s, k);
        assert k > 0 ==> t[k - 1] == s[k - 1];
      }
    }
  }

  lemma {:induction false} SlotsPiped(p: seq<Node>, i: nat)
    requires WellFormed(p) && i % 2 == 0 && i < |p|
    ensures PipesMatch(SlotsOf(p, i))
    ensures PipedAt(p, i) <==> SlotsOf(p, i) != [] && SlotsOf(p, i)[|SlotsOf(p, i)| - 1].cmd.stdout == PIPE
  {
    hide WellFormed, CwdAt, SlotsOf, PipedAt, CommandBodyOk;
    if i > 0 {
      SlotsPiped(p, i - 2);
      PairAt(p, i - 2);
      SlotsPair(p, i - 2);
      if p[i - 2].Command? {
        PipesMatchAppend(SlotsOf(p, i - 2), Slot(p[i - 2], CwdAt(p, i - 2), PipedAt(p, i - 2)));
      }
    } else {
      NoSlotsYet(p);
    }
  }

  lemma PipelinePiped(p: seq<Node>)
    requires WellFormed(p)
    ensures PipesMatch(SlotsOf(p, |p|))
  {
    hide WellFormed, CwdAt, SlotsOf, PipedAt, CommandBodyOk, PipesMatch;
    LastIsEven(p);
    SlotsPiped(p, |p| - 1);
    SlotsLast(p, |p| - 1);
    assert SlotsOf(p, |p| - 1) + [] == SlotsOf(p, |p| - 1);
    if p[|p| - 1].Command? {
      PipesMatchAppend(SlotsOf(p, |p| - 1), Slot(p[|p| - 1], CwdAt(p, |p| - 1), PipedAt(p, |p| - 1)));
    }
  }

  lemma LastIsEven(p: seq<Node>)
    requires WellFormed(p)
    ensures |p| > 0 && (|p| - 1) % 2 == 0
  {
  }

  // ---------- The order of process and file events ----------

  /** An observer of a trace: which processes are not waited for yet, and which files are open. */
  datatype Observer = Observer(running: set<nat>, waiting: bool, openFiles: set<nat>, started: nat, opens: nat)

  ghost predicate HandleOpen(o: Observer, f: Handle) {
    f.FileHandle? ==> f.h in o.openFiles
  }

  /**
   * One event, if it is in order: a process that does not read from a pipe starts only when nothing
   * is running, a piped one only right behind its running predecessor and before any wait; every
   * process is waited for once; files are closed once, after all waits.
   */
  ghost function Observe(o: Observer, e: Event): Option<Observer> {
    match e
    case Open(h, _, _) =>
      if h == o.opens then Some(o.(openFiles := o.openFiles + {h}, opens := o.opens + 1)) else None
    case StartProcess(pid, _, stdin, stdout, stderr, _, _) =>
      if pid == o.started
         && (if stdin.PipeFrom? then stdin.pid + 1 == pid && stdin.pid in o.running && !o.waiting else o.running == {})
         && HandleOpen(o, stdin) && HandleOpen(o, stdout) && HandleOpen(o, stderr)
      then Some(o.(running := o.running + {pid}, waiting := false, started := pid + 1)) else None
    case Wait(pid) =>
      if pid in o.running then Some(o.(running := o.running - {pid}, waiting := true)) else None
    case Close(h) =>
      if h in o.openFiles && o.running == {} then Some(o.(openFiles := o.openFiles - {h})) else None
  }

  ghost function ObserveAll(o: Observer, t: seq<Event>): Option<Observer> {
    if t == [] then Some(o) else
      match ObserveAll(o, t[..|t| - 1])
      case None => None
      case Some(next) => Observe(next, t[|t| - 1])
  }

  /** Between two groups: nothing runs and no file is open. */
  ghost predicate Quiet(o: Observer) {
    o.running == {} && o.openFiles == {}
  }

  ghost function Range(lo: nat, hi: nat): (s: set<nat>)
    ensures forall i: nat :: i in s <==> lo <= i < hi
  {
    if lo >= hi then {} else Range(lo, hi - 1) + {hi - 1}
  }

  lemma ObserveAppend(o: Observer, t: seq<Event>, e: Event)
    ensures ObserveAll(o, t + [e]) ==
            if ObserveAll(o, t).Some? then Observe(ObserveAll(o, t).value, e) else None
  {
    assert (t + [e])[..|t|] == t;
  }

  lemma {:induction false} ObserveConcat(o: Observer, a: seq<Event>, b: seq<Event>)
    ensures ObserveAll(o, a + b) ==
            if ObserveAll(o, a).Some? then ObserveAll(ObserveAll(o, a).value, b) else None
    decreases |b|
  {
    if b == [] {
      assert a + b == a;
    } else {
      var front, e := b[..|b| - 1], b[|b| - 1];
      ObserveConcat(o, a, front);
      assert a + b == a + front + [e];
      ObserveAppend(o, a + front, e);
    }
  }

  lemma ObserveOpenOut(o: Observer, s: Stream, h: nat)
    requires o.opens == h
    ensures ObserveAll(o, OpenOut(s, h)) == Some(o.(openFiles := o.openFiles + Range(h, h + OpensOut(s)), opens := h + OpensOut(s)))
    ensures HandleOpen(o.(openFiles := o.openFiles + Range(h, h + OpensOut(s))), OutHandle(s, h))
  {
    if s.File? && !IsNullDevice(s.name) {
      assert OpenOut(s, h) == [] + [Open(h, s.name, true)];
      ObserveAppend(o, [], Open(h, s.name, true));
      assert Range(h, h + 1) == {h};
    } else {
      assert o.openFiles + Range(h, h) == o.openFiles;
    }
  }

  ghost predicate ItemOk(item: Item) {
    item.cmd.Command? && CommandBodyOk(item.cmd) && item.cmd.stdout != STDOUT
  }

  ghost predicate GroupOk(g: Group) {
    forall i :: 0 <= i < |g| ==> ItemOk(g[i])
  }

  /** The observer while a group that began with process pid and file h is being started. */
  ghost function Starting(o: Observer, pid: nat, h: nat, n: nat, opens: nat): Observer {
    Observer(Range(pid, pid + n), if n == 0 then o.waiting else false, Range(h, h + opens), pid + n, h + opens)
  }

  lemma RangeSplit(lo: nat, mid: nat, hi: nat)
    requires lo <= mid <= hi
    ensures Range(lo, mid) + Range(mid, hi) == Range(lo, hi)
  {
  }

  ghost function InputTrace(item: Item, first: bool, h: nat): seq<Event>
    requires item.cmd.Command?
  {
    if first && item.cmd.stdin.File? then [Open(h, item.cmd.stdin.name, false)] else []
  }

  lemma ObserveInput(o: Observer, item: Item, first: bool, h: nat)
    requires ItemOk(item) && o.opens == h
    ensures ObserveAll(o, InputTrace(item, first, h)) ==
            Some(o.(openFiles := o.openFiles + Range(h, h + OpensIn(item, first)), opens := h + OpensIn(item, first)))
  {
    if first && item.cmd.stdin.File? {
      assert InputTrace(item, first, h) == [] + [Open(h, item.cmd.stdin.name, false)];
      ObserveAppend(o, [], Open(h, item.cmd.stdin.name, false));
      assert Range(h, h + 1) == {h};
    } else {
      assert o.openFiles + Range(h, h) == o.openFiles;
    }
  }

  /** The files of one command are opened in order. */
  lemma ObserveItemOpens(o: Observer, item: Item, first: bool, h: nat)
    requires item.cmd.Command? && ItemOk(item) && o.opens == h
    ensures var h1 := h + OpensIn(item, first);
            var h2 := h1 + OpensOut(item.cmd.stdout);
            var h3 := h2 + OpensOut(item.cmd.stderr);
            var now := o.(openFiles := o.openFiles + Range(h, h3), opens := h3);
            && ObserveAll(o, InputTrace(item, first, h) + OpenOut(item.cmd.stdout, h1) + OpenOut(item.cmd.stderr, h2)) == Some(now)
            && HandleOpen(now, OutHandle(item.cmd.stdout, h1)) && HandleOpen(now, OutHandle(item.cmd.stderr, h2))
            && (first && item.cmd.stdin.File? ==> h in now.openFiles)
  {
    hide ItemOk, OpenOut, InputTrace, ObserveAll;
    var h1 := h + OpensIn(item, first);
    var h2 := h1 + OpensOut(item.cmd.stdout);
    var h3 := h2 + OpensOut(item.cmd.stderr);
    var o1 := o.(openFiles := o.openFiles + Range(h, h1), opens := h1);
    ObserveInput(o, item, first, h);
    ObserveOpenOut(o1, item.cmd.stdout, h1);
    RangeSplit(h, h1, h2);
    var o2 := o.(openFiles := o.openFiles + Range(h, h2), opens := h2);
    assert o1.openFiles + Range(h1, h2) == o2.openFiles;
    ObserveConcat(o, InputTrace(item, first, h), OpenOut(item.cmd.stdout, h1));
    ObserveOpenOut(o2, item.cmd.stderr, h2);
    RangeSplit(h, h2, h3);
    assert o2.openFiles + Range(h2, h3) == o.openFiles + Range(h, h3);
    ObserveConcat(o, InputTrace(item, first, h) + OpenOut(item.cmd.stdout, h1), OpenOut(item.cmd.stderr, h2));
  }

  lemma EmptyRange(lo: nat)
    ensures Range(lo, lo) == {}
  {
  }

  lemma ObserveProcess(o: Observer, pid: nat, n: nat, e: Event)
    requires o.running == Range(pid, pid + n) && o.started == pid + n && (n > 0 ==> !o.waiting)
    requires e.StartProcess? && e.pid == pid + n
    requires if n == 0 then !e.stdin.PipeFrom? else e.stdin == PipeFrom(pid + n - 1)
    requires HandleOpen(o, e.stdin) && HandleOpen(o, e.stdout) && HandleOpen(o, e.stderr)
    ensures Observe(o, e) == Some(o.(running := Range(pid, pid + n + 1), waiting := false, started := pid + n + 1))
  {
    EmptyRange(pid);
    RangeSplit(pid, pid + n, pid + n + 1);
    assert Range(pid + n, pid + n + 1) == {pid + n};
  }

  ghost function StartEvent(item: Item, first: bool, pid: nat, h: nat): Event
    requires item.cmd.Command? && (first || pid > 0)
  {
    var h1 := h + OpensIn(item, first);
    var h2 := h1 + OpensOut(item.cmd.stdout);
    var input := if !first then PipeFrom(pid - 1) else if item.cmd.stdin.File? then FileHandle(h) else InheritHandle;
    StartProcess(pid, item.cmd.argv, input, OutHandle(item.cmd.stdout, h1), OutHandle(item.cmd.stderr, h2),
                 item.cmd.envVars, ProcessCwd(item.cwd))
  }

  lemma ItemTraceParts(item: Item, first: bool, pid: nat, h: nat)
    requires item.cmd.Command? && (first || pid > 0)
    ensures var h1 := h + OpensIn(item, first);
            var h2 := h1 + OpensOut(item.cmd.stdout);
            && ItemTrace(item, first, pid, h) ==
               InputTrace(item, first, h) + OpenOut(item.cmd.stdout, h1) + OpenOut(item.cmd.stderr, h2) +
               [StartEvent(item, first, pid, h)]
            && h + ItemOpens(item, first) == h2 + OpensOut(item.cmd.stderr)
  {
    hide OpenOut, OutHandle, OpensOut, ProcessCwd, OpensIn;
  }

  lemma ObserveStart(o: Observer, item: Item, pid: nat, h: nat, n: nat, opens: nat)
    requires ItemOk(item) && item.cmd.Command? && (n == 0 ==> Quiet(o))
    requires o == Starting(o, pid, h, n, opens)
    ensures ObserveAll(o, ItemTrace(item, n == 0, pid + n, h + opens)) ==
            Some(Starting(o, pid, h, n + 1, opens + ItemOpens(item, n == 0)))
  {
    hide ObserveAll, Observe, ItemOk, OpenOut, OutHandle, OpensOut, OpensIn, ProcessCwd, ItemTrace, ItemOpens, InputTrace;
    var first := n == 0;
    var h0 := h + opens;
    var h1 := h0 + OpensIn(item, first);
    var h2 := h1 + OpensOut(item.cmd.stdout);
    var h3 := h2 + OpensOut(item.cmd.stderr);
    ObserveItemOpens(o, item, first, h0);
    RangeSplit(h, h0, h3);
    ItemTraceParts(item, first, pid + n, h0);
    var o1 := o.(openFiles := o.openFiles + Range(h0, h3), opens := h3);
    var start := StartEvent(item, first, pid + n, h0);
    ObserveProcess(o1, pid, n, start);
    ObserveAppend(o, InputTrace(item, first, h0) + OpenOut(item.cmd.stdout, h1) + OpenOut(item.cmd.stderr, h2), start);
  }

  lemma SplitOk(g: Group)
    requires GroupOk(g) && g != []
    ensures GroupOk(g[..|g| - 1]) && ItemOk(g[|g| - 1]) && g[|g| - 1].cmd.Command?
  {
    hide CommandBodyOk;
  }

  lemma SplitTrace(g: Group, pid: nat, h: nat)
    requires g != []
    ensures var front, item := g[..|g| - 1], g[|g| - 1];
            StartTrace(g, pid, h) ==
            StartTrace(front, pid, h) + ItemTrace(item, |front| == 0, pid + |front|, h + GroupOpens(front))
    ensures GroupOpens(g) == GroupOpens(g[..|g| - 1]) + ItemOpens(g[|g| - 1], |g| == 1)
  {
    hide *;
    var front, item := g[..|g| - 1], g[|g| - 1];
    assert g == front + [item];
    GroupGrows(front, item, pid, h);
  }

  lemma StartingNothing(o: Observer, pid: nat, h: nat)
    requires Quiet(o) && o.started == pid && o.opens == h
    ensures o == Starting(o, pid, h, 0, 0)
    ensures StartTrace([], pid, h) == [] && ObserveAll(o, []) == Some(o) && GroupOpens([]) == 0
  {
    EmptyRange(pid);
    EmptyRange(h);
  }

  lemma StartingNested(o: Observer, pid: nat, h: nat, n: nat, opens: nat, m: nat, more: nat)
    requires n == 0 ==> Quiet(o) && o.started == pid && o.opens == h && opens == 0
    ensures var o1 := Starting(o, pid, h, n, opens);
            && o1 == Starting(o1, pid, h, n, opens)
            && (m > 0 ==> Starting(o1, pid, h, m, more) == Starting(o, pid, h, m, more))
            && (n == 0 ==> Quiet(o1))
  {
    EmptyRange(pid);
    EmptyRange(h);
  }

  lemma {:induction false} ObserveGroupStart(o: Observer, g: Group, pid: nat, h: nat)
    requires GroupOk(g) && Quiet(o) && o.started == pid && o.opens == h
    ensures ObserveAll(o, StartTrace(g, pid, h)) == Some(Starting(o, pid, h, |g|, GroupOpens(g)))
    decreases |g|
  {
    hide *;
    StartingNothing(o, pid, h);
    if g == [] {
    } else {
      var front, item := g[..|g| - 1], g[|g| - 1];
      var n := GroupOpens(front);
      SplitOk(g);
      SplitTrace(g, pid, h);
      ObserveGroupStart(o, front, pid, h);
      var o1 := Starting(o, pid, h, |front|, n);
      assert front == [] ==> n == 0;
      StartingNested(o, pid, h, |front|, n, |g|, GroupOpens(g));
      ObserveStart(o1, item, pid, h, |front|, n);
      ObserveConcat(o, StartTrace(front, pid, h), ItemTrace(item, |front| == 0, pid + |front|, h + n));
    }
  }

  lemma ObserveWait(o: Observer, pid: nat, end: nat)
    requires o.running == Range(pid, end) && pid < end
    ensures Observe(o, Wait(pid)) == Some(o.(running := Range(pid + 1, end), waiting := true))
  {
    assert Range(pid, end) - {pid} == Range(pid + 1, end);
  }

  lemma ObserveClose(o: Observer, h: nat, end: nat)
    requires o.running == {} && o.openFiles == Range(h, end) && h < end
    ensures Observe(o, Close(h)) == Some(o.(openFiles := Range(h + 1, end)))
  {
    assert Range(h, end) - {h} == Range(h + 1, end);
  }

  lemma LastWaitAndClose(first: nat, k: nat)
    ensures k > 0 ==> WaitTrace(first, k) == WaitTrace(first, k - 1) + [Wait(first + k - 1)]
    ensures k > 0 ==> CloseTrace(first, k) == CloseTrace(first, k - 1) + [Close(first + k - 1)]
    ensures WaitTrace(first, 0) == [] && CloseTrace(first, 0) == []
  {
  }

  lemma ObserveNothing(o: Observer)
    ensures ObserveAll(o, []) == Some(o)
  {
  }

  lemma {:induction false} ObserveWaits(o: Observer, pid: nat, n: nat, k: nat)
    requires o.running == Range(pid, pid + n) && k <= n
    ensures ObserveAll(o, WaitTrace(pid, k)) ==
            Some(o.(running := Range(pid + k, pid + n), waiting := if k == 0 then o.waiting else true))
    decreases k
  {
    hide *;
    LastWaitAndClose(pid, k);
    ObserveNothing(o);
    if k > 0 {
      ObserveWaits(o, pid, n, k - 1);
      var o1 := o.(running := Range(pid + k - 1, pid + n), waiting := if k - 1 == 0 then o.waiting else true);
      ObserveAppend(o, WaitTrace(pid, k - 1), Wait(pid + k - 1));
      ObserveWait(o1, pid + k - 1, pid + n);
    }
  }

  lemma {:induction false} ObserveCloses(o: Observer, h: nat, n: nat, k: nat)
    requires o.running == {} && o.openFiles == Range(h, h + n) && k <= n
    ensures ObserveAll(o, CloseTrace(h, k)) == Some(o.(openFiles := Range(h + k, h + n)))
    decreases k
  {
    hide *;
    LastWaitAndClose(h, k);
    ObserveNothing(o);
    if k > 0 {
      ObserveCloses(o, h, n, k - 1);
      ObserveAppend(o, CloseTrace(h, k - 1), Close(h + k - 1));
      ObserveClose(o.(openFiles := Range(h + k - 1, h + n)), h + k - 1, h + n);
    }
  }

  lemma ObserveGroup(o: Observer, g: Group, pid: nat, h: nat)
    requires GroupOk(g) && Quiet(o) && o.started == pid && o.opens == h
    ensures var t := ObserveAll(o, GroupTrace(g, pid, h));
            t.Some? && Quiet(t.value) && t.value.started == pid + |g| && t.value.opens == h + GroupOpens(g)
  {
    hide ObserveAll, StartTrace, GroupOpens, Range;
    var n := GroupOpens(g);
    ObserveGroupStart(o, g, pid, h);
    var o1 := Starting(o, pid, h, |g|, n);
    ObserveWaits(o1, pid, |g|, |g|);
    EmptyRange(pid + |g|);
    EmptyRange(h + n);
    var o2 := o1.(running := {}, waiting := if |g| == 0 then o1.waiting else true);
    ObserveCloses(o2, h, n, n);
    ObserveConcat(o, StartTrace(g, pid, h), WaitTrace(pid, |g|));
    ObserveConcat(o, StartTrace(g, pid, h) + WaitTrace(pid, |g|), CloseTrace(h, n));
  }

  // ---------- How processes are wired ----------

  /** h was opened under the given name for the process that starts at position m, and not for another one. */
  ghost predicate OpenedFor(t: seq<Event>, m: nat, f: Handle, name: string, forWriting: bool)
    requires m < |t|
  {
    f.FileHandle? && exists j :: 0 <= j < m && t[j] == Open(f.h, name, forWriting) && OnlyOpens(t, j, m)
  }

  ghost predicate OnlyOpens(t: seq<Event>, j: nat, m: nat)
    requires j <= m < |t|
  {
    forall i :: j < i < m ==> t[i].Open?
  }

  ghost predicate OutputWired(t: seq<Event>, m: nat, s: Stream, f: Handle)
    requires m < |t|
  {
    match s
    case Inherited => f == InheritHandle
    case PIPE => f == NewPipe
    case STDOUT => f == SameAsStdout
    case File(name) => if name == "NUL:" || name == "/dev/null" then f == DevNull else OpenedFor(t, m, f, name, true)
  }

  /** No file was opened for the process at position m but those it is given. */
  ghost predicate NoOtherOpens(t: seq<Event>, m: nat)
    requires m < |t| && t[m].StartProcess?
  {
    forall j :: 0 <= j < m && t[j].Open? && OnlyOpens(t, j, m) ==>
      FileHandle(t[j].h) in [t[m].stdin, t[m].stdout, t[m].stderr]
  }

  /** The process that starts at position m is the command, in its directory, with its streams. */
  ghost predicate ProcessWired(slot: Slot, t: seq<Event>, m: nat)
    requires m < |t| && t[m].StartProcess?
  {
    var c, e := slot.cmd, t[m];
    && c.Command? && e.argv == c.argv && e.envVars == c.envVars
    && e.cwd == (if slot.cwd == "." then None else Some(slot.cwd))
    && (if slot.piped then e.pid > 0 && e.stdin == PipeFrom(e.pid - 1)
        else if c.stdin.File? then OpenedFor(t, m, e.stdin, c.stdin.name, false)
        else e.stdin == InheritHandle)
    && OutputWired(t, m, c.stdout, e.stdout) && OutputWired(t, m, c.stderr, e.stderr)
    && (e.stdout.FileHandle? && e.stderr.FileHandle? ==> e.stdout.h != e.stderr.h)
    && NoOtherOpens(t, m)
  }

  /** No file is open for a process that has not started yet. */
  ghost predicate NoOpenAtEnd(t: seq<Event>) {
    t == [] || !t[|t| - 1].Open?
  }

  ghost predicate WiredAt(slots: seq<Slot>, base: nat, t: seq<Event>, m: nat)
    requires m < |t|
  {
    t[m].StartProcess? ==> base <= t[m].pid < base + |slots| && ProcessWired(slots[t[m].pid - base], t, m)
  }

  /** Every process of the trace is the command with its number, counted from base. */
  ghost predicate Wired(slots: seq<Slot>, base: nat, t: seq<Event>) {
    NoOpenAtEnd(t) && forall m :: 0 <= m < |t| ==> WiredAt(slots, base, t, m)
  }

  lemma OpenedShift(a: seq<Event>, b: seq<Event>, c: seq<Event>, m: nat, f: Handle, name: string, forWriting: bool)
    requires m < |b| && OpenedFor(b, m, f, name, forWriting)
    ensures OpenedFor(a + b + c, |a| + m, f, name, forWriting)
  {
    var j :| 0 <= j < m && b[j] == Open(f.h, name, forWriting) && OnlyOpens(b, j, m);
    var t := a + b + c;
    forall i | |a| + j < i < |a| + m
      ensures t[i].Open?
    {
      assert t[i] == b[i - |a|];
    }
    assert t[|a| + j] == b[j] && OnlyOpens(t, |a| + j, |a| + m);
  }

  lemma OutputShift(a: seq<Event>, b: seq<Event>, c: seq<Event>, m: nat, s: Stream, f: Handle)
    requires m < |b| && OutputWired(b, m, s, f)
    ensures OutputWired(a + b + c, |a| + m, s, f)
  {
    hide OpenedFor;
    if s.File? && s.name != "NUL:" && s.name != "/dev/null" { OpenedShift(a, b, c, m, f, s.name, true); }
  }

  lemma NoOtherOpensShift(a: seq<Event>, b: seq<Event>, c: seq<Event>, m: nat)
    requires m < |b| && b[m].StartProcess? && NoOtherOpens(b, m) && NoOpenAtEnd(a)
    ensures (a + b + c)[|a| + m] == b[m] && NoOtherOpens(a + b + c, |a| + m)
  {
    var t := a + b + c;
    assert a != [] ==> t[|a| - 1] == a[|a| - 1];
    forall j | 0 <= j < |a| + m && t[j].Open? && OnlyOpens(t, j, |a| + m)
      ensures FileHandle(t[j].h) in [b[m].stdin, b[m].stdout, b[m].stderr]
    {
      if j >= |a| {
        assert forall i :: j - |a| < i < m ==> b[i] == t[|a| + i];
        assert OnlyOpens(b, j - |a|, m);
      }
    }
  }

  /** Wiring looks only at the events in front of a process, back to the one before. */
  lemma WiredShift(slot: Slot, a: seq<Event>, b: seq<Event>, c: seq<Event>, m: nat)
    requires m < |b| && b[m].StartProcess? && ProcessWired(slot, b, m) && NoOpenAtEnd(a)
    ensures (a + b + c)[|a| + m] == b[m] && ProcessWired(slot, a + b + c, |a| + m)
  {
    hide OpenedFor, OutputWired, NoOtherOpens, NoOpenAtEnd;
    NoOtherOpensShift(a, b, c, m);
    var e, cmd := b[m], slot.cmd;
    if !slot.piped && cmd.stdin.File? { OpenedShift(a, b, c, m, e.stdin, cmd.stdin.name, false); }
    OutputShift(a, b, c, m, cmd.stdout, e.stdout);
    OutputShift(a, b, c, m, cmd.stderr, e.stderr);
  }

  lemma WiredLeft(slots: seq<Slot>, more: seq<Slot>, base: nat, a: seq<Event>, b: seq<Event>, m: nat)
    requires m < |a| && WiredAt(slots, base, a, m)
    ensures WiredAt(slots + more, base, a + b, m)
  {
    hide ProcessWired;
    assert (a + b)[m] == a[m] && [] + a + b == a + b && NoOpenAtEnd([]);
    if a[m].StartProcess? { WiredShift(slots[a[m].pid - base], [], a, b, m); }
  }

  lemma WiredRight(slots: seq<Slot>, more: seq<Slot>, base: nat, a: seq<Event>, b: seq<Event>, m: nat)
    requires m < |b| && WiredAt(more, base + |slots|, b, m) && NoOpenAtEnd(a)
    ensures WiredAt(slots + more, base, a + b, |a| + m)
  {
    hide ProcessWired, NoOpenAtEnd;
    assert (a + b)[|a| + m] == b[m] && a + b + [] == a + b;
    if b[m].StartProcess? { WiredShift(more[b[m].pid - base - |slots|], a, b, [], m); }
  }

  lemma WiredConcat(slots: seq<Slot>, more: seq<Slot>, base: nat, a: seq<Event>, b: seq<Event>)
    requires Wired(slots, base, a) && Wired(more, base + |slots|, b)
    ensures Wired(slots + more, base, a + b)
  {
    hide WiredAt;
    var t := a + b;
    assert b != [] ==> t[|t| - 1] == b[|b| - 1];
    assert b == [] ==> t == a;
    forall m | 0 <= m < |t|
      ensures WiredAt(slots + more, base, t, m)
    {
      if m < |a| {
        WiredLeft(slots, more, base, a, b, m);
      } else {
        WiredRight(slots, more, base, a, b, m - |a|);
      }
    }
  }

  lemma NoProcessWired(base: nat, t: seq<Event>)
    requires forall m :: 0 <= m < |t| ==> !t[m].StartProcess? && !t[m].Open?
    ensures Wired([], base, t)
  {
  }

  ghost predicate AllOpens(t: seq<Event>) {
    forall i :: 0 <= i < |t| ==> t[i].Open?
  }

  lemma OpenedLast(t: seq<Event>, j: nat, e: Event, h: nat, name: string, forWriting: bool)
    requires AllOpens(t) && j < |t| && t[j] == Open(h, name, forWriting)
    ensures OpenedFor(t + [e], |t|, FileHandle(h), name, forWriting)
  {
    assert (t + [e])[j] == t[j] && OnlyOpens(t + [e], j, |t|);
  }

  lemma OutputLast(t: seq<Event>, j: nat, e: Event, h: nat, s: Stream)
    requires AllOpens(t) && (OpenOut(s, h) != [] ==> j < |t| && t[j] == OpenOut(s, h)[0])
    ensures OutputWired(t + [e], |t|, s, OutHandle(s, h))
    ensures OutHandle(s, h).FileHandle? ==> OutHandle(s, h).h == h && OpensOut(s) == 1
  {
    hide OpenedFor;
    if OpenOut(s, h) != [] { OpenedLast(t, j, e, h, s.name, true); }
  }

  /** Where the files of one command are opened. */
  lemma ItemOpensAt(item: Item, first: bool, h: nat)
    requires item.cmd.Command?
    ensures var c := item.cmd;
            var h1 := h + OpensIn(item, first);
            var h2 := h1 + OpensOut(c.stdout);
            var input, out, err := InputTrace(item, first, h), OpenOut(c.stdout, h1), OpenOut(c.stderr, h2);
            && AllOpens(input + out + err)
            && (input != [] ==> (input + out + err)[0] == Open(h, c.stdin.name, false))
            && (out != [] ==> |input| < |input + out + err| && (input + out + err)[|input|] == out[0])
            && (err != [] ==> |input| + |out| < |input + out + err| && (input + out + err)[|input| + |out|] == err[0])
            && (input != [] <==> first && c.stdin.File?)
  {
  }

  lemma ItemOpensUsed(item: Item, first: bool, pid: nat, h: nat)
    requires item.cmd.Command? && (first || pid > 0)
    ensures var c, e := item.cmd, StartEvent(item, first, pid, h);
            var h1 := h + OpensIn(item, first);
            var h2 := h1 + OpensOut(c.stdout);
            var opens := InputTrace(item, first, h) + OpenOut(c.stdout, h1) + OpenOut(c.stderr, h2);
            forall i :: 0 <= i < |opens| ==> opens[i].Open? && FileHandle(opens[i].h) in [e.stdin, e.stdout, e.stderr]
  {
  }

  lemma OpensUsedLast(opens: seq<Event>, e: Event)
    requires e.StartProcess?
    requires forall i :: 0 <= i < |opens| ==> opens[i].Open? && FileHandle(opens[i].h) in [e.stdin, e.stdout, e.stderr]
    ensures (opens + [e])[|opens|] == e && NoOtherOpens(opens + [e], |opens|)
  {
    assert forall i :: 0 <= i < |opens| ==> (opens + [e])[i] == opens[i];
  }

  lemma SingleWired(slot: Slot, pid: nat, opens: seq<Event>, e: Event)
    requires AllOpens(opens) && e.StartProcess? && e.pid == pid && ProcessWired(slot, opens + [e], |opens|)
    ensures Wired([slot], pid, opens + [e])
  {
    hide ProcessWired;
    var t := opens + [e];
    assert forall m :: 0 <= m < |opens| ==> t[m] == opens[m];
  }

  lemma ItemWired(item: Item, first: bool, pid: nat, h: nat)
    requires ItemOk(item) && (first || pid > 0)
    ensures Wired([Slot(item.cmd, item.cwd, !first)], pid, ItemTrace(item, first, pid, h))
  {
    hide CommandBodyOk, OpenedFor, OutputWired, OpenOut, OutHandle, OpensOut, InputTrace, ItemTrace, Wired, AllOpens;
    hide NoOtherOpens, OnlyOpens;
    var c := item.cmd;
    var h1 := h + OpensIn(item, first);
    var h2 := h1 + OpensOut(c.stdout);
    var input, out, err := InputTrace(item, first, h), OpenOut(c.stdout, h1), OpenOut(c.stderr, h2);
    var opens, e := input + out + err, StartEvent(item, first, pid, h);
    ItemTraceParts(item, first, pid, h);
    ItemOpensAt(item, first, h);
    if input != [] { OpenedLast(opens, 0, e, h, c.stdin.name, false); }
    OutputLast(opens, |input|, e, h1, c.stdout);
    OutputLast(opens, |input| + |out|, e, h2, c.stderr);
    ItemOpensUsed(item, first, pid, h);
    OpensUsedLast(opens, e);
    SingleWired(Slot(c, item.cwd, !first), pid, opens, e);
  }

  lemma {:induction false} GroupWired(g: Group, pid: nat, h: nat)
    requires GroupOk(g)
    ensures Wired(GroupSlots(g), pid, StartTrace(g, pid, h))
    decreases |g|
  {
    hide *;
    if g == [] {
      StartingNone(pid, h);
    } else {
      var front, item := g[..|g| - 1], g[|g| - 1];
      SplitOk(g);
      SplitTrace(g, pid, h);
      GroupWired(front, pid, h);
      ItemWired(item, |front| == 0, pid + |front|, h + GroupOpens(front));
      GroupSlotsGrow(front, item);
      GroupSlotsLength(front);
      assert g == front + [item];
      WiredConcat(GroupSlots(front), [Slot(item.cmd, item.cwd, front != [])], pid, StartTrace(front, pid, h),
                  ItemTrace(item, |front| == 0, pid + |front|, h + GroupOpens(front)));
    }
  }

  lemma GroupSlotsLength(g: Group)
    ensures |GroupSlots(g)| == |g|
  {
  }

  lemma StartingNone(pid: nat, h: nat)
    ensures Wired(GroupSlots([]), pid, StartTrace([], pid, h))
  {
  }

  lemma WholeGroupWired(g: Group, pid: nat, h: nat)
    requires GroupOk(g)
    ensures Wired(GroupSlots(g), pid, GroupTrace(g, pid, h))
  {
    hide Wired, StartTrace, GroupOk, GroupOpens;
    GroupWired(g, pid, h);
    var ends := WaitTrace(pid, |g|) + CloseTrace(h, GroupOpens(g));
    NoProcessWired(pid + |g|, ends);
    WiredConcat(GroupSlots(g), [], pid, StartTrace(g, pid, h), ends);
    assert GroupSlots(g) + [] == GroupSlots(g);
    assert GroupTrace(g, pid, h) == StartTrace(g, pid, h) + ends;
  }

  ghost predicate BreaksWithError(prog: Program) {
    match prog
    case Broken(_, error) => !error.Returned?
    case Last(_) => true
    case Then(_, _, rest) => BreaksWithError(rest)
  }

  lemma {:induction false} CompiledBreaksWithError(p: seq<Node>, cwd: string, group: Group)
    requires WellFormed(p)
    ensures BreaksWithError(Compile(p, cwd, group))
    decreases |p|
  {
    Opening(p);
    if |p| > 1 {
      if p[0].Chdir? {
        if p[0].dir.Some? { CompiledBreaksWithError(p[2..], PathJoin(cwd, p[0].dir.value), group); }
      } else {
        CompileCommand(p, cwd, group);
        CompiledBreaksWithError(p[2..], cwd, group + [Item(p[0], cwd)]);
        CompiledBreaksWithError(p[2..], cwd, []);
      }
    }
  }

  ghost predicate ProgramGroupsOk(prog: Program) {
    GroupOk(prog.group) && (prog.Then? ==> ProgramGroupsOk(prog.rest))
  }

  lemma {:induction false} CompiledGroupsOk(p: seq<Node>, cwd: string, group: Group)
    requires WellFormed(p) && GroupOk(group)
    ensures ProgramGroupsOk(Compile(p, cwd, group))
    decreases |p|
  {
    hide CommandBodyOk, WellFormed;
    Opening(p);
    if p[0].Command? {
      assert GroupOk(group + [Item(p[0], cwd)]);
      CompileCommand(p, cwd, group);
    }
    if |p| > 1 {
      if p[0].Chdir? {
        if p[0].dir.Some? { CompiledGroupsOk(p[2..], PathJoin(cwd, p[0].dir.value), group); }
      } else {
        CompiledGroupsOk(p[2..], cwd, group + [Item(p[0], cwd)]);
        CompiledGroupsOk(p[2..], cwd, []);
      }
    }
  }

  lemma {:induction false} ObserveEval(o: Observer, prog: Program, status: int -> int, pid: nat, h: nat)
    requires ProgramGroupsOk(prog) && Quiet(o) && o.started == pid && o.opens == h
    requires BreaksWithError(prog)
    ensures var run := Eval(prog, status, pid, h);
            && ObserveAll(o, run.trace).Some?
            && (run.result.Returned? ==>
                  && Quiet(ObserveAll(o, run.trace).value)
                  && run.result.status == status(ObserveAll(o, run.trace).value.started - 1))
    decreases prog
  {
    hide ObserveAll, GroupTrace, StartTrace, GroupOpens, GroupOk;
    match prog {
      case Broken(g, _) => ObserveGroupStart(o, g, pid, h);
      case Last(g) => ObserveGroup(o, g, pid, h);
      case Then(g, op, rest) =>
        ObserveGroup(o, g, pid, h);
        if Proceeds(op, status(pid + |g| - 1)) {
          ObserveEval(ObserveAll(o, GroupTrace(g, pid, h)).value, rest, status, pid + |g|, h + GroupOpens(g));
          ObserveConcat(o, GroupTrace(g, pid, h), Eval(rest, status, pid + |g|, h + GroupOpens(g)).trace);
        }
    }
  }

  lemma WiredMore(slots: seq<Slot>, all: seq<Slot>, base: nat, t: seq<Event>)
    requires Wired(slots, base, t) && slots <= all
    ensures Wired(all, base, t)
  {
    hide ProcessWired;
    forall m | 0 <= m < |t|
      ensures WiredAt(all, base, t, m)
    {
      assert WiredAt(slots, base, t, m);
    }
  }

  lemma {:induction false} EvalWired(prog: Program, status: int -> int, pid: nat, h: nat)
    requires ProgramGroupsOk(prog)
    ensures Wired(ProgramSlots(prog), pid, Eval(prog, status, pid, h).trace)
    decreases prog
  {
    hide Wired, GroupTrace, StartTrace, GroupOpens, GroupOk, GroupSlots, Proceeds;
    match prog {
      case Broken(g, _) => GroupWired(g, pid, h);
      case Last(g) => WholeGroupWired(g, pid, h);
      case Then(g, op, rest) =>
        WholeGroupWired(g, pid, h);
        GroupSlotsLength(g);
        if Proceeds(op, status(pid + |g| - 1)) {
          EvalWired(rest, status, pid + |g|, h + GroupOpens(g));
          WiredConcat(GroupSlots(g), ProgramSlots(rest), pid, GroupTrace(g, pid, h),
                      Eval(rest, status, pid + |g|, h + GroupOpens(g)).trace);
        } else {
          WiredMore(GroupSlots(g), ProgramSlots(prog), pid, GroupTrace(g, pid, h));
        }
    }
  }

  /**
   * In every run, the process with number k is the k-th command of the pipeline: with its arguments and
   * environment, in its directory, reading from its predecessor or from its own file, and writing where it
   * says; every file handle was opened for it under its name, and nothing else was.
   */
  lemma RunIsWired(p: seq<Node>, status: int -> int)
    requires WellFormed(p)
    ensures Wired(SlotsOf(p, |p|), 0, Eval(Compile(p, ".", []), status, 0, 0).trace)
    ensures PipesMatch(SlotsOf(p, |p|))
  {
    hide *;
    NothingIsOk();
    CompiledGroupsOk(p, ".", []);
    CommandsLocated(p);
    EvalWired(Compile(p, ".", []), status, 0, 0);
    WiredMore(ProgramSlots(Compile(p, ".", [])), SlotsOf(p, |p|), 0, Eval(Compile(p, ".", []), status, 0, 0).trace);
    PipelinePiped(p);
  }

  lemma QuietAtStart()
    ensures Quiet(Observer({}, false, {}, 0, 0))
  {
  }

  lemma NothingIsOk()
    ensures GroupOk([])
  {
  }

  /** A process reads from its predecessor exactly if that one writes into a new pipe. */
  lemma PipesConnected(p: seq<Node>, status: int -> int, m: nat, n: nat)
    requires WellFormed(p)
    requires var t := Eval(Compile(p, ".", []), status, 0, 0).trace;
             m < |t| && n < |t| && t[m].StartProcess? && t[n].StartProcess? && t[n].pid == t[m].pid + 1
    ensures var t := Eval(Compile(p, ".", []), status, 0, 0).trace;
            t[n].stdin == PipeFrom(t[m].pid) <==> t[m].stdout == NewPipe
  {
    hide SlotsOf, Eval, Compile, WellFormed, OnlyOpens;
    RunIsWired(p, status);
    var t := Eval(Compile(p, ".", []), status, 0, 0).trace;
    var s := SlotsOf(p, |p|);
    assert WiredAt(s, 0, t, m) && WiredAt(s, 0, t, n);
    assert PipeMatches(s, t[n].pid);
  }

  /**
   * In every run of a parsed pipeline, events come in order; a run that returns normally has waited
   * for every process and closed every file it opened, each exactly once, and returns the status of the
   * last process it started.
   */
  lemma RunsInOrder(p: seq<Node>, status: int -> int)
    requires WellFormed(p)
    ensures var run := Eval(Compile(p, ".", []), status, 0, 0);
            var seen := ObserveAll(Observer({}, false, {}, 0, 0), run.trace);
            seen.Some? && (run.result.Returned? ==>
                             Quiet(seen.value) && run.result.status == status(seen.value.started - 1))
  {
    hide *;
    NothingIsOk();
    QuietAtStart();
    CompiledGroupsOk(p, ".", []);
    CompiledBreaksWithError(p, ".", []);
    ObserveEval(Observer({}, false, {}, 0, 0), Compile(p, ".", []), status, 0, 0);
  }
}
