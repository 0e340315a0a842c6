/**
 * What the parser accepts: the shape of every parsed pipeline, a canonical printer, and the
 * round trip between the two.
 */
module ShellGrammar {
  import opened Wrappers
  import opened ShellParser

  // ---------- The shape of parsed pipelines ----------

  predicate IsOp(n: Node) {
    n.Pipe? || n.And? || n.Or?
  }

  predicate IsOperatorToken(t: string) {
    t in {">", "2>", "2>&1", "<", "|", "&&", "||"}
  }

  predicate HasKey(env: EnvVars, key: string) {
    env != [] && (env[0].0 == key || HasKey(env[1..], key))
  }

  /** Valid assignments of different names. */
  predicate EnvOk(env: EnvVars) {
    env == [] ||
    (IsEnvName(env[0].0) && IsEnvValue(env[0].1) && !HasKey(env[1..], env[0].0) && EnvOk(env[1..]))
  }

  /** A command apart from its standard output. */
  predicate CommandBodyOk(c: Node) {
    && c.Command?
    && c.argv != [] && c.argv[0] == c.name
    && c.name != "cd" && MatchEnvVar(c.name).None?
    && (forall i :: 0 < i < |c.argv| ==> !IsOperatorToken(c.argv[i]))
    && (c.stdin == Inherited || c.stdin.File?)
    && c.stderr != PIPE
    && EnvOk(c.envVars)
  }

  /** A command or directory change in front of the given operator, if any. */
  predicate NodeOk(n: Node, next: Option<Node>) {
    match n
    case Command(_, _, _, stdout, _, _) =>
      CommandBodyOk(n) && stdout != STDOUT && (stdout == PIPE <==> next == Some(Pipe))
    case Chdir(dir) => dir != Some("&&") && (next == None || next == Some(And))
    case _ => false
  }

  /** Odd positions hold operators, even ones nodes that suit the operator behind them. */
  predicate SlotOk(p: seq<Node>, i: nat)
    requires i < |p|
  {
    if i % 2 == 1 then IsOp(p[i]) else i + 1 < |p| && NodeOk(p[i], Some(p[i + 1]))
  }

  /** Nodes and operators alternate, from a node to an operator. */
  predicate Committed(p: seq<Node>) {
    |p| % 2 == 0 && forall i :: 0 <= i < |p| ==> SlotOk(p, i)
  }

  /** Nodes and operators alternate, from a node to a node. */
  predicate WellFormed(p: seq<Node>) {
    |p| % 2 == 1 && Committed(p[..|p| - 1]) && NodeOk(p[|p| - 1], None)
  }

  lemma CommittedAppend(p: seq<Node>, n: Node, op: Node)
    requires Committed(p) && IsOp(op) && NodeOk(n, Some(op))
    ensures Committed(p + [n] + [op])
  {
    var q := p + [n] + [op];
    assert q[|p|] == n && q[|p| + 1] == op;
    forall i | 0 <= i < |q|
      ensures SlotOk(q, i)
    {
      if i < |p| {
        assert SlotOk(p, i) && q[i] == p[i];
        assert i % 2 == 0 ==> q[i + 1] == p[i + 1];
      } else {
        assert i == |p| || i == |p| + 1;
      }
    }
  }

  // ---------- Accepted token lists give well-formed pipelines ----------

  predicate OpenCommandOk(c: Node) {
    CommandBodyOk(c) && c.stdout != PIPE && c.stdout != STDOUT
  }

  predicate MachineOk(m: Machine) {
    && Committed(m.pipeline)
    && EnvOk(m.env)
    && match m.state
       case BEGIN => m.current == None
       case CHDIR => m.env == [] && m.current.Some? && m.current.value.Chdir? && m.current.value.dir != Some("&&")
       case _ => m.env == [] && m.current.Some? && OpenCommandOk(m.current.value)
  }

  lemma {:induction false} SetEnvKeys(env: EnvVars, key: string, value: string, k: string)
    ensures HasKey(SetEnv(env, key, value), k) <==> k == key || HasKey(env, k)
  {
    if env != [] && env[0].0 != key {
      SetEnvKeys(env[1..], key, value, k);
    }
  }

  lemma {:induction false} SetEnvOk(env: EnvVars, key: string, value: string)
    requires EnvOk(env) && IsEnvName(key) && IsEnvValue(value)
    ensures EnvOk(SetEnv(env, key, value))
  {
    if env != [] && env[0].0 != key {
      SetEnvOk(env[1..], key, value);
      SetEnvKeys(env[1..], key, value, env[0].0);
    }
  }

  lemma FeedCommandOk(m: Machine, token: string)
    requires MachineOk(m) && m.state == COMMAND && Feed(m, token).Some?
    ensures MachineOk(Feed(m, token).value)
  {
    var cmd := m.current.value;
    if token == "|" {
      CommittedAppend(m.pipeline, cmd.(stdout := PIPE), Pipe);
    } else if token == "&&" {
      CommittedAppend(m.pipeline, cmd, And);
    } else if token == "||" {
      CommittedAppend(m.pipeline, cmd, Or);
    }
  }

  /** Every accepted token keeps the machine's invariant. */
  lemma FeedOk(m: Machine, token: string)
    requires MachineOk(m) && Feed(m, token).Some?
    ensures MachineOk(Feed(m, token).value)
  {
    match m.state {
      case BEGIN =>
        if MatchEnvVar(token).Some? {
          SetEnvOk(m.env, MatchEnvVar(token).value.0, MatchEnvVar(token).value.1);
        }
      case COMMAND => FeedCommandOk(m, token);
      case CHDIR =>
        if token == "&&" { CommittedAppend(m.pipeline, m.current.value, And); }
      case _ =>
    }
  }

  lemma {:induction false} FeedAllOk(m: Machine, tokens: seq<string>)
    requires MachineOk(m) && FeedAll(m, tokens).Some?
    ensures MachineOk(FeedAll(m, tokens).value)
    decreases |tokens|
  {
    if tokens != [] {
      FeedOk(m, tokens[0]);
      FeedAllOk(Feed(m, tokens[0]).value, tokens[1..]);
    }
  }

  /** Whatever is accepted parses to a well-formed pipeline. */
  lemma ParsedIsWellFormed(tokens: seq<string>)
    ensures ParseTokens(tokens).Parsed? ==> WellFormed(ParseTokens(tokens).pipeline)
  {
    if ParseTokens(tokens).Parsed? {
      FeedAllOk(INITIAL, tokens);
      var m := FeedAll(INITIAL, tokens).value;
      var p := ParseTokens(tokens).pipeline;
      assert p[..|p| - 1] == m.pipeline;
    }
  }

  // ---------- The canonical printer ----------

  function PrintEnv(env: EnvVars): seq<string> {
    if env == [] then [] else [env[0].0 + "=" + env[0].1] + PrintEnv(env[1..])
  }

  function PrintStream(operator: string, s: Stream): seq<string> {
    match s
    case File(name) => [operator, name]
    case STDOUT => [operator + "&1"]
    case _ => []
  }

  function PrintNode(n: Node): seq<string> {
    match n
    case Command(_, argv, stdin, stdout, stderr, env) =>
      PrintEnv(env) + argv + PrintStream("<", stdin) + PrintStream(">", stdout) + PrintStream("2>", stderr)
    case Chdir(dir) => ["cd"] + if dir.Some? then [dir.value] else []
    case Pipe => ["|"]
    case And => ["&&"]
    case Or => ["||"]
  }

  function Print(p: seq<Node>): seq<string> {
    if p == [] then [] else PrintNode(p[0]) + Print(p[1..])
  }

  // ---------- Parsing undoes printing ----------

  lemma {:induction false} FeedAllConcat(m: Machine, a: seq<string>, b: seq<string>)
    ensures FeedAll(m, a + b) ==
            if FeedAll(m, a).Some? then FeedAll(FeedAll(m, a).value, b) else None
    decreases |a|
  {
    if a == [] {
      assert a + b == b;
    } else {
      assert (a + b)[1..] == a[1..] + b;
      if Feed(m, a[0]).Some? {
        FeedAllConcat(Feed(m, a[0]).value, a[1..], b);
      }
    }
  }

  lemma {:induction false} FirstEqualsAt(s: string, i: nat)
    requires i < |s| && s[i] == '=' && '=' !in s[..i]
    ensures FirstEquals(s) == i
  {
    if i > 0 {
      assert s[..i][0] == s[0] && s[..i][1..] == s[1..][..i - 1];
      FirstEqualsAt(s[1..], i - 1);
    }
  }

  lemma EnvTokenMatches(key: string, value: string)
    requires IsEnvName(key) && IsEnvValue(value)
    ensures MatchEnvVar(key + "=" + value) == Some((key, value))
  {
    var token := key + "=" + value;
    assert token[..|key|] == key;
    FirstEqualsAt(token, |key|);
    assert token[|key| + 1..] == value;
  }

  lemma {:induction false} SetNewKey(env: EnvVars, key: string, value: string)
    requires !HasKey(env, key)
    ensures SetEnv(env, key, value) == env + [(key, value)]
  {
    if env != [] {
      SetNewKey(env[1..], key, value);
      assert env + [(key, value)] == [env[0]] + (env[1..] + [(key, value)]);
    }
  }

  lemma {:induction false} HasKeyConcat(a: EnvVars, b: EnvVars, key: string)
    ensures HasKey(a + b, key) <==> HasKey(a, key) || HasKey(b, key)
  {
    if a == [] {
      assert a + b == b;
    } else {
      assert (a + b)[1..] == a[1..] + b;
      HasKeyConcat(a[1..], b, key);
    }
  }

  /** No name of b is set in a. */
  predicate Fresh(a: EnvVars, b: EnvVars) {
    b == [] || (!HasKey(a, b[0].0) && Fresh(a, b[1..]))
  }

  lemma {:induction false} FreshAppend(a: EnvVars, e: (string, string), b: EnvVars)
    requires Fresh(a, b) && !HasKey(b, e.0)
    ensures Fresh(a + [e], b)
  {
    if b != [] {
      HasKeyConcat(a, [e], b[0].0);
      FreshAppend(a, e, b[1..]);
    }
  }

  lemma FeedEnvToken(done: EnvVars, e: (string, string), p: seq<Node>)
    requires IsEnvName(e.0) && IsEnvValue(e.1) && !HasKey(done, e.0)
    ensures Feed(Machine(BEGIN, None, done, p), e.0 + "=" + e.1) == Some(Machine(BEGIN, None, done + [e], p))
  {
    EnvTokenMatches(e.0, e.1);
    SetNewKey(done, e.0, e.1);
  }

  lemma FeedAllStep(m: Machine, token: string, next: Machine, rest: seq<string>)
    requires Feed(m, token) == Some(next)
    ensures FeedAll(m, [token] + rest) == FeedAll(next, rest)
  {
    assert ([token] + rest)[1..] == rest;
  }

  lemma EnvHead(done: EnvVars, env: EnvVars)
    requires EnvOk(env) && Fresh(done, env) && env != []
    ensures IsEnvName(env[0].0) && IsEnvValue(env[0].1) && !HasKey(done, env[0].0)
    ensures EnvOk(env[1..]) && Fresh(done + [env[0]], env[1..])
    ensures PrintEnv(env) == [env[0].0 + "=" + env[0].1] + PrintEnv(env[1..])
  {
    FreshAppend(done, env[0], env[1..]);
  }

  lemma NoTokens(m: Machine)
    ensures FeedAll(m, []) == Some(m) && PrintEnv([]) == []
  {
  }

  lemma {:induction false} FeedEnv(done: EnvVars, env: EnvVars, p: seq<Node>)
    requires EnvOk(env) && Fresh(done, env)
    ensures FeedAll(Machine(BEGIN, None, done, p), PrintEnv(env)) == Some(Machine(BEGIN, None, done + env, p))
    decreases |env|
  {
    hide *;
    if env == [] {
      assert done + env == done;
      NoTokens(Machine(BEGIN, None, done, p));
    } else {
      EnvHead(done, env);
      FeedEnvToken(done, env[0], p);
      FeedAllStep(Machine(BEGIN, None, done, p), env[0].0 + "=" + env[0].1,
                  Machine(BEGIN, None, done + [env[0]], p), PrintEnv(env[1..]));
      FeedEnv(done + [env[0]], env[1..], p);
      assert done + [env[0]] + env[1..] == done + env;
    }
  }

  lemma {:induction false} NothingSet(env: EnvVars)
    ensures Fresh([], env)
  {
    if env != [] { NothingSet(env[1..]); }
  }

  lemma {:induction false} FeedArguments(m: Machine, cmd: Node, args: seq<string>)
    requires m.state == COMMAND && m.current == Some(cmd) && cmd.Command?
    requires forall i :: 0 <= i < |args| ==> !IsOperatorToken(args[i])
    ensures FeedAll(m, args) == Some(m.(current := Some(cmd.(argv := cmd.argv + args))))
    decreases |args|
  {
    if args == [] {
      assert cmd.argv + args == cmd.argv;
    } else {
      var next := cmd.(argv := cmd.argv + [args[0]]);
      assert !IsOperatorToken(args[0]);
      FeedArguments(m.(current := Some(next)), next, args[1..]);
      assert cmd.argv + [args[0]] + args[1..] == cmd.argv + args;
    }
  }

  /** A redirection printed for stream s sets exactly that stream. */
  lemma FeedStdin(m: Machine, cmd: Node, s: Stream)
    requires m.state == COMMAND && m.current == Some(cmd) && cmd.Command? && cmd.stdin == Inherited
    requires s == Inherited || s.File?
    ensures FeedAll(m, PrintStream("<", s)) == Some(m.(current := Some(cmd.(stdin := s))))
  {
    NoTokens(m);
    if s.File? {
      FeedTwo(m, "<", s.name);
    }
  }

  lemma FeedStdout(m: Machine, cmd: Node, s: Stream)
    requires m.state == COMMAND && m.current == Some(cmd) && cmd.Command? && cmd.stdout == Inherited
    requires s != STDOUT
    ensures FeedAll(m, PrintStream(">", s)) == Some(m.(current := Some(cmd.(stdout := if s.File? then s else Inherited))))
  {
    NoTokens(m);
    if s.File? {
      FeedTwo(m, ">", s.name);
    }
  }

  lemma FeedStderr(m: Machine, cmd: Node, s: Stream)
    requires m.state == COMMAND && m.current == Some(cmd) && cmd.Command? && cmd.stderr == Inherited
    requires s != PIPE
    ensures FeedAll(m, PrintStream("2>", s)) == Some(m.(current := Some(cmd.(stderr := s))))
  {
    NoTokens(m);
    if s.File? {
      FeedTwo(m, "2>", s.name);
    } else if s == STDOUT {
      assert "2>" + "&1" == "2>&1";
      FeedAllStep(m, "2>&1", m.(current := Some(cmd.(stderr := STDOUT))), []);
    }
  }

  lemma FeedTwo(m: Machine, first: string, second: string)
    requires Feed(m, first).Some?
    ensures FeedAll(m, [first, second]) == Feed(Feed(m, first).value, second)
  {
    var next := Feed(m, first).value;
    assert [first, second] == [first] + [second];
    FeedAllStep(m, first, next, [second]);
    if Feed(next, second).Some? {
      FeedAllStep(next, second, Feed(next, second).value, []);
    }
  }

  /** The command as it stands before its operator is read. */
  function Opened(c: Node): (open: Node)
    requires c.Command?
    ensures open.Command?
  {
    c.(stdout := if c.stdout.File? then c.stdout else Inherited)
  }

  lemma FeedName(c: Node, p: seq<Node>)
    requires CommandBodyOk(c)
    ensures Feed(Machine(BEGIN, None, c.envVars, p), c.name) ==
            Some(Machine(COMMAND, Some(NewCommand(c.name, c.envVars)), [], p))
  {
  }

  lemma FeedArgv(c: Node, p: seq<Node>)
    requires CommandBodyOk(c)
    ensures FeedAll(Machine(BEGIN, None, c.envVars, p), c.argv) ==
            Some(Machine(COMMAND, Some(Command(c.name, c.argv, Inherited, Inherited, Inherited, c.envVars)), [], p))
  {
    var start := NewCommand(c.name, c.envVars);
    var named := Machine(COMMAND, Some(start), [], p);
    FeedName(c, p);
    FeedArguments(named, start, c.argv[1..]);
    assert c.argv == [c.name] + c.argv[1..];
    FeedAllStep(Machine(BEGIN, None, c.envVars, p), c.name, named, c.argv[1..]);
  }

  lemma FeedPrintedCommand(c: Node, p: seq<Node>)
    requires CommandBodyOk(c) && c.stdout != STDOUT
    ensures FeedAll(Machine(BEGIN, None, [], p), PrintNode(c)) == Some(Machine(COMMAND, Some(Opened(c)), [], p))
  {
    var m0 := Machine(BEGIN, None, [], p);
    var c1 := Command(c.name, c.argv, Inherited, Inherited, Inherited, c.envVars);
    var c2 := c1.(stdin := c.stdin);
    var c3 := c2.(stdout := Opened(c).stdout);
    var t0, t1 := PrintEnv(c.envVars), PrintEnv(c.envVars) + c.argv;
    var t2 := t1 + PrintStream("<", c.stdin);
    var t3 := t2 + PrintStream(">", c.stdout);
    NothingSet(c.envVars);
    FeedEnv([], c.envVars, p);
    assert [] + c.envVars == c.envVars;
    FeedArgv(c, p);
    FeedAllConcat(m0, t0, c.argv);
    FeedStdin(Machine(COMMAND, Some(c1), [], p), c1, c.stdin);
    FeedAllConcat(m0, t1, PrintStream("<", c.stdin));
    FeedStdout(Machine(COMMAND, Some(c2), [], p), c2, c.stdout);
    FeedAllConcat(m0, t2, PrintStream(">", c.stdout));
    FeedStderr(Machine(COMMAND, Some(c3), [], p), c3, c.stderr);
    FeedAllConcat(m0, t3, PrintStream("2>", c.stderr));
  }

  lemma FeedPrintedChdir(dir: Option<string>, p: seq<Node>)
    requires dir != Some("&&")
    ensures FeedAll(Machine(BEGIN, None, [], p), PrintNode(Chdir(dir))) ==
            Some(Machine(CHDIR, Some(Chdir(dir)), [], p))
  {
    var m := Machine(BEGIN, None, [], p);
    var next := Machine(CHDIR, Some(Chdir(None)), [], p);
    assert FirstEquals("cd") == 2;
    assert Feed(m, "cd") == Some(next);
    if dir.Some? {
      assert PrintNode(Chdir(dir)) == ["cd", dir.value];
      FeedTwo(m, "cd", dir.value);
    } else {
      assert PrintNode(Chdir(dir)) == ["cd"] + [];
      FeedAllStep(m, "cd", next, []);
    }
  }

  /** A printed node and the operator behind it are committed as they were. */
  lemma FeedPrintedPair(n: Node, op: Node, p: seq<Node>)
    requires IsOp(op) && NodeOk(n, Some(op))
    ensures FeedAll(Machine(BEGIN, None, [], p), PrintNode(n) + PrintNode(op)) ==
            Some(Machine(BEGIN, None, [], p + [n] + [op]))
  {
    var m := Machine(BEGIN, None, [], p);
    var next := Machine(BEGIN, None, [], p + [n] + [op]);
    FeedAllConcat(m, PrintNode(n), PrintNode(op));
    var token := PrintNode(op)[0];
    if n.Command? {
      FeedPrintedCommand(n, p);
      FeedOperatorAfterCommand(n, op, p);
    } else {
      FeedPrintedChdir(n.dir, p);
    }
    assert PrintNode(op) == [token] + [];
    FeedAllStep(FeedAll(m, PrintNode(n)).value, token, next, []);
  }

  lemma FeedOperatorAfterCommand(c: Node, op: Node, p: seq<Node>)
    requires IsOp(op) && c.Command? && NodeOk(c, Some(op))
    ensures Feed(Machine(COMMAND, Some(Opened(c)), [], p), PrintNode(op)[0]) ==
            Some(Machine(BEGIN, None, [], p + [c] + [op]))
  {
    match op {
      case Pipe =>
        var open := Opened(c);
        assert open.(stdout := PIPE) == c;
      case And => assert Opened(c) == c;
      case Or => assert Opened(c) == c;
    }
  }

  lemma FeedPrintedLast(n: Node, p: seq<Node>)
    requires NodeOk(n, None)
    ensures Finish(FeedAll(Machine(BEGIN, None, [], p), PrintNode(n))) == Parsed(p + [n])
  {
    if n.Command? {
      FeedPrintedCommand(n, p);
      assert Opened(n) == n;
    } else {
      FeedPrintedChdir(n.dir, p);
    }
  }

  lemma PrintTwo(a: Node, b: Node, rest: seq<Node>)
    ensures Print([a, b] + rest) == PrintNode(a) + PrintNode(b) + Print(rest)
  {
    assert ([a, b] + rest)[1..] == [b] + rest && ([b] + rest)[1..] == rest;
    assert Print([a, b] + rest) == PrintNode(a) + (PrintNode(b) + Print(rest));
  }

  lemma PrintOne(n: Node)
    ensures Print([n]) == PrintNode(n)
  {
    assert Print([n]) == PrintNode(n) + [];
  }

  lemma PairAt(p: seq<Node>, i: nat)
    requires WellFormed(p) && i % 2 == 0 && i < |p|
    ensures i == |p| - 1 ==> NodeOk(p[i], None)
    ensures i != |p| - 1 ==> i + 2 < |p| && IsOp(p[i + 1]) && NodeOk(p[i], Some(p[i + 1]))
  {
    var front := p[..|p| - 1];
    if i < |p| - 1 {
      assert SlotOk(front, i) && SlotOk(front, i + 1) && front[i] == p[i] && front[i + 1] == p[i + 1];
    }
  }

  lemma {:induction false} FeedPrintedFrom(p: seq<Node>, i: nat)
    requires WellFormed(p) && i % 2 == 0 && i < |p|
    ensures Finish(FeedAll(Machine(BEGIN, None, [], p[..i]), Print(p[i..]))) == Parsed(p)
    decreases |p| - i
  {
    hide *;
    var m := Machine(BEGIN, None, [], p[..i]);
    PairAt(p, i);
    if i == |p| - 1 {
      assert p[i..] == [p[i]];
      PrintOne(p[i]);
      FeedPrintedLast(p[i], p[..i]);
      assert p[..i] + [p[i]] == p;
    } else {
      assert p[i..] == [p[i], p[i + 1]] + p[i + 2..];
      PrintTwo(p[i], p[i + 1], p[i + 2..]);
      FeedPrintedPair(p[i], p[i + 1], p[..i]);
      FeedAllConcat(m, PrintNode(p[i]) + PrintNode(p[i + 1]), Print(p[i + 2..]));
      assert p[..i] + [p[i]] + [p[i + 1]] == p[..i + 2];
      FeedPrintedFrom(p, i + 2);
    }
  }

  /** Printing a well-formed pipeline and parsing the tokens gives it back. */
  lemma ParseAfterPrint(p: seq<Node>)
    requires WellFormed(p)
    ensures ParseTokens(Print(p)) == Parsed(p)
  {
    FeedPrintedFrom(p, 0);
    assert p[0..] == p;
  }

  /** For every accepted token list, printing the result and reparsing gives the same pipeline. */
  lemma ReparseAfterPrint(tokens: seq<string>)
    requires ParseTokens(tokens).Parsed?
    ensures ParseTokens(Print(ParseTokens(tokens).pipeline)) == ParseTokens(tokens)
  {
    ParsedIsWellFormed(tokens);
    ParseAfterPrint(ParseTokens(tokens).pipeline);
  }

  /** The parser's results are exactly the well-formed pipelines. */
  lemma ParsedIffWellFormed(p: seq<Node>)
    ensures WellFormed(p) <==> exists tokens :: ParseTokens(tokens) == Parsed(p)
  {
    if WellFormed(p) {
      ParseAfterPrint(p);
    }
    forall tokens | ParseTokens(tokens) == Parsed(p)
      ensures WellFormed(p)
    {
      ParsedIsWellFormed(tokens);
    }
  }

  /** What well-formedness says about neighbours in a parsed pipeline. */
  lemma ParsedNeighbours(tokens: seq<string>, i: nat)
    requires ParseTokens(tokens).Parsed? && i < |ParseTokens(tokens).pipeline|
    ensures var p := ParseTokens(tokens).pipeline;
            var next := if i + 1 < |p| then Some(p[i + 1]) else None;
            && (IsOp(p[i]) <==> i % 2 == 1)
            && (p[i].Command? ==> (p[i].stdout == PIPE <==> next == Some(Pipe)))
            && (p[i].Chdir? ==> next == None || next == Some(And))
  {
    ParsedIsWellFormed(tokens);
    var p := ParseTokens(tokens).pipeline;
    var front := p[..|p| - 1];
    if i < |p| - 1 {
      assert SlotOk(front, i) && front[i] == p[i];
      assert i % 2 == 0 ==> front[i + 1] == p[i + 1];
    }
  }

  // ---------- Which token lists are accepted ----------

  /** At the front of a pipeline; pending tells whether assignments are waiting for their command. */
  predicate Accepted(tokens: seq<string>, pending: bool)
    decreases |tokens|
  {
    && tokens != []
    && if MatchEnvVar(tokens[0]).Some? then Accepted(tokens[1..], true)
       else if tokens[0] == "cd" then !pending && AcceptedCd(tokens[1..], false)
       else AcceptedRest(tokens[1..], false, false, false)
  }

  /** Behind cd: at most one name, and then nothing or &&. */
  predicate AcceptedCd(tokens: seq<string>, named: bool)
    decreases |tokens|
  {
    || tokens == []
    || if tokens[0] == "&&" then Accepted(tokens[1..], false) else !named && AcceptedCd(tokens[1..], true)
  }

  /**
   * Behind a command's name: each stream is redirected at most once, and not into a pipe as well; but a
   * redirection at the very end is not looked at.
   */
  predicate AcceptedRest(tokens: seq<string>, input: bool, output: bool, error: bool)
    decreases |tokens|
  {
    tokens == [] ||
    match tokens[0]
    case "<" => |tokens| == 1 || (!input && AcceptedRest(tokens[2..], true, output, error))
    case ">" => |tokens| == 1 || (!output && AcceptedRest(tokens[2..], input, true, error))
    case "2>" => |tokens| == 1 || (!error && AcceptedRest(tokens[2..], input, output, true))
    case "2>&1" => !error && AcceptedRest(tokens[1..], input, output, true)
    case "|" => !output && Accepted(tokens[1..], false)
    case "&&" => Accepted(tokens[1..], false)
    case "||" => Accepted(tokens[1..], false)
    case _ => AcceptedRest(tokens[1..], input, output, error)
  }

  lemma {:induction false} AcceptsBegin(m: Machine, tokens: seq<string>)
    requires m.state == BEGIN && m.current == None
    ensures Finish(FeedAll(m, tokens)).Parsed? <==> Accepted(tokens, m.env != [])
    decreases |tokens|
  {
    hide MatchEnvVar;
    if tokens != [] {
      var token, rest := tokens[0], tokens[1..];
      if MatchEnvVar(token).Some? {
        AcceptsBegin(Feed(m, token).value, rest);
      } else if token == "cd" {
        if m.env == [] { AcceptsCd(Feed(m, token).value, rest); }
      } else {
        AcceptsRest(Feed(m, token).value, rest);
      }
    }
  }

  lemma {:induction false} AcceptsCd(m: Machine, tokens: seq<string>)
    requires m.state == CHDIR && m.env == [] && m.current.Some? && m.current.value.Chdir?
    ensures Finish(FeedAll(m, tokens)).Parsed? <==> AcceptedCd(tokens, m.current.value.dir.Some?)
    decreases |tokens|
  {
    hide Accepted;
    if tokens != [] {
      var next := Feed(m, tokens[0]);
      if tokens[0] == "&&" {
        AcceptsBegin(next.value, tokens[1..]);
      } else if m.current.value.dir.None? {
        AcceptsCd(next.value, tokens[1..]);
      }
    }
  }

  lemma FeedFirstTwo(m: Machine, tokens: seq<string>)
    requires |tokens| > 1
    ensures FeedAll(m, tokens) ==
            if Feed(m, tokens[0]).None? then None
            else if Feed(Feed(m, tokens[0]).value, tokens[1]).None? then None
            else FeedAll(Feed(Feed(m, tokens[0]).value, tokens[1]).value, tokens[2..])
  {
    assert tokens[1..][0] == tokens[1] && tokens[1..][1..] == tokens[2..];
  }

  lemma {:induction false} AcceptsRest(m: Machine, tokens: seq<string>)
    requires m.state == COMMAND && m.env == [] && m.current.Some? && m.current.value.Command?
    ensures var c := m.current.value;
            Finish(FeedAll(m, tokens)).Parsed? <==>
            AcceptedRest(tokens, c.stdin != Inherited, c.stdout != Inherited, c.stderr != Inherited)
    decreases |tokens|
  {
    hide Accepted;
    if tokens != [] {
      var token, next := tokens[0], Feed(m, tokens[0]);
      if token in {"<", ">", "2>"} {
        if |tokens| > 1 {
          FeedFirstTwo(m, tokens);
          var after := Feed(next.value, tokens[1]);
          if after.Some? { AcceptsRest(after.value, tokens[2..]); }
        } else {
          assert tokens[1..] == [];
        }
      } else if token in {"|", "&&", "||"} {
        if next.Some? { AcceptsBegin(next.value, tokens[1..]); }
      } else {
        if next.Some? { AcceptsRest(next.value, tokens[1..]); }
      }
    }
  }

  /** The parser's failed assertions are exactly the token lists outside this grammar. */
  lemma ParsedIffAccepted(tokens: seq<string>)
    ensures ParseTokens(tokens).Parsed? <==> Accepted(tokens, false)
  {
    AcceptsBegin(INITIAL, tokens);
  }

  // ---------- Repeated assignments ----------

  function ValueOf(env: EnvVars, key: string): Option<string> {
    if env == [] then None else if env[0].0 == key then Some(env[0].1) else ValueOf(env[1..], key)
  }

  /** The value that the last assignment token for key gives. */
  function LastAssigned(tokens: seq<string>, key: string): Option<string> {
    if tokens == [] then None else
      var last := MatchEnvVar(tokens[|tokens| - 1]);
      if last.Some? && last.value.0 == key then Some(last.value.1) else LastAssigned(tokens[..|tokens| - 1], key)
  }

  lemma {:induction false} SetEnvValue(env: EnvVars, key: string, value: string, k: string)
    ensures ValueOf(SetEnv(env, key, value), k) == if k == key then Some(value) else ValueOf(env, k)
  {
    if env != [] && env[0].0 != key {
      SetEnvValue(env[1..], key, value, k);
    }
  }

  /** Of several assignments to a name in front of a command, the last one counts. */
  lemma {:induction false} LastAssignmentWins(tokens: seq<string>, key: string)
    requires forall i :: 0 <= i < |tokens| ==> MatchEnvVar(tokens[i]).Some?
    ensures var m := FeedAll(INITIAL, tokens);
            m.Some? && m.value == INITIAL.(env := m.value.env) && ValueOf(m.value.env, key) == LastAssigned(tokens, key)
    decreases |tokens|
  {
    hide MatchEnvVar, ValueOf, SetEnv;
    if tokens != [] {
      var front, last := tokens[..|tokens| - 1], tokens[|tokens| - 1];
      LastAssignmentWins(front, key);
      FeedAllConcat(INITIAL, front, [last]);
      assert tokens == front + [last];
      var m := FeedAll(INITIAL, front).value;
      var (k, v) := MatchEnvVar(last).value;
      SetEnvValue(m.env, k, v, key);
      assert [last][1..] == [];
      assert FeedAll(m, [last]) == Some(m.(env := SetEnv(m.env, k, v)));
    } else {
      NothingAssigned(key);
    }
  }

  lemma NothingAssigned(key: string)
    ensures ValueOf([], key) == None
  {
  }

  /** The command behind the assignments gets the last value of each name. */
  lemma CommandEnvironment(tokens: seq<string>, name: string, key: string)
    requires forall i :: 0 <= i < |tokens| ==> MatchEnvVar(tokens[i]).Some?
    requires MatchEnvVar(name).None? && name != "cd"
    ensures var r := ParseTokens(tokens + [name]);
            && r.Parsed? && |r.pipeline| == 1 && r.pipeline[0].Command? && r.pipeline[0].argv == [name]
            && ValueOf(r.pipeline[0].envVars, key) == LastAssigned(tokens, key)
  {
    hide MatchEnvVar, ValueOf, LastAssigned;
    LastAssignmentWins(tokens, key);
    var m := FeedAll(INITIAL, tokens).value;
    FeedAllConcat(INITIAL, tokens, [name]);
    assert [name][1..] == [];
    assert FeedAll(m, [name]) == Some(Machine(COMMAND, Some(NewCommand(name, m.env)), [], []));
  }

  lemma MatchesAssignment(token: string)
    requires |token| == 3 && token[1] == '=' && IsWordChar(token[0]) && IsWordChar(token[2])
    ensures MatchEnvVar(token) == Some(([token[0]], [token[2]]))
  {
    assert FirstEquals(token[1..]) == 0 && token[0] != '=';
    assert token[..1] == [token[0]] && token[2..] == [token[2]];
  }

  /** In "A=1 A=2 cmd", cmd runs with A=2. */
  lemma RepeatedAssignmentExample()
    ensures var r := ParseTokens(["A=1", "A=2", "cmd"]);
            r.Parsed? && ValueOf(r.pipeline[0].envVars, "A") == Some("2")
  {
    hide MatchEnvVar, ParseTokens, ValueOf;
    MatchesAssignment("A=1");
    MatchesAssignment("A=2");
    NoAssignment("cmd");
    assert ["A=1", "A=2"] + ["cmd"] == ["A=1", "A=2", "cmd"];
    CommandEnvironment(["A=1", "A=2"], "cmd", "A");
    assert ["A"] == ["A"] && LastAssigned(["A=1", "A=2"], "A") == Some("2");
  }

  lemma NoAssignment(token: string)
    requires '=' !in token
    ensures MatchEnvVar(token).None?
  {
    assert FirstEquals(token) == |token|;
  }

  lemma FeedRest(m: Machine, token: string, rest: seq<string>)
    ensures FeedAll(m, [token] + rest) == if Feed(m, token).Some? then FeedAll(Feed(m, token).value, rest) else None
  {
    assert ([token] + rest)[1..] == rest;
  }

  /** The list that the source's own example parses: "./foo.py 2>&1 < xxx | cat && ls". */
  lemma MainExample()
    ensures ParseTokens(["./foo.py", "2>&1", "<", "xxx", "|", "cat", "&&", "ls"]) ==
            Parsed([Command("./foo.py", ["./foo.py"], File("xxx"), PIPE, STDOUT, []), Pipe,
                    NewCommand("cat", []), And, NewCommand("ls", [])])
  {
    hide MatchEnvVar, FeedAll;
    NoAssignment("./foo.py");
    NoAssignment("cat");
    NoAssignment("ls");
    var foo := Command("./foo.py", ["./foo.py"], File("xxx"), PIPE, STDOUT, []);
    var cat, ls := NewCommand("cat", []), NewCommand("ls", []);
    var m1 := Machine(COMMAND, Some(NewCommand("./foo.py", [])), [], []);
    var m2 := m1.(current := Some(m1.current.value.(stderr := STDOUT)));
    var m4 := m2.(current := Some(m2.current.value.(stdin := File("xxx"))));
    var m5 := Machine(BEGIN, None, [], [foo, Pipe]);
    var m6 := Machine(COMMAND, Some(cat), [], [foo, Pipe]);
    var m7 := Machine(BEGIN, None, [], [foo, Pipe, cat, And]);
    var r7 := ["ls"] + [];
    var r6 := ["&&"] + r7;
    var r5 := ["cat"] + r6;
    var r4 := ["|"] + r5;
    var r3 := ["xxx"] + r4;
    var r2 := ["<"] + r3;
    var r1 := ["2>&1"] + r2;
    assert ["./foo.py", "2>&1", "<", "xxx", "|", "cat", "&&", "ls"] == ["./foo.py"] + r1;
    FeedRest(INITIAL, "./foo.py", r1);
    FeedRest(m1, "2>&1", r2);
    FeedRest(m2, "<", r3);
    FeedRest(m2.(state := STATE_STDIN), "xxx", r4);
    FeedRest(m4, "|", r5);
    FeedRest(m5, "cat", r6);
    FeedRest(m6, "&&", r7);
    FeedRest(m7, "ls", []);
    assert [] + [foo] + [Pipe] == [foo, Pipe] && [foo, Pipe] + [cat] + [And] == [foo, Pipe, cat, And];
    assert Feed(INITIAL, "./foo.py") == Some(m1) && Feed(m1, "2>&1") == Some(m2);
    assert Feed(m2, "<") == Some(m2.(state := STATE_STDIN)) && Feed(m2.(state := STATE_STDIN), "xxx") == Some(m4);
    assert Feed(m4, "|") == Some(m5);
    assert Feed(m5, "cat") == Some(m6) && Feed(m6, "&&") == Some(m7);
    FeedNothing(Machine(COMMAND, Some(ls), [], [foo, Pipe, cat, And]));
  }

  lemma FeedNothing(m: Machine)
    ensures FeedAll(m, []) == Some(m)
  {
  }
}
