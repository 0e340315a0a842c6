/**
 * The command-line parser: a six-state token machine that builds a pipeline of commands,
 * directory changes and operators.
 */
module ShellParser {
  import opened Wrappers

  /** Where a stream of a command goes; PIPE and STDOUT are the two marker constants. */
  datatype Stream = Inherited | File(name: string) | PIPE | STDOUT

  /** Insertion-ordered environment assignments, each name once. */
  type EnvVars = seq<(string, string)>

  datatype Node =
    | Command(name: string, argv: seq<string>, stdin: Stream, stdout: Stream, stderr: Stream, envVars: EnvVars)
    | Chdir(dir: Option<string>)
    | Pipe
    | And
    | Or

  datatype ParserState = BEGIN | COMMAND | CHDIR | STATE_STDERR | STATE_STDOUT | STATE_STDIN

  datatype ParseResult = Parsed(pipeline: seq<Node>) | AssertionError

  // ---------- Environment assignments ----------

  predicate IsWordChar(c: char) {
    'a' <= c <= 'z' || 'A' <= c <= 'Z' || '0' <= c <= '9' || c == '_'
  }

  /** White space in the sense of the regular expression class. */
  predicate IsSpace(c: char) {
    var n := c as int;
    || 9 <= n <= 13 || 28 <= n <= 32 || n == 0x85 || n == 0xA0 || n == 0x1680 || 0x2000 <= n <= 0x200A
    || n == 0x2028 || n == 0x2029 || n == 0x202F || n == 0x205F || n == 0x3000
  }

  predicate IsEnvName(s: string) {
    s != "" && forall i :: 0 <= i < |s| ==> IsWordChar(s[i])
  }

  predicate IsEnvValue(s: string) {
    s != "" && forall i :: 0 <= i < |s| ==> !IsSpace(s[i])
  }

  function FirstEquals(s: string): (i: nat)
    ensures i <= |s| && '=' !in s[..i] && (i < |s| ==> s[i] == '=')
  {
    if s == "" || s[0] == '=' then 0 else 1 + FirstEquals(s[1..])
  }

  /** The name and value of an assignment token; one final newline is not part of the value. */
  function MatchEnvVar(token: string): Option<(string, string)> {
    var i := FirstEquals(token);
    if i == |token| then None else
      var rest := token[i + 1..];
      var value := if rest != "" && rest[|rest| - 1] == '\n' then rest[..|rest| - 1] else rest;
      if IsEnvName(token[..i]) && IsEnvValue(value) then Some((token[..i], value)) else None
  }

  function SetEnv(env: EnvVars, key: string, value: string): EnvVars {
    if env == [] then [(key, value)]
    else if env[0].0 == key then [(key, value)] + env[1..]
    else [env[0]] + SetEnv(env[1..], key, value)
  }

  function NewCommand(name: string, env: EnvVars): Node {
    Command(name, [name], Inherited, Inherited, Inherited, env)
  }

  // ---------- The machine as a function of one token ----------

  datatype Machine = Machine(state: ParserState, current: Option<Node>, env: EnvVars, pipeline: seq<Node>)

  const INITIAL := Machine(BEGIN, None, [], [])

  function Commit(m: Machine, op: Node): Option<Machine> {
    if m.current.None? then None
    else Some(Machine(BEGIN, None, m.env, m.pipeline + [m.current.value] + [op]))
  }

  /** One token in state COMMAND, where cmd is the command being built. */
  function FeedCommand(m: Machine, cmd: Node, token: string): Option<Machine>
    requires cmd.Command?
  {
    if token == ">" then Some(m.(state := STATE_STDOUT))
    else if token == "2>" then Some(m.(state := STATE_STDERR))
    else if token == "2>&1" then
      if cmd.stderr != Inherited then None else Some(m.(current := Some(cmd.(stderr := STDOUT))))
    else if token == "<" then Some(m.(state := STATE_STDIN))
    else if token == "|" then
      if cmd.stdout != Inherited then None else Commit(m.(current := Some(cmd.(stdout := PIPE))), Pipe)
    else if token == "&&" then Commit(m, And)
    else if token == "||" then Commit(m, Or)
    else Some(m.(current := Some(cmd.(argv := cmd.argv + [token]))))
  }

  function FeedBegin(m: Machine, token: string): Option<Machine> {
    match MatchEnvVar(token)
    case Some((key, value)) => Some(m.(env := SetEnv(m.env, key, value)))
    case None =>
      if m.current.Some? then None
      else if token == "cd" then
        if m.env != [] then None else Some(m.(state := CHDIR, current := Some(Chdir(None))))
      else Some(m.(state := COMMAND, current := Some(NewCommand(token, m.env)), env := []))
  }

  function FeedRedirect(m: Machine, cmd: Node, token: string): Option<Machine>
    requires cmd.Command?
  {
    match m.state
    case STATE_STDOUT =>
      if cmd.stdout != Inherited then None
      else Some(m.(state := COMMAND, current := Some(cmd.(stdout := File(token)))))
    case STATE_STDERR =>
      if cmd.stderr != Inherited then None
      else Some(m.(state := COMMAND, current := Some(cmd.(stderr := File(token)))))
    case _ =>
      if cmd.stdin != Inherited then None
      else Some(m.(state := COMMAND, current := Some(cmd.(stdin := File(token)))))
  }

  /** None stands for a failed assertion. */
  function Feed(m: Machine, token: string): Option<Machine> {
    match m.state
    case BEGIN => FeedBegin(m, token)
    case CHDIR =>
      if token == "&&" then Commit(m, And)
      else if m.current.Some? && m.current.value == Chdir(None) then
        Some(m.(current := Some(Chdir(Some(token)))))
      else None
    case COMMAND =>
      if m.current.Some? && m.current.value.Command? then FeedCommand(m, m.current.value, token) else None
    case _ =>
      if m.current.Some? && m.current.value.Command? then FeedRedirect(m, m.current.value, token) else None
  }

  function FeedAll(m: Machine, tokens: seq<string>): Option<Machine>
    decreases |tokens|
  {
    if tokens == [] then Some(m) else
      match Feed(m, tokens[0])
      case None => None
      case Some(next) => FeedAll(next, tokens[1..])
  }

  /** The final commit, which fails when no command is open. */
  function Finish(m: Option<Machine>): ParseResult {
    if m.Some? && m.value.current.Some? then Parsed(m.value.pipeline + [m.value.current.value]) else AssertionError
  }

  function ParseTokens(tokens: seq<string>): ParseResult {
    Finish(FeedAll(INITIAL, tokens))
  }

  // ---------- The parser object ----------

  class Pipeline {
    var currentCommand: Option<Node>
    var pipeline: seq<Node>

    constructor ()
      ensures currentCommand == None && pipeline == []
    {
      currentCommand, pipeline := None, [];
    }

    /** Fails, without a change, when there is no current command. */
    method CommitCommand() returns (ok: bool)
      modifies this
      ensures ok == old(currentCommand).Some?
      ensures ok ==> currentCommand == None && pipeline == old(pipeline) + [old(currentCommand).value]
      ensures !ok ==> unchanged(this)
    {
      if currentCommand.None? {
        return false;
      }
      pipeline := pipeline + [currentCommand.value];
      currentCommand := None;
      return true;
    }

    method Parse(command: seq<string>) returns (r: ParseResult)
      modifies this
      ensures r == ParseTokens(command)
      ensures r.Parsed? ==> pipeline == r.pipeline && currentCommand == None
    {
      currentCommand, pipeline := None, [];
      var tokens := command;
      var state := BEGIN;
      var envVars: EnvVars := [];
      while tokens != []
        invariant FeedAll(INITIAL, command) == FeedAll(Machine(state, currentCommand, envVars, pipeline), tokens)
        invariant state == BEGIN ==> currentCommand == None
        invariant state == CHDIR ==> currentCommand.Some? && currentCommand.value.Chdir?
        invariant state != BEGIN && state != CHDIR ==> currentCommand.Some? && currentCommand.value.Command?
        decreases |tokens|
      {
        var token := tokens[0];
        tokens := tokens[1..];
        match state {
          case BEGIN =>
            var envVarMatch := MatchEnvVar(token);
            if envVarMatch.Some? {
              envVars := SetEnv(envVars, envVarMatch.value.0, envVarMatch.value.1);
            } else {
              if token == "cd" {
                currentCommand := Some(Chdir(None));
                if envVars != [] {
                  return AssertionError;
                }
                state := CHDIR;
              } else {
                currentCommand := Some(NewCommand(token, envVars));
                envVars := [];
                state := COMMAND;
              }
            }
          case COMMAND =>
            var cmd := currentCommand.value;
            if token == ">" {
              state := STATE_STDOUT;
            } else if token == "2>" {
              state := STATE_STDERR;
            } else if token == "2>&1" {
              if cmd.stderr != Inherited {
                return AssertionError;
              }
              currentCommand := Some(cmd.(stderr := STDOUT));
            } else if token == "<" {
              state := STATE_STDIN;
            } else if token == "|" {
              if cmd.stdout != Inherited {
                return AssertionError;
              }
              currentCommand := Some(cmd.(stdout := PIPE));
              var _ := CommitCommand();
              pipeline := pipeline + [Pipe];
              state := BEGIN;
            } else if token == "&&" {
              var _ := CommitCommand();
              pipeline := pipeline + [And];
              state := BEGIN;
            } else if token == "||" {
              var _ := CommitCommand();
              pipeline := pipeline + [Or];
              state := BEGIN;
            } else {
              currentCommand := Some(cmd.(argv := cmd.argv + [token]));
            }
          case CHDIR =>
            if token == "&&" {
              var _ := CommitCommand();
              pipeline := pipeline + [And];
              state := BEGIN;
            } else {
              if currentCommand.value.dir.Some? {
                return AssertionError;
              }
              currentCommand := Some(Chdir(Some(token)));
            }
          case STATE_STDOUT =>
            var cmd := currentCommand.value;
            if cmd.stdout != Inherited {
              return AssertionError;
            }
            currentCommand := Some(cmd.(stdout := File(token)));
            state := COMMAND;
          case STATE_STDERR =>
            var cmd := currentCommand.value;
            if cmd.stderr != Inherited {
              return AssertionError;
            }
            currentCommand := Some(cmd.(stderr := File(token)));
            state := COMMAND;
          case STATE_STDIN =>
            var cmd := currentCommand.value;
            if cmd.stdin != Inherited {
              return AssertionError;
            }
            currentCommand := Some(cmd.(stdin := File(token)));
            state := COMMAND;
        }
      }
      var ok := CommitCommand();
      if !ok {
        return AssertionError;
      }
      return Parsed(pipeline);
    }
  }
}
