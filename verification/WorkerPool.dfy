/**
 * The test runner's worker pool as a state machine over its atomic steps: the main thread
 * dispatches jobs, puts one break job per worker, collects results and joins the workers,
 * while workers and an interrupt interleave with it arbitrarily.
 */
module WorkerPool {

  /** isBreak marks the jobs that end a worker and, on the way back, interrupted jobs. */
  datatype Job = Job(id: nat, isBreak: bool, isSkip: bool, returncode: int)

  const BREAK_JOB := Job(0, true, false, 0)

  /** A worker between two of its steps. */
  datatype Worker = Waiting | Got(job: Job) | Running(job: Job) | Reporting(job: Job) | Exited

  datatype Main =
    | Dispatching(todo: seq<Job>)
    | Stopping(breaksLeft: nat)
    | Collecting(jobsLeft: nat)
    | Joining(joined: nat)

  datatype Counts = Counts(passed: nat, failed: nat, skipped: nat, crashed: nat, valgrind: nat)

  datatype State = State(
    threadExit: bool,
    input: seq<Job>,
    output: seq<Job>,
    workers: seq<Worker>,
    main: Main,
    jobs: nat,
    collected: seq<Job>,
    counts: Counts)

  datatype Action =
    | Dispatch
    | EndDispatch
    | PutBreak
    | EndBreaks
    | Collect
    | EndCollect
    | Join
    | Get(w: nat)
    | Inspect(w: nat)
    | Finish(w: nat, returncode: int)
    | Put(w: nat)
    | Interrupt

  /** The state when all workers have been started. */
  function Start(todo: seq<Job>, processors: nat): State {
    State(false, [], [], seq(processors, _ => Waiting), Dispatching(todo), 0, [], Counts(0, 0, 0, 0, 0))
  }

  /** Queue gets and joins block; everything else is enabled whenever its turn comes. */
  predicate Enabled(s: State, a: Action) {
    match a
    case Dispatch => s.main.Dispatching? && s.main.todo != []
    case EndDispatch => s.main.Dispatching? && s.main.todo == []
    case PutBreak => s.main.Stopping? && s.main.breaksLeft > 0
    case EndBreaks => s.main.Stopping? && s.main.breaksLeft == 0
    case Collect => s.main.Collecting? && s.main.jobsLeft > 0 && s.output != []
    case EndCollect => s.main.Collecting? && s.main.jobsLeft == 0
    case Join => s.main.Joining? && s.main.joined < |s.workers| && s.workers[s.main.joined].Exited?
    case Get(w) => w < |s.workers| && s.workers[w].Waiting? && s.input != []
    case Inspect(w) => w < |s.workers| && s.workers[w].Got?
    case Finish(w, _) => w < |s.workers| && s.workers[w].Running?
    case Put(w) => w < |s.workers| && s.workers[w].Reporting?
    case Interrupt => !s.threadExit
  }

  /** How a worker goes on with the job it got: exit, hand it back unrun, skip it or run it. */
  function Inspected(threadExit: bool, job: Job): Worker {
    if job.isBreak then Exited
    else if threadExit then Reporting(job.(isBreak := true))
    else if job.isSkip then Reporting(job)
    else Running(job)
  }

  /** The main thread's bookkeeping for one result. */
  function Tally(c: Counts, job: Job): Counts {
    if job.isBreak then c
    else if job.isSkip then c.(skipped := c.skipped + 1)
    else if job.returncode == 0 then c.(passed := c.passed + 1)
    else if job.returncode == 1 then c.(failed := c.failed + 1)
    else if job.returncode == 2 then c.(valgrind := c.valgrind + 1)
    else c.(crashed := c.crashed + 1)
  }

  function Next(s: State, a: Action): State
    requires Enabled(s, a)
  {
    match a
    case Dispatch =>
      s.(input := s.input + [s.main.todo[0]], main := Dispatching(s.main.todo[1..]), jobs := s.jobs + 1)
    case EndDispatch => s.(main := Stopping(|s.workers|))
    case PutBreak => s.(input := s.input + [BREAK_JOB], main := Stopping(s.main.breaksLeft - 1))
    case EndBreaks => s.(main := Collecting(s.jobs))
    case Collect =>
      s.(output := s.output[1..], main := Collecting(s.main.jobsLeft - 1),
         collected := s.collected + [s.output[0]], counts := Tally(s.counts, s.output[0]))
    case EndCollect => s.(main := Joining(0))
    case Join => s.(main := Joining(s.main.joined + 1))
    case Get(w) => s.(input := s.input[1..], workers := s.workers[w := Got(s.input[0])])
    case Inspect(w) => s.(workers := s.workers[w := Inspected(s.threadExit, s.workers[w].job)])
    case Finish(w, rc) => s.(workers := s.workers[w := Reporting(s.workers[w].job.(returncode := rc))])
    case Put(w) => s.(output := s.output + [s.workers[w].job], workers := s.workers[w := Waiting])
    case Interrupt => s.(threadExit := true)
  }

  /** run_tests returns once every thread has been joined. */
  predicate Done(s: State) {
    s.main.Joining? && s.main.joined == |s.workers|
  }

  function ExitCode(s: State): int {
    if s.counts.passed + s.counts.skipped == s.jobs then 0 else 1
  }

  // ---------- Where jobs are ----------

  /** The job as it was dispatched. */
  function Original(job: Job): Job {
    job.(isBreak := false, returncode := 0)
  }

  /** The dispatched jobs in a list of results. */
  ghost function Originals(js: seq<Job>): multiset<Job> {
    if js == [] then multiset{} else Originals(js[..|js| - 1]) + multiset{Original(js[|js| - 1])}
  }

  /** The dispatched jobs in an input queue, break jobs apart. */
  ghost function Queued(js: seq<Job>): multiset<Job> {
    if js == [] then multiset{} else Queued(js[..|js| - 1]) + QueuedJob(js[|js| - 1])
  }

  ghost function QueuedJob(job: Job): multiset<Job> {
    if job.isBreak then multiset{} else multiset{Original(job)}
  }

  ghost function Hand(w: Worker): multiset<Job> {
    match w
    case Got(job) => if job.isBreak then multiset{} else multiset{Original(job)}
    case Running(job) => multiset{Original(job)}
    case Reporting(job) => multiset{Original(job)}
    case _ => multiset{}
  }

  ghost function Hands(ws: seq<Worker>): multiset<Job> {
    if ws == [] then multiset{} else Hands(ws[..|ws| - 1]) + Hand(ws[|ws| - 1])
  }

  ghost function Undispatched(m: Main): seq<Job> {
    if m.Dispatching? then m.todo else []
  }

  /** How often a dispatched job is found: to be dispatched, queued, in hand, returned or collected. */
  ghost function Found(s: State, job: Job): nat {
    Originals(Undispatched(s.main))[job] + Queued(s.input)[job] + Hands(s.workers)[job] +
    Originals(s.output)[job] + Originals(s.collected)[job]
  }

  /** No job is lost or duplicated. */
  ghost predicate Conserved(s: State, todo: seq<Job>) {
    forall job :: Found(s, job) == Originals(todo)[job]
  }

  ghost function Sum(ws: seq<Worker>, f: Worker -> nat): nat {
    if ws == [] then 0 else Sum(ws[..|ws| - 1], f) + f(ws[|ws| - 1])
  }

  /** 1 for a worker that has taken a break job. */
  ghost function TookBreak(w: Worker): nat {
    if w.Exited? || (w.Got? && w.job.isBreak) then 1 else 0
  }

  ghost function BreaksIn(js: seq<Job>): nat {
    if js == [] then 0 else BreaksIn(js[..|js| - 1]) + if js[|js| - 1].isBreak then 1 else 0
  }

  ghost function BreaksToPut(s: State): nat {
    match s.main
    case Dispatching(_) => |s.workers|
    case Stopping(n) => n
    case _ => 0
  }

  lemma Regroup<T>(a: multiset<T>, b: multiset<T>, x: multiset<T>, y: multiset<T>, z: multiset<T>)
    requires a + x == b + y
    ensures a + z + x == b + z + y
  {
    assert a + z + x == a + x + z;
    assert b + z + y == b + y + z;
  }

  lemma {:induction false} HandsUpdate(ws: seq<Worker>, i: nat, w: Worker)
    requires i < |ws|
    ensures Hands(ws[i := w]) + Hand(ws[i]) == Hands(ws) + Hand(w)
  {
    hide Hand;
    var front, n := ws[..|ws| - 1], |ws| - 1;
    if i < n {
      HandsUpdate(front, i, w);
      assert ws[i := w][..n] == front[i := w];
      Regroup(Hands(front[i := w]), Hands(front), Hand(ws[i]), Hand(w), Hand(ws[n]));
    } else {
      assert ws[i := w][..n] == front;
      Regroup(Hands(front), Hands(front), multiset{}, multiset{}, Hand(w) + Hand(ws[n]));
    }
  }

  lemma {:induction false} SumUpdate(ws: seq<Worker>, f: Worker -> nat, i: nat, w: Worker)
    requires i < |ws|
    ensures Sum(ws[i := w], f) + f(ws[i]) == Sum(ws, f) + f(w)
  {
    var front, n := ws[..|ws| - 1], |ws| - 1;
    if i < n {
      SumUpdate(front, f, i, w);
      assert ws[i := w][..n] == front[i := w];
    } else {
      assert ws[i := w][..n] == front;
    }
  }

  lemma {:induction false} OriginalsPop(js: seq<Job>)
    requires js != []
    ensures Originals(js) == multiset{Original(js[0])} + Originals(js[1..])
  {
    hide Original;
    if |js| > 1 {
      var front, last := js[..|js| - 1], js[|js| - 1];
      OriginalsPop(front);
      assert front[1..] == js[1..][..|js| - 2];
      assert Originals(js) == multiset{Original(js[0])} + Originals(front[1..]) + multiset{Original(last)};
    } else {
      assert js[..0] == [] && js[1..] == [];
    }
  }

  lemma {:induction false} QueuePop(js: seq<Job>)
    requires js != []
    ensures Queued(js) == QueuedJob(js[0]) + Queued(js[1..])
  {
    hide QueuedJob;
    if |js| > 1 {
      var front, last := js[..|js| - 1], js[|js| - 1];
      QueuePop(front);
      assert front[1..] == js[1..][..|js| - 2];
      assert Queued(js) == QueuedJob(js[0]) + Queued(front[1..]) + QueuedJob(last);
    } else {
      assert js[..0] == [] && js[1..] == [];
    }
  }

  lemma {:induction false} BreaksPop(js: seq<Job>)
    requires js != []
    ensures BreaksIn(js) == (if js[0].isBreak then 1 else 0) + BreaksIn(js[1..])
  {
    if |js| > 1 {
      BreaksPop(js[..|js| - 1]);
      assert js[..|js| - 1][1..] == js[1..][..|js| - 2];
    } else {
      assert js[..0] == [] && js[1..] == [];
    }
  }

  lemma AppendJob(js: seq<Job>, job: Job)
    ensures Originals(js + [job]) == Originals(js) + multiset{Original(job)}
    ensures Queued(js + [job]) == Queued(js) + QueuedJob(job)
    ensures BreaksIn(js + [job]) == BreaksIn(js) + if job.isBreak then 1 else 0
  {
    assert (js + [job])[..|js|] == js;
  }

  // ---------- The invariant ----------

  /** Break jobs are behind all real jobs, and real jobs are as dispatched. */
  ghost predicate FifoInput(input: seq<Job>) {
    && (forall i :: 0 <= i < |input| ==> input[i] == (if input[i].isBreak then BREAK_JOB else Original(input[i])))
    && (forall i, j :: 0 <= i < j < |input| && input[i].isBreak ==> input[j].isBreak)
  }

  /** What a worker may hold. */
  ghost predicate WorkerOk(threadExit: bool, w: Worker) {
    match w
    case Got(job) => job == if job.isBreak then BREAK_JOB else Original(job)
    case Running(job) => job == Original(job) && !job.isSkip
    case Reporting(job) => ResultOk(threadExit, job)
    case _ => true
  }

  /** A result is marked as break only after an interrupt, and a skipped job has not been run. */
  ghost predicate ResultOk(threadExit: bool, job: Job) {
    (job.isBreak ==> threadExit) && (job.isBreak || job.isSkip ==> job.returncode == 0)
  }

  ghost predicate ResultsOk(threadExit: bool, js: seq<Job>) {
    forall i :: 0 <= i < |js| ==> ResultOk(threadExit, js[i])
  }

  ghost predicate MainOk(s: State, todo: seq<Job>) {
    match s.main
    case Dispatching(left) => s.jobs + |left| == |todo| && s.collected == [] && forall i :: 0 <= i < |left| ==> left[i] == Original(left[i])
    case Stopping(n) => s.jobs == |todo| && s.collected == [] && n <= |s.workers|
    case Collecting(n) => s.jobs == |todo| && |s.collected| + n == s.jobs
    case Joining(t) => s.jobs == |todo| && |s.collected| == s.jobs && t <= |s.workers| && forall i :: 0 <= i < t ==> s.workers[i].Exited?
  }

  ghost function TallyAll(js: seq<Job>): Counts {
    if js == [] then Counts(0, 0, 0, 0, 0) else Tally(TallyAll(js[..|js| - 1]), js[|js| - 1])
  }

  /** Queues and hands hold what they may hold. */
  ghost predicate HeldOk(s: State) {
    && FifoInput(s.input)
    && (forall w :: 0 <= w < |s.workers| ==> WorkerOk(s.threadExit, s.workers[w]))
    && ResultsOk(s.threadExit, s.output) && ResultsOk(s.threadExit, s.collected)
    && s.counts == TallyAll(s.collected)
  }

  /** One break job per worker, and none is taken before the real jobs. */
  ghost predicate BreaksOk(s: State) {
    && BreaksIn(s.input) + Sum(s.workers, TookBreak) + BreaksToPut(s) == |s.workers|
    && (Sum(s.workers, TookBreak) > 0 ==> forall i :: 0 <= i < |s.input| ==> s.input[i].isBreak)
  }

  ghost predicate Inv(s: State, todo: seq<Job>) {
    Conserved(s, todo) && HeldOk(s) && BreaksOk(s) && MainOk(s, todo)
  }

  lemma {:induction false} StartSums(ws: seq<Worker>)
    requires forall i :: 0 <= i < |ws| ==> ws[i] == Waiting
    ensures Hands(ws) == multiset{} && Sum(ws, TookBreak) == 0
  {
    if ws != [] { StartSums(ws[..|ws| - 1]); }
  }

  lemma StartInv(todo: seq<Job>, processors: nat)
    requires forall i :: 0 <= i < |todo| ==> todo[i] == Original(todo[i])
    ensures Inv(Start(todo, processors), todo)
  {
    StartSums(Start(todo, processors).workers);
  }

  // ---------- Every step keeps the invariant ----------

  lemma CountUpdate(ws: seq<Worker>, i: nat, w: Worker, job: Job)
    requires i < |ws|
    ensures Hands(ws[i := w])[job] + Hand(ws[i])[job] == Hands(ws)[job] + Hand(w)[job]
  {
    hide *;
    HandsUpdate(ws, i, w);
    assert (Hands(ws[i := w]) + Hand(ws[i]))[job] == (Hands(ws) + Hand(w))[job];
  }

  lemma CountAppend(js: seq<Job>, j: Job, job: Job)
    ensures Originals(js + [j])[job] == Originals(js)[job] + (if job == Original(j) then 1 else 0)
    ensures Queued(js + [j])[job] == Queued(js)[job] + (if !j.isBreak && job == Original(j) then 1 else 0)
  {
    hide Originals, Queued, Original;
    AppendJob(js, j);
    assert (Originals(js) + multiset{Original(j)})[job] == Originals(js)[job] + multiset{Original(j)}[job];
    assert (Queued(js) + QueuedJob(j))[job] == Queued(js)[job] + QueuedJob(j)[job];
  }

  lemma CountPop(js: seq<Job>, job: Job)
    requires js != []
    ensures Originals(js)[job] == Originals(js[1..])[job] + (if job == Original(js[0]) then 1 else 0)
    ensures Queued(js)[job] == Queued(js[1..])[job] + (if !js[0].isBreak && job == Original(js[0]) then 1 else 0)
  {
    hide Originals, Queued, Original;
    OriginalsPop(js);
    QueuePop(js);
    assert (multiset{Original(js[0])} + Originals(js[1..]))[job] ==
           multiset{Original(js[0])}[job] + Originals(js[1..])[job];
    assert (QueuedJob(js[0]) + Queued(js[1..]))[job] == QueuedJob(js[0])[job] + Queued(js[1..])[job];
  }

  lemma NothingCounted(job: Job)
    ensures Originals([])[job] == 0
  {
  }

  lemma FoundDispatch(s: State, job: Job)
    requires Enabled(s, Dispatch) && !s.main.todo[0].isBreak
    ensures Found(Next(s, Dispatch), job) == Found(s, job)
  {
    hide Originals, Queued, Hands;
    CountPop(s.main.todo, job);
    CountAppend(s.input, s.main.todo[0], job);
  }

  lemma FoundPutBreak(s: State, job: Job)
    requires Enabled(s, PutBreak)
    ensures Found(Next(s, PutBreak), job) == Found(s, job)
  {
    hide Originals, Queued, Hands;
    CountAppend(s.input, BREAK_JOB, job);
  }

  lemma FoundCollect(s: State, job: Job)
    requires Enabled(s, Collect)
    ensures Found(Next(s, Collect), job) == Found(s, job)
  {
    hide Originals, Queued, Hands;
    CountPop(s.output, job);
    CountAppend(s.collected, s.output[0], job);
  }

  lemma FoundGet(s: State, w: nat, job: Job)
    requires Enabled(s, Get(w))
    ensures Found(Next(s, Get(w)), job) == Found(s, job)
  {
    hide Originals, Queued, Hands;
    CountPop(s.input, job);
    CountUpdate(s.workers, w, Got(s.input[0]), job);
  }

  lemma FoundInspect(s: State, w: nat, job: Job)
    requires Enabled(s, Inspect(w))
    ensures Found(Next(s, Inspect(w)), job) == Found(s, job)
  {
    hide Originals, Queued, Hands;
    CountUpdate(s.workers, w, Inspected(s.threadExit, s.workers[w].job), job);
  }

  lemma FoundFinish(s: State, w: nat, rc: int, job: Job)
    requires Enabled(s, Finish(w, rc))
    ensures Found(Next(s, Finish(w, rc)), job) == Found(s, job)
  {
    hide Originals, Queued, Hands;
    CountUpdate(s.workers, w, Reporting(s.workers[w].job.(returncode := rc)), job);
  }

  lemma FoundPut(s: State, w: nat, job: Job)
    requires Enabled(s, Put(w))
    ensures Found(Next(s, Put(w)), job) == Found(s, job)
  {
    hide Originals, Queued, Hands;
    CountAppend(s.output, s.workers[w].job, job);
    CountUpdate(s.workers, w, Waiting, job);
  }

  lemma NextFound(s: State, a: Action, job: Job)
    requires Enabled(s, a)
    requires a.Dispatch? ==> !s.main.todo[0].isBreak
    ensures Found(Next(s, a), job) == Found(s, job)
  {
    hide Found;
    match a {
      case Dispatch => FoundDispatch(s, job);
      case PutBreak => FoundPutBreak(s, job);
      case Collect => FoundCollect(s, job);
      case Get(w) => FoundGet(s, w, job);
      case Inspect(w) => FoundInspect(s, w, job);
      case Finish(w, rc) => FoundFinish(s, w, rc, job);
      case Put(w) => FoundPut(s, w, job);
      case _ => FoundStays(s, a, job);
    }
  }

  lemma FoundStays(s: State, a: Action, job: Job)
    requires Enabled(s, a) && (a.EndDispatch? || a.EndBreaks? || a.EndCollect? || a.Join? || a.Interrupt?)
    ensures Found(Next(s, a), job) == Found(s, job)
  {
    NothingCounted(job);
  }

  lemma HeldByWorker(s: State, a: Action, w: nat)
    requires HeldOk(s) && Enabled(s, a)
    requires a == Get(w) || a == Inspect(w) || a == Put(w) || (a.Finish? && a.w == w)
    ensures HeldOk(Next(s, a))
  {
    hide TallyAll;
  }

  lemma HeldByMain(s: State, a: Action, todo: seq<Job>)
    requires HeldOk(s) && MainOk(s, todo) && Enabled(s, a)
    requires a.Dispatch? || a.PutBreak?
    requires a.Dispatch? ==> forall i :: 0 <= i < |s.input| ==> !s.input[i].isBreak
    ensures HeldOk(Next(s, a))
  {
    hide TallyAll;
  }

  lemma HeldByCollector(s: State)
    requires HeldOk(s) && Enabled(s, Collect)
    ensures HeldOk(Next(s, Collect))
  {
    assert (s.collected + [s.output[0]])[..|s.collected|] == s.collected;
  }

  lemma NextHeld(s: State, a: Action, todo: seq<Job>)
    requires HeldOk(s) && MainOk(s, todo) && Enabled(s, a)
    requires a.Dispatch? ==> forall i :: 0 <= i < |s.input| ==> !s.input[i].isBreak
    ensures HeldOk(Next(s, a))
  {
    hide TallyAll, FifoInput;
    match a {
      case Get(w) => HeldByWorker(s, a, w);
      case Inspect(w) => HeldByWorker(s, a, w);
      case Finish(w, _) => HeldByWorker(s, a, w);
      case Put(w) => HeldByWorker(s, a, w);
      case Dispatch => HeldByMain(s, a, todo);
      case PutBreak => HeldByMain(s, a, todo);
      case Collect => HeldByCollector(s);
      case _ =>
    }
  }

  lemma {:induction false} NoBreaksIn(js: seq<Job>)
    ensures BreaksIn(js) == 0 <==> forall i :: 0 <= i < |js| ==> !js[i].isBreak
  {
    if js != [] {
      NoBreaksIn(js[..|js| - 1]);
      assert forall i :: 0 <= i < |js| - 1 ==> js[..|js| - 1][i] == js[i];
    }
  }

  lemma BreaksAfterDispatch(s: State, todo: seq<Job>)
    requires HeldOk(s) && BreaksOk(s) && MainOk(s, todo) && Enabled(s, Dispatch)
    ensures BreaksOk(Next(s, Dispatch))
  {
    hide Sum, Originals, Queued, FifoInput, TallyAll, BreaksIn;
    AppendJob(s.input, s.main.todo[0]);
  }

  lemma BreaksAfterPut(s: State)
    requires BreaksOk(s) && Enabled(s, PutBreak)
    ensures BreaksOk(Next(s, PutBreak))
  {
    hide Sum, Originals, Queued, BreaksIn;
    AppendJob(s.input, BREAK_JOB);
  }

  lemma NextBreaksWorker(s: State, a: Action, w: nat)
    requires HeldOk(s) && BreaksOk(s) && Enabled(s, a)
    requires a == Get(w) || a == Inspect(w) || a == Put(w) || (a.Finish? && a.w == w)
    ensures BreaksOk(Next(s, a))
  {
    hide Sum, BreaksIn, TallyAll;
    SumUpdate(s.workers, TookBreak, w, Next(s, a).workers[w]);
    if a.Get? { BreaksPop(s.input); }
  }

  lemma NextBreaks(s: State, a: Action, todo: seq<Job>)
    requires HeldOk(s) && BreaksOk(s) && MainOk(s, todo) && Enabled(s, a)
    ensures BreaksOk(Next(s, a))
  {
    hide Sum, BreaksIn, HeldOk;
    match a {
      case Get(w) => NextBreaksWorker(s, a, w);
      case Inspect(w) => NextBreaksWorker(s, a, w);
      case Finish(w, _) => NextBreaksWorker(s, a, w);
      case Put(w) => NextBreaksWorker(s, a, w);
      case Dispatch => BreaksAfterDispatch(s, todo);
      case PutBreak => BreaksAfterPut(s);
      case _ =>
    }
  }

  lemma NextMain(s: State, a: Action, todo: seq<Job>)
    requires MainOk(s, todo) && Enabled(s, a)
    ensures MainOk(Next(s, a), todo)
  {
  }

  /** Every step of every thread keeps the invariant. */
  lemma NextInv(s: State, a: Action, todo: seq<Job>)
    requires Inv(s, todo) && Enabled(s, a)
    ensures Inv(Next(s, a), todo)
  {
    NoBreaksIn(s.input);
    hide Found, HeldOk, BreaksIn, Sum;
    forall job
      ensures Found(Next(s, a), job) == Originals(todo)[job]
    {
      NextFound(s, a, job);
    }
    NextHeld(s, a, todo);
    NextBreaks(s, a, todo);
    NextMain(s, a, todo);
  }

  // ---------- No deadlock ----------

  lemma {:induction false} BusyWorker(ws: seq<Worker>) returns (w: nat)
    requires Hands(ws) != multiset{}
    ensures w < |ws| && (ws[w].Got? || ws[w].Running? || ws[w].Reporting?)
  {
    if Hand(ws[|ws| - 1]) != multiset{} {
      w := |ws| - 1;
    } else {
      w := BusyWorker(ws[..|ws| - 1]);
    }
  }

  lemma {:induction false} TookBreakBound(ws: seq<Worker>)
    ensures Sum(ws, TookBreak) <= |ws|
    ensures Sum(ws, TookBreak) == |ws| ==> forall w :: 0 <= w < |ws| ==> TookBreak(ws[w]) == 1
    ensures Sum(ws, TookBreak) == 0 ==> forall w :: 0 <= w < |ws| ==> TookBreak(ws[w]) == 0
  {
    if ws != [] {
      TookBreakBound(ws[..|ws| - 1]);
      assert forall w :: 0 <= w < |ws| - 1 ==> ws[..|ws| - 1][w] == ws[w];
    }
  }

  lemma {:induction false} OriginalsSize(js: seq<Job>)
    ensures |Originals(js)| == |js|
  {
    if js != [] { OriginalsSize(js[..|js| - 1]); }
  }

  lemma {:induction false} QueuedInQueue(js: seq<Job>, job: Job)
    requires Queued(js)[job] > 0
    ensures js != [] && exists i :: 0 <= i < |js| && !js[i].isBreak
  {
    var last := js[|js| - 1];
    if last.isBreak {
      QueuedInQueue(js[..|js| - 1], job);
      var i :| 0 <= i < |js| - 1 && !js[..|js| - 1][i].isBreak;
      assert !js[i].isBreak;
    } else {
      assert !js[|js| - 1].isBreak;
    }
  }

  /** If no job is queued, in hand or returned, all have been collected. */
  lemma NothingOut(s: State, todo: seq<Job>)
    requires Conserved(s, todo) && !s.main.Dispatching? && s.output == []
    ensures (forall job :: Queued(s.input)[job] + Hands(s.workers)[job] == 0) ==> |todo| == |s.collected|
  {
    OriginalsSize(todo);
    OriginalsSize(s.collected);
    if forall job :: Queued(s.input)[job] + Hands(s.workers)[job] == 0 {
      forall job
        ensures Originals(todo)[job] == Originals(s.collected)[job]
      {
        assert Found(s, job) == Originals(todo)[job];
      }
      assert Originals(todo) == Originals(s.collected);
    }
  }

  /** While results are missing and none is ready, some job is queued or in hand. */
  lemma MissingResult(s: State, todo: seq<Job>) returns (job: Job)
    requires Inv(s, todo) && s.main.Collecting? && s.main.jobsLeft > 0 && s.output == []
    ensures Queued(s.input)[job] + Hands(s.workers)[job] > 0
  {
    NothingOut(s, todo);
    job :| Queued(s.input)[job] + Hands(s.workers)[job] > 0;
  }

  /** The step that is possible for a worker that is neither idle nor gone. */
  function WorkerStep(s: State, w: nat): (a: Action)
    requires w < |s.workers| && (s.workers[w].Got? || s.workers[w].Running? || s.workers[w].Reporting?)
    ensures Enabled(s, a) && a != Interrupt
  {
    match s.workers[w]
    case Got(_) => Inspect(w)
    case Running(_) => Finish(w, 0)
    case _ => Put(w)
  }

  lemma CollectingNotStuck(s: State, todo: seq<Job>) returns (a: Action)
    requires Inv(s, todo) && s.main.Collecting? && s.main.jobsLeft > 0 && |s.workers| > 0
    ensures Enabled(s, a) && a != Interrupt
  {
    if s.output != [] {
      a := Collect;
    } else if Hands(s.workers) != multiset{} {
      var w := BusyWorker(s.workers);
      a := WorkerStep(s, w);
    } else {
      var job := MissingResult(s, todo);
      QueuedInQueue(s.input, job);
      TookBreakBound(s.workers);
      assert TookBreak(s.workers[0]) == 0;
      a := if s.workers[0].Waiting? then Get(0) else WorkerStep(s, 0);
    }
  }

  lemma JoiningNotStuck(s: State, todo: seq<Job>) returns (a: Action)
    requires Inv(s, todo) && s.main.Joining? && !Done(s)
    ensures Enabled(s, a) && a != Interrupt
  {
    var w := s.main.joined;
    if s.workers[w].Exited? {
      a := Join;
    } else if s.workers[w].Waiting? {
      TookBreakBound(s.workers);
      NoBreaksIn(s.input);
      assert TookBreak(s.workers[w]) == 0;
      assert s.input != [];
      a := Get(w);
    } else {
      a := WorkerStep(s, w);
    }
  }

  /** With at least one worker, no state short of completion is stuck, interrupt or not. */
  lemma NotStuck(s: State, todo: seq<Job>) returns (a: Action)
    requires Inv(s, todo) && |s.workers| > 0 && !Done(s)
    ensures Enabled(s, a) && a != Interrupt
  {
    match s.main
    case Dispatching(left) => a := if left == [] then EndDispatch else Dispatch;
    case Stopping(n) => a := if n == 0 then EndBreaks else PutBreak;
    case Collecting(n) =>
      if n == 0 {
        a := EndCollect;
      } else {
        a := CollectingNotStuck(s, todo);
      }
    case Joining(_) => a := JoiningNotStuck(s, todo);
  }

  // ---------- Termination ----------

  function WorkerWeight(w: Worker): nat {
    match w
    case Waiting => 0
    case Got(_) => 5
    case Running(_) => 4
    case Reporting(_) => 3
    case Exited => 0
  }

  ghost function MainWeight(s: State): nat {
    match s.main
    case Dispatching(todo) => 7 * |todo| + 7 * |s.workers| + |s.workers| + 3
    case Stopping(n) => 7 * n + |s.workers| + 2
    case Collecting(_) => |s.workers| + 1
    case Joining(t) => if t <= |s.workers| then |s.workers| - t else 0
  }

  /** A bound on the number of steps still to come. */
  ghost function StepsLeft(s: State): nat {
    MainWeight(s) + 6 * |s.input| + Sum(s.workers, WorkerWeight) + 2 * |s.output| + if s.threadExit then 0 else 1
  }

  lemma WorkerStepsDrop(s: State, a: Action, w: nat)
    requires Enabled(s, a) && (a == Get(w) || a == Inspect(w) || a == Put(w) || (a.Finish? && a.w == w))
    ensures StepsLeft(Next(s, a)) < StepsLeft(s)
  {
    SumUpdate(s.workers, WorkerWeight, w, Next(s, a).workers[w]);
  }

  /** Every step of every thread uses up some of the bound. */
  lemma StepsLeftDrops(s: State, a: Action)
    requires Enabled(s, a)
    ensures StepsLeft(Next(s, a)) < StepsLeft(s)
  {
    hide Sum, WorkerWeight;
    match a {
      case Get(w) => WorkerStepsDrop(s, a, w);
      case Inspect(w) => WorkerStepsDrop(s, a, w);
      case Finish(w, _) => WorkerStepsDrop(s, a, w);
      case Put(w) => WorkerStepsDrop(s, a, w);
      case _ =>
    }
  }

  // ---------- Whole runs ----------

  /** acts can be executed one after the other from s. */
  ghost predicate Runs(s: State, acts: seq<Action>)
    decreases |acts|
  {
    acts == [] || (Enabled(s, acts[0]) && Runs(Next(s, acts[0]), acts[1..]))
  }

  ghost function After(s: State, acts: seq<Action>): State
    requires Runs(s, acts)
    decreases |acts|
  {
    if acts == [] then s else After(Next(s, acts[0]), acts[1..])
  }

  lemma {:induction false} RunKeepsInv(s: State, acts: seq<Action>, todo: seq<Job>)
    requires Runs(s, acts) && Inv(s, todo)
    ensures Inv(After(s, acts), todo)
    ensures |After(s, acts).workers| == |s.workers|
    ensures |acts| + StepsLeft(After(s, acts)) <= StepsLeft(s)
    decreases |acts|
  {
    if acts != [] {
      NextInv(s, acts[0], todo);
      StepsLeftDrops(s, acts[0]);
      RunKeepsInv(Next(s, acts[0]), acts[1..], todo);
    }
  }

  ghost predicate FreshJobs(todo: seq<Job>) {
    forall i :: 0 <= i < |todo| ==> todo[i] == Original(todo[i])
  }

  lemma {:induction false} StartWeight(ws: seq<Worker>)
    requires forall i :: 0 <= i < |ws| ==> ws[i] == Waiting
    ensures Sum(ws, WorkerWeight) == 0
  {
    if ws != [] { StartWeight(ws[..|ws| - 1]); }
  }

  /** No run is longer than 7 steps a job and 8 a worker, and 4 more. */
  lemma RunsAreBounded(todo: seq<Job>, processors: nat, acts: seq<Action>)
    requires FreshJobs(todo) && Runs(Start(todo, processors), acts)
    ensures |acts| <= 7 * |todo| + 8 * processors + 4
  {
    StartInv(todo, processors);
    StartWeight(Start(todo, processors).workers);
    RunKeepsInv(Start(todo, processors), acts, todo);
  }

  // ---------- The final accounting ----------

  ghost function Interrupted(js: seq<Job>): nat {
    if js == [] then 0 else Interrupted(js[..|js| - 1]) + if js[|js| - 1].isBreak then 1 else 0
  }

  ghost predicate Succeeded(job: Job) {
    !job.isBreak && (job.isSkip || job.returncode == 0)
  }

  lemma {:induction false} TallySums(js: seq<Job>)
    ensures var c := TallyAll(js);
            c.passed + c.failed + c.skipped + c.crashed + c.valgrind + Interrupted(js) == |js|
    ensures var c := TallyAll(js);
            c.passed + c.skipped == |js| <==> forall i :: 0 <= i < |js| ==> Succeeded(js[i])
    ensures TallyAll(js).passed + TallyAll(js).skipped <= |js|
  {
    if js != [] {
      var front := js[..|js| - 1];
      TallySums(front);
      assert forall i :: 0 <= i < |front| ==> front[i] == js[i];
      var last := js[|js| - 1];
      assert TallyAll(js) == Tally(TallyAll(front), last);
      if Succeeded(last) {
        assert forall i :: 0 <= i < |js| ==> i < |front| || js[i] == last;
      }
    }
  }

  ghost function CountIf(js: seq<Job>, p: Job -> bool): nat {
    if js == [] then 0 else CountIf(js[..|js| - 1], p) + if p(js[|js| - 1]) then 1 else 0
  }

  /** A job that came back from a real run with the given kind of return code. */
  predicate Ran(job: Job, code: int -> bool) {
    !job.isBreak && !job.isSkip && code(job.returncode)
  }

  /** Each counter counts exactly the results of its kind. */
  lemma {:induction false} TallyExact(js: seq<Job>)
    ensures var c := TallyAll(js);
            && c.passed == CountIf(js, job => Ran(job, rc => rc == 0))
            && c.failed == CountIf(js, job => Ran(job, rc => rc == 1))
            && c.valgrind == CountIf(js, job => Ran(job, rc => rc == 2))
            && c.crashed == CountIf(js, job => Ran(job, rc => rc < 0 || rc > 2))
            && c.skipped == CountIf(js, (job: Job) => !job.isBreak && job.isSkip)
  {
    if js != [] {
      TallyExact(js[..|js| - 1]);
    }
  }

  lemma {:induction false} NoHands(ws: seq<Worker>)
    requires forall i :: 0 <= i < |ws| ==> ws[i].Exited?
    ensures Hands(ws) == multiset{} && Sum(ws, TookBreak) == |ws|
  {
    if ws != [] { NoHands(ws[..|ws| - 1]); }
  }

  lemma FirstIsReal(js: seq<Job>)
    ensures BreaksIn(js) == 0 ==> js == [] || !js[0].isBreak
  {
    NoBreaksIn(js);
  }

  lemma InputDrained(s: State)
    requires BreaksOk(s) && s.main.Joining? && |s.workers| > 0
    requires forall w :: 0 <= w < |s.workers| ==> s.workers[w].Exited?
    ensures s.input == []
  {
    hide Hands;
    NoHands(s.workers);
    FirstIsReal(s.input);
  }

  lemma AllCollected(s: State, todo: seq<Job>)
    requires Conserved(s, todo) && s.main.Joining? && |s.collected| == |todo|
    requires Queued(s.input) == multiset{} && Hands(s.workers) == multiset{}
    ensures s.output == [] && Originals(s.collected) == Originals(todo)
  {
    OriginalsSize(todo);
    OriginalsSize(s.collected);
    OriginalsSize(s.output);
    forall job
      ensures Originals(todo)[job] == Originals(s.output)[job] + Originals(s.collected)[job]
    {
      assert Found(s, job) == Originals(todo)[job];
    }
    assert Originals(todo) == Originals(s.output) + Originals(s.collected);
  }

  /** When run_tests returns: nothing is left anywhere, and every job has come back exactly once. */
  lemma Completed(s: State, todo: seq<Job>)
    requires Inv(s, todo) && Done(s) && |s.workers| > 0
    ensures s.input == [] && s.output == []
    ensures forall w :: 0 <= w < |s.workers| ==> s.workers[w].Exited?
    ensures s.jobs == |todo| == |s.collected| && Originals(s.collected) == Originals(todo)
  {
    hide Conserved, HeldOk, BreaksOk;
    InputDrained(s);
    NoHands(s.workers);
    AllCollected(s, todo);
  }

  /**
   * The whole protocol: in every interleaving, jobs are conserved throughout, a run that cannot go
   * on without an interrupt has finished, and then the counters add up and the exit code is 0
   * exactly when every job was skipped or returned 0 without interruption.
   */
  lemma EveryRun(todo: seq<Job>, processors: nat, acts: seq<Action>)
    requires FreshJobs(todo) && processors > 0 && Runs(Start(todo, processors), acts)
    ensures var s := After(Start(todo, processors), acts);
            && Inv(s, todo)
            && ((forall a :: Enabled(s, a) ==> a == Interrupt) ==> Done(s))
            && (Done(s) ==>
                  && Originals(s.collected) == Originals(todo)
                  && s.input == [] && s.output == []
                  && s.counts.passed + s.counts.failed + s.counts.skipped + s.counts.crashed + s.counts.valgrind +
                     Interrupted(s.collected) == s.jobs == |todo|
                  && (ExitCode(s) == 0 <==> forall i :: 0 <= i < |s.collected| ==> Succeeded(s.collected[i])))
  {
    var start := Start(todo, processors);
    var s := After(start, acts);
    StartInv(todo, processors);
    RunKeepsInv(start, acts, todo);
    if !Done(s) {
      var a := NotStuck(s, todo);
    } else {
      Completed(s, todo);
      TallySums(s.collected);
    }
  }

  /** Every run can be completed without any further interrupt. */
  lemma {:induction false} RunCompletes(s: State, todo: seq<Job>) returns (acts: seq<Action>)
    requires Inv(s, todo) && |s.workers| > 0
    ensures Runs(s, acts) && Done(After(s, acts))
    ensures forall i :: 0 <= i < |acts| ==> acts[i] != Interrupt
    decreases StepsLeft(s)
  {
    if Done(s) {
      acts := [];
    } else {
      var a := NotStuck(s, todo);
      NextInv(s, a, todo);
      StepsLeftDrops(s, a);
      var rest := RunCompletes(Next(s, a), todo);
      acts := [a] + rest;
      assert acts[1..] == rest;
    }
  }

  // ---------- What running the jobs returned ----------

  /** How many steps of a run finished running a job with a return code such that p. */
  ghost function Finishes(s: State, acts: seq<Action>, p: (Job, int) -> bool): nat
    requires Runs(s, acts)
    decreases |acts|
  {
    if acts == [] then 0 else
      (if acts[0].Finish? && p(Original(s.workers[acts[0].w].job), acts[0].returncode) then 1 else 0) +
      Finishes(Next(s, acts[0]), acts[1..], p)
  }

  ghost function RealResult(job: Job, p: (Job, int) -> bool): nat {
    if !job.isBreak && !job.isSkip && p(Original(job), job.returncode) then 1 else 0
  }

  /** How many results of a list came from running a job, with a return code such that p. */
  ghost function RealResults(js: seq<Job>, p: (Job, int) -> bool): nat {
    if js == [] then 0 else RealResults(js[..|js| - 1], p) + RealResult(js[|js| - 1], p)
  }

  ghost function ReportingReal(w: Worker, p: (Job, int) -> bool): nat {
    if w.Reporting? then RealResult(w.job, p) else 0
  }

  ghost function RealReports(ws: seq<Worker>, p: (Job, int) -> bool): nat {
    if ws == [] then 0 else RealReports(ws[..|ws| - 1], p) + ReportingReal(ws[|ws| - 1], p)
  }

  ghost function RealEverywhere(s: State, p: (Job, int) -> bool): nat {
    RealResults(s.output, p) + RealReports(s.workers, p) + RealResults(s.collected, p)
  }

  lemma RealAppend(js: seq<Job>, job: Job, p: (Job, int) -> bool)
    ensures RealResults(js + [job], p) == RealResults(js, p) + RealResult(job, p)
  {
    assert (js + [job])[..|js|] == js;
  }

  lemma {:induction false} RealPop(js: seq<Job>, p: (Job, int) -> bool)
    requires js != []
    ensures RealResults(js, p) == RealResult(js[0], p) + RealResults(js[1..], p)
  {
    if |js| > 1 {
      RealPop(js[..|js| - 1], p);
      assert js[..|js| - 1][1..] == js[1..][..|js| - 2];
    } else {
      assert js[..0] == [] && js[1..] == [];
    }
  }

  lemma {:induction false} RealUpdate(ws: seq<Worker>, i: nat, w: Worker, p: (Job, int) -> bool)
    requires i < |ws|
    ensures RealReports(ws[i := w], p) + ReportingReal(ws[i], p) == RealReports(ws, p) + ReportingReal(w, p)
  {
    var front, n := ws[..|ws| - 1], |ws| - 1;
    if i < n {
      RealUpdate(front, i, w, p);
      assert ws[i := w][..n] == front[i := w];
    } else {
      assert ws[i := w][..n] == front;
    }
  }

  /** Real results come from Finish steps, with the return codes of those steps, and are never lost. */
  lemma NextReal(s: State, a: Action, p: (Job, int) -> bool)
    requires HeldOk(s) && Enabled(s, a)
    ensures RealEverywhere(Next(s, a), p) == RealEverywhere(s, p) +
            if a.Finish? && p(Original(s.workers[a.w].job), a.returncode) then 1 else 0
  {
    hide RealResults, RealReports, FifoInput, TallyAll, ResultsOk;
    match a {
      case Collect =>
        RealPop(s.output, p);
        RealAppend(s.collected, s.output[0], p);
      case Get(w) => RealUpdate(s.workers, w, Got(s.input[0]), p);
      case Inspect(w) => RealUpdate(s.workers, w, Inspected(s.threadExit, s.workers[w].job), p);
      case Finish(w, rc) =>
        assert WorkerOk(s.threadExit, s.workers[w]);
        RealUpdate(s.workers, w, Next(s, a).workers[w], p);
      case Put(w) =>
        RealAppend(s.output, s.workers[w].job, p);
        RealUpdate(s.workers, w, Waiting, p);
      case _ =>
    }
  }

  lemma {:induction false} RunReal(s: State, acts: seq<Action>, todo: seq<Job>, p: (Job, int) -> bool)
    requires Runs(s, acts) && Inv(s, todo)
    ensures RealEverywhere(After(s, acts), p) == RealEverywhere(s, p) + Finishes(s, acts, p)
    decreases |acts|
  {
    hide Inv, RealEverywhere, Enabled, Next;
    if acts != [] {
      InvHeld(s, todo);
      NextInv(s, acts[0], todo);
      NextReal(s, acts[0], p);
      RunReal(Next(s, acts[0]), acts[1..], todo, p);
    }
  }

  lemma InvHeld(s: State, todo: seq<Job>)
    requires Inv(s, todo)
    ensures HeldOk(s)
  {
  }

  lemma {:induction false} NoReports(ws: seq<Worker>, p: (Job, int) -> bool)
    requires forall i :: 0 <= i < |ws| ==> !ws[i].Reporting?
    ensures RealReports(ws, p) == 0
  {
    if ws != [] { NoReports(ws[..|ws| - 1], p); }
  }

  /** When run_tests returns, the collected real results are exactly what the Finish steps returned. */
  lemma FinishesCollected(todo: seq<Job>, processors: nat, acts: seq<Action>, p: (Job, int) -> bool)
    requires FreshJobs(todo) && processors > 0 && Runs(Start(todo, processors), acts)
    requires Done(After(Start(todo, processors), acts))
    ensures RealResults(After(Start(todo, processors), acts).collected, p) == Finishes(Start(todo, processors), acts, p)
  {
    hide Inv, RealReports;
    var start := Start(todo, processors);
    StartInv(todo, processors);
    RunKeepsInv(start, acts, todo);
    RunReal(start, acts, todo, p);
    NoReports(start.workers, p);
    Completed(After(start, acts), todo);
    NoReports(After(start, acts).workers, p);
  }

  predicate Passes(job: Job, rc: int) {
    rc == 0
  }

  predicate Fails(job: Job, rc: int) {
    rc == 1
  }

  predicate ValgrindErrs(job: Job, rc: int) {
    rc == 2
  }

  predicate Crashes(job: Job, rc: int) {
    rc < 0 || rc > 2
  }

  predicate DoesNotPass(job: Job, rc: int) {
    rc != 0
  }

  /** Results of one dispatched job. */
  function Of(job: Job): (Job, int) -> bool {
    (k, _) => k == job
  }

  lemma {:induction false} TallyCodes(js: seq<Job>)
    ensures var c := TallyAll(js);
            && c.passed == RealResults(js, Passes) && c.failed == RealResults(js, Fails)
            && c.valgrind == RealResults(js, ValgrindErrs) && c.crashed == RealResults(js, Crashes)
  {
    if js != [] {
      TallyCodes(js[..|js| - 1]);
    }
  }

  lemma {:induction false} AllSucceeded(js: seq<Job>)
    ensures (forall i :: 0 <= i < |js| ==> Succeeded(js[i])) <==>
            Interrupted(js) == 0 && RealResults(js, DoesNotPass) == 0
  {
    if js != [] {
      var front, last := js[..|js| - 1], js[|js| - 1];
      AllSucceeded(front);
      assert forall i :: 0 <= i < |front| ==> front[i] == js[i];
      assert Succeeded(last) <==> !last.isBreak && RealResult(last, DoesNotPass) == 0;
    }
  }

  /**
   * The counters and the exit code of a finished run, told from its steps: each counter counts the
   * Finish steps with its return codes, and the run succeeds iff no Finish step returned anything but 0
   * and no job was handed back interrupted.
   */
  lemma CountersFromFinishes(todo: seq<Job>, processors: nat, acts: seq<Action>)
    requires FreshJobs(todo) && processors > 0 && Runs(Start(todo, processors), acts)
    requires Done(After(Start(todo, processors), acts))
    ensures var start := Start(todo, processors);
            var s := After(start, acts);
            && s.counts.passed == Finishes(start, acts, Passes) && s.counts.failed == Finishes(start, acts, Fails)
            && s.counts.valgrind == Finishes(start, acts, ValgrindErrs)
            && s.counts.crashed == Finishes(start, acts, Crashes)
            && (ExitCode(s) == 0 <==> Interrupted(s.collected) == 0 && Finishes(start, acts, DoesNotPass) == 0)
  {
    hide RealResults, Finishes, Runs, Done, Inv, TallyAll, Interrupted;
    var start := Start(todo, processors);
    var s := After(start, acts);
    EveryRun(todo, processors, acts);
    InvTallied(s, todo);
    FinishesCollected(todo, processors, acts, Passes);
    FinishesCollected(todo, processors, acts, Fails);
    FinishesCollected(todo, processors, acts, ValgrindErrs);
    FinishesCollected(todo, processors, acts, Crashes);
    FinishesCollected(todo, processors, acts, DoesNotPass);
    TallyCodes(s.collected);
    AllSucceeded(s.collected);
  }

  lemma InvTallied(s: State, todo: seq<Job>)
    requires Inv(s, todo)
    ensures s.counts == TallyAll(s.collected) && ResultsOk(s.threadExit, s.collected)
  {
  }

  lemma {:induction false} NoInterrupt(s: State, acts: seq<Action>)
    requires Runs(s, acts) && !s.threadExit && forall i :: 0 <= i < |acts| ==> acts[i] != Interrupt
    ensures !After(s, acts).threadExit
    decreases |acts|
  {
    if acts != [] {
      NoInterrupt(Next(s, acts[0]), acts[1..]);
    }
  }

  lemma {:induction false} ResultsOf(js: seq<Job>, job: Job)
    requires ResultsOk(false, js)
    ensures Interrupted(js) == 0
    ensures RealResults(js, Of(job)) == if job.isSkip then 0 else Originals(js)[job]
  {
    if js != [] {
      var front, last := js[..|js| - 1], js[|js| - 1];
      ResultsOf(front, job);
      assert ResultOk(false, last);
    }
  }

  /**
   * A finished run without an interrupt has run every job that is not skipped exactly as often as it was
   * dispatched, no skipped job, and exits with 0 iff all runs returned 0.
   */
  lemma UninterruptedRun(todo: seq<Job>, processors: nat, acts: seq<Action>, job: Job)
    requires FreshJobs(todo) && processors > 0 && Runs(Start(todo, processors), acts)
    requires Done(After(Start(todo, processors), acts))
    requires forall i :: 0 <= i < |acts| ==> acts[i] != Interrupt
    ensures var start := Start(todo, processors);
            && Finishes(start, acts, Of(job)) == (if job.isSkip then 0 else Originals(todo)[job])
            && (ExitCode(After(start, acts)) == 0 <==> Finishes(start, acts, DoesNotPass) == 0)
  {
    hide RealResults, Finishes, Runs, Done, Inv, TallyAll, Interrupted, Originals, Of;
    var start := Start(todo, processors);
    var s := After(start, acts);
    NoInterrupt(start, acts);
    EveryRun(todo, processors, acts);
    InvTallied(s, todo);
    ResultsOf(s.collected, job);
    FinishesCollected(todo, processors, acts, Of(job));
    CountersFromFinishes(todo, processors, acts);
  }

  // ---------- After an interrupt ----------

  /** Once the interrupt flag is set, the only jobs still running are those that ran already. */
  lemma {:induction false} NothingStartsAfterInterrupt(s: State, acts: seq<Action>, w: nat)
    requires Runs(s, acts) && s.threadExit && w < |After(s, acts).workers| && After(s, acts).workers[w].Running?
    ensures w < |s.workers| && s.workers[w] == After(s, acts).workers[w]
    decreases |acts|
  {
    if acts != [] {
      NothingStartsAfterInterrupt(Next(s, acts[0]), acts[1..], w);
    }
  }

  /** Nothing is running, and all that has come back since the first n results is marked as interrupted. */
  ghost predicate HandsBack(s: State, n: nat) {
    && s.threadExit && n <= |s.collected|
    && (forall w :: 0 <= w < |s.workers| ==> !s.workers[w].Running?)
    && (forall w :: 0 <= w < |s.workers| && s.workers[w].Reporting? ==> s.workers[w].job.isBreak)
    && (forall i :: 0 <= i < |s.output| ==> s.output[i].isBreak)
    && (forall i :: n <= i < |s.collected| ==> s.collected[i].isBreak)
  }

  /** From an interrupt on, jobs that were only queued come back marked, skipped ones included. */
  lemma {:induction false} InterruptHandsBack(s: State, acts: seq<Action>, n: nat)
    requires Runs(s, acts) && HandsBack(s, n)
    ensures HandsBack(After(s, acts), n)
    decreases |acts|
  {
    if acts != [] {
      HandsBackStep(s, acts[0], n);
      InterruptHandsBack(Next(s, acts[0]), acts[1..], n);
    }
  }

  lemma HandsBackStep(s: State, a: Action, n: nat)
    requires Enabled(s, a) && HandsBack(s, n)
    ensures HandsBack(Next(s, a), n)
  {
    hide Tally;
  }
}
