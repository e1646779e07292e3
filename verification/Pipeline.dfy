/** The step pipelines that the node manager runs over SSH, and their progress messages. */
module Pipeline {
  import opened Api
  import opened Text

  /** A progress text, kept as the two numbers it shows. */
  datatype Shown = Shown(done: nat, total: nat) {
    function Text(): string {
      Decimal(done) + "/" + Decimal(total)
    }
  }

  /** Both numbers can be read back from the printed text. */
  lemma ShownReadsBack(a: Shown)
    ensures var parts := Split(a.Text(), '/');
            |parts| == 2 && Number(parts[0]) == a.done && Number(parts[1]) == a.total
  {
    DecimalReadsBack(a.done);
    DecimalReadsBack(a.total);
    var total := Decimal(a.total);
    SplitWithoutSeparator(total, '/');
    SplitAtFirst(Decimal(a.done), total, '/');
  }

  class Progress {
    var i: nat
    const sum: nat

    constructor (sum: nat)
      ensures i == 0 && this.sum == sum
    {
      this.i, this.sum := 0, sum;
    }

    function String(): Shown
      reads this
    {
      Shown(i, sum)
    }

    /** Counting stops at the total. */
    method Add() returns (s: Shown)
      modifies this
      ensures i == if old(i) < sum then old(i) + 1 else sum
      ensures s == String()
    {
      i := i + 1;
      if i > sum {
        i := sum;
      }
      s := String();
    }

    method Reset()
      modifies this
      ensures String() == Shown(0, sum)
    {
      i := 0;
    }
  }

  /** The ten methods of the NodeJoin interface. */
  datatype Step =
    | CheckArch | CheckNodeVersion | PrepareSetupPkg | StopFirewalld | InstallDocker
    | SetDockerConf | SetHostName | LoadImage | SetNodeComponents | Join

  const TOTAL: nat := 10

  /** The order in which LaunchByCmd calls them. */
  function StepAt(k: nat): Step
    requires k < TOTAL
  {
    if k == 0 then CheckArch
    else if k == 1 then CheckNodeVersion
    else if k == 2 then PrepareSetupPkg
    else if k == 3 then StopFirewalld
    else if k == 4 then InstallDocker
    else if k == 5 then SetDockerConf
    else if k == 6 then SetHostName
    else if k == 7 then LoadImage
    else if k == 8 then SetNodeComponents
    else Join
  }

  datatype Message = Starting(step: Step) | Failed(step: Step) | LaunchDone

  /** The phase text of a message. */
  function Phase(m: Message): string
    decreases m.Failed?
  {
    match m
    case Starting(CheckArch) => "Check architecture"
    case Starting(CheckNodeVersion) => "Check Kubernetes Version"
    case Starting(PrepareSetupPkg) => "Prepare Package"
    case Starting(StopFirewalld) => "Stop Firewalld"
    case Starting(InstallDocker) => "Docker Install"
    case Starting(SetDockerConf) => "Docker Config"
    case Starting(SetHostName) => "SetUp Hostname"
    case Starting(LoadImage) => "Load  Images"
    case Starting(SetNodeComponents) => " Node Setup"
    case Starting(Join) => "Node Join"
    case Failed(CheckNodeVersion) => "Kubernetes Install"
    case Failed(SetHostName) => "SetUp Hostname "
    case Failed(SetNodeComponents) => "Node Setup "
    case Failed(Join) => "Node start"
    case Failed(step) => Phase(Starting(step))
    case LaunchDone => "Launch Success"
  }

  datatype Event = Say(message: Message, progress: Shown) | Do(step: Step, ok: bool)

  /** A step returns nil or an error, or brings the process down. */
  datatype StepResult = StepOk | StepError | StepPanic

  /** What each step would come to if it were reached. */
  type StepResults = r: seq<StepResult> | |r| == TOTAL witness seq(TOTAL, i => StepOk)

  /** What the commands of each step would answer. */
  type Answers = a: seq<bool> | |a| == TOTAL witness seq(TOTAL, i => true)

  function FromAnswer(ok: bool): StepResult {
    if ok then StepOk else StepError
  }

  /** Join of a KubeEdge node takes the first cloud host of a list that is empty when the join information
      could not be read, an error that is only logged. */
  function JoinResult(nodeType: NodeType, cloudHosts: seq<string>, ok: bool): StepResult {
    if nodeType.Kubeedge? && cloudHosts == [] then StepPanic else FromAnswer(ok)
  }

  function Results(nodeType: NodeType, cloudHosts: seq<string>, a: Answers): StepResults {
    seq(TOTAL, k requires 0 <= k < TOTAL =>
      if k == TOTAL - 1 then JoinResult(nodeType, cloudHosts, a[k]) else FromAnswer(a[k]))
  }

  /** What one step leaves in the trace: the announcement, the run, and after a failure one more message; a
      step that panics does so before it runs anything on the host. */
  function Block(r: StepResults, k: nat): seq<Event>
    requires k < TOTAL
  {
    var shown := Shown(k + 1, TOTAL);
    match r[k]
    case StepOk => [Say(Starting(StepAt(k)), shown), Do(StepAt(k), true)]
    case StepError => [Say(Starting(StepAt(k)), shown), Do(StepAt(k), false), Say(Failed(StepAt(k)), shown)]
    case StepPanic => [Say(Starting(StepAt(k)), shown)]
  }

  /** The events from step number `k` (counted from zero) on. */
  function RunFrom(r: StepResults, k: nat): seq<Event>
    requires k <= TOTAL
    decreases TOTAL - k, r
  {
    if k == TOTAL then [Say(LaunchDone, Shown(TOTAL, TOTAL))]
    else if r[k].StepOk? then Block(r, k) + RunFrom(r, k + 1)
    else Block(r, k)
  }

  predicate Passed(r: StepResults, k: nat)
    requires k <= TOTAL
  {
    forall i :: 0 <= i < k ==> r[i].StepOk?
  }

  predicate AllPassed(r: StepResults) {
    Passed(r, TOTAL)
  }

  /** The number of steps that are started: up to and including the first one that does not pass. */
  function Started(r: StepResults, k: nat): (n: nat)
    requires k <= TOTAL
    ensures k <= n <= TOTAL
    ensures forall i :: k <= i < n - 1 ==> r[i].StepOk?
    ensures n < TOTAL ==> k < n && !r[n - 1].StepOk?
    decreases TOTAL - k, r
  {
    if k == TOTAL then TOTAL else if r[k].StepOk? then Started(r, k + 1) else k + 1
  }

  /** What the run from step `k` on comes to: the result of its last step. */
  function Verdict(r: StepResults, k: nat): StepResult
    requires k <= TOTAL
  {
    var n := Started(r, k);
    if n == k then StepOk else r[n - 1]
  }

  /** The whole trace, position by position: the started steps are a prefix of the ten in order, each is
      announced immediately before it runs, the first as 1/10. One closing message follows the last step,
      unless that one panics, when the trace ends with its announcement. */
  ghost predicate TraceOfPrefix(t: seq<Event>, r: StepResults, k: nat, n: nat)
    requires k <= n <= TOTAL && 0 < n
  {
    var panicked := n > k && r[n - 1].StepPanic?;
    && |t| == (if panicked then 2 * (n - k) - 1 else 2 * (n - k) + 1)
    && (forall i :: k <= i < n ==> t[2 * (i - k)] == Say(Starting(StepAt(i)), Shown(i + 1, TOTAL)))
    && (forall i :: k <= i < (if panicked then n - 1 else n) ==> t[2 * (i - k) + 1] == Do(StepAt(i), r[i].StepOk?))
    && (!panicked ==>
          t[2 * (n - k)] == if n == k || r[n - 1].StepOk? then Say(LaunchDone, Shown(TOTAL, TOTAL))
                            else Say(Failed(StepAt(n - 1)), Shown(n, TOTAL)))
  }

  lemma PrependBlock(u: seq<Event>, r: StepResults, k: nat, n: nat)
    requires k < n <= TOTAL && r[k].StepOk?
    requires TraceOfPrefix(u, r, k + 1, n)
    ensures TraceOfPrefix(Block(r, k) + u, r, k, n)
  {
    var t := Block(r, k) + u;
    var last := if r[n - 1].StepPanic? then n - 1 else n;
    forall i | k <= i < n
      ensures t[2 * (i - k)] == Say(Starting(StepAt(i)), Shown(i + 1, TOTAL))
      ensures i < last ==> t[2 * (i - k) + 1] == Do(StepAt(i), r[i].StepOk?)
    {
      if i > k {
        assert t[2 * (i - k)] == u[2 * (i - (k + 1))];
        assert i < last ==> t[2 * (i - k) + 1] == u[2 * (i - (k + 1)) + 1];
      }
    }
  }

  lemma FailedStops(r: StepResults, k: nat)
    requires k < TOTAL && !r[k].StepOk?
    ensures TraceOfPrefix(RunFrom(r, k), r, k, k + 1)
  {
  }

  lemma {:induction false} RunIsPrefix(r: StepResults, k: nat)
    requires k <= TOTAL
    ensures TraceOfPrefix(RunFrom(r, k), r, k, Started(r, k))
    decreases TOTAL - k
  {
    if k == TOTAL {
    } else if r[k].StepOk? {
      RunIsPrefix(r, k + 1);
      PrependBlock(RunFrom(r, k + 1), r, k, Started(r, k + 1));
    } else {
      FailedStops(r, k);
    }
  }

  /** The pipeline of a launch: for any step outcomes its trace is the prefix described above; it closes with
      the success message exactly when all ten steps passed, and ends with an announcement exactly when the
      last step that was started panicked. */
  lemma LaunchPipeline(r: StepResults, n: nat)
    requires n == Started(r, 0)
    ensures TraceOfPrefix(RunFrom(r, 0), r, 0, n)
    ensures var t := RunFrom(r, 0);
            && t != []
            && (AllPassed(r) <==> t[|t| - 1] == Say(LaunchDone, Shown(TOTAL, TOTAL)))
            && (Verdict(r, 0).StepPanic? <==> t[|t| - 1] == Say(Starting(StepAt(n - 1)), Shown(n, TOTAL)))
    ensures AllPassed(r) <==> Verdict(r, 0).StepOk?
  {
    RunIsPrefix(r, 0);
    AllPassedMeans(r);
    LastEvent(RunFrom(r, 0), r, n);
  }

  lemma LastEvent(t: seq<Event>, r: StepResults, n: nat)
    requires n == Started(r, 0) && 0 < n && TraceOfPrefix(t, r, 0, n)
    ensures t != []
    ensures t[|t| - 1]
         == match r[n - 1]
            case StepOk => Say(LaunchDone, Shown(TOTAL, TOTAL))
            case StepError => Say(Failed(StepAt(n - 1)), Shown(n, TOTAL))
            case StepPanic => Say(Starting(StepAt(n - 1)), Shown(n, TOTAL))
  {
    if r[n - 1].StepPanic? {
      assert |t| - 1 == 2 * (n - 1);
    } else {
      assert |t| - 1 == 2 * n;
    }
  }

  lemma AllPassedMeans(r: StepResults)
    ensures AllPassed(r) <==> Started(r, 0) == TOTAL && r[TOTAL - 1].StepOk?
    ensures AllPassed(r) <==> r[Started(r, 0) - 1].StepOk?
  {
    var n := Started(r, 0);
    assert r[n - 1].StepOk? ==> n == TOTAL;
  }

  lemma ResultsAre(nodeType: NodeType, cloudHosts: seq<string>, a: Answers)
    ensures var r := Results(nodeType, cloudHosts, a);
            && r[TOTAL - 1] == JoinResult(nodeType, cloudHosts, a[TOTAL - 1])
            && forall k :: 0 <= k < TOTAL - 1 ==> r[k] == FromAnswer(a[k])
  {
  }

  /** The trace by the names of the steps: the announcements in it are a prefix of these ten, in this order, the
      first as 1/10, and directly before each but the first there is the one before it, run with success. Hence
      nothing is uploaded before the architecture and the version are known, docker is configured only once it
      is installed, and a node joins only with its components set up. */
  lemma StepsInOrder(r: StepResults)
    ensures InOrder(RunFrom(r, 0), r, Started(r, 0),
                    [CheckArch, CheckNodeVersion, PrepareSetupPkg, StopFirewalld, InstallDocker,
                     SetDockerConf, SetHostName, LoadImage, SetNodeComponents, Join])
  {
    RunIsPrefix(r, 0);
    PrefixInOrder(RunFrom(r, 0), r, Started(r, 0),
                  [CheckArch, CheckNodeVersion, PrepareSetupPkg, StopFirewalld, InstallDocker,
                   SetDockerConf, SetHostName, LoadImage, SetNodeComponents, Join]);
  }

  /** The first `n` of the listed steps, each announced and then run, all but the last with success; the last one
      runs unless it panics, and is followed by one message that announces nothing. */
  ghost predicate InOrder(t: seq<Event>, r: StepResults, n: nat, listed: seq<Step>) {
    && |listed| == 10 && 1 <= n <= 10
    && |t| == (if r[n - 1].StepPanic? then 2 * n - 1 else 2 * n + 1)
    && (forall i :: 0 <= i < n ==> t[2 * i] == Say(Starting(listed[i]), Shown(i + 1, 10)))
    && (forall i :: 0 <= i < n - 1 ==> t[2 * i + 1] == Do(listed[i], true))
    && (!r[n - 1].StepPanic? ==>
          && t[2 * n - 1] == Do(listed[n - 1], r[n - 1].StepOk?)
          && t[2 * n].Say? && !t[2 * n].message.Starting?)
  }

  lemma PrefixInOrder(t: seq<Event>, r: StepResults, n: nat, listed: seq<Step>)
    requires 0 < n <= TOTAL && TraceOfPrefix(t, r, 0, n) && forall i :: 0 <= i < n - 1 ==> r[i].StepOk?
    requires |listed| == TOTAL && forall i :: 0 <= i < TOTAL ==> StepAt(i) == listed[i]
    ensures InOrder(t, r, n, listed)
  {
    if !r[n - 1].StepPanic? {
      assert t[2 * (n - 1 - 0) + 1] == Do(StepAt(n - 1), r[n - 1].StepOk?);
    }
  }

  /** A step that ran and failed is in the trace exactly when an error comes back. */
  lemma {:induction false} FailedStepIsAnError(r: StepResults, k: nat)
    requires k <= TOTAL
    ensures Verdict(r, k).StepError? <==> exists step :: Do(step, false) in RunFrom(r, k)
    decreases TOTAL - k
  {
    if k < TOTAL {
      if r[k].StepOk? {
        FailedStepIsAnError(r, k + 1);
        assert forall step :: Do(step, false) !in Block(r, k);
      } else if r[k].StepError? {
        assert Block(r, k)[1] == Do(StepAt(k), false);
      }
    }
  }

  /** The phases that a launch shows, in the order of their announcements, and those of the failures that are
      named otherwise. */
  lemma PhasesShown(k: nat)
    requires k < TOTAL
    ensures Phase(Starting(StepAt(k)))
         == ["Check architecture", "Check Kubernetes Version", "Prepare Package", "Stop Firewalld", "Docker Install",
             "Docker Config", "SetUp Hostname", "Load  Images", " Node Setup", "Node Join"][k]
    ensures Phase(Failed(CheckNodeVersion)) == "Kubernetes Install" && Phase(Failed(SetHostName)) == "SetUp Hostname "
    ensures Phase(Failed(SetNodeComponents)) == "Node Setup " && Phase(Failed(Join)) == "Node start"
    ensures Phase(LaunchDone) == "Launch Success"
  {
  }

  /** The failure of a step is reported under the phase it was announced with, except for these four. */
  lemma PhasesOfFailures(step: Step)
    ensures Phase(Failed(step)) == Phase(Starting(step))
       <==> step != CheckNodeVersion && step != SetHostName && step != SetNodeComponents && step != Join
  {
    assert |Phase(Failed(SetHostName))| == |Phase(Starting(SetHostName))| + 1;
    assert Phase(Failed(SetNodeComponents))[0] == 'N' && Phase(Starting(SetNodeComponents))[0] == ' ';
    assert |Phase(Failed(Join))| == 10 && |Phase(Starting(Join))| == 9;
    assert Phase(Failed(CheckNodeVersion))[0] == 'K' && Phase(Starting(CheckNodeVersion))[0] == 'C';
  }

  /** A launch panics in its steps exactly when nine steps have passed and a KubeEdge node has no cloud host. */
  lemma PanicsExactlyWithoutCloudHost(nodeType: NodeType, cloudHosts: seq<string>, a: Answers)
    ensures Verdict(Results(nodeType, cloudHosts, a), 0).StepPanic?
       <==> nodeType.Kubeedge? && cloudHosts == [] && forall k :: 0 <= k < TOTAL - 1 ==> a[k]
  {
    var r := Results(nodeType, cloudHosts, a);
    var n := Started(r, 0);
    ResultsAre(nodeType, cloudHosts, a);
    if forall k :: 0 <= k < TOTAL - 1 ==> a[k] {
      assert n == TOTAL;
    }
  }

  class NodeManager {
    /** Every message and every remote step, in order. */
    var trace: seq<Event>

    constructor ()
      ensures trace == []
    {
      trace := [];
    }

    method LogMessage(message: Message, progress: Shown)
      modifies this
      ensures trace == old(trace) + [Say(message, progress)]
    {
      trace := trace + [Say(message, progress)];
    }

    /** One block of the pipeline: announce, run, and report a failure. `whole` is the trace in the making. */
    method RunStep(progress: Progress, ghost r: StepResults, ghost k: nat, ghost whole: seq<Event>,
                   step: Step, result: StepResult)
      returns (stop: bool)
      requires k < TOTAL && progress.i == k && progress.sum == TOTAL
      requires step == StepAt(k) && result == r[k]
      requires Passed(r, k) && trace + RunFrom(r, k) == whole
      modifies this, progress
      ensures progress.i == k + 1
      ensures stop <==> !result.StepOk?
      ensures stop ==> Verdict(r, 0) == result && trace == whole
      ensures !stop ==> Passed(r, k + 1) && trace + RunFrom(r, k + 1) == whole
    {
      var text := progress.Add();
      LogMessage(Starting(step), text);
      if !result.StepPanic? {
        trace := trace + [Do(step, result.StepOk?)];
      }
      if result.StepError? {
        LogMessage(Failed(step), progress.String());
      }
      stop := !result.StepOk?;
      assert trace == old(trace) + Block(r, k);
    }

    /** LaunchByCmd. `ssh` says whether the connection could be made, and `cloudHosts` are the addresses that
        Join finds for a KubeEdge node. */
    method LaunchByCmd(nodeType: NodeType, ssh: bool, cloudHosts: seq<string>, a: Answers) returns (result: StepResult)
      modifies this
      ensures result == if ssh then Verdict(Results(nodeType, cloudHosts, a), 0) else StepError
      ensures trace == if ssh then old(trace) + RunFrom(Results(nodeType, cloudHosts, a), 0) else old(trace)
    {
      if !ssh {
        return StepError;
      }
      ResultsAre(nodeType, cloudHosts, a);
      result := RunSteps(Results(nodeType, cloudHosts, a), a, JoinResult(nodeType, cloudHosts, a[9]));
    }

    /** The ten steps, in two halves, with `joined` for the result of the last one. */
    method RunSteps(ghost r: StepResults, a: Answers, joined: StepResult) returns (result: StepResult)
      requires r[TOTAL - 1] == joined && forall k :: 0 <= k < TOTAL - 1 ==> r[k] == FromAnswer(a[k])
      modifies this
      ensures result == Verdict(r, 0)
      ensures trace == old(trace) + RunFrom(r, 0)
    {
      ghost var whole := trace + RunFrom(r, 0);
      var p := new Progress(TOTAL);
      var stop := RunStep(p, r, 0, whole, CheckArch, FromAnswer(a[0]));
      if stop { return StepError; }
      stop := RunStep(p, r, 1, whole, CheckNodeVersion, FromAnswer(a[1]));
      if stop { return StepError; }
      stop := RunStep(p, r, 2, whole, PrepareSetupPkg, FromAnswer(a[2]));
      if stop { return StepError; }
      stop := RunStep(p, r, 3, whole, StopFirewalld, FromAnswer(a[3]));
      if stop { return StepError; }
      stop := RunStep(p, r, 4, whole, InstallDocker, FromAnswer(a[4]));
      if stop { return StepError; }
      result := RunLastSteps(p, r, whole, a, joined);
    }

    method RunLastSteps(p: Progress, ghost r: StepResults, ghost whole: seq<Event>, a: Answers, joined: StepResult)
      returns (result: StepResult)
      requires r[TOTAL - 1] == joined && forall k :: 0 <= k < TOTAL - 1 ==> r[k] == FromAnswer(a[k])
      requires p.i == 5 && p.sum == TOTAL && Passed(r, 5) && trace + RunFrom(r, 5) == whole
      modifies this, p
      ensures result == Verdict(r, 0) && trace == whole
    {
      var stop := RunStep(p, r, 5, whole, SetDockerConf, FromAnswer(a[5]));
      if stop { return StepError; }
      stop := RunStep(p, r, 6, whole, SetHostName, FromAnswer(a[6]));
      if stop { return StepError; }
      stop := RunStep(p, r, 7, whole, LoadImage, FromAnswer(a[7]));
      if stop { return StepError; }
      stop := RunStep(p, r, 8, whole, SetNodeComponents, FromAnswer(a[8]));
      if stop { return StepError; }
      stop := RunStep(p, r, 9, whole, Join, joined);
      if stop { return joined; }
      LogMessage(LaunchDone, p.String());
      AllPassedMeans(r);
      result := StepOk;
    }
  }
}
