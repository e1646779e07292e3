/** The NodeDeploy resource: the values its spec and status range over. */
module Api {

  datatype Option<+T> = None | Some(value: T)

  datatype NodeStatus =
    | Unknown          // the empty string
    | Init
    | Inactive
    | Active
    | Launching
    | LaunchFail
    | Deprecating
    | DeprecateFail

  /** The CRD admits only these two values in `spec.nodeStatus`. */
  type Desired = s: NodeStatus | s == Active || s == Inactive witness Active

  type Int32 = i: int | -0x8000_0000 <= i < 0x8000_0000

  datatype NodeType = Work | Kubeedge

  datatype Taint = Taint(key: string, value: string, effect: string)

  /** What a launch adds to the cluster Node. */
  datatype Patch = Patch(labels: map<string, string>, annotations: map<string, string>, taints: seq<Taint>)

  /** The three verdicts of the libraries that `preflight` consults are part of the spec they judge. */
  datatype Spec = Spec(
    nodeStatus: Desired,
    nodeType: NodeType,
    maxRetry: Int32,
    isEvicted: bool,
    nodeName: string,
    patch: Patch,
    labelsValid: bool,
    ipValid: bool,
    versionValid: bool)

  /** The two node operations; a spec asks for exactly one of them. */
  datatype Kind = Launch | Deprecate

  function KindOf(desired: Desired): Kind {
    if desired == Active then Launch else Deprecate
  }

  function ClaimStatus(kind: Kind): NodeStatus {
    if kind.Launch? then Launching else Deprecating
  }

  function Outcome(kind: Kind, success: bool): NodeStatus {
    match kind
    case Launch => if success then Active else LaunchFail
    case Deprecate => if success then Inactive else DeprecateFail
  }

  predicate InProgress(s: NodeStatus) {
    s == Launching || s == Deprecating
  }

  /** getBeforeStatus: where an expired claim falls back to. */
  function BeforeStatus(s: NodeStatus): NodeStatus {
    match s
    case Launching => Inactive
    case Deprecating => Active
    case _ => Unknown
  }

  /** preflight compares nodeName and nodeIP with a copy of themselves, so only the three parsers can refuse. */
  predicate Preflight(spec: Spec) {
    spec.labelsValid && spec.ipValid && spec.versionValid
  }

  /** The status written after a failed preflight; it looks at the stored status first. */
  function PreflightStatus(spec: Spec, s: NodeStatus): NodeStatus {
    if s == Inactive then DeprecateFail
    else if spec.nodeStatus == Active then LaunchFail
    else s
  }

  const UINT64: int := 0x1_0000_0000_0000_0000

  /** The conversion of an int32 to the 64-bit unsigned attempt count that retry-go takes. */
  function Attempts(maxRetry: Int32): nat {
    if maxRetry >= 0 then maxRetry else UINT64 + maxRetry
  }

  /** retry-go: after `n` failed attempts, is there another one? Zero means no limit. */
  predicate MoreAttempts(maxRetry: Int32, n: nat) {
    Attempts(maxRetry) == 0 || n < Attempts(maxRetry)
  }

  /** How many attempts a spec allows: as many as it says, any number for zero, and 2^64 less its size for a
      negative value. */
  lemma AttemptsAllowed(maxRetry: Int32, n: nat)
    ensures maxRetry >= 0 ==> (MoreAttempts(maxRetry, n) <==> maxRetry == 0 || n < maxRetry)
    ensures maxRetry < 0 ==> (MoreAttempts(maxRetry, n) <==> n < 18446744073709551616 + maxRetry)
  {
  }

  /** With `n` attempts made, of which the last one failed exactly when `failed`, the loop may be over. */
  predicate LoopMayEnd(maxRetry: Int32, n: nat, failed: bool) {
    var limit := if maxRetry < 0 then 18446744073709551616 + maxRetry else maxRetry;
    n >= 1 && if maxRetry == 0 then !failed else n <= limit && (failed ==> n == limit)
  }
}
