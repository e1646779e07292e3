/** What one Reconcile call does next, in the terms of what it has read, of the answers it gets, and of its spec. */
module Decisions {
  import opened Api
  import opened Operations
  import opened Protocol

  /** The branch that a call takes after its read, by what it has read. `due` are the states from which the spec
      asks for something, `valid` says that none of the three checks of preflight refuses. */
  lemma DecideMeans(c: Call, now: int)
    requires c.pc.Deciding?
    ensures var s, want := c.obj.status, c.obj.spec.nodeStatus;
            var due := if want == Active then s == Init || s == Inactive || s == DeprecateFail
                       else s == Init || s == Active || s == LaunchFail;
            var valid := c.obj.spec.labelsValid && c.obj.spec.ipValid && c.obj.spec.versionValid;
            var expired := c.obj.deadline.Some? && c.obj.deadline.value < now;
            var pc := Decide(c, now).pc;
            && (pc == Writing(InitWrite) <==> s == Unknown)
            && (pc == Writing(FallbackWrite) <==> (s == Launching || s == Deprecating) && expired)
            && (pc == Writing(PreflightWrite) <==> due && !valid)
            && (pc == Preparing <==> due && valid && !(want == Inactive && s == Init))
            && (pc == Finished(false) <==>
                  && pc != Writing(InitWrite) && pc != Writing(FallbackWrite)
                  && pc != Writing(PreflightWrite) && pc != Preparing)
  {
  }

  /** What such a call is about to write on top of what it has read; spec, version and deadline stay as they are. */
  lemma DecideWrites(c: Call, now: int)
    requires c.pc.Deciding? && Decide(c, now).pc.Writing?
    ensures var s, s' := c.obj.status, Decide(c, now).obj.status;
            && (s == Unknown ==> s' == Init)
            && (s == Launching ==> s' == Inactive)
            && (s == Deprecating ==> s' == Active)
            && (s == Inactive ==> s' == DeprecateFail)
            && (s == Init || s == DeprecateFail ==>
                  s' == if c.obj.spec.nodeStatus == Active then LaunchFail else s)
            && (s == Active || s == LaunchFail ==> s' == s)
    ensures Decide(c, now).obj == c.obj.(status := Decide(c, now).obj.status)
  {
  }

  /** What prepare is about to write: the claim of what the spec asks for, with a deadline half an hour from now. */
  lemma ClaimMeans(c: Call, now: int)
    ensures var obj := Claim(c, now).obj;
            && obj.deadline == Some(now + 1800)
            && obj.status == (if c.obj.spec.nodeStatus == Active then Launching else Deprecating)
            && obj.spec == c.obj.spec && obj.version == c.obj.version
  {
  }

  /** What the answer to an update means to its call: an accepted claim starts the operation under the new version;
      any other accepted update ends the call well, and a refused one ends it with an error. A refused claim is
      a failed attempt: there is another one, from the same copy, if the spec allows it, and else the loop is
      over. */
  lemma AnswersMean(c: Call, version: nat)
    requires c.pc.Writing?
    ensures Accepted(c, version).obj == c.obj.(version := version)
    ensures Accepted(c, version).pc == if c.pc == Writing(PrepareWrite) then Operating else Finished(false)
    ensures c.pc != Writing(PrepareWrite) ==> Refused(c) == c.(pc := Finished(true))
    ensures c.pc == Writing(PrepareWrite) ==>
              var n, m := |c.log| + 1, c.obj.spec.maxRetry;
              && Refused(c).log == c.log + [PrepareFailed] && Refused(c).captured == c.captured
              && Refused(c).obj.version == c.obj.version && Refused(c).obj.spec == c.obj.spec
              && (Refused(c).pc == Preparing <==>
                    if m < 0 then n < 18446744073709551616 + m else m == 0 || n < m)
              && (Refused(c).pc != Preparing ==>
                    Refused(c).pc == Writing(FinalizeWrite)
                    && Refused(c).obj.status == c.captured && Refused(c).obj.deadline == None)
  {
    AttemptsAllowed(c.obj.spec.maxRetry, |c.log| + 1);
  }

  /** What the end of an operation means: the captured status says how it went, and there is another attempt
      exactly when an error came back and the spec allows one. */
  lemma EndsMean(c: Call, env: Env, success: bool, err: bool)
    ensures var c' := AfterOperation(c, env, success, err);
            var n, m := |c.log| + 1, c.obj.spec.maxRetry;
            && c'.captured == (if c.obj.spec.nodeStatus == Active then (if success then Active else LaunchFail)
                               else if success then Inactive else DeprecateFail)
            && c'.log == c.log + [Ran(env, success, err)]
            && c'.obj.version == c.obj.version && c'.obj.spec == c.obj.spec
            && (c'.pc == Preparing <==>
                  err && if m < 0 then n < 18446744073709551616 + m else m == 0 || n < m)
            && (c'.pc != Preparing ==>
                  c'.pc == Writing(FinalizeWrite) && c'.obj.status == c'.captured && c'.obj.deadline == None)
  {
    AttemptsAllowed(c.obj.spec.maxRetry, |c.log| + 1);
  }
}
