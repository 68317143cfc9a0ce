/** Properties of generateInitramfsMounts: which generator a command line
    selects, with which recovery-system label. */
module DispatchFacts {
  import opened Common
  import opened Scanner
  import opened Cmdline
  import opened Mounts
  import InstallFacts
  import RunFacts

  /** An unreadable command line or one the parser rejects ends the call
      before anything is printed; install and recover receive the label
      (never empty), run receives none; recover is not implemented and
      prints nothing. */
  lemma DispatchCases(w: World, cmdline: Option<string>)
    ensures var r := Dispatch(w, cmdline);
      if cmdline.None? then r == StepResult([], w.modeenv, 0, Fail(CmdlineReadFailed))
      else
        var c := Classify(Words(cmdline.value), "", "");
        if c.Err? then r == StepResult([], w.modeenv, 0, Fail(c.error))
        else if c.value.mode == "install" then c.value.sysLabel != "" && r == InstallStep(w, c.value.sysLabel)
        else if c.value.mode == "recover" then c.value.sysLabel != "" && r == StepResult([], w.modeenv, 0, Fail(RecoverNotImplemented))
        else c.value.mode == "run" && c.value.sysLabel == "" && r == RunStep(w)
  {
    if cmdline.Some? {
      ClassifyShape(Words(cmdline.value), "", "");
    }
  }

  /** The "not handled" branch of the dispatcher is unreachable: no call
      ends with the internal error. */
  lemma DispatchNeverInternal(w: World, cmdline: Option<string>)
    ensures Dispatch(w, cmdline).outcome != Fail(InternalError)
  {
    DispatchCases(w, cmdline);
    if cmdline.Some? {
      ClassifyShape(Words(cmdline.value), "", "");
    }
    if cmdline.Some? && Classify(Words(cmdline.value), "", "").Ok? {
      var p := Classify(Words(cmdline.value), "", "").value;
      if p.mode == "install" {
        InstallFacts.InstallErrors(w, p.sysLabel);
      } else if p.mode == "run" {
        RunFacts.RunErrors(w);
      }
    }
  }

  /** A first-boot command line runs the install generator for its label. */
  lemma DispatchFreshInstall(w: World, cmdline: string)
    requires cmdline == ModePrefix + "install" + " " + SystemPrefix + "20231001"
    ensures Dispatch(w, Some(cmdline)) == InstallStep(w, "20231001")
  {
    FreshInstallCmdline(cmdline);
  }

  /** An unknown mode is reported as such and nothing is printed. */
  lemma DispatchBogusMode(w: World, cmdline: string)
    requires cmdline == ModePrefix + "bogus"
    ensures Dispatch(w, Some(cmdline)) == StepResult([], w.modeenv, 0, Fail(UnknownMode("bogus")))
  {
    BogusModeCmdline(cmdline);
  }

  /** snapd_recovery_mode=run alone selects the run generator. */
  lemma DispatchRunMode(w: World, cmdline: string)
    requires cmdline == ModePrefix + "run"
    ensures Dispatch(w, Some(cmdline)) == RunStep(w)
  {
    RunCmdline(cmdline);
  }
}
