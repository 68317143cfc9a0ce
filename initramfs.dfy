/** The initramfs mount generator as the program runs it: an environment
    object whose output stream, modeenv file and seed-open count the
    generators update in place, step by step. */
module Initramfs {
  import opened Common
  import opened Scanner
  import opened Cmdline
  import opened Mounts

  class Env {
    /** What the environment offers one invocation; it does not change during it. */
    const mounted: set<MountPoint>
    const probeFails: set<MountPoint>
    const seed: string -> SeedContent
    const modeenvReadFails: bool
    const modeenvWriteFails: bool
    const snapBlobDir: string

    /** The lines printed so far (stdout), the modeenv file on the data
        partition, and how many times the seed was opened. */
    var out: seq<string>
    var modeenv: Option<Modeenv>
    var seedOpens: nat

    constructor (mounted: set<MountPoint>, probeFails: set<MountPoint>, seed: string -> SeedContent,
                 modeenv: Option<Modeenv>, modeenvReadFails: bool, modeenvWriteFails: bool,
                 snapBlobDir: string)
      ensures this.mounted == mounted && this.probeFails == probeFails && this.seed == seed
      ensures this.modeenv == modeenv && this.modeenvReadFails == modeenvReadFails
      ensures this.modeenvWriteFails == modeenvWriteFails && this.snapBlobDir == snapBlobDir
      ensures out == [] && seedOpens == 0
    {
      this.mounted, this.probeFails, this.seed := mounted, probeFails, seed;
      this.modeenv, this.modeenvReadFails, this.modeenvWriteFails := modeenv, modeenvReadFails, modeenvWriteFails;
      this.snapBlobDir := snapBlobDir;
      out, seedOpens := [], 0;
    }

    /** The state an invocation observes. */
    function Observed(): World
      reads this`modeenv
    {
      Mounts.World(mounted, probeFails, seed, modeenv, modeenvReadFails, modeenvWriteFails, snapBlobDir)
    }

    /** Prints one mount instruction. */
    method Emit(t: MountTuple)
      modifies this`out
      ensures out == old(out) + [Render(t)]
    {
      out := out + [Render(t)];
    }

    /** The switch on the type of one essential snap: prints its tuple when
        its target is not mounted; snaps of other types print nothing. */
    method EmitEssential(s: EssentialSnap, t: SnapType, baseM: bool, kernelM: bool, snapdM: bool)
      modifies this`out
      ensures out == old(out) + RenderAll(EssentialTuple(s, t, baseM, kernelM, snapdM))
    {
      match t {
        case TypeBase =>
          if !baseM {
            Emit(MountTuple(None, s.path, Base));
          }
        case TypeKernel =>
          if !kernelM {
            Emit(MountTuple(None, s.path, Kernel));
          }
        case TypeSnapd =>
          if !snapdM {
            Emit(MountTuple(None, s.path, Snapd));
          }
        case TypeOther(_) =>
      }
    }

    /** The loop over the seed's essential snaps: prints a tuple for each
        snap whose target is not mounted, and stops at the first snap that
        cannot be read. */
    method EmitEssentialMounts(snaps: seq<EssentialSnap>, baseM: bool, kernelM: bool, snapdM: bool)
      returns (err: Option<Error>)
      modifies this`out
      ensures var e := EssentialMounts(snaps, baseM, kernelM, snapdM);
        out == old(out) + RenderAll(e.lines) && err == e.err
    {
      ghost var printed: seq<MountTuple> := [];
      var i := 0;
      while i < |snaps|
        invariant 0 <= i <= |snaps|
        invariant out == old(out) + RenderAll(printed)
        invariant var e := EssentialMounts(snaps[i..], baseM, kernelM, snapdM);
          EssentialMounts(snaps, baseM, kernelM, snapdM) == Emitted(printed + e.lines, e.err)
      {
        var s := snaps[i];
        EssentialMountsStep(snaps, i, printed, baseM, kernelM, snapdM);
        if s.info.ReadFails? {
          return Some(SnapFailed(s.path, s.info.stage));
        }
        ghost var here := EssentialTuple(s, s.info.snapType, baseM, kernelM, snapdM);
        EmitEssential(s, s.info.snapType, baseM, kernelM, snapdM);
        PrintedThen(old(out), printed, here);
        printed := printed + here;
        i := i + 1;
      }
      EssentialMountsEnd(snaps, printed, baseM, kernelM, snapdM);
      return None;
    }

    /** Install steps 3 and 4 (lines 147-170). */
    method EnsureDataAndModeenv(recoverySystem: string) returns (o: Outcome)
      modifies this`out, this`modeenv
      ensures var r := InstallData(old(Observed()), recoverySystem);
        out == old(out) + RenderAll(r.lines) && modeenv == r.modeenv && o == r.outcome
    {
      // 3. the data partition, on a tmpfs
      var dataM := Probe(Observed(), UbuntuData);
      if dataM.Err? {
        return Fail(dataM.error);
      }
      if !dataM.value {
        Emit(TmpfsData);
        return Pass;
      }
      // 4. the modeenv
      if modeenvWriteFails {
        return Fail(ModeenvWriteFailed);
      }
      modeenv := Some(InstallModeenv(recoverySystem));
      // 5. done
      return Pass;
    }

    /** Install step 2 (lines 102-145) and what follows it. */
    method EmitRecoverySystemMounts(recoverySystem: string, baseM: bool, kernelM: bool, snapdM: bool)
      returns (o: Outcome)
      modifies this`out, this`modeenv, this`seedOpens
      ensures var r := InstallEssentials(old(Observed()), recoverySystem, baseM, kernelM, snapdM);
        && out == old(out) + RenderAll(r.lines)
        && modeenv == r.modeenv
        && seedOpens == old(seedOpens) + r.seedOpens
        && o == r.outcome
    {
      if baseM && kernelM && snapdM {
        o := EnsureDataAndModeenv(recoverySystem);
        return;
      }
      seedOpens := seedOpens + 1;
      var snaps := LoadSeed(Observed(), recoverySystem);
      if snaps.Err? {
        return Fail(snaps.error);
      }
      ghost var before := out;
      var err := EmitEssentialMounts(snaps.value, baseM, kernelM, snapdM);
      if err.Some? {
        return Fail(err.value);
      }
      ghost var printed := EssentialMounts(snaps.value, baseM, kernelM, snapdM).lines;
      ghost var w := Observed();
      o := EnsureDataAndModeenv(recoverySystem);
      PrintedThen(before, printed, InstallData(w, recoverySystem).lines);
    }

    /** generateMountsModeInstall (lines 76-171). */
    method GenerateMountsModeInstall(recoverySystem: string) returns (o: Outcome)
      modifies this`out, this`modeenv, this`seedOpens
      ensures var r := InstallStep(old(Observed()), recoverySystem);
        && out == old(out) + RenderAll(r.lines)
        && modeenv == r.modeenv
        && seedOpens == old(seedOpens) + r.seedOpens
        && o == r.outcome
    {
      // 1. the seed partition
      var seedM := Probe(Observed(), UbuntuSeed);
      if seedM.Err? {
        return Fail(seedM.error);
      }
      if !seedM.value {
        Emit(ByLabel(UbuntuSeed));
        return Pass;
      }
      // 2. base, kernel and snapd from the recovery system
      var baseM := Probe(Observed(), Base);
      if baseM.Err? {
        return Fail(baseM.error);
      }
      var kernelM := Probe(Observed(), Kernel);
      if kernelM.Err? {
        return Fail(kernelM.error);
      }
      var snapdM := Probe(Observed(), Snapd);
      if snapdM.Err? {
        return Fail(snapdM.error);
      }
      o := EmitRecoverySystemMounts(recoverySystem, baseM.value, kernelM.value, snapdM.value);
    }

    /** generateMountsModeRecover (lines 173-175). */
    method GenerateMountsModeRecover(recoverySystem: string) returns (o: Outcome)
      ensures o == RecoverStep(Observed(), recoverySystem).outcome
    {
      return Fail(RecoverNotImplemented);
    }

    /** One partition of the loop over the seed and boot partitions: prints
        its by-label tuple when it is not mounted. */
    method EmitPartitionMount(m: MountPoint) returns (err: Option<Error>)
      modifies this`out
      ensures var e := PartitionMount(Observed(), m);
        out == old(out) + RenderAll(e.lines) && err == e.err
    {
      var isMounted := Probe(Observed(), m);
      if isMounted.Err? {
        return Some(isMounted.error);
      }
      if !isMounted.value {
        Emit(ByLabel(m));
      }
      return None;
    }

    /** The loop over the seed and boot partitions: prints a by-label tuple
        for each one not mounted, and stops at the first failing probe. */
    method EmitPartitionMounts(ms: seq<MountPoint>) returns (err: Option<Error>)
      modifies this`out
      ensures var e := PartitionMounts(Observed(), ms);
        out == old(out) + RenderAll(e.lines) && err == e.err
    {
      ghost var w := Observed();
      ghost var printed: seq<MountTuple> := [];
      var i := 0;
      while i < |ms|
        invariant 0 <= i <= |ms|
        invariant out == old(out) + RenderAll(printed)
        invariant var e := PartitionMounts(w, ms[i..]);
          PartitionMounts(w, ms) == Emitted(printed + e.lines, e.err)
      {
        PartitionMountsStep(w, ms, i, printed);
        err := EmitPartitionMount(ms[i]);
        if err.Some? {
          return;
        }
        PrintedThen(old(out), printed, PartitionMount(w, ms[i]).lines);
        printed := printed + PartitionMount(w, ms[i]).lines;
        i := i + 1;
      }
      PartitionMountsEnd(w, ms, printed);
      return None;
    }

    /** Run steps 2.1 and 2.2 (lines 204-226). */
    method EmitSnapsFromModeenv() returns (o: Outcome)
      modifies this`out
      ensures var r := RunSnaps(Observed());
        out == old(out) + RenderAll(r.lines) && o == r.outcome
    {
      // 2.1 the modeenv
      var me := ReadModeenv(Observed());
      if me.Err? {
        return Fail(me.error);
      }
      // 2.2 base and kernel from the data partition
      var baseM := Probe(Observed(), Base);
      if baseM.Err? {
        return Fail(baseM.error);
      }
      ghost var baseLines: seq<MountTuple> := [];
      if !baseM.value {
        baseLines := [MountTuple(None, BlobPath(snapBlobDir, me.value.base), Base)];
        Emit(MountTuple(None, BlobPath(snapBlobDir, me.value.base), Base));
      }
      var kernelM := Probe(Observed(), Kernel);
      if kernelM.Err? {
        return Fail(kernelM.error);
      }
      ghost var kernelLines: seq<MountTuple> := [];
      if !kernelM.value {
        kernelLines := [MountTuple(None, BlobPath(snapBlobDir, me.value.kernel), Kernel)];
        Emit(MountTuple(None, BlobPath(snapBlobDir, me.value.kernel), Kernel));
      }
      PrintedThen(old(out), baseLines, kernelLines);
      // 3.1 there is no step 3
      return Pass;
    }

    /** Run step 1.2 (lines 195-203) and what follows it. */
    method EmitDataOrSnaps() returns (o: Outcome)
      modifies this`out
      ensures var r := RunData(Observed());
        out == old(out) + RenderAll(r.lines) && o == r.outcome
    {
      var dataM := Probe(Observed(), UbuntuData);
      if dataM.Err? {
        return Fail(dataM.error);
      }
      if !dataM.value {
        Emit(ByLabel(UbuntuData));
        return Pass;
      }
      o := EmitSnapsFromModeenv();
    }

    /** generateMountsModeRun (lines 177-229). */
    method GenerateMountsModeRun() returns (o: Outcome)
      modifies this`out
      ensures var r := RunStep(Observed());
        && out == old(out) + RenderAll(r.lines)
        && modeenv == r.modeenv
        && seedOpens == old(seedOpens) + r.seedOpens
        && o == r.outcome
    {
      o := EmitRunMounts(RunPartitions);
    }

    /** The body of generateMountsModeRun, over the partitions it mounts first. */
    method EmitRunMounts(ms: seq<MountPoint>) returns (o: Outcome)
      modifies this`out
      ensures var r := RunStepFrom(Observed(), ms);
        && out == old(out) + RenderAll(r.lines)
        && modeenv == r.modeenv
        && seedOpens == old(seedOpens) + r.seedOpens
        && o == r.outcome
    {
      // 1.1 the seed and boot partitions
      var err := EmitPartitionMounts(ms);
      ghost var printed := PartitionMounts(Observed(), ms).lines;
      if err.Some? {
        return Fail(err.value);
      }
      // 1.2 the data partition, then 2.1 and 2.2
      o := EmitDataOrSnaps();
      PrintedThen(old(out), printed, RunData(Observed()).lines);
    }

    /** generateInitramfsMounts (lines 262-281), with the command line as
        read from the kernel (None when reading it failed). */
    method GenerateInitramfsMounts(cmdline: Option<string>) returns (o: Outcome)
      modifies this`out, this`modeenv, this`seedOpens
      ensures var r := Dispatch(old(Observed()), cmdline);
        && out == old(out) + RenderAll(r.lines)
        && modeenv == r.modeenv
        && seedOpens == old(seedOpens) + r.seedOpens
        && o == r.outcome
    {
      if cmdline.None? {
        return Fail(CmdlineReadFailed);
      }
      var p := WhichModeAndRecoverSystem(cmdline.value);
      if p.Err? {
        return Fail(p.error);
      }
      var mode, recoverySystem := p.value.mode, p.value.sysLabel;
      if mode == "recover" {
        o := GenerateMountsModeRecover(recoverySystem);
      } else if mode == "install" {
        o := GenerateMountsModeInstall(recoverySystem);
      } else if mode == "run" {
        o := GenerateMountsModeRun();
      } else {
        // not reachable: the classifier only returns valid modes
        o := Fail(InternalError);
      }
    }
  }
}
