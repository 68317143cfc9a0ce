/** Properties of run mode (generateMountsModeRun): the partitions by
    label first, the data partition before anything is read from it, then
    base and kernel from the blobs the modeenv names. */
module RunFacts {
  import opened Common
  import opened Mounts

  /** The by-label line of partition m, when it is not mounted. */
  function LabelLine(w: World, m: MountPoint): seq<MountTuple> {
    if m in w.mounted then [] else [ByLabel(m)]
  }

  /** The blob line of a snap named in the modeenv, when its mount point is
      not mounted. */
  function BlobLine(w: World, name: string, m: MountPoint): seq<MountTuple> {
    if m in w.mounted then [] else [MountTuple(None, BlobPath(w.snapBlobDir, name), m)]
  }

  /** Step 1.1: the seed partition, then the boot partition, each by label
      when not mounted; a failing probe stops the loop and keeps what was
      printed before it. */
  lemma RunPartitionsFirst(w: World)
    ensures var p := PartitionMounts(w, RunPartitions);
      if UbuntuSeed in w.probeFails then p == Emitted([], Some(ProbeFailed(UbuntuSeed)))
      else if UbuntuBoot in w.probeFails then p == Emitted(LabelLine(w, UbuntuSeed), Some(ProbeFailed(UbuntuBoot)))
      else p == Emitted(LabelLine(w, UbuntuSeed) + LabelLine(w, UbuntuBoot), None)
  {
    var ms := RunPartitions;
    assert ms[1..][1..] == [];
    var tail := PartitionMounts(w, ms[1..]);
    assert PartitionMounts(w, ms[1..][1..]) == Emitted([], None);
    if UbuntuBoot !in w.probeFails {
      assert tail == Emitted(LabelLine(w, UbuntuBoot) + [], None);
      assert LabelLine(w, UbuntuBoot) + [] == LabelLine(w, UbuntuBoot);
    }
  }

  /** What a run call prints and returns, by the first step that decides
      it: a probe error, the data partition by label, an unreadable
      modeenv, or the base and kernel blobs. */
  lemma RunStepCases(w: World)
    ensures var r := RunStep(w);
      var parts := LabelLine(w, UbuntuSeed) + LabelLine(w, UbuntuBoot);
      if UbuntuSeed in w.probeFails then r == StepResult([], w.modeenv, 0, Fail(ProbeFailed(UbuntuSeed)))
      else if UbuntuBoot in w.probeFails then r == StepResult(LabelLine(w, UbuntuSeed), w.modeenv, 0, Fail(ProbeFailed(UbuntuBoot)))
      else if UbuntuData in w.probeFails then r == StepResult(parts, w.modeenv, 0, Fail(ProbeFailed(UbuntuData)))
      else if UbuntuData !in w.mounted then r == StepResult(parts + [ByLabel(UbuntuData)], w.modeenv, 0, Pass)
      else if w.modeenvReadFails || w.modeenv.None? then r == StepResult(parts, w.modeenv, 0, Fail(ModeenvReadFailed))
      else
        var me := w.modeenv.value;
        if Base in w.probeFails then r == StepResult(parts, w.modeenv, 0, Fail(ProbeFailed(Base)))
        else if Kernel in w.probeFails then r == StepResult(parts + BlobLine(w, me.base, Base), w.modeenv, 0, Fail(ProbeFailed(Kernel)))
        else r == StepResult(parts + BlobLine(w, me.base, Base) + BlobLine(w, me.kernel, Kernel), w.modeenv, 0, Pass)
  {
    RunPartitionsFirst(w);
    var parts := LabelLine(w, UbuntuSeed) + LabelLine(w, UbuntuBoot);
    if UbuntuSeed !in w.probeFails && UbuntuBoot !in w.probeFails {
      var d := RunData(w);
      assert RunStep(w) == StepResult(parts + d.lines, d.modeenv, d.seedOpens, d.outcome);
      if UbuntuData !in w.probeFails && UbuntuData in w.mounted && !(w.modeenvReadFails || w.modeenv.None?) {
        var me := w.modeenv.value;
        if Base !in w.probeFails && Kernel !in w.probeFails {
          assert d.lines == BlobLine(w, me.base, Base) + BlobLine(w, me.kernel, Kernel);
          assert parts + (BlobLine(w, me.base, Base) + BlobLine(w, me.kernel, Kernel))
              == parts + BlobLine(w, me.base, Base) + BlobLine(w, me.kernel, Kernel);
        } else {
          assert parts + d.lines == parts + (if Base in w.probeFails then [] else BlobLine(w, me.base, Base));
        }
      } else {
        assert parts + [] == parts;
      }
    }
  }

  /** A run call prints only mount points run mode assembles, and only
      those that are not mounted yet. */
  lemma RunPrintsOnlyMissing(w: World)
    ensures forall t <- RunStep(w).lines :: t.target in RunTargets && t.target !in w.mounted
  {
    RunStepCases(w);
  }

  /** Step 1.2: while the data partition is not mounted, nothing is read
      from it: the call's lines and outcome do not depend on the modeenv or
      on whether it can be read. */
  lemma RunDataBeforeModeenv(w: World, m: Option<Modeenv>, readFails: bool)
    requires UbuntuData !in w.mounted
    ensures var r, r' := RunStep(w), RunStep(w.(modeenv := m, modeenvReadFails := readFails));
      r'.lines == r.lines && r'.outcome == r.outcome
  {
    RunStepCases(w);
    RunStepCases(w.(modeenv := m, modeenvReadFails := readFails));
  }

  /** The fields of the data partition's by-label line. */
  lemma DataLine()
    ensures Fields(ByLabel(UbuntuData)) == ["/dev/disk/by-label/ubuntu-data", "/run/mnt/ubuntu-data"]
  {
    assert "/dev/disk/by-label/" + "ubuntu-data" == "/dev/disk/by-label/ubuntu-data";
    assert [] + ["/dev/disk/by-label/ubuntu-data", "/run/mnt/ubuntu-data"] == ["/dev/disk/by-label/ubuntu-data", "/run/mnt/ubuntu-data"];
  }

  /** A blob line mounts the snap file of that name in the snap blob
      directory of the data partition. */
  lemma BlobLineText(w: World, name: string, m: MountPoint)
    requires m !in w.mounted
    ensures var line := BlobLine(w, name, m);
      |line| == 1 && RenderAll(line) == ["/run/mnt/ubuntu-data/system-data/" + w.snapBlobDir + "/" + name + " " + Dir(m)]
  {
    var p := BlobPath(w.snapBlobDir, name);
    assert Dir(UbuntuData) + "/system-data/" == "/run/mnt/ubuntu-data/system-data/";
    assert p == "/run/mnt/ubuntu-data/system-data/" + w.snapBlobDir + "/" + name;
    var t := MountTuple(None, p, m);
    assert "" + p == p;
    assert Render(t) == p + " " + Dir(m);
    assert RenderAll([t]) == [Render(t)];
  }

  /** The errors a run call can end with: a failing probe or a modeenv
      that cannot be read. */
  lemma RunErrors(w: World)
    ensures var o := RunStep(w).outcome;
      o.Fail? ==> o.error.ProbeFailed? || o.error == ModeenvReadFailed
  {
    RunStepCases(w);
  }
}
