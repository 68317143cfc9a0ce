/** The generator is called again and again by the initramfs, which mounts
    what each call printed, until a call prints nothing. These lemmas
    follow that protocol: each printing call mounts something new, a call
    that prints nothing stays that way, and with the caller mounting every
    line and nothing failing, the third call prints nothing in both modes. */
module Convergence {
  import opened Common
  import opened Mounts
  import opened InstallFacts
  import opened RunFacts

  /** The state the next call observes: the caller mounted every printed
      target, and the modeenv is what the call left. */
  function Next(w: World, r: StepResult): World {
    w.(mounted := w.mounted + Targets(r.lines), modeenv := r.modeenv)
  }

  /** The mount points of `targets` not yet mounted. */
  function Missing(w: World, targets: set<MountPoint>): set<MountPoint> {
    targets - w.mounted
  }

  /** Mounting the targets of lines that print only missing mount points of
      a set shrinks what is missing of it, unless nothing was printed. */
  lemma MissingShrinks(w: World, r: StepResult, targets: set<MountPoint>)
    requires forall t <- r.lines :: t.target in targets && t.target !in w.mounted
    ensures r.lines != [] ==> |Missing(Next(w, r), targets)| < |Missing(w, targets)|
    ensures r.lines == [] ==> Next(w, r).mounted == w.mounted
  {
    if r.lines != [] {
      var m := r.lines[0].target;
      var missing, printed := Missing(w, targets), Targets(r.lines);
      assert m in printed && m in missing;
      assert Missing(Next(w, r), targets) == missing - printed;
      assert m in missing * printed;
      assert |missing - printed| + |missing * printed| == |missing|;
    } else {
      assert Targets(r.lines) == {};
    }
  }

  /** Every install call that prints something brings install mode closer
      to done. */
  lemma InstallProgress(w: World, sysLabel: string)
    ensures var r := InstallStep(w, sysLabel);
      r.lines != [] ==> |Missing(Next(w, r), InstallTargets)| < |Missing(w, InstallTargets)|
  {
    InstallPrintsOnlyMissing(w, sysLabel);
    MissingShrinks(w, InstallStep(w, sysLabel), InstallTargets);
  }

  /** Every run call that prints something brings run mode closer to done. */
  lemma RunProgress(w: World)
    ensures var r := RunStep(w);
      r.lines != [] ==> |Missing(Next(w, r), RunTargets)| < |Missing(w, RunTargets)|
  {
    RunPrintsOnlyMissing(w);
    MissingShrinks(w, RunStep(w), RunTargets);
  }

  /** Once an install call prints nothing, the next one behaves the same. */
  lemma InstallStaysDone(w: World, sysLabel: string)
    ensures var r := InstallStep(w, sysLabel);
      r.lines == [] ==> InstallStep(Next(w, r), sysLabel) == r
  {
    var r := InstallStep(w, sysLabel);
    if r.lines == [] {
      InstallPrintsOnlyMissing(w, sysLabel);
      MissingShrinks(w, r, InstallTargets);
      InstallRewriteIdempotent(w, sysLabel);
      assert Next(w, r) == w.(modeenv := r.modeenv);
    }
  }

  /** Once a run call prints nothing, the next one behaves the same. */
  lemma RunStaysDone(w: World)
    ensures var r := RunStep(w);
      r.lines == [] ==> RunStep(Next(w, r)) == r
  {
    var r := RunStep(w);
    if r.lines == [] {
      RunPrintsOnlyMissing(w);
      MissingShrinks(w, r, RunTargets);
      RunKeepsModeenv(w);
      assert Next(w, r) == w;
    }
  }

  /** All essential snaps of the seed can be read. */
  predicate AllReadable(snaps: seq<EssentialSnap>) {
    forall i :: 0 <= i < |snaps| ==> snaps[i].info.ReadOk?
  }

  /** Install mode with nothing failing: every probe succeeds, the
      recovery system loads, its essential snaps can be read and the
      modeenv can be written. */
  predicate InstallHealthy(w: World, sysLabel: string) {
    w.probeFails == {} && !w.modeenvWriteFails &&
    LoadSeed(w, sysLabel).Ok? && AllReadable(LoadSeed(w, sysLabel).value)
  }

  /** With all snaps readable, the loop prints the reference lines and
      ends without error. */
  lemma ReadableEssentials(snaps: seq<EssentialSnap>, baseM: bool, kernelM: bool, snapdM: bool)
    requires AllReadable(snaps)
    ensures EssentialMounts(snaps, baseM, kernelM, snapdM) == Emitted(TuplesOf(snaps, baseM, kernelM, snapdM), None)
  {
    EssentialMountsStopsAtFirstError(snaps, baseM, kernelM, snapdM);
    var k := FirstUnreadable(snaps);
    assert k == |snaps|;
    assert snaps[..k] == snaps;
  }

  /** With the seed and data partitions mounted and every essential snap of
      the seed already on its mount point, a healthy install call prints
      nothing and writes the modeenv. */
  lemma InstallFinalCall(w: World, sysLabel: string)
    requires InstallHealthy(w, sysLabel) && UbuntuSeed in w.mounted && UbuntuData in w.mounted
    requires var snaps := LoadSeed(w, sysLabel).value;
      forall i :: 0 <= i < |snaps| ==> SnapTuple(snaps[i], Base in w.mounted, Kernel in w.mounted, Snapd in w.mounted) == []
    ensures var r := InstallStep(w, sysLabel);
      r.lines == [] && r.outcome == Pass && r.modeenv == Some(InstallModeenv(sysLabel))
  {
    var snaps := LoadSeed(w, sysLabel).value;
    var b, k, s := Base in w.mounted, Kernel in w.mounted, Snapd in w.mounted;
    if !(b && k && s) {
      TuplesNone(snaps, b, k, s);
      ReadableEssentials(snaps, b, k, s);
    }
    InstallWritesModeenv(w, sysLabel);
  }

  /** Once the seed partition is mounted, a healthy install call succeeds
      and leaves every essential snap of the seed and the data partition
      mounted, so the following call prints nothing and writes the modeenv. */
  lemma InstallAfterSeed(w: World, sysLabel: string)
    requires InstallHealthy(w, sysLabel) && UbuntuSeed in w.mounted
    ensures var r := InstallStep(w, sysLabel);
      var r' := InstallStep(Next(w, r), sysLabel);
      r.outcome == Pass && r'.lines == [] && r'.outcome == Pass && r'.modeenv == Some(InstallModeenv(sysLabel))
  {
    var r := InstallStep(w, sysLabel);
    var w' := Next(w, r);
    var snaps := LoadSeed(w, sysLabel).value;
    var b, k, s := Base in w.mounted, Kernel in w.mounted, Snapd in w.mounted;
    var d := InstallData(w, sysLabel);
    var e := if b && k && s then [] else TuplesOf(snaps, b, k, s);
    if !(b && k && s) {
      ReadableEssentials(snaps, b, k, s);
    }
    assert r.lines == e + d.lines && r.outcome == Pass;
    TargetsAppend(e, d.lines);
    if !(b && k && s) {
      TuplesCover(snaps, b, k, s, Targets(r.lines));
    }
    assert UbuntuData !in w.mounted ==> TmpfsData in d.lines && UbuntuData in Targets(d.lines);
    assert LoadSeed(w', sysLabel) == LoadSeed(w, sysLabel);
    InstallFinalCall(w', sysLabel);
  }

  /** A healthy install call prints nothing on the third call at the
      latest, having written {Mode: install, RecoverySystem: label} to the
      modeenv, and every call before it succeeds. */
  lemma InstallThirdCallEmpty(w: World, sysLabel: string)
    requires InstallHealthy(w, sysLabel)
    ensures var r1 := InstallStep(w, sysLabel);
      var w1 := Next(w, r1);
      var r2 := InstallStep(w1, sysLabel);
      var w2 := Next(w1, r2);
      var r3 := InstallStep(w2, sysLabel);
      r1.outcome == Pass && r2.outcome == Pass &&
      r3.lines == [] && r3.outcome == Pass && r3.modeenv == Some(InstallModeenv(sysLabel))
  {
    var r1 := InstallStep(w, sysLabel);
    var w1 := Next(w, r1);
    assert LoadSeed(w1, sysLabel) == LoadSeed(w, sysLabel);
    var r2 := InstallStep(w1, sysLabel);
    var w2 := Next(w1, r2);
    if UbuntuSeed in w.mounted {
      InstallAfterSeed(w, sysLabel);
      InstallStaysDone(w1, sysLabel);
    } else {
      assert r1.lines == [ByLabel(UbuntuSeed)];
      assert UbuntuSeed in Targets(r1.lines);
      InstallAfterSeed(w1, sysLabel);
    }
  }

  /** Run mode with nothing failing: every probe succeeds and the modeenv
      can be read. */
  predicate RunHealthy(w: World) {
    w.probeFails == {} && !w.modeenvReadFails && w.modeenv.Some?
  }

  /** A healthy run call succeeds and leaves the seed, boot and data
      partitions mounted. */
  lemma RunFirstCall(w: World)
    requires RunHealthy(w)
    ensures var r := RunStep(w);
      r.outcome == Pass && {UbuntuSeed, UbuntuBoot, UbuntuData} <= Next(w, r).mounted && RunHealthy(Next(w, r))
  {
    var r := RunStep(w);
    RunStepCases(w);
    RunKeepsModeenv(w);
    var seed, boot := LabelLine(w, UbuntuSeed), LabelLine(w, UbuntuBoot);
    var me := w.modeenv.value;
    var tail := if UbuntuData in w.mounted then BlobLine(w, me.base, Base) + BlobLine(w, me.kernel, Kernel) else [ByLabel(UbuntuData)];
    assert r.lines == (seed + boot) + tail;
    TargetsAppend(seed + boot, tail);
    TargetsAppend(seed, boot);
    assert UbuntuSeed !in w.mounted ==> UbuntuSeed in Targets(seed);
    assert UbuntuBoot !in w.mounted ==> UbuntuBoot in Targets(boot);
    assert UbuntuData !in w.mounted ==> UbuntuData in Targets(tail);
  }

  /** With the partitions mounted, a healthy run call mounts base and
      kernel, and the following call prints nothing. */
  lemma RunAfterPartitions(w: World)
    requires RunHealthy(w) && {UbuntuSeed, UbuntuBoot, UbuntuData} <= w.mounted
    ensures var r := RunStep(w);
      var r' := RunStep(Next(w, r));
      r.outcome == Pass && r'.lines == [] && r'.outcome == Pass
  {
    var r := RunStep(w);
    var w' := Next(w, r);
    RunStepCases(w);
    RunKeepsModeenv(w);
    var me := w.modeenv.value;
    var bl, kl := BlobLine(w, me.base, Base), BlobLine(w, me.kernel, Kernel);
    assert r.lines == bl + kl;
    TargetsAppend(bl, kl);
    assert Base in w'.mounted && Kernel in w'.mounted;
    RunStepCases(w');
  }

  /** A healthy run call prints nothing on the third call at the latest,
      every call before it succeeds, and the modeenv is never changed. */
  lemma RunThirdCallEmpty(w: World)
    requires RunHealthy(w)
    ensures var r1 := RunStep(w);
      var w1 := Next(w, r1);
      var r2 := RunStep(w1);
      var w2 := Next(w1, r2);
      var r3 := RunStep(w2);
      r1.outcome == Pass && r2.outcome == Pass && r3.lines == [] && r3.outcome == Pass &&
      r1.modeenv == w.modeenv && r2.modeenv == w.modeenv && r3.modeenv == w.modeenv
  {
    var r1 := RunStep(w);
    var w1 := Next(w, r1);
    RunFirstCall(w);
    RunKeepsModeenv(w);
    RunKeepsModeenv(w1);
    RunAfterPartitions(w1);
    RunKeepsModeenv(Next(w1, RunStep(w1)));
  }

  /** With exactly the partitions mounted, a healthy run call prints the
      base and kernel blob lines. */
  lemma RunBlobsAfterPartitions(w: World)
    requires RunHealthy(w) && w.mounted == {UbuntuSeed, UbuntuBoot, UbuntuData}
    ensures var me := w.modeenv.value;
      RunStep(w).lines == [MountTuple(None, BlobPath(w.snapBlobDir, me.base), Base),
                           MountTuple(None, BlobPath(w.snapBlobDir, me.kernel), Kernel)]
  {
    RunStepCases(w);
    assert LabelLine(w, UbuntuSeed) + LabelLine(w, UbuntuBoot) == [];
  }

  /** From an empty mount table a healthy run boot takes exactly two
      printing calls: the seed, boot and data partitions by label, then
      base and kernel from the blobs the modeenv names. */
  lemma RunFromScratch(w: World)
    requires RunHealthy(w) && w.mounted == {}
    ensures var r1 := RunStep(w);
      var r2 := RunStep(Next(w, r1));
      var me := w.modeenv.value;
      r1.lines == [ByLabel(UbuntuSeed), ByLabel(UbuntuBoot), ByLabel(UbuntuData)] &&
      r2.lines == [MountTuple(None, BlobPath(w.snapBlobDir, me.base), Base),
                   MountTuple(None, BlobPath(w.snapBlobDir, me.kernel), Kernel)]
  {
    var r1 := RunStep(w);
    RunStepCases(w);
    assert r1.lines == [ByLabel(UbuntuSeed), ByLabel(UbuntuBoot), ByLabel(UbuntuData)];
    RunKeepsModeenv(w);
    var w1 := Next(w, r1);
    assert Targets(r1.lines) == {UbuntuSeed, UbuntuBoot, UbuntuData};
    RunBlobsAfterPartitions(w1);
  }

  /** From an empty mount table a healthy install takes exactly two
      printing calls: the seed partition by label, then the essential snaps
      of the seed followed by the tmpfs data partition. */
  lemma InstallFromScratch(w: World, sysLabel: string)
    requires InstallHealthy(w, sysLabel) && w.mounted == {}
    ensures var r1 := InstallStep(w, sysLabel);
      var r2 := InstallStep(Next(w, r1), sysLabel);
      r1.lines == [ByLabel(UbuntuSeed)] &&
      r2.lines == TuplesOf(LoadSeed(w, sysLabel).value, false, false, false) + [TmpfsData]
  {
    var r1 := InstallStep(w, sysLabel);
    assert r1.lines == [ByLabel(UbuntuSeed)];
    var w1 := Next(w, r1);
    assert Targets(r1.lines) == {UbuntuSeed};
    assert w1.mounted == {UbuntuSeed};
    assert LoadSeed(w1, sysLabel) == LoadSeed(w, sysLabel);
    ReadableEssentials(LoadSeed(w, sysLabel).value, false, false, false);
  }
}
