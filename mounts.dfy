/** What one invocation of the initramfs mount generator does, as a function
    of the state it observes. The imperative generators of module Initramfs
    are proved to behave exactly as these functions say. */
module Mounts {
  import opened Common
  import opened Scanner
  import opened Cmdline

  /** The runtime mount root. */
  const RunMnt := "/run/mnt"

  /** The last element of a mount point's path (filepath.Base of it). */
  function Name(m: MountPoint): string {
    match m
    case UbuntuSeed => "ubuntu-seed"
    case UbuntuBoot => "ubuntu-boot"
    case UbuntuData => "ubuntu-data"
    case Base => "base"
    case Kernel => "kernel"
    case Snapd => "snapd"
  }

  /** The path of a mount point (filepath.Join(runMnt, name)). */
  function Dir(m: MountPoint): string {
    match m
    case UbuntuSeed => "/run/mnt/ubuntu-seed"
    case UbuntuBoot => "/run/mnt/ubuntu-boot"
    case UbuntuData => "/run/mnt/ubuntu-data"
    case Base => "/run/mnt/base"
    case Kernel => "/run/mnt/kernel"
    case Snapd => "/run/mnt/snapd"
  }

  /** Every mount point lives directly below the mount root, under its name. */
  lemma DirIsJoin(m: MountPoint)
    ensures Dir(m) == RunMnt + "/" + Name(m)
  {
    var d, j := Dir(m), RunMnt + "/" + Name(m);
    assert |d| == |j|;
    forall i | 0 <= i < |d| ensures d[i] == j[i] {
      if i > 8 {
        assert j[i] == Name(m)[i - 9];
      }
    }
  }

  /** Different mount points have different paths. */
  lemma DirsDistinct(m: MountPoint, m': MountPoint)
    requires m != m'
    ensures Dir(m) != Dir(m')
  {
    var d, d' := Dir(m), Dir(m');
    assert |d| != |d'| || d[9] != d'[9] || d[16] != d'[16];
  }

  /** The mount points install mode assembles, and those run mode assembles. */
  const InstallTargets: set<MountPoint> := {UbuntuSeed, Base, Kernel, Snapd, UbuntuData}
  const RunTargets: set<MountPoint> := {UbuntuSeed, UbuntuBoot, UbuntuData, Base, Kernel}

  /** One emitted mount instruction: an optional filesystem type, a source and a target. */
  datatype MountTuple = MountTuple(fsType: Option<string>, source: string, target: MountPoint)

  /** The fields of the emitted line, in order. */
  function Fields(t: MountTuple): seq<string> {
    (if t.fsType.Some? then ["--type=" + t.fsType.value] else []) + [t.source, Dir(t.target)]
  }

  /** The line printed for a tuple (without its terminating newline). */
  function Render(t: MountTuple): string {
    (if t.fsType.Some? then "--type=" + t.fsType.value + " " else "") + t.source + " " + Dir(t.target)
  }

  /** No path of a mount point contains a space. */
  lemma DirIsWord(m: MountPoint)
    ensures IsWord(Dir(m))
  {
  }

  lemma TypeIsWord()
    ensures IsWord("--type=")
  {
  }

  /** A line is its fields joined by single spaces. */
  lemma RenderIsUnwords(t: MountTuple)
    ensures Render(t) == Unwords(Fields(t))
  {
    var d := Dir(t.target);
    assert Unwords([d]) == d;
    assert Unwords([t.source, d]) == t.source + " " + d;
    if t.fsType.Some? {
      var f := "--type=" + t.fsType.value;
      assert Fields(t) == [f, t.source, d];
      assert [f, t.source, d][1..] == [t.source, d];
      assert Unwords([f, t.source, d]) == f + " " + (t.source + " " + d);
      assert f + " " + (t.source + " " + d) == f + " " + t.source + " " + d;
    } else {
      assert "" + t.source == t.source;
    }
  }

  /** The initramfs reading a line back as space-separated words gets the
      tuple's fields, as long as the source and type contain no space. */
  lemma RenderRoundTrip(t: MountTuple)
    requires IsWord(t.source)
    requires t.fsType.Some? ==> IsWord(t.fsType.value)
    ensures Words(Render(t)) == Fields(t)
  {
    RenderIsUnwords(t);
    DirIsWord(t.target);
    if t.fsType.Some? {
      TypeIsWord();
      WordConcat("--type=", t.fsType.value);
    }
    WordsOfUnwords(Fields(t));
  }

  /** The mount points some tuples mount. */
  function Targets(ts: seq<MountTuple>): set<MountPoint> {
    set t | t in ts :: t.target
  }

  lemma TargetsAppend(a: seq<MountTuple>, b: seq<MountTuple>)
    ensures Targets(a + b) == Targets(a) + Targets(b)
  {
    assert forall t :: t in a + b <==> t in a || t in b;
  }

  /** The lines printed for a sequence of tuples. */
  function RenderAll(ts: seq<MountTuple>): seq<string> {
    if ts == [] then [] else [Render(ts[0])] + RenderAll(ts[1..])
  }

  lemma {:induction false} RenderAllAppend(a: seq<MountTuple>, b: seq<MountTuple>)
    ensures RenderAll(a + b) == RenderAll(a) + RenderAll(b)
  {
    if a == [] {
      assert a + b == b;
    } else {
      assert (a + b)[0] == a[0] && (a + b)[1..] == a[1..] + b;
      RenderAllAppend(a[1..], b);
    }
  }

  /** Printing the lines of a, then those of b, after `before`, prints the
      lines of a + b after `before`. */
  lemma PrintedThen(before: seq<string>, a: seq<MountTuple>, b: seq<MountTuple>)
    ensures (before + RenderAll(a)) + RenderAll(b) == before + RenderAll(a + b)
  {
    RenderAllAppend(a, b);
    assert (before + RenderAll(a)) + RenderAll(b) == before + (RenderAll(a) + RenderAll(b));
  }

  /** A partition mounted from its well-known disk label. */
  function ByLabel(m: MountPoint): MountTuple {
    MountTuple(None, "/dev/disk/by-label/" + Name(m), m)
  }

  /** The in-memory data partition install mode creates. */
  const TmpfsData := MountTuple(Some("tmpfs"), "tmpfs", UbuntuData)

  datatype SnapType = TypeBase | TypeKernel | TypeSnapd | TypeOther(name: string)

  /** What reading one essential snap of the seed gives. */
  datatype SnapRead = ReadOk(snapType: SnapType) | ReadFails(stage: SnapStage)

  datatype EssentialSnap = EssentialSnap(path: string, info: SnapRead)

  /** What opening and loading a recovery system of the seed gives. */
  datatype SeedContent = SeedLoaded(essential: seq<EssentialSnap>) | SeedFails(stage: SeedStage)

  /** The persisted boot-mode record. */
  datatype Modeenv = Modeenv(mode: string, recoverySystem: string, base: string, kernel: string)

  /** Everything one invocation observes: which mount points are mounted
      (and those whose probe fails), the seed as an oracle from
      recovery-system label to its content, the stored modeenv with its
      possible read and write failures, and the snap blob directory of the
      data partition. */
  datatype World = World(
    mounted: set<MountPoint>,
    probeFails: set<MountPoint>,
    seed: string -> SeedContent,
    modeenv: Option<Modeenv>,
    modeenvReadFails: bool,
    modeenvWriteFails: bool,
    snapBlobDir: string)

  /** The observable effect of one invocation: the tuples printed (also
      those printed before an error), the modeenv afterwards, how many times
      the seed was opened, and the returned outcome. */
  datatype StepResult = StepResult(lines: seq<MountTuple>, modeenv: Option<Modeenv>, seedOpens: nat, outcome: Outcome)

  /** Tuples printed by a loop, and the error that ended it early, if any. */
  datatype Emitted = Emitted(lines: seq<MountTuple>, err: Option<Error>)

  /** The mount probe (osutil.IsMounted): a failing probe is an error,
      otherwise whether the mount point is in the mount table. */
  function Probe(w: World, m: MountPoint): Result<bool> {
    if m in w.probeFails then Err(ProbeFailed(m)) else Ok(m in w.mounted)
  }

  /** seed.Open, LoadAssertions and LoadMeta for one recovery system. */
  function LoadSeed(w: World, sysLabel: string): Result<seq<EssentialSnap>> {
    match w.seed(sysLabel)
    case SeedLoaded(snaps) => Ok(snaps)
    case SeedFails(stage) => Err(SeedFailed(stage))
  }

  /** boot.ReadModeenv: a missing or unreadable modeenv is an error. */
  function ReadModeenv(w: World): Result<Modeenv> {
    if w.modeenvReadFails || w.modeenv.None? then Err(ModeenvReadFailed) else Ok(w.modeenv.value)
  }

  /** The record install mode writes: only Mode and RecoverySystem are set. */
  function InstallModeenv(sysLabel: string): Modeenv {
    Modeenv("install", sysLabel, "", "")
  }

  /** The path of a snap blob in the data partition. */
  function BlobPath(snapBlobDir: string, name: string): string {
    Dir(UbuntuData) + "/system-data/" + snapBlobDir + "/" + name
  }

  /** The tuple one essential snap contributes, given which of base, kernel
      and snapd are mounted. */
  function EssentialTuple(s: EssentialSnap, t: SnapType, baseM: bool, kernelM: bool, snapdM: bool): seq<MountTuple> {
    match t
    case TypeBase => if baseM then [] else [MountTuple(None, s.path, Base)]
    case TypeKernel => if kernelM then [] else [MountTuple(None, s.path, Kernel)]
    case TypeSnapd => if snapdM then [] else [MountTuple(None, s.path, Snapd)]
    case TypeOther(_) => []
  }

  /** The loop over the seed's essential snaps (lines 120-144), from snap
      snaps[0] on. */
  function EssentialMounts(snaps: seq<EssentialSnap>, baseM: bool, kernelM: bool, snapdM: bool): Emitted
    decreases |snaps|
  {
    if snaps == [] then Emitted([], None)
    else match snaps[0].info
      case ReadFails(stage) => Emitted([], Some(SnapFailed(snaps[0].path, stage)))
      case ReadOk(t) =>
        var rest := EssentialMounts(snaps[1..], baseM, kernelM, snapdM);
        Emitted(EssentialTuple(snaps[0], t, baseM, kernelM, snapdM) + rest.lines, rest.err)
  }

  /** One step of the essential-snaps loop, at snap i, after `printed` was
      printed for the snaps before it. */
  lemma EssentialMountsStep(snaps: seq<EssentialSnap>, i: nat, printed: seq<MountTuple>,
                            baseM: bool, kernelM: bool, snapdM: bool)
    requires i < |snaps|
    requires var e := EssentialMounts(snaps[i..], baseM, kernelM, snapdM);
      EssentialMounts(snaps, baseM, kernelM, snapdM) == Emitted(printed + e.lines, e.err)
    ensures snaps[i].info.ReadFails? ==>
      EssentialMounts(snaps, baseM, kernelM, snapdM) == Emitted(printed, Some(SnapFailed(snaps[i].path, snaps[i].info.stage)))
    ensures snaps[i].info.ReadOk? ==>
      var e := EssentialMounts(snaps[i + 1..], baseM, kernelM, snapdM);
      var here := EssentialTuple(snaps[i], snaps[i].info.snapType, baseM, kernelM, snapdM);
      EssentialMounts(snaps, baseM, kernelM, snapdM) == Emitted((printed + here) + e.lines, e.err)
  {
    assert snaps[i..][0] == snaps[i] && snaps[i..][1..] == snaps[i + 1..];
    if snaps[i].info.ReadFails? {
      assert printed + [] == printed;
    } else {
      var e := EssentialMounts(snaps[i + 1..], baseM, kernelM, snapdM);
      var here := EssentialTuple(snaps[i], snaps[i].info.snapType, baseM, kernelM, snapdM);
      assert EssentialMounts(snaps[i..], baseM, kernelM, snapdM) == Emitted(here + e.lines, e.err);
      assert printed + (here + e.lines) == (printed + here) + e.lines;
    }
  }

  /** The essential-snaps loop once every snap was seen. */
  lemma EssentialMountsEnd(snaps: seq<EssentialSnap>, printed: seq<MountTuple>,
                           baseM: bool, kernelM: bool, snapdM: bool)
    requires var e := EssentialMounts(snaps[|snaps|..], baseM, kernelM, snapdM);
      EssentialMounts(snaps, baseM, kernelM, snapdM) == Emitted(printed + e.lines, e.err)
    ensures EssentialMounts(snaps, baseM, kernelM, snapdM) == Emitted(printed, None)
  {
    assert snaps[|snaps|..] == [] && printed + [] == printed;
  }

  /** Install steps 3 and 4 (lines 147-170): the data partition on a tmpfs,
      then the modeenv once the data partition is mounted. */
  function InstallData(w: World, sysLabel: string): StepResult {
    match Probe(w, UbuntuData)
    case Err(e) => StepResult([], w.modeenv, 0, Fail(e))
    case Ok(dataM) =>
      if !dataM then StepResult([TmpfsData], w.modeenv, 0, Pass)
      else if w.modeenvWriteFails then StepResult([], w.modeenv, 0, Fail(ModeenvWriteFailed))
      else StepResult([], Some(InstallModeenv(sysLabel)), 0, Pass)
  }

  /** Install step 2 (lines 89-145) and what follows it, once the seed is
      mounted and base, kernel and snapd were probed. */
  function InstallEssentials(w: World, sysLabel: string, baseM: bool, kernelM: bool, snapdM: bool): StepResult {
    if baseM && kernelM && snapdM then InstallData(w, sysLabel)
    else match LoadSeed(w, sysLabel)
      case Err(e) => StepResult([], w.modeenv, 1, Fail(e))
      case Ok(snaps) =>
        var e := EssentialMounts(snaps, baseM, kernelM, snapdM);
        if e.err.Some? then StepResult(e.lines, w.modeenv, 1, Fail(e.err.value))
        else
          var d := InstallData(w, sysLabel);
          StepResult(e.lines + d.lines, d.modeenv, 1, d.outcome)
  }

  /** generateMountsModeInstall. */
  function InstallStep(w: World, sysLabel: string): StepResult {
    match Probe(w, UbuntuSeed)
    case Err(e) => StepResult([], w.modeenv, 0, Fail(e))
    case Ok(seedM) =>
      if !seedM then StepResult([ByLabel(UbuntuSeed)], w.modeenv, 0, Pass)
      else match Probe(w, Base)
        case Err(e) => StepResult([], w.modeenv, 0, Fail(e))
        case Ok(baseM) => match Probe(w, Kernel)
          case Err(e) => StepResult([], w.modeenv, 0, Fail(e))
          case Ok(kernelM) => match Probe(w, Snapd)
            case Err(e) => StepResult([], w.modeenv, 0, Fail(e))
            case Ok(snapdM) => InstallEssentials(w, sysLabel, baseM, kernelM, snapdM)
  }

  /** generateMountsModeRecover: not implemented, prints nothing. */
  function RecoverStep(w: World, sysLabel: string): StepResult {
    StepResult([], w.modeenv, 0, Fail(RecoverNotImplemented))
  }

  /** One iteration of the loop over the seed and boot partitions (lines
      184-190): the by-label tuple when the partition is not mounted. */
  function PartitionMount(w: World, m: MountPoint): Emitted {
    match Probe(w, m)
    case Err(e) => Emitted([], Some(e))
    case Ok(mounted) => Emitted(if mounted then [] else [ByLabel(m)], None)
  }

  /** The loop over the seed and boot partitions (lines 183-191), from
      ms[0] on. */
  function PartitionMounts(w: World, ms: seq<MountPoint>): Emitted
    decreases |ms|
  {
    if ms == [] then Emitted([], None)
    else
      var here := PartitionMount(w, ms[0]);
      if here.err.Some? then here
      else
        var rest := PartitionMounts(w, ms[1..]);
        Emitted(here.lines + rest.lines, rest.err)
  }

  /** One step of the partition loop, at position i, after `printed` was
      printed for the partitions before it. */
  lemma PartitionMountsStep(w: World, ms: seq<MountPoint>, i: nat, printed: seq<MountTuple>)
    requires i < |ms|
    requires var e := PartitionMounts(w, ms[i..]);
      PartitionMounts(w, ms) == Emitted(printed + e.lines, e.err)
    ensures var here := PartitionMount(w, ms[i]);
      here.err.Some? ==> PartitionMounts(w, ms) == Emitted(printed, here.err)
    ensures var here := PartitionMount(w, ms[i]);
      var e := PartitionMounts(w, ms[i + 1..]);
      here.err.None? ==> PartitionMounts(w, ms) == Emitted((printed + here.lines) + e.lines, e.err)
  {
    assert ms[i..][0] == ms[i] && ms[i..][1..] == ms[i + 1..];
    var here := PartitionMount(w, ms[i]);
    if here.err.Some? {
      assert PartitionMounts(w, ms[i..]) == here && here.lines == [];
      assert printed + [] == printed;
    } else {
      var e := PartitionMounts(w, ms[i + 1..]);
      assert PartitionMounts(w, ms[i..]) == Emitted(here.lines + e.lines, e.err);
      assert printed + (here.lines + e.lines) == (printed + here.lines) + e.lines;
    }
  }

  /** The partition loop once every partition was seen. */
  lemma PartitionMountsEnd(w: World, ms: seq<MountPoint>, printed: seq<MountTuple>)
    requires var e := PartitionMounts(w, ms[|ms|..]);
      PartitionMounts(w, ms) == Emitted(printed + e.lines, e.err)
    ensures PartitionMounts(w, ms) == Emitted(printed, None)
  {
    assert ms[|ms|..] == [] && printed + [] == printed;
  }

  /** Run steps 2.1 and 2.2 (lines 204-226), once the data partition is
      mounted: base and kernel from the blobs the modeenv names. */
  function RunSnaps(w: World): StepResult {
    match ReadModeenv(w)
    case Err(e) => StepResult([], w.modeenv, 0, Fail(e))
    case Ok(me) =>
      match Probe(w, Base)
      case Err(e) => StepResult([], w.modeenv, 0, Fail(e))
      case Ok(baseM) =>
        var b := if baseM then [] else [MountTuple(None, BlobPath(w.snapBlobDir, me.base), Base)];
        match Probe(w, Kernel)
        case Err(e) => StepResult(b, w.modeenv, 0, Fail(e))
        case Ok(kernelM) =>
          StepResult(b + (if kernelM then [] else [MountTuple(None, BlobPath(w.snapBlobDir, me.kernel), Kernel)]),
                     w.modeenv, 0, Pass)
  }

  /** Run step 1.2 (lines 195-203) and what follows it: the data partition
      by label, or, once it is mounted, base and kernel. */
  function RunData(w: World): StepResult {
    match Probe(w, UbuntuData)
    case Err(e) => StepResult([], w.modeenv, 0, Fail(e))
    case Ok(dataM) => if !dataM then StepResult([ByLabel(UbuntuData)], w.modeenv, 0, Pass) else RunSnaps(w)
  }

  /** The partitions run mode mounts first, by label (line 183). */
  const RunPartitions: seq<MountPoint> := [UbuntuSeed, UbuntuBoot]

  /** generateMountsModeRun. */
  function RunStep(w: World): StepResult {
    RunStepFrom(w, RunPartitions)
  }

  /** generateMountsModeRun, with the partitions it mounts first given. */
  function RunStepFrom(w: World, ms: seq<MountPoint>): StepResult {
    var parts := PartitionMounts(w, ms);
    if parts.err.Some? then StepResult(parts.lines, w.modeenv, 0, Fail(parts.err.value))
    else
      var r := RunData(w);
      StepResult(parts.lines + r.lines, r.modeenv, r.seedOpens, r.outcome)
  }

  /** Run mode never writes the modeenv and never opens the seed. */
  lemma RunKeepsModeenv(w: World)
    ensures RunData(w).modeenv == w.modeenv && RunData(w).seedOpens == 0
    ensures RunStep(w).modeenv == w.modeenv && RunStep(w).seedOpens == 0
  {
  }

  /** generateInitramfsMounts: read the command line, classify it, and run
      the matching generator. */
  function Dispatch(w: World, cmdline: Option<string>): StepResult {
    match cmdline
    case None => StepResult([], w.modeenv, 0, Fail(CmdlineReadFailed))
    case Some(c) =>
      match Classify(Words(c), "", "")
      case Err(e) => StepResult([], w.modeenv, 0, Fail(e))
      case Ok(p) =>
        if p.mode == "recover" then RecoverStep(w, p.sysLabel)
        else if p.mode == "install" then InstallStep(w, p.sysLabel)
        else if p.mode == "run" then RunStep(w)
        else StepResult([], w.modeenv, 0, Fail(InternalError))
  }
}
