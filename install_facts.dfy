/** Properties of install mode (generateMountsModeInstall): what one call
    prints, when it opens the seed, and when it writes the modeenv. */
module InstallFacts {
  import opened Common
  import opened Mounts

  /** The mount point a snap of type t is mounted on, if any. */
  function TargetOf(t: SnapType): Option<MountPoint> {
    match t
    case TypeBase => Some(Base)
    case TypeKernel => Some(Kernel)
    case TypeSnapd => Some(Snapd)
    case TypeOther(_) => None
  }

  /** Whether mount point m counts as mounted, given the three flags. */
  function Flag(m: MountPoint, baseM: bool, kernelM: bool, snapdM: bool): bool {
    if m == Base then baseM else if m == Kernel then kernelM else if m == Snapd then snapdM else true
  }

  /** The position of the first essential snap that cannot be read, or the
      number of snaps when all can be read. */
  function FirstUnreadable(snaps: seq<EssentialSnap>): (k: nat)
    ensures k <= |snaps|
    ensures forall i :: 0 <= i < k ==> snaps[i].info.ReadOk?
    ensures k < |snaps| ==> snaps[k].info.ReadFails?
  {
    if snaps == [] || snaps[0].info.ReadFails? then 0 else 1 + FirstUnreadable(snaps[1..])
  }

  /** The line one readable snap contributes: its path on the mount point
      of its type, unless that mount point is already mounted. This is the
      loop's EssentialTuple written through the type-to-mount-point table
      TargetOf, with an unreadable snap contributing nothing;
      SnapTupleAgrees proves the two agree. */
  function SnapTuple(s: EssentialSnap, baseM: bool, kernelM: bool, snapdM: bool): seq<MountTuple> {
    if s.info.ReadFails? then []
    else match TargetOf(s.info.snapType)
      case None => []
      case Some(m) => if Flag(m, baseM, kernelM, snapdM) then [] else [MountTuple(None, s.path, m)]
  }

  /** Reference definition of the essential-snap lines: the lines of the
      readable snaps, in seed order. It is the loop's output without its
      early exit on an unreadable snap; EssentialMountsStopsAtFirstError
      says where that exit cuts it. */
  function TuplesOf(snaps: seq<EssentialSnap>, baseM: bool, kernelM: bool, snapdM: bool): seq<MountTuple>
    decreases |snaps|
  {
    if snaps == [] then [] else SnapTuple(snaps[0], baseM, kernelM, snapdM) + TuplesOf(snaps[1..], baseM, kernelM, snapdM)
  }

  /** The essential-snap loop prints exactly the reference lines of the
      snaps before the first unreadable one, and stops with that snap's
      error: lines printed before an error stay printed. */
  lemma {:induction false} EssentialMountsStopsAtFirstError(snaps: seq<EssentialSnap>, baseM: bool, kernelM: bool, snapdM: bool)
    ensures var k := FirstUnreadable(snaps);
      EssentialMounts(snaps, baseM, kernelM, snapdM) ==
        Emitted(TuplesOf(snaps[..k], baseM, kernelM, snapdM),
                if k < |snaps| then Some(SnapFailed(snaps[k].path, snaps[k].info.stage)) else None)
    decreases |snaps|
  {
    var k := FirstUnreadable(snaps);
    if snaps == [] {
    } else if snaps[0].info.ReadFails? {
      assert snaps[..k] == [];
    } else {
      var k1 := FirstUnreadable(snaps[1..]);
      assert k == 1 + k1;
      EssentialMountsStopsAtFirstError(snaps[1..], baseM, kernelM, snapdM);
      var rest := EssentialMounts(snaps[1..], baseM, kernelM, snapdM);
      var here := EssentialTuple(snaps[0], snaps[0].info.snapType, baseM, kernelM, snapdM);
      SnapTupleAgrees(snaps[0], baseM, kernelM, snapdM);
      assert EssentialMounts(snaps, baseM, kernelM, snapdM) == Emitted(here + rest.lines, rest.err);
      assert snaps[..k][0] == snaps[0] && snaps[..k][1..] == snaps[1..][..k1];
      assert TuplesOf(snaps[..k], baseM, kernelM, snapdM) == here + TuplesOf(snaps[1..][..k1], baseM, kernelM, snapdM);
      if k < |snaps| {
        assert snaps[1..][k1] == snaps[k];
      }
    }
  }

  /** The loop's per-snap tuple and the reference one agree on readable snaps. */
  lemma SnapTupleAgrees(s: EssentialSnap, baseM: bool, kernelM: bool, snapdM: bool)
    requires s.info.ReadOk?
    ensures EssentialTuple(s, s.info.snapType, baseM, kernelM, snapdM) == SnapTuple(s, baseM, kernelM, snapdM)
  {
  }

  /** Every essential-snap line mounts a readable snap of the seed on the
      mount point of its type, and only when that mount point is not
      mounted; snaps of other types print nothing. */
  lemma {:induction false} EssentialLinesFromSeed(snaps: seq<EssentialSnap>, baseM: bool, kernelM: bool, snapdM: bool)
    ensures forall t <- EssentialMounts(snaps, baseM, kernelM, snapdM).lines ::
      t.fsType.None? && !Flag(t.target, baseM, kernelM, snapdM) && t.target in {Base, Kernel, Snapd} &&
      exists i :: 0 <= i < |snaps| && snaps[i].path == t.source && snaps[i].info.ReadOk? && TargetOf(snaps[i].info.snapType) == Some(t.target)
    decreases |snaps|
  {
    if snaps != [] && snaps[0].info.ReadOk? {
      EssentialLinesFromSeed(snaps[1..], baseM, kernelM, snapdM);
      var lines := EssentialMounts(snaps, baseM, kernelM, snapdM).lines;
      var here := EssentialTuple(snaps[0], snaps[0].info.snapType, baseM, kernelM, snapdM);
      var rest := EssentialMounts(snaps[1..], baseM, kernelM, snapdM).lines;
      assert lines == here + rest;
      forall t <- lines
        ensures exists i :: 0 <= i < |snaps| && snaps[i].path == t.source && snaps[i].info.ReadOk? && TargetOf(snaps[i].info.snapType) == Some(t.target)
      {
        if t in here {
          assert snaps[0].path == t.source;
        } else {
          assert t in rest;
          var i :| 0 <= i < |snaps[1..]| && snaps[1..][i].path == t.source && snaps[1..][i].info.ReadOk? && TargetOf(snaps[1..][i].info.snapType) == Some(t.target);
          assert snaps[i + 1] == snaps[1..][i];
        }
      }
    }
  }

  /** An install call prints only mount points install mode assembles, and
      only those that are not mounted yet. */
  lemma InstallPrintsOnlyMissing(w: World, sysLabel: string)
    ensures forall t <- InstallStep(w, sysLabel).lines :: t.target in InstallTargets && t.target !in w.mounted
  {
    var r := InstallStep(w, sysLabel);
    if Probe(w, UbuntuSeed) == Ok(true) && Probe(w, Base).Ok? && Probe(w, Kernel).Ok? && Probe(w, Snapd).Ok? {
      var b, k, s := Base in w.mounted, Kernel in w.mounted, Snapd in w.mounted;
      var d := InstallData(w, sysLabel);
      assert forall t <- d.lines :: t == TmpfsData && UbuntuData !in w.mounted;
      if b && k && s {
        assert r == d;
      } else if LoadSeed(w, sysLabel).Ok? {
        var e := EssentialMounts(LoadSeed(w, sysLabel).value, b, k, s);
        EssentialLinesFromSeed(LoadSeed(w, sysLabel).value, b, k, s);
        assert forall t <- e.lines :: t.target in {Base, Kernel, Snapd} && !Flag(t.target, b, k, s);
        if e.err.None? {
          assert r.lines == e.lines + d.lines;
        }
      }
    }
  }

  /** Step 1: while the seed partition is not mounted, a call prints exactly
      its by-label line, opens nothing and leaves the modeenv alone. */
  lemma InstallSeedFirst(w: World, sysLabel: string)
    requires UbuntuSeed !in w.probeFails && UbuntuSeed !in w.mounted
    ensures InstallStep(w, sysLabel) == StepResult([ByLabel(UbuntuSeed)], w.modeenv, 0, Pass)
  {
  }

  /** The fields of the seed partition's by-label line. */
  lemma SeedLine()
    ensures Fields(ByLabel(UbuntuSeed)) == ["/dev/disk/by-label/ubuntu-seed", "/run/mnt/ubuntu-seed"]
  {
    assert "/dev/disk/by-label/" + "ubuntu-seed" == "/dev/disk/by-label/ubuntu-seed";
    assert [] + ["/dev/disk/by-label/ubuntu-seed", "/run/mnt/ubuntu-seed"] == ["/dev/disk/by-label/ubuntu-seed", "/run/mnt/ubuntu-seed"];
  }

  /** The seed is opened at most once per call, and exactly when the seed
      partition is mounted and base, kernel and snapd were probed and are
      not all mounted. */
  lemma InstallOpensSeedIff(w: World, sysLabel: string)
    ensures InstallStep(w, sysLabel).seedOpens <= 1
    ensures InstallStep(w, sysLabel).seedOpens == 1 <==>
      UbuntuSeed in w.mounted &&
      UbuntuSeed !in w.probeFails && Base !in w.probeFails && Kernel !in w.probeFails && Snapd !in w.probeFails &&
      !(Base in w.mounted && Kernel in w.mounted && Snapd in w.mounted)
  {
  }

  /** When the seed is opened, the call prints the reference lines of the
      snaps before the first unreadable one; an unreadable snap ends the
      call with its error and no further line, and a seed that does not
      load ends it before any line is printed. */
  lemma InstallEssentialLines(w: World, sysLabel: string)
    requires UbuntuSeed in w.mounted
    requires UbuntuSeed !in w.probeFails && Base !in w.probeFails && Kernel !in w.probeFails && Snapd !in w.probeFails
    ensures var b, k, s := Base in w.mounted, Kernel in w.mounted, Snapd in w.mounted;
      var r := InstallStep(w, sysLabel);
      var seed := LoadSeed(w, sysLabel);
      !(b && k && s) ==>
        if seed.Err? then r == StepResult([], w.modeenv, 1, Fail(seed.error))
        else
          var snaps := seed.value;
          var n := FirstUnreadable(snaps);
          var printed := TuplesOf(snaps[..n], b, k, s);
          if n < |snaps| then r == StepResult(printed, w.modeenv, 1, Fail(SnapFailed(snaps[n].path, snaps[n].info.stage)))
          else
            var d := InstallData(w, sysLabel);
            r == StepResult(printed + d.lines, d.modeenv, 1, d.outcome)
  {
    var b, k, s := Base in w.mounted, Kernel in w.mounted, Snapd in w.mounted;
    if !(b && k && s) && LoadSeed(w, sysLabel).Ok? {
      var snaps := LoadSeed(w, sysLabel).value;
      EssentialMountsStopsAtFirstError(snaps, b, k, s);
    }
  }

  /** What an install call prints and returns, by the first step that
      decides it: a probe error, the seed by label, the seed failing to
      load, an unreadable essential snap, or the data step after the lines
      of the essential snaps, where the data step is a failing probe, the
      tmpfs line while the data partition is not mounted, or the modeenv
      write, which may fail. */
  lemma InstallStepCases(w: World, sysLabel: string)
    ensures var r := InstallStep(w, sysLabel);
      var b, k, s := Base in w.mounted, Kernel in w.mounted, Snapd in w.mounted;
      var d :=
        if UbuntuData in w.probeFails then StepResult([], w.modeenv, 0, Fail(ProbeFailed(UbuntuData)))
        else if UbuntuData !in w.mounted then StepResult([TmpfsData], w.modeenv, 0, Pass)
        else if w.modeenvWriteFails then StepResult([], w.modeenv, 0, Fail(ModeenvWriteFailed))
        else StepResult([], Some(InstallModeenv(sysLabel)), 0, Pass);
      if UbuntuSeed in w.probeFails then r == StepResult([], w.modeenv, 0, Fail(ProbeFailed(UbuntuSeed)))
      else if UbuntuSeed !in w.mounted then r == StepResult([ByLabel(UbuntuSeed)], w.modeenv, 0, Pass)
      else if Base in w.probeFails then r == StepResult([], w.modeenv, 0, Fail(ProbeFailed(Base)))
      else if Kernel in w.probeFails then r == StepResult([], w.modeenv, 0, Fail(ProbeFailed(Kernel)))
      else if Snapd in w.probeFails then r == StepResult([], w.modeenv, 0, Fail(ProbeFailed(Snapd)))
      else if b && k && s then r == d
      else if LoadSeed(w, sysLabel).Err? then r == StepResult([], w.modeenv, 1, Fail(LoadSeed(w, sysLabel).error))
      else
        var snaps := LoadSeed(w, sysLabel).value;
        var n := FirstUnreadable(snaps);
        var printed := TuplesOf(snaps[..n], b, k, s);
        if n < |snaps| then r == StepResult(printed, w.modeenv, 1, Fail(SnapFailed(snaps[n].path, snaps[n].info.stage)))
        else r == StepResult(printed + d.lines, d.modeenv, 1, d.outcome)
  {
    if UbuntuSeed in w.mounted && UbuntuSeed !in w.probeFails && Base !in w.probeFails && Kernel !in w.probeFails && Snapd !in w.probeFails {
      InstallEssentialLines(w, sysLabel);
    }
  }

  /** Step 3, the way round InstallTmpfsLast does not give: a call that gets
      past the essential snaps with the data partition unmounted ends with
      the tmpfs line, succeeds and leaves the modeenv alone. */
  lemma InstallTmpfsWhenDataMissing(w: World, sysLabel: string)
    requires UbuntuSeed in w.mounted && UbuntuData !in w.mounted
    requires UbuntuSeed !in w.probeFails && Base !in w.probeFails && Kernel !in w.probeFails
    requires Snapd !in w.probeFails && UbuntuData !in w.probeFails
    requires var b, k, s := Base in w.mounted, Kernel in w.mounted, Snapd in w.mounted;
      (b && k && s) || (LoadSeed(w, sysLabel).Ok? && EssentialMounts(LoadSeed(w, sysLabel).value, b, k, s).err.None?)
    ensures var r := InstallStep(w, sysLabel);
      r.lines != [] && r.lines[|r.lines| - 1] == TmpfsData && r.outcome == Pass && r.modeenv == w.modeenv
  {
    InstallStepCases(w, sysLabel);
    var b, k, s := Base in w.mounted, Kernel in w.mounted, Snapd in w.mounted;
    if !(b && k && s) {
      EssentialMountsStopsAtFirstError(LoadSeed(w, sysLabel).value, b, k, s);
    }
  }

  /** Whether an install call writes the modeenv: every probe succeeds, the
      seed and data partitions are mounted, the essential snaps (if the
      seed had to be opened) were all read, and the write succeeds. */
  predicate InstallWrites(w: World, sysLabel: string) {
    var b, k, s := Base in w.mounted, Kernel in w.mounted, Snapd in w.mounted;
    UbuntuSeed in w.mounted && UbuntuData in w.mounted && !w.modeenvWriteFails &&
    UbuntuSeed !in w.probeFails && Base !in w.probeFails && Kernel !in w.probeFails &&
    Snapd !in w.probeFails && UbuntuData !in w.probeFails &&
    ((b && k && s) ||
     (LoadSeed(w, sysLabel).Ok? && EssentialMounts(LoadSeed(w, sysLabel).value, b, k, s).err.None?))
  }

  /** Step 4: a call writes the modeenv {Mode: install, RecoverySystem:
      label} exactly when InstallWrites holds, and then succeeds without a
      tmpfs line; otherwise the modeenv is left as it was. */
  lemma InstallWritesModeenv(w: World, sysLabel: string)
    ensures var r := InstallStep(w, sysLabel);
      r.modeenv == if InstallWrites(w, sysLabel) then Some(InstallModeenv(sysLabel)) else w.modeenv
    ensures var r := InstallStep(w, sysLabel);
      InstallWrites(w, sysLabel) ==> r.outcome == Pass && TmpfsData !in r.lines
  {
    var r := InstallStep(w, sysLabel);
    if Probe(w, UbuntuSeed) == Ok(true) && Probe(w, Base).Ok? && Probe(w, Kernel).Ok? && Probe(w, Snapd).Ok? {
      var b, k, s := Base in w.mounted, Kernel in w.mounted, Snapd in w.mounted;
      var d := InstallData(w, sysLabel);
      if b && k && s {
        assert r == d;
      } else if LoadSeed(w, sysLabel).Ok? {
        var e := EssentialMounts(LoadSeed(w, sysLabel).value, b, k, s);
        if e.err.None? {
          EssentialLinesFromSeed(LoadSeed(w, sysLabel).value, b, k, s);
          assert TmpfsData !in e.lines;
          assert r == StepResult(e.lines + d.lines, d.modeenv, 1, d.outcome);
        } else {
          assert r.modeenv == w.modeenv && !InstallWrites(w, sysLabel);
        }
      }
    }
  }

  /** Step 3: when a call prints the tmpfs line for the data partition, it
      is its last line, the data partition was not mounted, the modeenv is
      left untouched and the call succeeds. */
  lemma InstallTmpfsLast(w: World, sysLabel: string)
    ensures var r := InstallStep(w, sysLabel);
      TmpfsData in r.lines ==>
        r.lines[|r.lines| - 1] == TmpfsData && r.modeenv == w.modeenv && r.outcome == Pass && UbuntuData !in w.mounted
  {
    var r := InstallStep(w, sysLabel);
    if Probe(w, UbuntuSeed) == Ok(true) && Probe(w, Base).Ok? && Probe(w, Kernel).Ok? && Probe(w, Snapd).Ok? {
      var b, k, s := Base in w.mounted, Kernel in w.mounted, Snapd in w.mounted;
      if !(b && k && s) && LoadSeed(w, sysLabel).Ok? {
        var e := EssentialMounts(LoadSeed(w, sysLabel).value, b, k, s);
        EssentialLinesFromSeed(LoadSeed(w, sysLabel).value, b, k, s);
        assert TmpfsData !in e.lines;
        if e.err.None? {
          var d := InstallData(w, sysLabel);
          assert r.lines == e.lines + d.lines;
          if TmpfsData in r.lines {
            assert d.lines == [TmpfsData];
          }
        }
      }
    }
  }

  /** The fields of the data partition's tmpfs line. */
  lemma TmpfsLine()
    ensures Fields(TmpfsData) == ["--type=tmpfs", "tmpfs", "/run/mnt/ubuntu-data"]
  {
    assert "--type=" + "tmpfs" == "--type=tmpfs";
    assert ["--type=tmpfs"] + ["tmpfs", "/run/mnt/ubuntu-data"] == ["--type=tmpfs", "tmpfs", "/run/mnt/ubuntu-data"];
  }

  /** Rewriting the modeenv is idempotent: a second call on the modeenv
      the first one left behaves exactly as the first. */
  lemma InstallRewriteIdempotent(w: World, sysLabel: string)
    ensures var r := InstallStep(w, sysLabel);
      InstallStep(w.(modeenv := r.modeenv), sysLabel) == r
  {
    var r := InstallStep(w, sysLabel);
    var w' := w.(modeenv := r.modeenv);
    InstallIgnoresModeenv(w, sysLabel, r.modeenv);
    InstallWritesModeenv(w, sysLabel);
    InstallWritesModeenv(w', sysLabel);
    assert InstallWrites(w', sysLabel) == InstallWrites(w, sysLabel);
  }

  /** Install mode never reads the modeenv: its lines, seed opens and
      outcome do not depend on it. */
  lemma InstallIgnoresModeenv(w: World, sysLabel: string, m: Option<Modeenv>)
    ensures var r, r' := InstallStep(w, sysLabel), InstallStep(w.(modeenv := m), sysLabel);
      r'.lines == r.lines && r'.seedOpens == r.seedOpens && r'.outcome == r.outcome
  {
    var w' := w.(modeenv := m);
    assert Probe(w', UbuntuSeed) == Probe(w, UbuntuSeed) && Probe(w', Base) == Probe(w, Base);
    assert Probe(w', Kernel) == Probe(w, Kernel) && Probe(w', Snapd) == Probe(w, Snapd);
    assert InstallData(w', sysLabel).lines == InstallData(w, sysLabel).lines;
    assert InstallData(w', sysLabel).outcome == InstallData(w, sysLabel).outcome;
    assert LoadSeed(w', sysLabel) == LoadSeed(w, sysLabel);
  }

  /** The errors an install call can end with: a failing probe, a seed
      that does not load, an unreadable essential snap, or a failing
      modeenv write. */
  lemma InstallErrors(w: World, sysLabel: string)
    ensures var o := InstallStep(w, sysLabel).outcome;
      o.Fail? ==> o.error.ProbeFailed? || o.error.SeedFailed? || o.error.SnapFailed? || o.error == ModeenvWriteFailed
  {
    if Probe(w, UbuntuSeed) == Ok(true) && Probe(w, Base).Ok? && Probe(w, Kernel).Ok? && Probe(w, Snapd).Ok? {
      var b, k, s := Base in w.mounted, Kernel in w.mounted, Snapd in w.mounted;
      if !(b && k && s) && LoadSeed(w, sysLabel).Ok? {
        EssentialMountsStopsAtFirstError(LoadSeed(w, sysLabel).value, b, k, s);
      }
    }
  }

  /** With every flag at least as set and every line's mount point counted
      as mounted, no readable snap contributes a line any more. */
  lemma {:induction false} TuplesCover(snaps: seq<EssentialSnap>, baseM: bool, kernelM: bool, snapdM: bool, u: set<MountPoint>)
    requires Targets(TuplesOf(snaps, baseM, kernelM, snapdM)) <= u
    ensures forall i :: 0 <= i < |snaps| ==>
      SnapTuple(snaps[i], baseM || Base in u, kernelM || Kernel in u, snapdM || Snapd in u) == []
    decreases |snaps|
  {
    if snaps != [] {
      var here := SnapTuple(snaps[0], baseM, kernelM, snapdM);
      var rest := TuplesOf(snaps[1..], baseM, kernelM, snapdM);
      TargetsAppend(here, rest);
      TuplesCover(snaps[1..], baseM, kernelM, snapdM, u);
      forall i | 0 <= i < |snaps|
        ensures SnapTuple(snaps[i], baseM || Base in u, kernelM || Kernel in u, snapdM || Snapd in u) == []
      {
        if i > 0 {
          assert snaps[i] == snaps[1..][i - 1];
        } else if here != [] {
          assert here[0] in here && here[0].target in u;
        }
      }
    }
  }

  /** When no snap contributes a line, the reference lines are empty. */
  lemma {:induction false} TuplesNone(snaps: seq<EssentialSnap>, baseM: bool, kernelM: bool, snapdM: bool)
    requires forall i :: 0 <= i < |snaps| ==> SnapTuple(snaps[i], baseM, kernelM, snapdM) == []
    ensures TuplesOf(snaps, baseM, kernelM, snapdM) == []
    decreases |snaps|
  {
    if snaps != [] {
      assert SnapTuple(snaps[0], baseM, kernelM, snapdM) == [];
      forall i | 0 <= i < |snaps[1..]| ensures SnapTuple(snaps[1..][i], baseM, kernelM, snapdM) == [] {
        assert snaps[1..][i] == snaps[i + 1];
      }
      TuplesNone(snaps[1..], baseM, kernelM, snapdM);
    }
  }
}
