# snap-bootstrap initramfs mount generator, modelled in Dafny

`snap-bootstrap initramfs-mounts` is the program the initramfs of an Ubuntu
Core system calls again and again during early boot. Each call does three things:

- It reads the kernel command line and classifies it into a boot mode
  (`install`, `recover` or `run`) and a recovery-system label.
- It looks at which of the well-known mount points below `/run/mnt` are
  already mounted (`ubuntu-seed`, `ubuntu-boot`, `ubuntu-data`, `base`,
  `kernel`, `snapd`).
- It prints the next mount instructions, one per line: `<source> <target>`
  or `--type=<fs> <source> <target>`.

The initramfs performs the mounts it was given and calls the program again.
A call that prints nothing means mounting is complete. On the way, install
mode writes the boot-mode record (the *modeenv*) to the data partition, and
run mode reads the base and kernel snap names from it.

The model has these layers:

- **`Cmdline`** (`cmdline.dfy`), with the word splitter in `Scanner`
  (`words.dfy`). `WhichModeAndRecoverSystem` is the source's scanning loop,
  a method over the words of the command line. It keeps the locals `mode`
  and `sysLabel` and returns early. It is proved equal to the token-by-token
  specification `Classify`, and the parser's promises are proved as lemmas
  about `Classify`.
- **`Mounts`** (`mounts.dfy`). One invocation as a function of the state it
  observes, a `World`: `InstallStep`, `RecoverStep`, `RunStep` and
  `Dispatch`. Each returns the printed tuples, including those printed before
  an error, together with the modeenv afterwards, the number of times the
  seed was opened, and the outcome.
- **`Initramfs`** (`initramfs.dfy`). The program as it runs. Class `Env` holds:
  - the observed environment, as constants;
  - the output stream `out`, the modeenv file and a seed-open counter, as
    mutable fields.

  The methods mirror the Go functions: they print step by step, loop over
  the essential snaps and over the seed and boot partitions, and write the
  modeenv. Each method is proved to leave exactly the state the matching
  `Mounts` function describes.
- **`InstallFacts`**, **`RunFacts`** and **`DispatchFacts`**: the properties
  one call has.
- **`Convergence`**: the repeated-call protocol. `Next` is the state after
  the caller has mounted every printed target. Each call that prints
  something mounts something new, and a call that prints nothing stays
  that way. When nothing fails, the third call prints nothing in both
  install and run mode.

## Model

| member | source | states |
|---|---|---|
| Scanner.Words | cmd/snap-bootstrap/cmd_initramfs_mounts.go:234-236 | every token bufio.ScanWords yields is a non-empty run of non-space characters |
| Scanner.WordsOfUnwords | cmd/snap-bootstrap/cmd_initramfs_mounts.go:234-236 | splitting words joined by single spaces gives back exactly those words, in order |
| Cmdline.AfterFirstEq | cmd/snap-bootstrap/cmd_initramfs_mounts.go:238 | the value is the suffix of the token after its first `=`, and no `=` comes before that one |
| Cmdline.ModeAndSystemValues | cmd/snap-bootstrap/cmd_initramfs_mounts.go:237-251 | the mode is the token text after `snapd_recovery_mode=`, or `install` when that text is empty; the label is the text after `snapd_recovery_system=` |
| Cmdline.WhichModeAndRecoverSystem | cmd/snap-bootstrap/cmd_initramfs_mounts.go:233-260 | the scanning loop returns exactly Classify of the command line's words; on success the mode is in validModes and the label is empty exactly in run mode |
| Cmdline.ScanTokenShape | cmd/snap-bootstrap/cmd_initramfs_mounts.go:237-254 | one token either decides, with a valid mode (label empty exactly for run) or an unknown-mode error, or leaves the mode pending as empty, install or recover |
| Cmdline.ScanModeToken | cmd/snap-bootstrap/cmd_initramfs_mounts.go:237-254 | for every value: an unknown mode fails, run decides ("run", ""), and install or recover decide once a label was seen and otherwise replace the mode |
| Cmdline.ScanSystemToken | cmd/snap-bootstrap/cmd_initramfs_mounts.go:249-254 | a label token replaces the label, and decides once a mode was seen and the label is not empty |
| Cmdline.ScanOtherToken | cmd/snap-bootstrap/cmd_initramfs_mounts.go:236-254 | any other token changes neither mode nor label |
| Cmdline.SkipNeutral | cmd/snap-bootstrap/cmd_initramfs_mounts.go:236-254 | while the mode or the label is still missing, tokens with neither prefix leave the classification of what follows unchanged |
| Cmdline.UnknownModeFailsAtOnce | cmd/snap-bootstrap/cmd_initramfs_mounts.go:242-244 | a mode outside validModes fails at once with that mode, whatever mode or label was seen before and whatever follows |
| Cmdline.RunShortCircuits | cmd/snap-bootstrap/cmd_initramfs_mounts.go:245-247 | `snapd_recovery_mode=run` returns ("run", "") at once, whatever was seen and whatever follows |
| Cmdline.ModeThenLabel | cmd/snap-bootstrap/cmd_initramfs_mounts.go:237-254 | install or recover followed later by a non-empty label succeeds with both, whatever other tokens come before, between and after them |
| Cmdline.LabelThenMode | cmd/snap-bootstrap/cmd_initramfs_mounts.go:237-254 | a non-empty label followed later by install or recover succeeds with both, whatever other tokens surround them: the order does not matter |
| Cmdline.NoLabelCannotDetect | cmd/snap-bootstrap/cmd_initramfs_mounts.go:252-259 | install or recover without any label token runs out of input with "cannot detect" |
| Cmdline.NoModeCannotDetect | cmd/snap-bootstrap/cmd_initramfs_mounts.go:252-259 | without any mode token the input runs out with "cannot detect" |
| Cmdline.ClassifyShape | cmd/snap-bootstrap/cmd_initramfs_mounts.go:231-259 | on success the mode is in validModes and the label is empty exactly in run mode; the only errors are an unknown mode and "cannot detect" |
| Cmdline.SuccessIsWitnessed | cmd/snap-bootstrap/cmd_initramfs_mounts.go:236-254 | the returned mode and label are carried by tokens of the input (or were seen before them) |
| Cmdline.FreshInstallCmdline | cmd/snap-bootstrap/cmd_initramfs_mounts.go:233-260 | `snapd_recovery_mode=install snapd_recovery_system=20231001` classifies as ("install", "20231001") |
| Cmdline.TypicalInstallTokens | cmd/snap-bootstrap/cmd_initramfs_mounts.go:236-254 | the tokens `console=ttyS0 snapd_recovery_mode=install quiet snapd_recovery_system=20191118` classify as ("install", "20191118") |
| Cmdline.BogusModeCmdline | cmd/snap-bootstrap/cmd_initramfs_mounts.go:242-243 | `snapd_recovery_mode=bogus` fails with the unknown mode "bogus" |
| Cmdline.RunCmdline | cmd/snap-bootstrap/cmd_initramfs_mounts.go:245-246 | `snapd_recovery_mode=run` alone classifies as ("run", "") |
| Mounts.DirIsJoin | cmd/snap-bootstrap/cmd_initramfs_mounts.go:178-180 | every mount point's path is `/run/mnt/` followed by its name |
| Mounts.DirsDistinct | cmd/snap-bootstrap/cmd_initramfs_mounts.go:178-180 | different mount points have different paths |
| Mounts.RenderIsUnwords | cmd/snap-bootstrap/cmd_initramfs_mounts.go:132 | a printed line is its fields, optional `--type=` first, joined by single spaces |
| Mounts.RenderRoundTrip | cmd/snap-bootstrap/cmd_initramfs_mounts.go:154 | splitting a printed line at spaces gives back its fields when source and type contain no space |
| Mounts.RunKeepsModeenv | cmd/snap-bootstrap/cmd_initramfs_mounts.go:177-229 | run mode never writes the modeenv and never opens the seed |
| Initramfs.Env.Emit | cmd/snap-bootstrap/cmd_initramfs_mounts.go:85 | printing appends the rendered line to the output |
| Initramfs.Env.EmitEssential | cmd/snap-bootstrap/cmd_initramfs_mounts.go:129-143 | the type switch prints the snap's line for an unmounted base, kernel or snapd, and nothing otherwise |
| Initramfs.Env.EmitEssentialMounts | cmd/snap-bootstrap/cmd_initramfs_mounts.go:120-144 | the loop over the essential snaps prints exactly EssentialMounts' lines and returns its error, if any |
| Initramfs.Env.EnsureDataAndModeenv | cmd/snap-bootstrap/cmd_initramfs_mounts.go:147-170 | the data step's output, modeenv and outcome are those of InstallData |
| Initramfs.Env.EmitRecoverySystemMounts | cmd/snap-bootstrap/cmd_initramfs_mounts.go:102-170 | opening the seed when needed, the snap loop and the data step leave the state InstallEssentials describes |
| Initramfs.Env.GenerateMountsModeInstall | cmd/snap-bootstrap/cmd_initramfs_mounts.go:76-171 | output, modeenv, seed opens and outcome are exactly those of InstallStep, including the lines printed before an error |
| Initramfs.Env.GenerateMountsModeRecover | cmd/snap-bootstrap/cmd_initramfs_mounts.go:173-175 | recover fails with "not implemented" and changes nothing |
| Initramfs.Env.EmitPartitionMount | cmd/snap-bootstrap/cmd_initramfs_mounts.go:184-190 | one partition: the probe error, or its by-label line when unmounted |
| Initramfs.Env.EmitPartitionMounts | cmd/snap-bootstrap/cmd_initramfs_mounts.go:183-191 | the loop over the partitions prints PartitionMounts' lines and stops at its first probe error |
| Initramfs.Env.EmitSnapsFromModeenv | cmd/snap-bootstrap/cmd_initramfs_mounts.go:204-228 | reading the modeenv and printing the base and kernel blob lines behaves as RunSnaps |
| Initramfs.Env.EmitDataOrSnaps | cmd/snap-bootstrap/cmd_initramfs_mounts.go:195-228 | the data step and what follows behave as RunData |
| Initramfs.Env.EmitRunMounts | cmd/snap-bootstrap/cmd_initramfs_mounts.go:182-228 | the run generator over a given partition list behaves as RunStepFrom |
| Initramfs.Env.GenerateMountsModeRun | cmd/snap-bootstrap/cmd_initramfs_mounts.go:177-229 | output, modeenv and outcome are exactly those of RunStep |
| Initramfs.Env.GenerateInitramfsMounts | cmd/snap-bootstrap/cmd_initramfs_mounts.go:262-281 | output, modeenv, seed opens and outcome are exactly those of Dispatch on the command line read |
| InstallFacts.FirstUnreadable | cmd/snap-bootstrap/cmd_initramfs_mounts.go:120-128 | the position of the first essential snap that cannot be opened or read: all before it can be |
| InstallFacts.EssentialMountsStopsAtFirstError | cmd/snap-bootstrap/cmd_initramfs_mounts.go:120-144 | the snap loop prints the reference lines of the snaps before the first unreadable one, in seed order, then stops with that snap's error |
| InstallFacts.SnapTupleAgrees | cmd/snap-bootstrap/cmd_initramfs_mounts.go:129-143 | the loop's per-snap line agrees with the reference definition |
| InstallFacts.EssentialLinesFromSeed | cmd/snap-bootstrap/cmd_initramfs_mounts.go:129-143 | every snap line mounts a readable seed snap on the mount point of its type, only when that point is unmounted; other types print nothing |
| InstallFacts.InstallPrintsOnlyMissing | cmd/snap-bootstrap/cmd_initramfs_mounts.go:76-171 | an install call prints only install mount points that are not mounted yet |
| InstallFacts.InstallSeedFirst | cmd/snap-bootstrap/cmd_initramfs_mounts.go:79-87 | with the seed partition unmounted: exactly its by-label line, no seed open, modeenv unchanged |
| InstallFacts.SeedLine | cmd/snap-bootstrap/cmd_initramfs_mounts.go:85 | that line's fields are `/dev/disk/by-label/ubuntu-seed` and `/run/mnt/ubuntu-seed` |
| InstallFacts.InstallOpensSeedIff | cmd/snap-bootstrap/cmd_initramfs_mounts.go:89-104 | the seed is opened at most once, and exactly when the seed partition is mounted and base, kernel and snapd were probed and are not all mounted |
| InstallFacts.InstallEssentialLines | cmd/snap-bootstrap/cmd_initramfs_mounts.go:102-156 | a seed that fails to load ends the call with nothing printed; an unreadable snap ends it after the lines already printed; otherwise the output is those lines followed by the data step's, whose modeenv and outcome the call returns |
| InstallFacts.InstallStepCases | cmd/snap-bootstrap/cmd_initramfs_mounts.go:76-171 | an install call's full result by the first step that decides it: probe error, seed by label, seed load error, unreadable snap, or the snap lines followed by the tmpfs line, a failing write or the written modeenv |
| InstallFacts.InstallWritesModeenv | cmd/snap-bootstrap/cmd_initramfs_mounts.go:147-170 | the modeenv becomes {install, label} exactly when InstallWrites holds, and then the call succeeds without a tmpfs line; otherwise it is unchanged |
| InstallFacts.InstallTmpfsLast | cmd/snap-bootstrap/cmd_initramfs_mounts.go:147-156 | a tmpfs line is the call's last line, the data partition was unmounted, the modeenv is untouched and the call succeeds |
| InstallFacts.InstallTmpfsWhenDataMissing | cmd/snap-bootstrap/cmd_initramfs_mounts.go:147-156 | a call that gets past the essential snaps with the data partition unmounted ends with the tmpfs line, succeeds and leaves the modeenv alone |
| InstallFacts.TmpfsLine | cmd/snap-bootstrap/cmd_initramfs_mounts.go:154 | that line's fields are `--type=tmpfs`, `tmpfs` and `/run/mnt/ubuntu-data` |
| InstallFacts.InstallRewriteIdempotent | cmd/snap-bootstrap/cmd_initramfs_mounts.go:158-166 | calling again on the modeenv the call left behaves exactly as the call itself |
| InstallFacts.InstallIgnoresModeenv | cmd/snap-bootstrap/cmd_initramfs_mounts.go:76-171 | install output, seed opens and outcome do not depend on the stored modeenv |
| InstallFacts.InstallErrors | cmd/snap-bootstrap/cmd_initramfs_mounts.go:76-171 | install fails only by a probe, the seed, an essential snap or the modeenv write |
| InstallFacts.TuplesCover | cmd/snap-bootstrap/cmd_initramfs_mounts.go:129-143 | once every printed target counts as mounted, no snap prints again |
| InstallFacts.TuplesNone | cmd/snap-bootstrap/cmd_initramfs_mounts.go:129-143 | when no snap contributes a line the reference lines are empty |
| RunFacts.RunPartitionsFirst | cmd/snap-bootstrap/cmd_initramfs_mounts.go:182-191 | seed then boot by label when unmounted; a probe error stops the loop and keeps the lines before it |
| RunFacts.RunStepCases | cmd/snap-bootstrap/cmd_initramfs_mounts.go:177-229 | a run call's full result by the first step that decides it: probe error, data by label, unreadable modeenv, or base and kernel blob lines |
| RunFacts.RunPrintsOnlyMissing | cmd/snap-bootstrap/cmd_initramfs_mounts.go:177-229 | a run call prints only run mount points that are not mounted yet |
| RunFacts.RunDataBeforeModeenv | cmd/snap-bootstrap/cmd_initramfs_mounts.go:195-208 | while the data partition is unmounted, output and outcome do not depend on the modeenv or on whether it can be read |
| RunFacts.DataLine | cmd/snap-bootstrap/cmd_initramfs_mounts.go:201 | the data line's fields are `/dev/disk/by-label/ubuntu-data` and `/run/mnt/ubuntu-data` |
| RunFacts.BlobLineText | cmd/snap-bootstrap/cmd_initramfs_mounts.go:214-226 | a blob line is `/run/mnt/ubuntu-data/system-data/<SnapBlobDir>/<name> <target>` |
| RunFacts.RunErrors | cmd/snap-bootstrap/cmd_initramfs_mounts.go:177-229 | run fails only by a probe or an unreadable modeenv |
| DispatchFacts.DispatchCases | cmd/snap-bootstrap/cmd_initramfs_mounts.go:262-281 | read and parse errors print nothing; install and recover get the (non-empty) label, run gets none; recover prints nothing and fails with "not implemented" |
| DispatchFacts.DispatchNeverInternal | cmd/snap-bootstrap/cmd_initramfs_mounts.go:279-280 | the "internal error" return is never reached |
| DispatchFacts.DispatchFreshInstall | cmd/snap-bootstrap/cmd_initramfs_mounts.go:267-275 | a first-boot command line runs the install generator with its label |
| DispatchFacts.DispatchBogusMode | cmd/snap-bootstrap/cmd_initramfs_mounts.go:267-270 | an unknown mode ends the call with that error and nothing printed |
| DispatchFacts.DispatchRunMode | cmd/snap-bootstrap/cmd_initramfs_mounts.go:276-277 | `snapd_recovery_mode=run` runs the run generator |
| Convergence.MissingShrinks | cmd/snap-bootstrap/cmd_initramfs_mounts.go:74-75 | mounting lines that name only missing points strictly shrinks what is missing, unless nothing was printed |
| Convergence.InstallProgress | cmd/snap-bootstrap/cmd_initramfs_mounts.go:74-75 | each printing install call brings install strictly closer to done |
| Convergence.RunProgress | cmd/snap-bootstrap/cmd_initramfs_mounts.go:74-75 | each printing run call brings run strictly closer to done |
| Convergence.InstallStaysDone | cmd/snap-bootstrap/cmd_initramfs_mounts.go:168-170 | after an install call that prints nothing, the next call has the same result |
| Convergence.RunStaysDone | cmd/snap-bootstrap/cmd_initramfs_mounts.go:74-75 | after a run call that prints nothing, the next call has the same result |
| Convergence.ReadableEssentials | cmd/snap-bootstrap/cmd_initramfs_mounts.go:120-144 | with every snap readable the loop prints the reference lines and ends without error |
| Convergence.InstallFinalCall | cmd/snap-bootstrap/cmd_initramfs_mounts.go:158-170 | with seed, data and every seed snap mounted, a healthy call prints nothing, succeeds and writes {install, label} |
| Convergence.InstallAfterSeed | cmd/snap-bootstrap/cmd_initramfs_mounts.go:89-170 | with the seed mounted, a healthy call succeeds and the following call prints nothing and writes the modeenv |
| Convergence.InstallThirdCallEmpty | cmd/snap-bootstrap/cmd_initramfs_mounts.go:76-171 | healthy install: two succeeding calls, then the third prints nothing, succeeds and has written {install, label} |
| Convergence.RunFirstCall | cmd/snap-bootstrap/cmd_initramfs_mounts.go:182-203 | a healthy run call succeeds and leaves seed, boot and data mounted |
| Convergence.RunAfterPartitions | cmd/snap-bootstrap/cmd_initramfs_mounts.go:209-228 | with the partitions mounted, a healthy call succeeds and the next prints nothing |
| Convergence.RunThirdCallEmpty | cmd/snap-bootstrap/cmd_initramfs_mounts.go:177-229 | healthy run: two succeeding calls, then the third prints nothing; the modeenv never changes |
| Convergence.RunBlobsAfterPartitions | cmd/snap-bootstrap/cmd_initramfs_mounts.go:209-226 | with exactly the partitions mounted, a call prints the base and kernel blob lines |
| Convergence.RunFromScratch | cmd/snap-bootstrap/cmd_initramfs_mounts.go:177-229 | from nothing mounted: seed, boot, data by label, then base and kernel blobs, so run has two printing calls |
| Convergence.InstallFromScratch | cmd/snap-bootstrap/cmd_initramfs_mounts.go:76-156 | from nothing mounted: the seed line, then the seed's snap lines followed by the tmpfs line |

Notes on how the code behaves:

- After the essential-snap step, install mode does not return. It goes on
  to the data partition in the same call (lines 145-156). The tmpfs line
  therefore follows the snap lines, and the modeenv can be written in the
  same call once data is mounted.
- Run mode prints the seed and boot lines and then, in the same call, the
  data line (lines 183-202).
- So both modes have at most two printing calls. With the caller mounting
  every line and nothing failing, the third call prints nothing.
  `Convergence.RunFromScratch` shows that run mode can need both of its
  printing calls, so the call that prints nothing can be the third one.

## Left out

- Reading `/proc/cmdline` is not modelled. `GenerateInitramfsMounts`
  receives the command line as `Option<string>`, with `None` standing for a
  read failure.
- The real standard-output writer is not modelled. Output is the `out`
  sequence of lines, without their trailing newlines.
- The command line is modelled as characters rather than bytes. The
  space test follows bufio's `isSpace`, but invalid UTF-8 decoding is not
  modelled.
- The scanner's token-too-long error (lines 256-258) is not modelled: every
  token fits.
- `osutil.IsMounted` is modelled as membership in the mount table, with a
  set of mount points whose probe fails. The table is a set of the six mount
  points below `/run/mnt`, because the generator probes no other path.
  Parsing the mount table is not modelled.
- Five foreign calls are replaced by one oracle, `World.seed`, which maps a
  label to a load failure or to the essential snaps. Each snap carries its
  type or the stage at which reading it fails. The calls are `seed.Open`,
  `LoadAssertions`, `LoadMeta`, `snap.Open` and `ReadInfoFromSnapFile`.
  Signature checking and squashfs reading are not modelled.
- `timings` is not modelled.
- The modeenv is an abstract record (mode, recovery system, base, kernel).
  A flag says whether reading it fails and another whether writing it fails.
  Its on-disk format and file I/O are not modelled.
- `filepath.Join` path cleaning is not modelled. Paths are concatenated
  with `/`.
- `dirs.SnapBlobDir` is the parameter `snapBlobDir`. It stands for the
  snap blob directory relative to the root (`var/lib/snapd/snaps`). The
  source's value is absolute, and `filepath.Join` (lines 215 and 224)
  collapses the double slash that plain concatenation would leave.
- RunFacts.BlobLineText: an empty `Base` or `Kernel` name in the modeenv
  leaves a trailing `/` on the blob path, which `filepath.Join` would drop.
  Install writes exactly such a record, with both names empty.
- Error message texts are not modelled. Errors are constructors of
  `Common.Error`.
- Command registration, `init` and `snap.SanitizePlugsSlots` are not
  modelled. They are command-line plumbing.
