/** Shared value types of the initramfs mount generator: optional values,
    results, and the errors an invocation can end with. */
module Common {

  datatype Option<+T> = None | Some(value: T)

  /** The mount points below /run/mnt the generator probes and assembles. */
  datatype MountPoint = UbuntuSeed | UbuntuBoot | UbuntuData | Base | Kernel | Snapd

  /** Which stage of loading the recovery system failed (seed.Open,
      LoadAssertions or LoadMeta). */
  datatype SeedStage = SeedOpen | SeedAssertions | SeedMeta

  /** Which stage of reading one essential snap failed (snap.Open or
      ReadInfoFromSnapFile). */
  datatype SnapStage = SnapOpen | SnapReadInfo

  /** Every way one invocation of the generator can fail. */
  datatype Error =
    | CmdlineReadFailed                     // the kernel command line could not be read
    | UnknownMode(mode: string)             // "cannot use unknown mode %q"
    | CannotDetectMode                      // "cannot detect mode nor recovery system to use"
    | ProbeFailed(point: MountPoint)        // the mount probe itself failed
    | SeedFailed(stage: SeedStage)          // the recovery system could not be loaded
    | SnapFailed(path: string, snapStage: SnapStage) // one essential snap could not be read
    | ModeenvReadFailed                     // run mode: modeenv missing or unreadable
    | ModeenvWriteFailed                    // install mode: modeenv could not be written
    | RecoverNotImplemented                 // "recover mode mount generation not implemented yet"
    | InternalError                         // a mode the dispatcher does not handle

  datatype Result<+T> = Ok(value: T) | Err(error: Error)

  /** The outcome of a generator: it either returns nil or an error. */
  datatype Outcome = Pass | Fail(error: Error)

  predicate HasPrefix(s: string, p: string) {
    |p| <= |s| && s[..|p|] == p
  }
}
