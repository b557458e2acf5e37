/** Package manager identity from the lockfile at the project root (src/core/manager.ts). */
module Manager {
  import opened Wrappers
  import Search

  datatype PackageManager = Npm | Yarn | Pnpm | Bun {
    /** The program spawned for this manager. */
    function Name(): string {
      match this
      case Npm => "npm"
      case Yarn => "yarn"
      case Pnpm => "pnpm"
      case Bun => "bun"
    }
  }

  /** Lockfiles in the order they are checked, and the manager each selects. */
  const Lockfiles: seq<string> := ["yarn.lock", "pnpm-lock.yaml", "bun.lockb"]
  const LockfileManagers: seq<PackageManager> := [Yarn, Pnpm, Bun]

  /** `detectManager`, given the set of files that exist at the project root. */
  function DetectManager(files: set<string>): (m: PackageManager)
    ensures m == Yarn <==> "yarn.lock" in files
    ensures m == Pnpm <==> "pnpm-lock.yaml" in files && "yarn.lock" !in files
    ensures m == Bun <==> "bun.lockb" in files && "pnpm-lock.yaml" !in files && "yarn.lock" !in files
    ensures m == Npm <==> "yarn.lock" !in files && "pnpm-lock.yaml" !in files && "bun.lockb" !in files
  {
    if "yarn.lock" in files then Yarn
    else if "pnpm-lock.yaml" in files then Pnpm
    else if "bun.lockb" in files then Bun
    else Npm
  }

  /** The detected manager is the one of the first existing lockfile, npm when there is none. */
  lemma DetectManagerIsFirstLockfile(files: set<string>)
    ensures DetectManager(files) == match Search.FirstIn(Lockfiles, files)
                                    case None => Npm
                                    case Some(i) => LockfileManagers[i]
  {
    var r := Search.FirstIn(Lockfiles, files);
    match r
    case None =>
      assert Lockfiles[0] !in files && Lockfiles[1] !in files && Lockfiles[2] !in files;
    case Some(i) =>
      assert i > 0 ==> Lockfiles[0] !in files;
      assert i > 1 ==> Lockfiles[1] !in files;
  }
}
