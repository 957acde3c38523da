/** What the two clone commands of the cutter consult besides the tree
    they copy: the working directory, which paths exist, which destination
    paths cannot be created or written, and what reading a go.mod gives. */
module CutterEnv {
  import opened Results
  import Paths
  import TreeWalk

  /** The state of the machine the command runs on. `cwd` is `None` when
      the working directory cannot be determined; `existing` holds the paths
      whose status is anything but "does not exist"; `ioFails` holds the
      destination paths whose creation, writing or removal fails. */
  datatype Env = Env(cwd: Option<string>, existing: set<string>, ioFails: set<string>)

  /** Reading and parsing a go.mod: the file cannot be read, it is not a
      valid go.mod, or it parses, with the path of its module statement when
      it has one. */
  datatype GoMod =
    | Unreadable
    | Malformed
    | Parsed(text: string, modulePath: Option<string>)

  datatype CloneError =
    | EmptyName
    | SameName
    | NoWorkingDir
    | NotGoProject(dir: string)
    | AlreadyExists(path: string)
    | MakeDirFailed(path: string)
    | GoModUnreadable(path: string)
    | GoModMalformed(path: string)
    | NoModuleStatement(path: string)
    | GoModWriteFailed(path: string)
    | NoAppsDir(path: string)
    | NoSourceApp(path: string)
    | WalkFailed(cause: TreeWalk.WalkError)
    | RemoveFailed(path: string)

  /** The operations a clone performed, in order, and the error it returned. */
  datatype CloneOutcome = CloneOutcome(ops: seq<TreeWalk.Op>, error: Option<CloneError>)

  /** The go.mod of a directory. */
  function GoModPath(dir: string): string {
    Paths.Join([dir, "go.mod"])
  }

  /** A directory is a Go project when its go.mod does not report "does not
      exist". */
  predicate IsGoProject(env: Env, dir: string) {
    GoModPath(dir) in env.existing
  }
}
