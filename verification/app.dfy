/** The app clone of the cutter: inside a Go project laid out with an
    `apps/` directory, copy one app to a sibling under a new name, renaming
    the app in Go package names, in the project's own imports of the app,
    and in YAML configuration. A failed copy removes the new app directory
    again. */
module AppClone {
  import opened Results
  import Paths
  import opened TreeWalk
  import opened CutterEnv

  function AppsDir(cwd: string): string {
    Paths.Join([cwd, "apps"])
  }

  function AppDir(cwd: string, app: string): string {
    Paths.Join([AppsDir(cwd), app])
  }

  /** The walk of an app clone: from the source app's directory to the new
      one, renaming the app within the given module. */
  function AppWalker(cwd: string, sourceApp: string, newApp: string, modulePath: string, env: Env): Walker {
    Walker(AppRules(sourceApp, newApp, modulePath), AppDir(cwd, sourceApp), AppDir(cwd, newApp), env.ioFails)
  }

  /** What follows the walk once the new app directory exists: on failure
      the directory is removed again (whether that removal works is not
      looked at), on success nothing more happens. */
  function FinishApp(newAppDir: string, out: Outcome): (r: CloneOutcome)
    requires forall k :: 0 <= k < |out.ops| ==> !out.ops[k].RemoveAll?
    ensures |r.ops| > |out.ops| && r.ops[0] == MakeDir(newAppDir) && r.ops[1..|out.ops| + 1] == out.ops
    ensures r.error.None? <==> out.failure.None?
    ensures r.error.Some? ==> r.error == Some(WalkFailed(out.failure.value))
    ensures r.error.None? ==> r.ops == [MakeDir(newAppDir)] + out.ops
    ensures r.error.Some? ==> r.ops == [MakeDir(newAppDir)] + out.ops + [RemoveAll(newAppDir)]
    ensures forall k :: 0 <= k < |r.ops| && r.ops[k].RemoveAll? ==>
      r.error.Some? && k == |r.ops| - 1 && r.ops[k].path == newAppDir
  {
    var copied := [MakeDir(newAppDir)] + out.ops;
    if out.failure.Some? then CloneOutcome(copied + [RemoveAll(newAppDir)], Some(WalkFailed(out.failure.value)))
    else CloneOutcome(copied, None)
  }

  /** The checks the clone makes before it creates anything, in order. */
  function CheckApp(sourceApp: string, newApp: string, env: Env, goMod: GoMod): (r: Result<string, CloneError>)
    ensures r.Ok? <==>
      sourceApp != "" && newApp != "" && sourceApp != newApp && env.cwd.Some?
      && IsGoProject(env, env.cwd.value) && goMod.Parsed? && goMod.modulePath.Some?
      && AppsDir(env.cwd.value) in env.existing
      && AppDir(env.cwd.value, sourceApp) in env.existing
      && AppDir(env.cwd.value, newApp) !in env.existing
      && AppDir(env.cwd.value, newApp) !in env.ioFails
    ensures r.Ok? ==> r.value == goMod.modulePath.value
    ensures sourceApp == "" || newApp == "" ==> r == Err(EmptyName)
    ensures r.Err? ==> !r.error.WalkFailed? && !r.error.RemoveFailed? && !r.error.GoModWriteFailed?
  {
    if sourceApp == "" || newApp == "" then Err(EmptyName)
    else if sourceApp == newApp then Err(SameName)
    else if env.cwd.None? then Err(NoWorkingDir)
    else
      var cwd := env.cwd.value;
      var modPath := GoModPath(cwd);
      if !IsGoProject(env, cwd) then Err(NotGoProject(cwd))
      else match goMod
        case Unreadable => Err(GoModUnreadable(modPath))
        case Malformed => Err(GoModMalformed(modPath))
        case Parsed(_, None) => Err(NoModuleStatement(modPath))
        case Parsed(_, Some(modulePath)) =>
          var appsDir := AppsDir(cwd);
          var sourceDir := AppDir(cwd, sourceApp);
          var newDir := AppDir(cwd, newApp);
          if appsDir !in env.existing then Err(NoAppsDir(appsDir))
          else if sourceDir !in env.existing then Err(NoSourceApp(sourceDir))
          else if newDir in env.existing then Err(AlreadyExists(newDir))
          else if newDir in env.ioFails then Err(MakeDirFailed(newDir))
          else Ok(modulePath)
  }

  /** The app clone, run in the project root. `goMod` is what reading the
      project's go.mod gives and `entries` the tree of the source app in
      walk order. */
  function CloneApp(sourceApp: string, newApp: string, env: Env, goMod: GoMod, entries: seq<Entry>): (r: CloneOutcome)
    ensures r.ops == [] <==> r.error.Some? && !r.error.value.WalkFailed?
    ensures r.ops != [] <==> CheckApp(sourceApp, newApp, env, goMod).Ok?
    ensures CheckApp(sourceApp, newApp, env, goMod).Err? ==> r == CloneOutcome([], Some(CheckApp(sourceApp, newApp, env, goMod).error))
    ensures r.ops != [] ==>
      var w := AppWalker(env.cwd.value, sourceApp, newApp, goMod.modulePath.value, env);
      r == FinishApp(AppDir(env.cwd.value, newApp), WalkSpec(w, entries))
  {
    match CheckApp(sourceApp, newApp, env, goMod)
    case Err(e) => CloneOutcome([], Some(e))
    case Ok(modulePath) =>
      var w := AppWalker(env.cwd.value, sourceApp, newApp, modulePath, env);
      WalkNeverRemoves(w, entries);
      FinishApp(AppDir(env.cwd.value, newApp), WalkSpec(w, entries))
  }
}
