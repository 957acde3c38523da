/** The whole-project clone of the cutter: from inside a Go project, copy
    the project to a new directory, rewriting every Go import that mentions
    the project's directory name to use the new one, then rename the module
    in the copied go.mod and remove `<new>/.git`. The walk never creates
    that directory, since `.git` is on the ignore list. */
module ProjectClone {
  import opened Results
  import opened Strs
  import Paths
  import opened TreeWalk
  import opened CutterEnv

  /** The module path the copy gets. A name holding a '/' is taken as a full
      module path; a bare name replaces the last element of the old module
      path and keeps the rest of it. */
  function NewModuleName(oldModule: string, name: string): (r: string)
    ensures '/' in name || '/' !in oldModule ==> r == name
    ensures '/' !in name && '/' in oldModule ==>
      var i := LastIndexChar(oldModule, '/');
      0 <= i && HasPrefix(r, oldModule[..i + 1]) && r[i + 1..] == name
  {
    if '/' in name then name
    else if '/' in oldModule then
      var i := LastIndexChar(oldModule, '/');
      oldModule[..i + 1] + name
    else name
  }

  /** A bare new name becomes the last element of the new module path. */
  lemma NewModuleNameBase(oldModule: string, name: string)
    requires name != [] && '/' !in name
    ensures Paths.Base(NewModuleName(oldModule, name)) == name
  {
    var r := NewModuleName(oldModule, name);
    if '/' in oldModule {
      var i := LastIndexChar(oldModule, '/');
      assert r == oldModule[..i] + ['/'] + name;
      Paths.BaseAfterSlash(oldModule[..i], name);
    } else {
      Paths.BaseName(name);
    }
  }

  /** Renaming twice to the same name changes nothing the second time. */
  lemma NewModuleNameIdempotent(oldModule: string, name: string)
    ensures NewModuleName(NewModuleName(oldModule, name), name) == NewModuleName(oldModule, name)
  {
    if '/' !in name && '/' in oldModule {
      var i := LastIndexChar(oldModule, '/');
      var r := NewModuleName(oldModule, name);
      assert r == oldModule[..i] + ['/'] + name;
      assert r[i] == '/';
      LastIndexAfter(oldModule[..i], '/', name);
      assert r[..i + 1] == oldModule[..i + 1];
    }
  }

  /** The go.mod text with its first `module <old>` replaced: a plain text
      replacement of the first occurrence, not an edit of the parsed file. */
  function RewriteModuleLine(text: string, oldModule: string, newModule: string): (r: string)
    ensures !Contains(text, "module " + oldModule) ==> r == text
  {
    ReplaceFirst(text, "module " + oldModule, "module " + newModule)
  }

  /** Text before the first `module <old>` and after it is kept. */
  lemma ModuleLineRewritten(a: string, oldModule: string, b: string, newModule: string)
    requires forall j :: 0 <= j < |a| ==> !OccursAt(a + ("module " + oldModule) + b, "module " + oldModule, j)
    ensures RewriteModuleLine(a + ("module " + oldModule) + b, oldModule, newModule) == a + ("module " + newModule) + b
  {
    ReplaceFirstAt(a, "module " + oldModule, b, "module " + newModule);
  }

  /** The usual go.mod, whose first line is the module statement. */
  lemma ModuleLineFirst(oldModule: string, rest: string, newModule: string)
    ensures RewriteModuleLine("module " + oldModule + rest, oldModule, newModule) == "module " + newModule + rest
  {
    assert [] + ("module " + oldModule) + rest == "module " + oldModule + rest;
    ModuleLineRewritten([], oldModule, rest, newModule);
    assert [] + ("module " + newModule) + rest == "module " + newModule + rest;
  }

  /** Renaming the module of the copied go.mod: read, parse, rename, write. */
  function ModifyGoMod(dstDir: string, moduleName: string, goMod: GoMod, env: Env): (r: Result<Op, CloneError>)
    ensures r.Ok? <==> goMod.Parsed? && goMod.modulePath.Some? && GoModPath(dstDir) !in env.ioFails
    ensures r.Ok? ==> r.value.WriteText? && r.value.path == GoModPath(dstDir)
    ensures r.Ok? ==> r.value.text == RewriteModuleLine(goMod.text, goMod.modulePath.value, NewModuleName(goMod.modulePath.value, moduleName))
    ensures goMod.Unreadable? ==> r == Err(GoModUnreadable(GoModPath(dstDir)))
    ensures goMod.Malformed? ==> r == Err(GoModMalformed(GoModPath(dstDir)))
    ensures goMod.Parsed? && goMod.modulePath.None? ==> r == Err(NoModuleStatement(GoModPath(dstDir)))
  {
    var path := GoModPath(dstDir);
    match goMod
    case Unreadable => Err(GoModUnreadable(path))
    case Malformed => Err(GoModMalformed(path))
    case Parsed(text, None) => Err(NoModuleStatement(path))
    case Parsed(text, Some(oldModule)) =>
      var content := RewriteModuleLine(text, oldModule, NewModuleName(oldModule, moduleName));
      if path in env.ioFails then Err(GoModWriteFailed(path)) else Ok(WriteText(path, content))
  }

  /** The walk of a project clone run from `cwd`: import paths swap the
      directory names of the two projects. */
  function ProjectWalker(cwd: string, newPath: string, env: Env): Walker {
    Walker(ProjectRules(Paths.Base(cwd), Paths.Base(newPath)), cwd, newPath, env.ioFails)
  }

  /** The errors the clone returns before it creates anything. */
  predicate FailsEarly(e: CloneError) {
    e.EmptyName? || e.NoWorkingDir? || e.NotGoProject? || e.AlreadyExists? || e.MakeDirFailed?
  }

  function GitDir(dir: string): string {
    Paths.Join([dir, ".git"])
  }

  /** What follows the walk once the destination exists: a failed walk
      ends the clone, otherwise the go.mod is renamed and `<new>/.git`
      removed. Nothing already copied is removed on failure. */
  function FinishProject(newPath: string, env: Env, out: Outcome, dstGoMod: GoMod): (r: CloneOutcome)
    requires forall k :: 0 <= k < |out.ops| ==> !out.ops[k].RemoveAll?
    ensures |r.ops| > |out.ops| && r.ops[0] == MakeDir(newPath) && r.ops[1..|out.ops| + 1] == out.ops
    ensures out.failure.Some? ==> r == CloneOutcome([MakeDir(newPath)] + out.ops, Some(WalkFailed(out.failure.value)))
    ensures r.error.Some? ==> !FailsEarly(r.error.value)
    ensures r.error.Some? && r.error.value.WalkFailed? ==> out.failure == Some(r.error.value.cause) && |r.ops| == |out.ops| + 1
    ensures forall k :: 0 <= k < |r.ops| && r.ops[k].RemoveAll? ==>
      r.error.None? && k == |r.ops| - 1 && r.ops[k].path == GitDir(newPath)
    ensures r.error.None? ==>
      var n := |r.ops|;
      out.failure.None? && n == |out.ops| + 3
      && ModifyGoMod(newPath, Paths.Base(newPath), dstGoMod, env).Ok?
      && r.ops[n - 2] == ModifyGoMod(newPath, Paths.Base(newPath), dstGoMod, env).value
      && r.ops[n - 1] == RemoveAll(GitDir(newPath))
  {
    var copied := [MakeDir(newPath)] + out.ops;
    if out.failure.Some? then CloneOutcome(copied, Some(WalkFailed(out.failure.value)))
    else
      var tail := RenameAndClean(newPath, env, dstGoMod);
      CloneOutcome(copied + tail.ops, tail.error)
  }

  /** The steps after a complete copy: rename the module in the copied
      go.mod, then remove `<new>/.git`. */
  function RenameAndClean(newPath: string, env: Env, dstGoMod: GoMod): (r: CloneOutcome)
    ensures |r.ops| <= 2
    ensures r.error.None? ==>
      && ModifyGoMod(newPath, Paths.Base(newPath), dstGoMod, env).Ok?
      && r.ops == [ModifyGoMod(newPath, Paths.Base(newPath), dstGoMod, env).value, RemoveAll(GitDir(newPath))]
    ensures r.error.Some? ==> !FailsEarly(r.error.value) && !r.error.value.WalkFailed?
    ensures r.error.Some? ==> forall k :: 0 <= k < |r.ops| ==> !r.ops[k].RemoveAll?
  {
    match ModifyGoMod(newPath, Paths.Base(newPath), dstGoMod, env)
    case Err(e) => CloneOutcome([], Some(e))
    case Ok(op) =>
      var git := GitDir(newPath);
      if git in env.ioFails then CloneOutcome([op], Some(RemoveFailed(git)))
      else CloneOutcome([op, RemoveAll(git)], None)
  }

  /** The project clone. `entries` is the tree of the working directory in
      walk order and `dstGoMod` what reading the copied go.mod gives. A
      failure after the destination exists leaves the partial copy in
      place: the clone never deletes anything but `<new>/.git`. */
  function CloneProject(newPath: string, env: Env, entries: seq<Entry>, dstGoMod: GoMod): (r: CloneOutcome)
    ensures newPath == "" ==> r == CloneOutcome([], Some(EmptyName))
    ensures r.ops == [] <==> r.error.Some? && FailsEarly(r.error.value)
    ensures r.ops != [] ==> newPath !in env.existing && env.cwd.Some? && IsGoProject(env, env.cwd.value)
    ensures r.ops != [] ==> r == FinishProject(newPath, env, WalkSpec(ProjectWalker(env.cwd.value, newPath, env), entries), dstGoMod)
  {
    if newPath == "" then CloneOutcome([], Some(EmptyName))
    else if env.cwd.None? then CloneOutcome([], Some(NoWorkingDir))
    else
      var cwd := env.cwd.value;
      if !IsGoProject(env, cwd) then CloneOutcome([], Some(NotGoProject(cwd)))
      else if newPath in env.existing then CloneOutcome([], Some(AlreadyExists(newPath)))
      else if newPath in env.ioFails then CloneOutcome([], Some(MakeDirFailed(newPath)))
      else
        var w := ProjectWalker(cwd, newPath, env);
        WalkNeverRemoves(w, entries);
        FinishProject(newPath, env, WalkSpec(w, entries), dstGoMod)
  }

  /** A successful clone of a project whose go.mod starts with its module
      statement writes the go.mod back with the new module path in that
      statement and everything after it unchanged. */
  lemma CloneRenamesModule(newPath: string, env: Env, entries: seq<Entry>, oldModule: string, rest: string)
    ensures var r := CloneProject(newPath, env, entries, Parsed("module " + oldModule + rest, Some(oldModule)));
      r.error.None? ==> (|r.ops| >= 2
        && r.ops[|r.ops| - 2] == WriteText(GoModPath(newPath), "module " + NewModuleName(oldModule, Paths.Base(newPath)) + rest))
  {
    ModuleLineFirst(oldModule, rest, NewModuleName(oldModule, Paths.Base(newPath)));
  }
}
