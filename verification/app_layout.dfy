/** Where an application lives inside a project: the generator is run from
    `<project root>/apps/<app name>`, and everything it writes is placed
    relative to the root found from that directory. The module path comes
    from the first `module` line of the root's go.mod. */
module AppLayout {
  import opened Results
  import opened Strs
  import Paths

  datatype AppInfo = AppInfo(
    appPathInProject: string,
    projectName: string,
    appName: string,
    projectRootPath: string,
    modulePath: string)

  datatype LayoutError =
    | NoAppsDirectory
    | AppsWithoutParent
    | GoModUnreadable(path: string)
    | NoModuleDeclaration

  /** The first index `i` with `i + 1 < |segs|` (an element follows) where
      the element is "apps", or -1. */
  function FirstAppsFrom(segs: seq<string>, from: nat): (r: int)
    decreases |segs| - from
    ensures r == -1 || (from <= r && r + 1 < |segs| && segs[r] == "apps")
    ensures r >= 0 ==> forall j :: from <= j < r ==> segs[j] != "apps"
    ensures r == -1 ==> forall j :: from <= j < |segs| - 1 ==> segs[j] != "apps"
  {
    if from + 1 >= |segs| then -1
    else if segs[from] == "apps" then from
    else FirstAppsFrom(segs, from + 1)
  }

  function FirstAppsIndex(segs: seq<string>): (r: int)
    ensures r == -1 || (0 <= r && r + 1 < |segs| && segs[r] == "apps")
    ensures r >= 0 ==> forall j :: 0 <= j < r ==> segs[j] != "apps"
    ensures r == -1 ==> forall j :: 0 <= j < |segs| - 1 ==> segs[j] != "apps"
  {
    FirstAppsFrom(segs, 0)
  }

  /** A go.mod line that declares the module, after surrounding white space
      is removed. */
  predicate IsModuleLine(line: string) {
    HasPrefix(TrimSpace(line), "module ")
  }

  /** The index of the first module line of `lines`, at or after `from`. */
  function FirstModuleLineFrom(lines: seq<string>, from: nat): (r: int)
    decreases |lines| - from
    ensures r == -1 || (from <= r < |lines| && IsModuleLine(lines[r]))
    ensures r >= 0 ==> forall j :: from <= j < r ==> !IsModuleLine(lines[j])
    ensures r == -1 ==> forall j :: from <= j < |lines| ==> !IsModuleLine(lines[j])
  {
    if from >= |lines| then -1
    else if IsModuleLine(lines[from]) then from
    else FirstModuleLineFrom(lines, from + 1)
  }

  /** The module path a go.mod declares: the text after "module " on its
      first module line, white space trimmed; `NoModuleDeclaration` when no
      line declares one. */
  function ModulePathFromLines(lines: seq<string>): (r: Result<string, LayoutError>)
    ensures (exists i :: 0 <= i < |lines| && IsModuleLine(lines[i])) ==> r.Ok?
    ensures r.Err? ==> r.error == NoModuleDeclaration
    ensures r.Ok? ==> exists i :: (0 <= i < |lines| && IsModuleLine(lines[i])
      && (forall j :: 0 <= j < i ==> !IsModuleLine(lines[j]))
      && r.value == TrimSpace(TrimPrefix(TrimSpace(lines[i]), "module ")))
  {
    var i := FirstModuleLineFrom(lines, 0);
    if i == -1 then Err(NoModuleDeclaration)
    else Ok(TrimSpace(TrimPrefix(TrimSpace(lines[i]), "module ")))
  }

  /** The go.mod path of a project root. */
  function GoModPath(projectRootPath: string): string {
    Paths.Join([projectRootPath, "go.mod"])
  }

  /** The module path of the project at `projectRootPath`; `goMods` maps
      each readable go.mod path to its lines. */
  function ModulePath(goMods: map<string, seq<string>>, projectRootPath: string): Result<string, LayoutError>
  {
    var p := GoModPath(projectRootPath);
    if p !in goMods then Err(GoModUnreadable(p)) else ModulePathFromLines(goMods[p])
  }

  /** The layout read off a working directory: the first "apps" element
      that has an element after it names the application directory; the
      element before it is the project name and everything before it the
      project root, taken as rooted. */
  function GetAppInfo(workDir: string, goMods: map<string, seq<string>>): (r: Result<AppInfo, LayoutError>)
    ensures var segs := Split(Paths.Clean(workDir), '/');
      r == Err(NoAppsDirectory) <==> forall j :: 0 <= j < |segs| - 1 ==> segs[j] != "apps"
    ensures var segs := Split(Paths.Clean(workDir), '/');
      r == Err(AppsWithoutParent) <==> |segs| >= 2 && segs[0] == "apps"
    ensures var segs := Split(Paths.Clean(workDir), '/');
      r.Ok? ==> var k := FirstAppsIndex(segs);
        && 1 <= k && r.value.appName == segs[k + 1] && r.value.projectName == segs[k - 1]
        && r.value.appPathInProject == AppPath(r.value.appName)
        && r.value.projectRootPath != [] && r.value.projectRootPath[0] == '/'
  {
    var segs := Split(Paths.Clean(workDir), '/');
    LayoutErrors(segs, goMods);
    LayoutOf(segs, goMods)
  }

  /** Where an application sits inside its project. */
  function AppPath(app: string): string {
    Paths.Join(["apps", app])
  }

  /** The layout read off the elements of a cleaned working directory. */
  function LayoutOf(segs: seq<string>, goMods: map<string, seq<string>>): Result<AppInfo, LayoutError>
  {
    var k := FirstAppsIndex(segs);
    if k == -1 then Err(NoAppsDirectory)
    else if k < 1 then Err(AppsWithoutParent)
    else LayoutAt(segs, k, goMods)
  }

  /** The layout once the first "apps" element is known to be at `k`. */
  function LayoutAt(segs: seq<string>, k: int, goMods: map<string, seq<string>>): Result<AppInfo, LayoutError>
    requires 1 <= k && k + 1 < |segs|
  {
    var root := ProjectRoot(segs[..k]);
    match ModulePath(goMods, root)
    case Err(e) => Err(e)
    case Ok(mp) => Ok(AppInfo(AppPath(segs[k + 1]), segs[k - 1], segs[k + 1], root, mp))
  }

  /** The two layout errors: no "apps" element with an element after it,
      or "apps" as the very first element, so that no project name
      precedes it. */
  lemma LayoutErrors(segs: seq<string>, goMods: map<string, seq<string>>)
    ensures (forall j :: 0 <= j < |segs| - 1 ==> segs[j] != "apps") <==> LayoutOf(segs, goMods) == Err(NoAppsDirectory)
    ensures |segs| >= 2 && segs[0] == "apps" <==> LayoutOf(segs, goMods) == Err(AppsWithoutParent)
  {
    var k := FirstAppsIndex(segs);
    if k >= 0 {
      assert segs[k] == "apps";
    }
  }

  /** The rooted path of the elements before "apps". */
  function ProjectRoot(before: seq<string>): (r: string)
    ensures r != [] && r[0] == '/'
  {
    var joined := Paths.Join(before);
    if joined == "" then "/" else "/" + joined
  }

  /** Reading the layout back from `<root>/apps/<app>`, for a rooted
      project root of plain elements none of which is "apps", recovers the
      application name, the project root, its last element as the project
      name, and `apps/<app>` as the path inside the project; it fails only
      on go.mod. */
  lemma AppInfoRoundTrip(rootSegs: seq<string>, app: string, goMods: map<string, seq<string>>)
    requires |rootSegs| >= 1
    requires forall i :: 0 <= i < |rootSegs| ==> Paths.Plain(rootSegs[i]) && rootSegs[i] != "apps"
    requires Paths.Plain(app)
    ensures
      var r := GetAppInfo(Paths.RootOf(rootSegs + ["apps", app]), goMods);
      && (r.Err? ==> r.error == GoModUnreadable(GoModPath(Paths.RootOf(rootSegs))) || r.error == NoModuleDeclaration)
      && (r.Ok? ==>
        && r.value.appName == app
        && r.value.projectRootPath == Paths.RootOf(rootSegs)
        && r.value.projectName == rootSegs[|rootSegs| - 1]
        && r.value.projectName == Paths.Base(r.value.projectRootPath)
        && r.value.appPathInProject == "apps/" + app)
      && (r.Ok? <==> ModulePath(goMods, Paths.RootOf(rootSegs)).Ok?)
  {
    var all := rootSegs + ["apps", app];
    assert Paths.Plain("apps");
    Paths.PlainAppend(rootSegs, ["apps", app]);
    SplitRooted(all);
    LayoutRoundTrip(rootSegs, app, goMods);
  }

  /** The same reading, on the elements of `<root>/apps/<app>`. */
  lemma LayoutRoundTrip(rootSegs: seq<string>, app: string, goMods: map<string, seq<string>>)
    requires |rootSegs| >= 1
    requires forall i :: 0 <= i < |rootSegs| ==> Paths.Plain(rootSegs[i]) && rootSegs[i] != "apps"
    requires Paths.Plain(app)
    ensures
      var r := LayoutOf([""] + (rootSegs + ["apps", app]), goMods);
      && (r.Err? ==> r.error == GoModUnreadable(GoModPath(Paths.RootOf(rootSegs))) || r.error == NoModuleDeclaration)
      && (r.Ok? ==>
        && r.value.appName == app
        && r.value.projectRootPath == Paths.RootOf(rootSegs)
        && r.value.projectName == rootSegs[|rootSegs| - 1]
        && r.value.projectName == Paths.Base(r.value.projectRootPath)
        && r.value.appPathInProject == "apps/" + app)
      && (r.Ok? <==> ModulePath(goMods, Paths.RootOf(rootSegs)).Ok?)
  {
    var segs := [""] + (rootSegs + ["apps", app]);
    var k := 1 + |rootSegs|;
    var root := Paths.RootOf(rootSegs);
    assert FirstAppsIndex(segs) == k by {
      assert segs[k] == "apps" && k + 1 < |segs|;
      assert forall j :: 0 <= j < k ==> segs[j] != "apps";
    }
    assert segs[k - 1] == rootSegs[|rootSegs| - 1] && segs[k + 1] == app;
    assert ProjectRoot(segs[..k]) == root by {
      assert segs[..k] == [""] + rootSegs;
      assert ([""] + rootSegs)[1..] == rootSegs;
      Paths.JoinPlain(rootSegs);
      Paths.JoinPlainShape(rootSegs);
    }
    LayoutFound(segs, goMods, k);
    Paths.BasePlain(rootSegs);
    AppPathPlain(app);
  }

  /** A plain application name sits at `apps/<app>`. */
  lemma AppPathPlain(app: string)
    requires Paths.Plain(app)
    ensures AppPath(app) == "apps/" + app
  {
    assert Paths.Plain("apps");
    Paths.JoinTwoPlain("apps", app);
    SeqAssoc("apps", "/", app);
  }

  /** The layout once the first "apps" element is found at `k`. */
  lemma LayoutFound(segs: seq<string>, goMods: map<string, seq<string>>, k: int)
    requires FirstAppsIndex(segs) == k && 1 <= k && k + 1 < |segs|
    ensures
      var r := LayoutOf(segs, goMods);
      var m := ModulePath(goMods, ProjectRoot(segs[..k]));
      && (r.Ok? <==> m.Ok?)
      && (r.Err? ==> r.error == m.error)
      && (r.Ok? ==> r.value.appName == segs[k + 1] && r.value.projectName == segs[k - 1])
      && (r.Ok? ==> r.value.projectRootPath == ProjectRoot(segs[..k]))
      && (r.Ok? ==> r.value.appPathInProject == AppPath(segs[k + 1]))
  {
    assert LayoutOf(segs, goMods) == LayoutAt(segs, k, goMods);
  }

  /** A rooted path of plain elements cleans to itself and splits into an
      empty element followed by those elements. */
  lemma SplitRooted(all: seq<string>)
    requires |all| >= 1
    requires forall i :: 0 <= i < |all| ==> Paths.Plain(all[i])
    ensures Split(Paths.Clean(Paths.RootOf(all)), '/') == [""] + all
  {
    Paths.CleanRootedPlain(all);
    SplitLeadingSep('/', JoinSep(all, '/'));
    Paths.PlainNoSep(all);
    SplitJoin(all, '/');
  }

  /** A directory right under the file-system root has an empty project
      name: the empty element before the first '/' counts as the parent,
      and the project root is the file-system root itself. */
  lemma AppsUnderFileSystemRoot(app: string, goMods: map<string, seq<string>>)
    requires Paths.Plain(app)
    ensures
      var r := GetAppInfo(Paths.RootOf(["apps", app]), goMods);
      && (r.Ok? <==> ModulePath(goMods, "/").Ok?)
      && (r.Ok? ==> r.value == AppInfo("apps/" + app, "", app, "/", ModulePath(goMods, "/").value))
  {
    var all := ["apps", app];
    assert Paths.Plain("apps");
    SplitRooted(all);
    var segs := [""] + all;
    assert segs[0] == "" && segs[1] == "apps" && segs[2] == app && |segs| == 3;
    assert FirstAppsIndex(segs) == 1;
    assert ProjectRoot(segs[..1]) == "/" by {
      assert segs[..1] == [""];
      assert Paths.Join([""]) == "";
    }
    AppPathPlain(app);
    assert GetAppInfo(Paths.RootOf(all), goMods) == LayoutOf(segs, goMods);
  }

  lemma ModuleLineExample()
    ensures ModulePathFromLines(["module demo"]) == Ok("demo")
  {
    NoSpaceTrim("module demo");
    assert TrimPrefix("module demo", "module ") == "demo";
    NoSpaceTrim("demo");
  }

  /** Text with no white space at either end is its own trim. */
  lemma NoSpaceTrim(s: string)
    requires s != [] && !IsSpace(s[0]) && !IsSpace(s[|s| - 1])
    ensures TrimSpace(s) == s
  {
  }
}
