/** The module generator: render every template of one table except the
    error-code one, register the table's router, and, when the analysis has
    an error-code template, render it into the project's shared code
    package and register its messages there. */
module GenModule {
  import opened Results
  import opened Strs
  import Paths
  import AppLayout
  import opened Codegen

  /** The generator's settings: package, table and a description. */
  datatype ModuleConfig = ModuleConfig(packageName: string, tableName: string, description: string)

  /** The templates rendered in the general step: all but the error-code
      ones, in order. */
  function NonCodeItems(items: seq<AnalysisItem>): (r: seq<AnalysisItem>)
    decreases |items|
    ensures |r| <= |items|
    ensures forall k :: 0 <= k < |r| ==> r[k].origin != CodeOrigin
  {
    if items == [] then []
    else
      var n := |items| - 1;
      var prev := NonCodeItems(items[..n]);
      if items[n].origin == CodeOrigin then prev else prev + [items[n]]
  }

  /** A template is rendered in the general step exactly when it is one of
      the analysis's templates and not an error-code one. */
  lemma {:induction false} NonCodeItemsMembers(items: seq<AnalysisItem>)
    decreases |items|
    ensures forall x :: x in NonCodeItems(items) <==> x in items && x.origin != CodeOrigin
  {
    if items != [] {
      var n := |items| - 1;
      NonCodeItemsMembers(items[..n]);
      assert items == items[..n] + [items[n]];
    }
  }

  /** The last error-code template, if any. */
  function LastCodeItem(items: seq<AnalysisItem>): (r: Option<AnalysisItem>)
    ensures r.None? <==> forall k :: 0 <= k < |items| ==> items[k].origin != CodeOrigin
    ensures r.Some? ==> exists k :: (0 <= k < |items| && items[k] == r.value && r.value.origin == CodeOrigin
      && forall j :: k < j < |items| ==> items[j].origin != CodeOrigin)
  {
    var i := LastIndexOf(items, CodeOrigin);
    if i == -1 then None else Some(items[i])
  }

  /** The split as the generator runs it: an error-code template is set
      aside (a later one replacing an earlier one) and every other template
      is kept in order. */
  method SplitCodeLayer(items: seq<AnalysisItem>) returns (general: seq<AnalysisItem>, code: Option<AnalysisItem>)
    ensures general == NonCodeItems(items)
    ensures code == LastCodeItem(items)
  {
    general, code := [], None;
    var i := 0;
    while i < |items|
      invariant 0 <= i <= |items|
      invariant general == NonCodeItems(items[..i])
      invariant code == LastCodeItem(items[..i])
    {
      SplitSnoc(items, i);
      if items[i].origin == CodeOrigin {
        code := Some(items[i]);
      } else {
        general := general + [items[i]];
      }
      i := i + 1;
    }
    assert items[..i] == items;
  }

  /** One more template in the split. */
  lemma SplitSnoc(items: seq<AnalysisItem>, i: nat)
    requires i < |items|
    ensures items[i].origin == CodeOrigin ==>
      NonCodeItems(items[..i + 1]) == NonCodeItems(items[..i]) && LastCodeItem(items[..i + 1]) == Some(items[i])
    ensures items[i].origin != CodeOrigin ==>
      NonCodeItems(items[..i + 1]) == NonCodeItems(items[..i]) + [items[i]]
      && LastCodeItem(items[..i + 1]) == LastCodeItem(items[..i])
  {
    var xs := items[..i + 1];
    assert xs[..i] == items[..i];
    assert xs[i] == items[i];
  }

  /** The module generator tells its templates only the project name, the
      app's path in the project and the app name. */
  function ModuleApp(app: AppLayout.AppInfo): AppParams {
    AppParams(app.projectName, app.appPathInProject, app.appName, "", "")
  }

  /** The values one template is rendered with: the struct name is used as
      the analysis reports it, with no table prefix removed. */
  function ModuleParams(cfg: ModuleConfig, app: AppLayout.AppInfo, a: Analysis, namer: Namer, item: AnalysisItem): (r: Params)
    ensures r.structName == a.structName && r.structNameLowerCamel == LowerFirst(a.structName)
    ensures r.template == item.template && r.fields == FieldsOf(ModuleMode, namer, item.columns)
    ensures r.modelLayerName == LastLayerName(a.items, ModelOrigin) && r.daoLayerName == LastLayerName(a.items, DaoOrigin)
    ensures r.app.projectRootPath == "" && r.app.modulePath == ""
    ensures r.app.projectName == app.projectName && r.app.appPathInProject == app.appPathInProject && r.app.appName == app.appName
    ensures r.packageName == a.packageName && r.tableName == a.tableName && r.description == cfg.description
  {
    Params(ModuleApp(app), a.packageName, a.tableName,
      LastLayerName(a.items, ModelOrigin), LastLayerName(a.items, DaoOrigin),
      cfg.description, a.structName, LowerFirst(a.structName), item.template,
      FieldsOf(ModuleMode, namer, item.columns))
  }

  /** The files of the general step, one per non-code template. */
  function ModuleItems(cfg: ModuleConfig, app: AppLayout.AppInfo, a: Analysis, namer: Namer): (r: seq<GenItem>)
    ensures |r| == |NonCodeItems(a.items)|
    ensures forall i :: 0 <= i < |r| ==>
      var item := NonCodeItems(a.items)[i];
      r[i] == GenItem(item.targetDir, item.targetFilename, item.template, ModuleParams(cfg, app, a, namer, item))
  {
    var general := NonCodeItems(a.items);
    seq(|general|, i requires 0 <= i < |general| =>
      GenItem(general[i].targetDir, general[i].targetFilename, general[i].template, ModuleParams(cfg, app, a, namer, general[i])))
  }

  /** The statement registering the table's router. */
  function RouterStatement(structName: string): string {
    LowerFirst(structName) + "Router(routerGroup)"
  }

  function RouterFile(workDir: string): string {
    Paths.Join([workDir, "/router/enter.go"])
  }

  const RouterFunc: string := "RegisterRouter"

  /** Where the error codes of the table go: the shared code package at the
      project root, in a file named after the configured package. */
  function CodeDir(projectRoot: string): string {
    Paths.Join([projectRoot, "pkg/code"])
  }

  function CodeFileName(cfg: ModuleConfig): string {
    cfg.packageName + ".go"
  }

  function CodeEnterFile(projectRoot: string): string {
    Paths.Join([projectRoot, "pkg/code/enter.go"])
  }

  const CodeFunc: string := "init"

  /** The statement registering the table's error messages. */
  function CodeRegistration(structName: string): string {
    "registerError(" + LowerFirst(structName) + "ErrorMsgMap)"
  }

  /** The steps of the error-code layer, when there is one: none without
      an error-code template; otherwise create `pkg/code` under the project
      root, render the last error-code template there into
      `<package>.go`, and register the table's messages in the `init` of
      `pkg/code/enter.go`. */
  function CodeSteps(cfg: ModuleConfig, app: AppLayout.AppInfo, a: Analysis, namer: Namer): (r: seq<Effect>)
    ensures r == [] <==> forall k :: 0 <= k < |a.items| ==> a.items[k].origin != CodeOrigin
    ensures r != [] ==> (|r| == 3 && r[0] == MakeDirAll(CodeDir(app.projectRootPath))
      && r[2] == AddToFunc(CodeEnterFile(app.projectRootPath), CodeFunc, CodeRegistration(a.structName)))
    ensures r != [] ==> LastCodeItem(a.items).Some? && r[1] == Generate([GenItem(CodeDir(app.projectRootPath),
      CodeFileName(cfg), LastCodeItem(a.items).value.template, ModuleParams(cfg, app, a, namer, LastCodeItem(a.items).value))])
  {
    match LastCodeItem(a.items)
    case None => []
    case Some(code) =>
      var root := app.projectRootPath;
      [MakeDirAll(CodeDir(root)),
       Generate([GenItem(CodeDir(root), CodeFileName(cfg), code.template, ModuleParams(cfg, app, a, namer, code))]),
       AddToFunc(CodeEnterFile(root), CodeFunc, CodeRegistration(a.structName))]
  }

  /** The plan of the module generator, in the order it runs: the general
      render, the router registration in `router/enter.go`, then the
      error-code steps. The plan goes on past the router exactly when there
      is an error-code template. */
  function ModulePlan(cfg: ModuleConfig, app: AppLayout.AppInfo, workDir: string, a: Analysis, namer: Namer): (r: seq<Effect>)
    ensures |r| >= 2
    ensures r[0] == Generate(ModuleItems(cfg, app, a, namer))
    ensures r[1] == AddToFunc(RouterFile(workDir), RouterFunc, RouterStatement(a.structName))
    ensures |r| == 2 <==> forall k :: 0 <= k < |a.items| ==> a.items[k].origin != CodeOrigin
    ensures r[2..] == CodeSteps(cfg, app, a, namer)
  {
    [Generate(ModuleItems(cfg, app, a, namer)), AddToFunc(RouterFile(workDir), RouterFunc, RouterStatement(a.structName))]
      + CodeSteps(cfg, app, a, namer)
  }

  /** The module generator: missing templates or a failed analysis fail
      before anything is done; otherwise the plan runs in order, the steps
      before the failing one are done, nothing after it is attempted, and
      the run succeeds exactly when no step of the plan fails. */
  function GenModule(cfg: ModuleConfig, app: AppLayout.AppInfo, workDir: string, templatesReady: bool,
                     analysis: Option<Analysis>, namer: Namer, failAt: nat): (r: GenRun)
    ensures !templatesReady ==> r == GenRun([], Some(TemplatesUnavailable))
    ensures templatesReady && analysis.None? ==> r == GenRun([], Some(AnalysisFailed))
    ensures templatesReady && analysis.Some? ==>
      var plan := ModulePlan(cfg, app, workDir, analysis.value, namer);
      && |r.done| <= |plan| && r.done == plan[..|r.done|]
      && (r.error.None? <==> failAt >= |plan|)
      && (r.error.Some? ==> |r.done| == failAt && r.error.value == StepFailed(plan[failAt]))
  {
    if !templatesReady then GenRun([], Some(TemplatesUnavailable))
    else if analysis.None? then GenRun([], Some(AnalysisFailed))
    else
      Perform(ModulePlan(cfg, app, workDir, analysis.value, namer), failAt)
  }

  /** The router is registered only once the general files are rendered:
      a done router step is always preceded by the general step. */
  lemma RouterAfterGeneration(cfg: ModuleConfig, app: AppLayout.AppInfo, workDir: string, a: Analysis, namer: Namer, failAt: nat)
    ensures var r := GenModule(cfg, app, workDir, true, Some(a), namer, failAt);
      forall k :: 0 <= k < |r.done| && r.done[k].AddToFunc? && r.done[k].funcName == RouterFunc ==>
        k == 1 && r.done[0] == Generate(ModuleItems(cfg, app, a, namer))
  {
    var plan := ModulePlan(cfg, app, workDir, a, namer);
    var steps := CodeSteps(cfg, app, a, namer);
    var r := GenModule(cfg, app, workDir, true, Some(a), namer, failAt);
    CodeStepsRegisterInit(cfg, app, a, namer);
    assert plan == plan[..2] + steps;
    assert r.done == plan[..|r.done|];
    assert plan[0].Generate?;
    RouterOnlySecond(plan[..2], steps, r.done);
  }

  /** The error-code steps register into `init` and nowhere else. */
  lemma CodeStepsRegisterInit(cfg: ModuleConfig, app: AppLayout.AppInfo, a: Analysis, namer: Namer)
    ensures var steps := CodeSteps(cfg, app, a, namer);
      forall k :: 0 <= k < |steps| && steps[k].AddToFunc? ==> steps[k].funcName == CodeFunc
  {
  }

  /** In a run of a plan whose first step is not a registration, whose
      second registers the router and whose later registrations all go to
      `init`, a done router registration is the second step. */
  lemma RouterOnlySecond(head: seq<Effect>, steps: seq<Effect>, done: seq<Effect>)
    requires |head| == 2 && !head[0].AddToFunc?
    requires forall k :: 0 <= k < |steps| && steps[k].AddToFunc? ==> steps[k].funcName == CodeFunc
    requires |done| <= |head + steps| && done == (head + steps)[..|done|]
    ensures forall k :: 0 <= k < |done| && done[k].AddToFunc? && done[k].funcName == RouterFunc ==> k == 1 && done[0] == head[0]
  {
    assert RouterFunc != CodeFunc;
    forall k | 0 <= k < |done| && done[k].AddToFunc? && done[k].funcName == RouterFunc
      ensures k == 1 && done[0] == head[0]
    {
      assert done[k] == (head + steps)[k];
    }
  }

  /** The plan registers error codes exactly when the analysis has an
      error-code template. */
  lemma CodeRegisteredIffCodeLayer(cfg: ModuleConfig, app: AppLayout.AppInfo, workDir: string, a: Analysis, namer: Namer)
    ensures var plan := ModulePlan(cfg, app, workDir, a, namer);
      (exists k :: 0 <= k < |plan| && plan[k].AddToFunc? && plan[k].funcName == CodeFunc)
        <==> exists k :: 0 <= k < |a.items| && a.items[k].origin == CodeOrigin
  {
    var plan := ModulePlan(cfg, app, workDir, a, namer);
    var steps := CodeSteps(cfg, app, a, namer);
    assert plan == plan[..2] + steps;
    assert plan[0].Generate?;
    InitRegisteredIffSteps(plan[..2], steps);
  }

  /** A plan made of a head without `init` registration and of error-code
      steps registers into `init` exactly when there are such steps. */
  lemma InitRegisteredIffSteps(head: seq<Effect>, steps: seq<Effect>)
    requires |head| == 2 && head[0].Generate? && head[1].AddToFunc? && head[1].funcName == RouterFunc
    requires steps == [] || (|steps| == 3 && steps[2].AddToFunc? && steps[2].funcName == CodeFunc)
    ensures (exists k :: 0 <= k < |head + steps| && (head + steps)[k].AddToFunc? && (head + steps)[k].funcName == CodeFunc)
      <==> steps != []
  {
    var plan := head + steps;
    if exists k :: 0 <= k < |plan| && plan[k].AddToFunc? && plan[k].funcName == CodeFunc {
      var k :| 0 <= k < |plan| && plan[k].AddToFunc? && plan[k].funcName == CodeFunc;
      assert RouterFunc != CodeFunc;
      assert k >= 2;
    }
    if steps != [] {
      assert plan[4] == steps[2];
    }
  }

  /** On a project rooted at a path of plain elements, the error codes go
      to `pkg/code` under that root. */
  lemma CodeDirUnderRoot(segs: seq<string>)
    requires |segs| >= 1
    requires forall i :: 0 <= i < |segs| ==> Paths.Plain(segs[i])
    ensures CodeDir(Paths.RootOf(segs)) == Paths.RootOf(segs) + "/pkg/code"
  {
    var sub := ["pkg", "code"];
    assert JoinSep(sub, '/') == "pkg/code" by {
      assert sub[1..] == ["code"];
      assert JoinSep(["code"], '/') == "code";
    }
    Paths.JoinRootedPlain(segs, sub);
    assert Paths.RootOf(segs) + ['/'] + "pkg/code" == Paths.RootOf(segs) + "/pkg/code";
  }

  /** The router registration of a `User` table. */
  lemma RouterRegistrationExample()
    ensures RouterStatement("User") == "userRouter(routerGroup)"
  {
    var lower := LowerFirst("User");
    assert lower == "user" by {
      assert lower[1..] == "ser";
    }
    assert RouterStatement("User") == lower + "Router(routerGroup)";
  }

  /** The error-code registration of a `User` table. */
  lemma CodeRegistrationExample()
    ensures CodeRegistration("User") == "registerError(userErrorMsgMap)"
  {
    var lower := LowerFirst("User");
    assert lower == "user" by {
      assert lower[1..] == "ser";
    }
    assert CodeRegistration("User") == "registerError(" + lower + "ErrorMsgMap)";
  }
}
