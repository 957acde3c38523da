/** The model generator: render the model-layer templates of one table,
    with the struct name and the file names stripped of the configured
    table prefix. */
module GenModel {
  import opened Results
  import opened Strs
  import Paths
  import Naming
  import AppLayout
  import opened Codegen

  /** The generator's settings: package, table, the table prefix to strip
      ("" for none) and a description. */
  datatype ModelConfig = ModelConfig(packageName: string, tableName: string, tablePrefix: string, description: string)

  /** The struct name the files are rendered with. */
  function ModelStructName(cfg: ModelConfig, a: Analysis): (r: string)
    ensures cfg.tablePrefix == "" ==> r == a.structName
    ensures cfg.tablePrefix != "" ==> r == Naming.RemoveTablePrefixFromStructName(a.structName, a.tableName, cfg.tablePrefix)
    ensures a.structName != "" ==> r != ""
  {
    if cfg.tablePrefix != "" then Naming.RemoveTablePrefixFromStructName(a.structName, a.tableName, cfg.tablePrefix)
    else a.structName
  }

  /** The file name an item is written to. */
  function ModelFileName(cfg: ModelConfig, a: Analysis, item: AnalysisItem): (r: string)
    ensures cfg.tablePrefix == "" ==> r == item.targetFilename
    ensures cfg.tablePrefix != "" ==> r == Naming.RemoveTablePrefixFromFilename(item.targetFilename, a.tableName, cfg.tablePrefix)
    ensures Paths.Ext(r) == Paths.Ext(item.targetFilename)
  {
    if cfg.tablePrefix != "" then Naming.RemoveTablePrefixFromFilename(item.targetFilename, a.tableName, cfg.tablePrefix)
    else item.targetFilename
  }

  /** The model generator hands its templates the whole application
      identity. */
  function ModelApp(app: AppLayout.AppInfo): AppParams {
    AppParams(app.projectName, app.appPathInProject, app.appName, app.projectRootPath, app.modulePath)
  }

  function ModelItem(cfg: ModelConfig, app: AppLayout.AppInfo, a: Analysis, namer: Namer, item: AnalysisItem): GenItem {
    GenItem(item.targetDir, ModelFileName(cfg, a, item), item.template,
      Params(ModelApp(app), a.packageName, a.tableName,
        LastLayerName(a.items, ModelOrigin), LastLayerName(a.items, DaoOrigin),
        cfg.description, ModelStructName(cfg, a), "", item.template,
        FieldsOf(ModelMode, namer, item.columns)))
  }

  /** One file per analysed template, in order; every file gets the same
      struct, table and layer names. */
  function ModelItems(cfg: ModelConfig, app: AppLayout.AppInfo, a: Analysis, namer: Namer): (r: seq<GenItem>)
    ensures |r| == |a.items|
    ensures forall i :: 0 <= i < |r| ==>
      r[i].targetDir == a.items[i].targetDir && r[i].template == a.items[i].template
      && r[i].targetFileName == ModelFileName(cfg, a, a.items[i])
      && r[i].params.fields == FieldsOf(ModelMode, namer, a.items[i].columns)
      && r[i].params.structName == ModelStructName(cfg, a)
      && r[i].params.tableName == a.tableName
      && r[i].params.modelLayerName == LastLayerName(a.items, ModelOrigin)
      && r[i].params.daoLayerName == LastLayerName(a.items, DaoOrigin)
  {
    seq(|a.items|, i requires 0 <= i < |a.items| => ModelItem(cfg, app, a, namer, a.items[i]))
  }

  /** The model generator: templates, analysis, then one rendering step. */
  function GenModel(cfg: ModelConfig, app: AppLayout.AppInfo, templatesReady: bool, analysis: Option<Analysis>, namer: Namer, failAt: nat): (r: GenRun)
    ensures !templatesReady ==> r == GenRun([], Some(TemplatesUnavailable))
    ensures templatesReady && analysis.None? ==> r == GenRun([], Some(AnalysisFailed))
    ensures templatesReady && analysis.Some? ==>
      var plan := [Generate(ModelItems(cfg, app, analysis.value, namer))];
      (r.error.None? <==> r.done == plan) && (r.error.Some? ==> r.done == [] && r.error == Some(StepFailed(plan[0])))
  {
    if !templatesReady then GenRun([], Some(TemplatesUnavailable))
    else if analysis.None? then GenRun([], Some(AnalysisFailed))
    else Perform([Generate(ModelItems(cfg, app, analysis.value, namer))], failAt)
  }

  /** Stripping keeps every file's extension. */
  lemma ModelItemsKeepExtensions(cfg: ModelConfig, app: AppLayout.AppInfo, a: Analysis, namer: Namer)
    ensures var items := ModelItems(cfg, app, a, namer);
      forall i :: 0 <= i < |items| ==> Paths.Ext(items[i].targetFileName) == Paths.Ext(a.items[i].targetFilename)
  {
    var items := ModelItems(cfg, app, a, namer);
    forall i | 0 <= i < |items|
      ensures Paths.Ext(items[i].targetFileName) == Paths.Ext(a.items[i].targetFilename)
    {
      assert items[i].targetFileName == ModelFileName(cfg, a, a.items[i]);
    }
  }

  /** The example of the Go doc comments of the two strip functions
      (`cmd/generate/util.go:57`, `:105`): table `iam_users` with prefix
      `iam_` renders a `Users` struct into `user.go`. */
  lemma ModelStripExample(app: AppLayout.AppInfo, namer: Namer, item: AnalysisItem)
    requires item.targetFilename == "iam_user.go"
    ensures var cfg := ModelConfig("user", "iam_users", "iam_", "");
      var a := Analysis("user", "iam_users", "IamUsers", [item]);
      var items := ModelItems(cfg, app, a, namer);
      items[0].params.structName == "Users" && items[0].targetFileName == "user.go"
  {
    Naming.StripStructExamples();
    Naming.StripFilenameExample();
  }
}
