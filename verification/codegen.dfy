/** What the model and module generators share: the table analysis they
    are handed, the per-column field descriptors they build from it, the
    choice of layer names, and the way their generation and registration
    steps are carried out one after another until one fails. */
module Codegen {
  import opened Results
  import opened Strs

  const NullableDefaultDesc: string := "not null"
  const FieldDefaultKeyword: string := "default"
  const FieldCommentKeyword: string := "comment"

  /** The `COLUMN_KEY` value MySQL reports for a primary-key column. */
  const ColumnKeyPrimary: string := "PRI"

  /** One column of the analysed table. */
  datatype Column = Column(
    fieldName: string,
    columnName: string,
    fieldType: string,
    columnType: string,
    isNullable: bool,
    defaultValue: string,
    comment: string,
    columnKey: string)

  /** The layer a template belongs to before any renaming: the library's
      `model`, `dao` and `code` layers, and `OtherOrigin` for every other
      origin name (a name that is one of those three is the named case,
      never `OtherOrigin`). */
  datatype Origin = ModelOrigin | DaoOrigin | CodeOrigin | OtherOrigin(name: string)

  /** One template of the analysis: its layer, the (possibly renamed) layer
      name, where its output goes, and the columns it is rendered over.
      `template` stands for the parsed template. */
  datatype AnalysisItem = AnalysisItem(
    origin: Origin,
    layerName: string,
    targetDir: string,
    targetFilename: string,
    template: string,
    columns: seq<Column>)

  /** The result of analysing a table against a template directory. */
  datatype Analysis = Analysis(packageName: string, tableName: string, structName: string, items: seq<AnalysisItem>)

  /** The naming helpers the generators borrow from a utility library: the
      `Id`-to-`ID` rewrite, snake case to lower camel case, and the same
      with the `ID` rewrite applied. */
  datatype Namer = Namer(
    replaceIdToID: string -> string,
    snakeToLowerCamel: string -> string,
    snakeToLowerCamelWithID: string -> string)

  /** What a generator produces for a column. The model generator fills
      `jsonTagName` and `gormComment`; the module generator leaves them
      empty. */
  datatype ModelField = ModelField(
    isPrimaryKey: bool,
    fieldName: string,
    fieldLowerCaseName: string,
    jsonTagName: string,
    fieldType: string,
    columnName: string,
    columnType: string,
    nullableDesc: string,
    defaultValue: string,
    gormComment: string,
    comment: string)

  /** Which generator builds the fields. */
  datatype Mode = ModelMode | ModuleMode

  /** The nullability text of a gorm tag. */
  function NullableDesc(isNullable: bool): (r: string)
    ensures r == "" <==> isNullable
    ensures !isNullable ==> r == NullableDefaultDesc
  {
    if isNullable then "" else NullableDefaultDesc
  }

  /** The default-value text of a gorm tag: an empty default is written as
      two single quotes. */
  function DefaultText(v: string): (r: string)
    ensures HasPrefix(r, FieldDefaultKeyword + " ")
    ensures v != "" ==> r[|FieldDefaultKeyword| + 1..] == v
    ensures v == "" ==> r[|FieldDefaultKeyword| + 1..] == "''"
  {
    if v == "" then FieldDefaultKeyword + " ''" else FieldDefaultKeyword + " " + v
  }

  /** The comment text of a gorm tag: nothing for an empty comment. */
  function CommentText(c: string): (r: string)
    ensures r == "" <==> c == ""
    ensures c != "" ==> HasPrefix(r, FieldCommentKeyword + ": ") && r[|FieldCommentKeyword| + 2..] == c
  {
    if c == "" then "" else FieldCommentKeyword + ": " + c
  }

  /** Two defaults give the same text exactly when they are equal, or when
      one is empty and the other is literally two single quotes. */
  lemma DefaultTextInjective(a: string, b: string)
    ensures DefaultText(a) == DefaultText(b) <==> a == b || (a == "" && b == "''") || (a == "''" && b == "")
  {
    var n := |FieldDefaultKeyword| + 1;
    if DefaultText(a) == DefaultText(b) {
      assert DefaultText(a)[n..] == DefaultText(b)[n..];
    }
    if a == "" && b == "''" {
      assert DefaultText(a) == "default ''" == DefaultText(b);
    }
    if a == "''" && b == "" {
      assert DefaultText(a) == "default ''" == DefaultText(b);
    }
  }

  /** The comment text loses nothing: the comment can be read back. */
  lemma CommentTextInjective(a: string, b: string)
    ensures CommentText(a) == CommentText(b) <==> a == b
  {
    var n := |FieldCommentKeyword| + 2;
    if CommentText(a) == CommentText(b) && a != "" {
      assert CommentText(a)[n..] == CommentText(b)[n..];
    }
  }

  /** The descriptor of one column. */
  function FieldOf(mode: Mode, namer: Namer, col: Column): (r: ModelField)
    ensures r.isPrimaryKey <==> col.columnKey == ColumnKeyPrimary
    ensures r.fieldName == namer.replaceIdToID(col.fieldName) && r.fieldLowerCaseName == namer.snakeToLowerCamel(col.fieldName)
    ensures mode.ModelMode? ==> r.jsonTagName == namer.snakeToLowerCamelWithID(col.columnName)
    ensures r.columnName == col.columnName && r.columnType == col.columnType && r.fieldType == col.fieldType
    ensures r.nullableDesc == NullableDesc(col.isNullable) && r.defaultValue == DefaultText(col.defaultValue)
    ensures mode.ModelMode? ==> r.gormComment == CommentText(col.comment) && r.comment == col.comment
    ensures mode.ModuleMode? ==> r.gormComment == "" && r.jsonTagName == "" && r.comment == CommentText(col.comment)
  {
    ModelField(
      col.columnKey == ColumnKeyPrimary,
      namer.replaceIdToID(col.fieldName),
      namer.snakeToLowerCamel(col.fieldName),
      if mode.ModelMode? then namer.snakeToLowerCamelWithID(col.columnName) else "",
      col.fieldType,
      col.columnName,
      col.columnType,
      NullableDesc(col.isNullable),
      DefaultText(col.defaultValue),
      if mode.ModelMode? then CommentText(col.comment) else "",
      if mode.ModelMode? then col.comment else CommentText(col.comment))
  }

  /** One descriptor per column, in column order. */
  function FieldsOf(mode: Mode, namer: Namer, cols: seq<Column>): (r: seq<ModelField>)
    ensures |r| == |cols|
    ensures forall i :: 0 <= i < |cols| ==> r[i] == FieldOf(mode, namer, cols[i])
  {
    seq(|cols|, i requires 0 <= i < |cols| => FieldOf(mode, namer, cols[i]))
  }

  /** The descriptors of two column lists in a row. */
  lemma FieldsAppend(mode: Mode, namer: Namer, a: seq<Column>, b: seq<Column>)
    ensures FieldsOf(mode, namer, a + b) == FieldsOf(mode, namer, a) + FieldsOf(mode, namer, b)
  {
    var l, r := FieldsOf(mode, namer, a + b), FieldsOf(mode, namer, a) + FieldsOf(mode, namer, b);
    forall i | 0 <= i < |l|
      ensures l[i] == r[i]
    {
      if i < |a| {
        assert (a + b)[i] == a[i];
      } else {
        assert (a + b)[i] == b[i - |a|];
      }
    }
  }

  /** The position of the last item of the given origin, or -1 when there
      is none. */
  function LastIndexOf(items: seq<AnalysisItem>, origin: Origin): (r: int)
    decreases |items|
    ensures -1 <= r < |items|
    ensures r == -1 <==> forall k :: 0 <= k < |items| ==> items[k].origin != origin
    ensures r >= 0 ==> items[r].origin == origin && forall j :: r < j < |items| ==> items[j].origin != origin
  {
    if items == [] then -1
    else
      var n := |items| - 1;
      if items[n].origin == origin then n
      else
        var prev := items[..n];
        assert forall k :: 0 <= k < n ==> prev[k] == items[k];
        LastIndexOf(prev, origin)
  }

  /** The layer name of the last item of the given origin, or "" when
      there is none. */
  function LastLayerName(items: seq<AnalysisItem>, origin: Origin): (r: string)
    ensures (forall k :: 0 <= k < |items| ==> items[k].origin != origin) ==> r == ""
    ensures forall k :: 0 <= k < |items| && items[k].origin == origin ==>
      (forall j :: k < j < |items| ==> items[j].origin != origin) ==> r == items[k].layerName
  {
    var i := LastIndexOf(items, origin);
    if i == -1 then "" else items[i].layerName
  }

  /** The scan both generators run: every model item overwrites the model
      layer name and every dao item the dao layer name, so the last one of
      each wins. */
  method SelectLayerNames(items: seq<AnalysisItem>) returns (modelLayer: string, daoLayer: string)
    ensures modelLayer == LastLayerName(items, ModelOrigin)
    ensures daoLayer == LastLayerName(items, DaoOrigin)
  {
    modelLayer, daoLayer := "", "";
    var i := 0;
    while i < |items|
      invariant 0 <= i <= |items|
      invariant modelLayer == LastLayerName(items[..i], ModelOrigin)
      invariant daoLayer == LastLayerName(items[..i], DaoOrigin)
    {
      LastLayerNameSnoc(items, i, ModelOrigin);
      LastLayerNameSnoc(items, i, DaoOrigin);
      if items[i].origin == ModelOrigin {
        modelLayer := items[i].layerName;
      }
      if items[i].origin == DaoOrigin {
        daoLayer := items[i].layerName;
      }
      i := i + 1;
    }
    assert items[..i] == items;
  }

  /** One more item in the scan: an item of the origin takes over, any
      other item leaves the layer name as it was. */
  lemma LastLayerNameSnoc(items: seq<AnalysisItem>, i: nat, origin: Origin)
    requires i < |items|
    ensures LastLayerName(items[..i + 1], origin)
         == if items[i].origin == origin then items[i].layerName else LastLayerName(items[..i], origin)
  {
    var xs := items[..i + 1];
    assert xs[..i] == items[..i];
    assert LastIndexOf(xs, origin) == if items[i].origin == origin then i else LastIndexOf(items[..i], origin);
  }

  /** The application identity a generated file is told about. */
  datatype AppParams = AppParams(
    projectName: string,
    appPathInProject: string,
    appName: string,
    projectRootPath: string,
    modulePath: string)

  /** The values a template is rendered with. The model generator passes
      the whole application identity; the module generator passes the
      first three parts of it and the lower-camel struct name. */
  datatype Params = Params(
    app: AppParams,
    packageName: string,
    tableName: string,
    modelLayerName: string,
    daoLayerName: string,
    description: string,
    structName: string,
    structNameLowerCamel: string,
    template: string,
    fields: seq<ModelField>)

  /** One file to render. */
  datatype GenItem = GenItem(targetDir: string, targetFileName: string, template: string, params: Params)

  /** One step of a generator run: render files, create a directory, or
      add a statement to the body of a named function in a Go file. */
  datatype Effect =
    | Generate(items: seq<GenItem>)
    | MakeDirAll(path: string)
    | AddToFunc(file: string, funcName: string, stmt: string)

  datatype GenError =
    | TemplatesUnavailable
    | AnalysisFailed
    | StepFailed(effect: Effect)

  /** The steps carried out and the error returned. */
  datatype GenRun = GenRun(done: seq<Effect>, error: Option<GenError>)

  /** Carrying out a plan whose step `failAt` fails (no step fails when
      `failAt` is past the end): the steps before the failing one are done
      in plan order, the failing step is reported, and nothing after it is
      attempted. */
  function Perform(plan: seq<Effect>, failAt: nat): (r: GenRun)
    ensures |r.done| <= |plan| && r.done == plan[..|r.done|]
    ensures r.error.None? <==> failAt >= |plan|
    ensures r.error.None? ==> r.done == plan
    ensures r.error.Some? ==> |r.done| == failAt && r.error.value == StepFailed(plan[failAt])
  {
    if failAt >= |plan| then GenRun(plan, None) else GenRun(plan[..failAt], Some(StepFailed(plan[failAt])))
  }
}
