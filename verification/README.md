# gocli core in Dafny

This project models the deterministic core of `gocli`, a Go command-line tool with two halves:

- **cutter** clones projects and apps. It either clones a whole Go project under a new name, or clones one app inside an `apps/` directory to a sibling app. While copying it:
  - rewrites Go import paths, Go package names and YAML text;
  - skips paths the built-in ignore list matches;
  - renames the module in the copied `go.mod`.
- **generate** renders code templates for a database table. It:
  - derives the application's identity from the working directory and the project's `go.mod`;
  - builds one field descriptor per column;
  - strips a configured table prefix from struct and file names;
  - registers the generated router and error codes in existing Go files.

Strings are `seq<char>`, and the character is the unit of indexing. Paths use '/' as the separator.

The file system, the Go parser and printer, the template engine and the database are not modelled. Their results are inputs to the model:

- a directory tree is the list of its entries in walk order, each with the Go parse result for `.go` files;
- an `Env` holds the working directory, the set of paths that exist, and the destination paths whose creation or writing fails;
- a `GoMod` is what reading and parsing a go.mod yields;
- the analysed table is a plain `Analysis` value;
- a generator step that fails is named by its index (`failAt`).

Modules, by file:

| file | module | models |
|---|---|---|
| results.dfy | Results | `Option` and `Result` |
| strs.dfy | Strs | the parts of Go's `strings` package the tool uses |
| paths.dfy | Paths | `filepath.Clean`, `Join`, `Base` and `Ext` |
| naming.dfy | Naming | template helpers and table-prefix removal (`cmd/generate/util.go`) |
| app_layout.dfy | AppLayout | `GetAppInfo` and the go.mod module-line scan (`cmd/generate/util.go`) |
| ignore.dfy | Ignore | `defaultIgnores` and `shouldIgnore` (`cmd/cutter/util.go`) |
| gosource.dfy | GoSource | a Go file as package name, import specs and the rest |
| gorewrite.dfy | GoRewrite | the import, package and text rewrites of `project.go` and `app.go` |
| tree_walk.dfy | TreeWalk | the `filepath.Walk` callbacks of both clones |
| cutter_env.dfy | CutterEnv | environment, errors and outcome of a clone |
| project.dfy | ProjectClone | `cloneProject`, `copyAndReplaceProject`, `modifyGoMod`, `removeGitDir` |
| app.dfy | AppClone | `cloneApp` and `copyAndReplaceApp` |
| codegen.dfy | Codegen | field descriptors, layer-name selection, sequential steps |
| gen_model.dfy | GenModel | `genModel` |
| gen_module.dfy | GenModule | `genModule` |

`IsBuiltInField`, `IsDefaultModelLayer` and `IsDefaultDaoLayer` are one-line predicates in `Naming`. Each definition is the membership or equality test of the source, so each is its own specification.

Points where the code's behaviour is easy to misread:

- A failed project clone leaves the partial copy in place. Only the app clone removes its new directory after a failure (`ProjectClone.FinishProject`, `AppClone.FinishApp`).
- Import rewriting replaces substrings, not path elements. `GoRewrite.ProjectImportByElement` states when the two agree.
- `.env.*.local` is matched literally; its `*` is not a wildcard (`Ignore.EnvLocalNotIgnored`).
- A working directory directly under the file-system root, such as `/apps/x`, passes the "apps needs a parent" check. Its project name is then empty (`AppLayout.AppsUnderFileSystemRoot`).

## Model

| member | source | states |
|---|---|---|
| Naming.IsSysField | cmd/generate/util.go:23-46 | a name is a system field exactly when it is a built-in field or one of CreatedBy, UpdatedBy, DeletedBy; so every built-in field is a system field |
| Naming.RemoveTablePrefixFromStructName | cmd/generate/util.go:63-102 | an empty prefix, a table without the prefix, or the prefix `_` (empty once its trailing `_` is trimmed) leaves the name unchanged; a non-empty name never becomes empty; a changed name is the rest after the prefix's PascalCase form, first letter upper-cased; and conversely, for a table with the prefix, a name that starts with that PascalCase form and goes on past it is always stripped |
| Naming.PrefixStructNameIam | cmd/generate/util.go:72-87 | the PascalCase form of `iam_` is `Iam` |
| Naming.StructPrefixRoundTrip | cmd/generate/util.go:88-98 | stripping undoes prefixing: the prefix's PascalCase form followed by a capitalised rest strips to that rest |
| Naming.StripStructExamples | cmd/generate/util.go:56-69 | `IamUsers` of table `iam_users` with prefix `iam_` becomes `Users`; a table without the prefix keeps its struct name |
| Naming.RemoveTablePrefixFromFilename | cmd/generate/util.go:111-141 | the extension is always kept; no prefix, a table without it, or the prefix `_` changes nothing; a changed name is the original with `<prefix without trailing _>_` removed from the front, and something of the stem remains; and conversely, for a table with the prefix, a stem that starts with `<prefix without trailing _>_` and goes on past it is always stripped |
| Naming.FilenamePrefixRoundTrip | cmd/generate/util.go:117-137 | `<prefix without _>_<stem><ext>` strips to `<stem><ext>` |
| Naming.StripFilenameExample | cmd/generate/util.go:104-110 | `iam_user.go` of table `iam_users` with prefix `iam_` becomes `user.go` |
| Naming.StripStructMidWord | cmd/generate/util.go:88-98 | the struct form of the prefix need not end at a word boundary: prefix `ia` turns `IamUsers` into `MUsers` |
| Naming.StripFilenameNoExt | cmd/generate/util.go:117-137 | a file name without an extension is stripped too: `iam_user` becomes `user` |
| AppLayout.FirstAppsIndex | cmd/generate/util.go:193-199 | the index found holds "apps", has an element after it and no "apps" before it; -1 means no element before the last is "apps" |
| AppLayout.LayoutErrors | cmd/generate/util.go:200-207 | "no apps directory" exactly when no element before the last is "apps"; "apps without a parent" exactly when the first of at least two elements is "apps" |
| AppLayout.GetAppInfo | cmd/generate/util.go:188-242 | on the elements of the cleaned working directory: "no apps directory" exactly when no element before the last is "apps", "apps without a parent" exactly when the first of at least two elements is "apps"; a found layout names the element after the first such "apps" as the app and the one before it as the project, puts the app at `apps/<app>`, and has a rooted project root |
| AppLayout.LayoutFound | cmd/generate/util.go:209-241 | once the first "apps" is at k >= 1: the app name is the element after it, the project name the one before it, the project root the rooted join of the elements before it, the app path `apps/<app>`; it fails exactly when the module lookup fails, with that error |
| AppLayout.ProjectRoot | cmd/generate/util.go:222-227 | the project root is always a rooted path |
| AppLayout.AppPathPlain | cmd/generate/util.go:218 | a plain app name sits at `apps/<app>` |
| AppLayout.AppInfoRoundTrip | cmd/generate/util.go:188-242 | reading the layout back from `<root>/apps/<app>` recovers the app name, the root, the root's last element as project name (its Base), and `apps/<app>`; it fails only on go.mod, and then exactly when the module lookup fails |
| AppLayout.AppsUnderFileSystemRoot | cmd/generate/util.go:204-227 | `/apps/<app>` is accepted with an empty project name and `/` as the project root |
| AppLayout.FirstModuleLineFrom | cmd/generate/util.go:255-263 | the index found is the first line at or after the start whose trimmed text starts with `module `; -1 when there is none |
| AppLayout.ModulePathFromLines | cmd/generate/util.go:254-269 | succeeds exactly when some line declares a module, with the trimmed rest of the first such line; otherwise the "module declaration not found" error |
| AppLayout.ModuleLineExample | cmd/generate/util.go:256-261 | the lines `["module demo"]` give the module path `demo` |
| Ignore.ShouldIgnore | cmd/cutter/util.go:39-59 | the nested scan returns true exactly when some '/'-separated element matches some default pattern |
| Ignore.PartIgnored | cmd/cutter/util.go:44-56 | one element is matched exactly when it equals a pattern or ends in the `.ext` of a `*.ext` pattern |
| Ignore.IgnoredJoin | cmd/cutter/util.go:41-58 | `a/b` is ignored exactly when `a` or `b` is |
| Ignore.IgnoredBelow | cmd/cutter/util.go:43-57 | once a path is ignored, everything below it is |
| Ignore.IgnoredElement | cmd/cutter/util.go:43-58 | a single element is ignored exactly when it matches a pattern |
| Ignore.LogFileIgnored | cmd/cutter/util.go:50-55 | `a/b/c.log` is ignored |
| Ignore.VendorIgnored | cmd/cutter/util.go:43-48 | `vendor/x/y.go` is ignored |
| Ignore.EnvLocalNotIgnored | cmd/cutter/util.go:44-55 | `.env.prod.local` is not ignored |
| GoSource.ImportPathQuote | cmd/cutter/project.go:112-115 | reading back a written import literal gives the path written, for a path that neither starts nor ends with a quote |
| GoRewrite.RewriteProjectImport | cmd/cutter/project.go:110-116 | an import whose path lacks the old name is untouched; otherwise its literal is the quoted path with every occurrence replaced; the local name is kept |
| GoRewrite.RewriteProjectImports | cmd/cutter/project.go:109-119 | every import spec is rewritten on its own, in order, none added or lost |
| GoRewrite.RewriteProjectFile | cmd/cutter/project.go:101-119 | package name and the rest of the file are kept; imports without the old name are kept |
| GoRewrite.ProjectImportIsReplaceAll | cmd/cutter/project.go:113-114 | the Contains guard changes nothing for a non-empty name |
| GoRewrite.ProjectImportByElement | cmd/cutter/project.go:112-115 | on paths whose elements are the old name or do not contain it, the rewrite swaps exactly the elements equal to the old name, and none remains |
| GoRewrite.RewritePackage | cmd/cutter/app.go:147-149 | a package name without the old app name is kept (the renaming direction is stated by the two lemmas below) |
| GoRewrite.PackageRenamed | cmd/cutter/app.go:147-149 | a package named after the old app is renamed to the new app |
| GoRewrite.PackageRenamedWithin | cmd/cutter/app.go:147-149 | a package name holding the old app name exactly once has that occurrence replaced by the new name, the text around it kept |
| GoRewrite.PackageRenamedExample | cmd/cutter/app.go:147-149 | package `demo_api` of app `demo` cloned to `shop` becomes `shop_api` |
| GoRewrite.RewriteAppImport | cmd/cutter/app.go:153-160 | an import is changed only when it contains `<module>/apps/<old>`; the local name is kept |
| GoRewrite.RewriteAppImports | cmd/cutter/app.go:152-163 | every import spec is rewritten on its own, in order |
| GoRewrite.RewriteAppFile | cmd/cutter/app.go:139-163 | the package name is rewritten, the rest kept, and imports outside the module's copy of the app are kept |
| GoRewrite.AppImportRedirected | cmd/cutter/app.go:155-160 | `<module>/apps/<old><rest>` with a single `/apps/<old>` becomes `<module>/apps/<new><rest>` |
| GoRewrite.AppImportExample | cmd/cutter/app.go:157-158 | `example.com/web/apps/demo/service` becomes `example.com/web/apps/shop/service` |
| GoRewrite.OtherModuleImportKept | cmd/cutter/app.go:156-157 | the same app name under another module is left alone |
| GoRewrite.RewriteTextByLine | cmd/cutter/app.go:185-186 | the blind YAML replacement acts line by line for a name without a line break |
| GoRewrite.RewriteTextAbsent | cmd/cutter/app.go:185-186 | text without the old app name is copied unchanged |
| TreeWalk.Produce | cmd/cutter/app.go:117-133 | directories become MakeDir; Go files are parsed, rewritten and written, or fail to parse; YAML files of an app get the text replacement; every other file is copied from its source path |
| TreeWalk.Step | cmd/cutter/project.go:77-89 | an operation lands on the entry's target; a failing target fails the step; otherwise the step is what the entry produces |
| TreeWalk.Run | cmd/cutter/project.go:57-93 | the operations done are the successful prefix, and the failure, if any, is the first failing step |
| TreeWalk.Walk | cmd/cutter/project.go:57-90 | the walk with pruning gives the same outcome as checking every entry on its own |
| TreeWalk.IgnoredEntrySkipped | cmd/cutter/project.go:69-75 | an ignored entry adds nothing to the outcome |
| TreeWalk.PrunedSubtree | cmd/cutter/app.go:106-111 | entries below an ignored directory add nothing to the outcome |
| TreeWalk.WalkNeverRemoves | cmd/cutter/project.go:77-89 | the walk creates and writes but never deletes |
| TreeWalk.TargetsAgree | cmd/cutter/project.go:78 | on well-formed paths, the substring swap of the project clone and the join of the app clone give the same target |
| TreeWalk.ProjectTargetJoined | cmd/cutter/project.go:78 | `<src>/<rel>` maps to `<dst>/<rel>` in a project clone |
| TreeWalk.ProjectRootTarget | cmd/cutter/project.go:78-80 | the source root maps to the destination root |
| ProjectClone.NewModuleName | cmd/cutter/project.go:152-170 | a name with '/' is the new module path; a bare name keeps the old path up to its last '/' and appends the name; with a bare old path it is the name itself |
| ProjectClone.NewModuleNameBase | cmd/cutter/project.go:163-169 | a bare new name becomes the last element of the new module path |
| ProjectClone.NewModuleNameIdempotent | cmd/cutter/project.go:152-170 | renaming again to the same name changes nothing |
| ProjectClone.RewriteModuleLine | cmd/cutter/project.go:173-176 | text without `module <old>` is kept |
| ProjectClone.ModuleLineRewritten | cmd/cutter/project.go:173-176 | only the first `module <old>` is replaced; the text before and after it is kept |
| ProjectClone.ModuleLineFirst | cmd/cutter/project.go:173-176 | a go.mod starting with its module statement gets the new path there and keeps the rest |
| ProjectClone.ModifyGoMod | cmd/cutter/project.go:134-185 | succeeds exactly when the go.mod parses with a module statement and can be written; the write holds the first-occurrence rewrite to the derived name; each failure gives its own error |
| ProjectClone.FinishProject | cmd/cutter/project.go:45-52 | the destination directory comes first, then the walk's operations; a failed walk stops the clone with nothing removed; the go.mod is renamed only after a complete walk; the only removal is of `<dst>/.git`, and it is the last operation (the walk never copies `.git`, which is on the ignore list) |
| ProjectClone.RenameAndClean | cmd/cutter/project.go:91-96 | after a complete walk: the go.mod rename, then removal of `<dst>/.git`; no removal follows a failed rename |
| ProjectClone.CloneProject | cmd/cutter/project.go:17-53 | an empty path, an unknown working directory, a non-Go project, an existing destination or a failing mkdir fail before anything is done; otherwise the walk runs with the base names of both directories |
| ProjectClone.CloneRenamesModule | cmd/cutter/project.go:173-179 | a successful clone writes the go.mod back with the new module path and the rest unchanged |
| AppClone.CheckApp | cmd/cutter/app.go:26-78 | the clone proceeds exactly when the names are non-empty and different, the project and its go.mod module are found, the apps directory and the source app exist, and the new app does not exist and can be created |
| AppClone.FinishApp | cmd/cutter/app.go:83-89 | a failed copy removes the new app directory as the last operation and reports the walk error; a complete copy removes nothing |
| AppClone.CloneApp | cmd/cutter/app.go:25-90 | nothing happens when a check fails; otherwise the new directory is made and the app walk runs from the source app to the new one within the go.mod's module |
| Codegen.NullableDesc | cmd/generate/gen_model.go:75-78 | `not null` exactly for non-nullable columns, empty for nullable ones |
| Codegen.DefaultText | cmd/generate/gen_model.go:79-82 | `default <v>`, or `default ''` for an empty default |
| Codegen.DefaultTextInjective | cmd/generate/gen_model.go:79-82 | two defaults give the same text exactly when equal, or when one is empty and the other is `''` |
| Codegen.CommentText | cmd/generate/gen_module.go:78-81 | `comment: <c>`, empty exactly when the comment is empty |
| Codegen.CommentTextInjective | cmd/generate/gen_module.go:78-81 | the comment can be read back from its text |
| Codegen.FieldOf | cmd/generate/gen_model.go:74-102 | primary key exactly when the column key is PRI; column name, type and field type copied; the field name and the lower-camel name come from the `ReplaceIdToID` and `SnakeToLowerCamel` helpers applied to the field name; model mode takes the JSON tag from `SnakeToLowerCamelWithID` of the column name and keeps the raw comment and the gorm comment text; module mode has the comment text and no JSON tag |
| Codegen.FieldsOf | cmd/generate/gen_model.go:73-103 | one descriptor per column, in column order |
| Codegen.FieldsAppend | cmd/generate/gen_module.go:68-93 | the descriptors of two column lists are those of each, in order |
| Codegen.LastIndexOf | cmd/generate/gen_model.go:61-69 | the position of an item of the origin after which no item has that origin, -1 exactly when no item has it |
| Codegen.LastLayerName | cmd/generate/gen_model.go:61-69 | the layer name of the last item of the origin, empty when there is none |
| Codegen.SelectLayerNames | cmd/generate/gen_module.go:48-56 | the overwriting scan yields the last model and the last dao layer name |
| Codegen.Perform | cmd/generate/gen_module.go:118-130 | steps before the failing one are done in order; the failing step is reported and nothing after it runs |
| GenModel.ModelStructName | cmd/generate/gen_model.go:53-59 | prefix stripping only when a prefix is configured; a non-empty name stays non-empty |
| GenModel.ModelFileName | cmd/generate/gen_model.go:105-113 | file-name stripping only when a prefix is configured; the extension is kept |
| GenModel.ModelItems | cmd/generate/gen_model.go:71-138 | one item per analysed template, in order, with its directory, template, stripped file name and fields, and the same struct, table and layer names on every item |
| GenModel.ModelItemsKeepExtensions | cmd/generate/gen_model.go:105-117 | every generated file keeps its template's extension |
| GenModel.ModelStripExample | cmd/generate/gen_model.go:53-113 | `iam_users` with prefix `iam_` renders a `Users` struct into `user.go` |
| GenModel.GenModel | cmd/generate/gen_model.go:18-146 | missing templates or a failed analysis fail before rendering; otherwise one render step, done or reported |
| GenModule.NonCodeItems | cmd/generate/gen_module.go:58-66 | no code template is kept and nothing is added |
| GenModule.NonCodeItemsMembers | cmd/generate/gen_module.go:58-66 | a template is kept exactly when it is in the analysis and is not a code template |
| GenModule.LastCodeItem | cmd/generate/gen_module.go:59-66 | the last code template, none when there is no code template |
| GenModule.SplitCodeLayer | cmd/generate/gen_module.go:58-66 | the loop yields the non-code templates in order and the last code template |
| GenModule.ModuleParams | cmd/generate/gen_module.go:99-114 | the struct name is not prefix-stripped, its lower-camel form has the first letter lowered, the package name, table name and description come from the analysis and the configuration, the project name, app path and app name from the app identity, and root and module path are not passed |
| GenModule.ModuleItems | cmd/generate/gen_module.go:95-117 | one item per non-code template, in order |
| GenModule.CodeSteps | cmd/generate/gen_module.go:133-209 | there are steps exactly when the analysis holds a code template; then there are three: create `pkg/code` under the project root, render the LAST code template there as `<package>.go` with the module parameters of that template, and register the table's messages in `init` of `pkg/code/enter.go` |
| GenModule.ModulePlan | cmd/generate/gen_module.go:118-209 | the general render always comes first and the router registration in `RegisterRouter` of `<workDir>/router/enter.go` second; the plan goes on past these two exactly when the analysis holds a code template, and what follows is the error-code steps |
| GenModule.GenModule | cmd/generate/gen_module.go:14-212 | missing templates or a failed analysis fail with nothing done; otherwise what is done is always a prefix of the plan, the run succeeds exactly when no step of the plan fails, and a failure reports the failing step with every earlier step done |
| GenModule.CodeStepsRegisterInit | cmd/generate/gen_module.go:133-208 | the error-code steps register into `init` only, never into `RegisterRouter` |
| GenModule.RouterAfterGeneration | cmd/generate/gen_module.go:121-130 | the router is registered only after the general render succeeded |
| GenModule.CodeRegisteredIffCodeLayer | cmd/generate/gen_module.go:133-208 | error codes are registered exactly when there is a code template |
| GenModule.CodeDirUnderRoot | cmd/generate/gen_module.go:180 | the code directory is `<root>/pkg/code` |
| GenModule.RouterRegistrationExample | cmd/generate/gen_module.go:125-130 | a `User` table registers `userRouter(routerGroup)` |
| GenModule.CodeRegistrationExample | cmd/generate/gen_module.go:203-208 | a `User` table registers `registerError(userErrorMsgMap)` |

## Left out

- Command-line wiring (`cmd/cutter/command.go`, `cmd/generate/generate.go`), configuration loading and the MySQL connection: they only dispatch and set up.
- `cmd/cutter/cutter.go`: an older copy of the clone code in the same package. Its only distinct logic is an external gitignore matcher and `modfile.AddModuleStmt`, both foreign.
- Foreign libraries, whose results are inputs:
  - template analysis and rendering (`codegen.AnalysisModuleTpl`, `gen.Gen`);
  - AST patching (`gast.AddContentToFunc`);
  - the naming helpers (`ReplaceIdToID`, `SnakeToLowerCamel`, `SnakeToLowerCamelWithID`), which are a `Namer` record of functions;
  - `go/parser`, `go/format` and `modfile.Parse`.
- TreeWalk.Produce: a failure of `format.Node` while writing a rewritten Go file (`cmd/cutter/project.go:126-128`, `cmd/cutter/app.go:172-174`) is not modelled; the printer always succeeds, and only the destination path can fail.
- File-system I/O:
  - `copyFile` is a `CopyFile` operation;
  - `os.Stat`, `MkdirAll`, `WriteFile` and `RemoveAll` are sets of existing and failing paths;
  - `filepath.Walk`'s own stat errors are not modelled;
  - `filepath.Rel` and the walk order are given by the entry list.
- Template extraction to a temporary directory and its deferred removal: `templatesReady` stands for its result.
- `genApi`: it is not part of this model.
- Printing to the terminal.
- GenModule.ModuleParams, GenModule.RouterStatement, GenModule.CodeRegistration: the lower-camel struct name comes from the foreign `gutils.FirstLetterToLower`, modelled as the ASCII `Strs.LowerFirst`; a first letter outside ASCII is not modelled.
- TreeWalk.Produce: an `Entry` is a directory or a file; symbolic links and other non-regular files are not modelled, so `copyFile`'s "not a regular file" error (`cmd/cutter/util.go:68-70`) never arises.
- TreeWalk.Produce: reading a source file never fails (the file's text is part of its `Entry`), so the read error of the YAML rewrite (`cmd/cutter/app.go:180-183`) and of `copyFile` is not modelled; only the destination path can fail.
- Codegen.Origin: `OtherOrigin` carries any layer name other than `model`, `dao` and `code`; those three are always the named cases, as the Go comparisons with the library constants treat them.
- Strs.UpperFirst: the model works on characters, while the Go code slices bytes (`cmd/generate/util.go:84`, `:95`) and `ToUpper` and `ToLower` are Unicode-aware; the two agree only on ASCII names.
- Naming.RemoveTablePrefixFromStructName: the PascalCase prefix uses the same ASCII casing.
- Paths.Clean: only '/' is a separator, as on Unix. Windows volume names are not modelled.
- AppLayout.ModulePathFromLines: the go.mod is given as its lines. The scanner's read errors and its line-length limit are not modelled.
- AppLayout.GetAppInfo: `filepath.Clean` of the empty path and other non-absolute working directories follow the lexical model only. The error messages become `LayoutError` values.
- ProjectClone.ModifyGoMod: a go.mod without a module statement makes the Go code dereference a nil pointer and panic. The model returns `NoModuleStatement` instead.
- AppClone.CheckApp: the same nil module statement is modelled the same way. A failing `os.Getwd` is `Env.cwd == None`.
- AppClone.FinishApp: the error of the cleanup `os.RemoveAll` is ignored, as in the source, so the model records the removal but not whether it worked.
- The origin-layer names of the template library are a datatype with `ModelOrigin`, `DaoOrigin` and `CodeOrigin`.
- The library constant `ColumnKeyPRI` is modelled as MySQL's `PRI` (`Codegen.ColumnKeyPrimary`).
