/** The rewrites the cutter applies to the files it copies. A whole-project
    clone replaces the old project name in every import path that contains
    it. An app clone replaces the old app name in the package name, and
    `/apps/<old>` by `/apps/<new>` in the import paths of its own module's
    copy of the app. Text configuration files of an app get a blind
    replacement. All matching is on substrings, not on path elements. */
module GoRewrite {
  import opened Strs
  import opened GoSource

  /** Every element equal to `name` swapped for `rep`, the others kept. */
  function SwapElem(parts: seq<string>, name: string, rep: string): (r: seq<string>)
    ensures |r| == |parts|
    ensures forall i :: 0 <= i < |parts| ==> r[i] == (if parts[i] == name then rep else parts[i])
  {
    seq(|parts|, i requires 0 <= i < |parts| => if parts[i] == name then rep else parts[i])
  }

  // ---- whole-project clone ----

  /** The path a project clone writes for an import path: every occurrence
      of the old name replaced, applied only when there is one. */
  function ProjectImportPath(path: string, oldName: string, newName: string): string {
    if Contains(path, oldName) then ReplaceAll(path, oldName, newName) else path
  }

  function RewriteProjectImport(spec: ImportSpec, oldName: string, newName: string): (r: ImportSpec)
    ensures r.localName == spec.localName
    ensures !Contains(ImportPath(spec), oldName) ==> r == spec
    ensures Contains(ImportPath(spec), oldName) ==>
      r.pathLit == Quote(ProjectImportPath(ImportPath(spec), oldName, newName))
  {
    var p := ImportPath(spec);
    if Contains(p, oldName) then ImportSpec(spec.localName, Quote(ReplaceAll(p, oldName, newName)))
    else spec
  }

  /** The project-clone rewrite of a file: each import spec rewritten on
      its own, in order; the package name and the rest of the file kept. */
  function RewriteProjectImports(specs: seq<ImportSpec>, oldName: string, newName: string): (r: seq<ImportSpec>)
    decreases |specs|
    ensures |r| == |specs|
    ensures forall i :: 0 <= i < |specs| ==> r[i] == RewriteProjectImport(specs[i], oldName, newName)
  {
    if specs == [] then []
    else [RewriteProjectImport(specs[0], oldName, newName)] + RewriteProjectImports(specs[1..], oldName, newName)
  }

  function RewriteProjectFile(f: GoFile, oldName: string, newName: string): (r: GoFile)
    ensures r.packageName == f.packageName && r.rest == f.rest
    ensures |r.imports| == |f.imports|
    ensures forall i :: 0 <= i < |f.imports| ==>
      !Contains(ImportPath(f.imports[i]), oldName) ==> r.imports[i] == f.imports[i]
    ensures forall i :: 0 <= i < |f.imports| ==> r.imports[i].localName == f.imports[i].localName
  {
    GoFile(f.packageName, RewriteProjectImports(f.imports, oldName, newName), f.rest)
  }

  /** The `Contains` guard changes nothing: replacing a non-empty name
      that does not occur leaves the path as it is. */
  lemma ProjectImportIsReplaceAll(path: string, oldName: string, newName: string)
    requires oldName != []
    ensures ProjectImportPath(path, oldName, newName) == ReplaceAll(path, oldName, newName)
  {
    if !Contains(path, oldName) {
      ContainsIff(path, oldName);
      ReplaceAllAbsent(path, oldName, newName);
    }
  }

  /** A name replaced in itself gives the replacement. */
  lemma ReplaceAllWhole(name: string, rep: string)
    requires name != []
    ensures ReplaceAll(name, name, rep) == rep
  {
    assert [] + name + [] == name;
    assert [] + rep + [] == rep;
    ReplaceAllUnique([], name, [], rep);
  }

  /** Seen element by element: when every element of an import path either
      is the old name or does not contain it, and the names hold no '/',
      the rewrite swaps exactly the elements equal to the old name, and
      none of the result's elements is the old name any more. */
  lemma ProjectImportByElement(parts: seq<string>, oldName: string, newName: string)
    requires |parts| >= 1
    requires oldName != [] && '/' !in oldName && '/' !in newName && newName != oldName
    requires forall i :: 0 <= i < |parts| ==> '/' !in parts[i]
    requires forall i :: 0 <= i < |parts| ==> parts[i] == oldName || !Contains(parts[i], oldName)
    ensures ProjectImportPath(JoinSep(parts, '/'), oldName, newName) == JoinSep(SwapElem(parts, oldName, newName), '/')
    ensures var q := Split(ProjectImportPath(JoinSep(parts, '/'), oldName, newName), '/');
      q == SwapElem(parts, oldName, newName) && forall i :: 0 <= i < |q| ==> q[i] != oldName
  {
    var path := JoinSep(parts, '/');
    var swapped := SwapElem(parts, oldName, newName);
    ProjectImportIsReplaceAll(path, oldName, newName);
    ReplaceAllJoin(parts, '/', oldName, newName);
    var each := ReplaceEach(parts, oldName, newName);
    forall i | 0 <= i < |parts|
      ensures each[i] == swapped[i]
    {
      if parts[i] == oldName {
        ReplaceAllWhole(oldName, newName);
      } else {
        ContainsIff(parts[i], oldName);
        ReplaceAllAbsent(parts[i], oldName, newName);
      }
    }
    assert each == swapped;
    SplitJoin(swapped, '/');
  }

  // ---- app clone ----

  /** The package name of a cloned app file: every occurrence of the old
      app name replaced, applied only when there is one. */
  function RewritePackage(pkg: string, oldApp: string, newApp: string): (r: string)
    ensures !Contains(pkg, oldApp) ==> r == pkg
  {
    if Contains(pkg, oldApp) then ReplaceAll(pkg, oldApp, newApp) else pkg
  }

  /** The marker an import must contain to be rewritten in an app clone. */
  function AppMarker(modulePath: string, oldApp: string): string {
    modulePath + "/apps/" + oldApp
  }

  /** The path an app clone writes for an import path. */
  function AppImportPath(path: string, oldApp: string, newApp: string, modulePath: string): string {
    if Contains(path, AppMarker(modulePath, oldApp)) then ReplaceAll(path, "/apps/" + oldApp, "/apps/" + newApp)
    else path
  }

  function RewriteAppImport(spec: ImportSpec, oldApp: string, newApp: string, modulePath: string): (r: ImportSpec)
    ensures r.localName == spec.localName
    ensures !Contains(ImportPath(spec), AppMarker(modulePath, oldApp)) ==> r == spec
    ensures Contains(ImportPath(spec), AppMarker(modulePath, oldApp)) ==>
      r.pathLit == Quote(AppImportPath(ImportPath(spec), oldApp, newApp, modulePath))
  {
    var p := ImportPath(spec);
    if Contains(p, AppMarker(modulePath, oldApp)) then
      ImportSpec(spec.localName, Quote(AppImportPath(p, oldApp, newApp, modulePath)))
    else spec
  }

  function RewriteAppImports(specs: seq<ImportSpec>, oldApp: string, newApp: string, modulePath: string): (r: seq<ImportSpec>)
    decreases |specs|
    ensures |r| == |specs|
    ensures forall i :: 0 <= i < |specs| ==> r[i] == RewriteAppImport(specs[i], oldApp, newApp, modulePath)
  {
    if specs == [] then []
    else [RewriteAppImport(specs[0], oldApp, newApp, modulePath)] + RewriteAppImports(specs[1..], oldApp, newApp, modulePath)
  }

  /** The app-clone rewrite of a file: the package name and the import
      specs of the module's own copy of the app change; the rest of the
      file and every other import stay as they are. */
  function RewriteAppFile(f: GoFile, oldApp: string, newApp: string, modulePath: string): (r: GoFile)
    ensures r.packageName == RewritePackage(f.packageName, oldApp, newApp) && r.rest == f.rest
    ensures |r.imports| == |f.imports|
    ensures forall i :: 0 <= i < |f.imports| ==>
      !Contains(ImportPath(f.imports[i]), AppMarker(modulePath, oldApp)) ==> r.imports[i] == f.imports[i]
  {
    GoFile(RewritePackage(f.packageName, oldApp, newApp),
           RewriteAppImports(f.imports, oldApp, newApp, modulePath), f.rest)
  }

  /** A package named exactly after the old app is renamed to the new app. */
  lemma PackageRenamed(oldApp: string, newApp: string)
    requires oldApp != []
    ensures RewritePackage(oldApp, oldApp, newApp) == newApp
  {
    assert OccursAt(oldApp, oldApp, 0);
    ContainsIff(oldApp, oldApp);
    ReplaceAllWhole(oldApp, newApp);
  }

  /** A package whose name contains the old app name once, anywhere in it,
      gets that occurrence replaced by the new name and keeps the rest. */
  lemma PackageRenamedWithin(a: string, oldApp: string, b: string, newApp: string)
    requires oldApp != []
    requires forall j :: OccursAt(a + oldApp + b, oldApp, j) ==> j == |a|
    ensures RewritePackage(a + oldApp + b, oldApp, newApp) == a + newApp + b
  {
    assert OccursAt(a + oldApp + b, oldApp, |a|) by {
      assert (a + oldApp + b)[|a|..|a| + |oldApp|] == oldApp;
    }
    ContainsIff(a + oldApp + b, oldApp);
    ReplaceAllUnique(a, oldApp, b, newApp);
  }

  /** Concretely: package `demo_api` of app `demo` becomes `shop_api`. */
  lemma PackageRenamedExample()
    ensures RewritePackage("demo_api", "demo", "shop") == "shop_api"
  {
    var b := "_api";
    assert [] + "demo" + b == "demo_api";
    forall j | OccursAt("demo_api", "demo", j)
      ensures j == 0
    {
      assert "demo_api"[j] == 'd';
    }
    PackageRenamedWithin([], "demo", b, "shop");
    assert [] + "shop" + b == "shop_api";
  }

  /** An import of the module's own copy of the old app, where `/apps/<old>`
      occurs once, is redirected to the new app with everything around it
      kept. */
  lemma AppImportRedirected(modulePath: string, oldApp: string, newApp: string, rest: string)
    requires forall j :: OccursAt(AppMarker(modulePath, oldApp) + rest, "/apps/" + oldApp, j) ==> j == |modulePath|
    ensures AppImportPath(AppMarker(modulePath, oldApp) + rest, oldApp, newApp, modulePath)
         == AppMarker(modulePath, newApp) + rest
  {
    var pat := "/apps/" + oldApp;
    var path := AppMarker(modulePath, oldApp) + rest;
    assert path == modulePath + pat + rest;
    assert OccursAt(path, AppMarker(modulePath, oldApp), 0) by {
      assert path[..|AppMarker(modulePath, oldApp)|] == AppMarker(modulePath, oldApp);
    }
    ContainsIff(path, AppMarker(modulePath, oldApp));
    ReplaceAllUnique(modulePath, pat, rest, "/apps/" + newApp);
    assert modulePath + ("/apps/" + newApp) + rest == AppMarker(modulePath, newApp) + rest;
  }

  /** Concretely: the demo app's service import becomes the new app's. */
  lemma AppImportExample()
    ensures AppImportPath("example.com/web/apps/demo/service", "demo", "shop", "example.com/web")
         == "example.com/web/apps/shop/service"
  {
    var m := "example.com/web";
    var path := AppMarker(m, "demo") + "/service";
    ExampleMarkers();
    forall j | OccursAt(AppMarker(m, "demo") + "/service", "/apps/" + "demo", j)
      ensures j == |m|
    {
      assert "/apps/" + "demo" == "/apps/demo";
      OccursApps(path, j);
    }
    AppImportRedirected(m, "demo", "shop", "/service");
  }

  lemma ExampleMarkers()
    ensures AppMarker("example.com/web", "demo") + "/service" == "example.com/web/apps/demo/service"
    ensures AppMarker("example.com/web", "shop") + "/service" == "example.com/web/apps/shop/service"
  {
  }

  /** An import of the same app name under another module is left alone. */
  lemma OtherModuleImportKept()
    ensures AppImportPath("other.org/lib/apps/demo", "demo", "shop", "example.com/web")
         == "other.org/lib/apps/demo"
  {
    var other := "other.org/lib/apps/demo";
    var marker := AppMarker("example.com/web", "demo");
    assert |marker| > |other|;
    ContainsIff(other, marker);
  }

  /** In the example path, "/apps/" starts at one place only. */
  lemma OccursApps(path: string, j: int)
    requires path == "example.com/web/apps/demo/service"
    requires OccursAt(path, "/apps/demo", j)
    ensures j == 15
  {
    assert path[j] == '/' && path[j + 1] == 'a' && path[j + 5] == '/';
  }

  /** The blind replacement applied to the text configuration files of an
      app. */
  function RewriteText(content: string, oldApp: string, newApp: string): string {
    ReplaceAll(content, oldApp, newApp)
  }

  /** The blind replacement works line by line: a name without a line
      break is never matched across one. */
  lemma RewriteTextByLine(lines: seq<string>, oldApp: string, newApp: string)
    requires oldApp != [] && '\n' !in oldApp
    ensures RewriteText(JoinSep(lines, '\n'), oldApp, newApp)
         == JoinSep(ReplaceEach(lines, oldApp, newApp), '\n')
  {
    ReplaceAllJoin(lines, '\n', oldApp, newApp);
  }

  /** Text that does not mention the old app name is copied unchanged. */
  lemma RewriteTextAbsent(content: string, oldApp: string, newApp: string)
    requires oldApp != [] && !Contains(content, oldApp)
    ensures RewriteText(content, oldApp, newApp) == content
  {
    ContainsIff(content, oldApp);
    ReplaceAllAbsent(content, oldApp, newApp);
  }
}
