/** The directory walk shared by the project clone and the app clone. The
    tree is given as its entries in walk order, each with its path relative
    to the source directory ("." for the source directory itself). Every
    entry the matcher does not ignore becomes one file-system operation on
    the destination; the first operation that fails ends the walk, and the
    operations before it stay done. */
module TreeWalk {
  import opened Results
  import opened Strs
  import Paths
  import Ignore
  import opened GoSource
  import GoRewrite

  /** One entry of the source tree. A file carries its bytes and, for a Go
      file, what the Go parser made of it (`None` when parsing failed). */
  datatype Entry =
    | Dir(rel: string)
    | File(rel: string, content: string, parsed: Option<GoFile>)

  /** What a clone rewrites: the project name in a whole-project clone, the
      app name (within the given module) in an app clone. */
  datatype Rules =
    | ProjectRules(oldName: string, newName: string)
    | AppRules(oldApp: string, newApp: string, modulePath: string)

  /** A walk: its rules, its two directories, and the destination paths
      whose creation or writing fails. */
  datatype Walker = Walker(rules: Rules, srcDir: string, dstDir: string, ioFails: set<string>)

  datatype Op =
    | MakeDir(path: string)
    | WriteGo(path: string, file: GoFile)
    | WriteText(path: string, text: string)
    | CopyFile(from: string, to: string)
    | RemoveAll(path: string)

  datatype WalkError = ParseFailed(path: string) | WriteFailed(path: string)

  /** The operations performed, and the failure that stopped the walk. */
  datatype Outcome = Outcome(ops: seq<Op>, failure: Option<WalkError>)

  function OpTarget(op: Op): string {
    match op
    case MakeDir(p) => p
    case WriteGo(p, _) => p
    case WriteText(p, _) => p
    case CopyFile(_, p) => p
    case RemoveAll(p) => p
  }

  /** The path the walk reports for an entry. */
  function SourcePath(srcDir: string, rel: string): string {
    if rel == "." then srcDir else Paths.Join([srcDir, rel])
  }

  /** Where an entry goes: the project clone swaps the first occurrence of
      the source directory in the reported path for the destination; the
      app clone joins the destination and the relative path. */
  function TargetPath(w: Walker, rel: string): string {
    match w.rules
    case ProjectRules(_, _) => ReplaceFirst(SourcePath(w.srcDir, rel), w.srcDir, w.dstDir)
    case AppRules(_, _, _) => Paths.Join([w.dstDir, rel])
  }

  predicate IsGoFile(rel: string) {
    HasSuffix(Paths.Base(rel), ".go")
  }

  predicate IsYamlFile(rel: string) {
    HasSuffix(Paths.Base(rel), ".yaml") || HasSuffix(Paths.Base(rel), ".yml")
  }

  /** The root is never checked against the ignore list. */
  predicate Visible(e: Entry) {
    e.rel == "." || !Ignore.Ignored(e.rel)
  }

  function RewriteGo(rules: Rules, f: GoFile): GoFile {
    match rules
    case ProjectRules(o, n) => GoRewrite.RewriteProjectFile(f, o, n)
    case AppRules(o, n, m) => GoRewrite.RewriteAppFile(f, o, n, m)
  }

  /** What one visited entry does when nothing fails on the destination
      side. Directories are created; Go files are parsed, rewritten and
      written; YAML files of an app get the text replacement; every other
      file is copied byte for byte. */
  function Produce(rules: Rules, e: Entry, src: string, dst: string): (r: Result<Op, WalkError>)
    ensures r.Ok? ==> OpTarget(r.value) == dst && !r.value.RemoveAll?
    ensures r.Err? <==> e.File? && IsGoFile(e.rel) && e.parsed.None?
    ensures r.Err? ==> r.error == ParseFailed(src)
    ensures r.Ok? && r.value.MakeDir? <==> e.Dir?
    ensures r.Ok? && r.value.WriteGo? <==> e.File? && IsGoFile(e.rel) && e.parsed.Some?
    ensures r.Ok? && r.value.WriteGo? ==> r.value.file == RewriteGo(rules, e.parsed.value)
    ensures r.Ok? && r.value.WriteText? <==> e.File? && rules.AppRules? && !IsGoFile(e.rel) && IsYamlFile(e.rel)
    ensures r.Ok? && r.value.WriteText? ==> r.value.text == GoRewrite.RewriteText(e.content, rules.oldApp, rules.newApp)
    ensures r.Ok? && r.value.CopyFile? <==> e.File? && !IsGoFile(e.rel) && !(rules.AppRules? && IsYamlFile(e.rel))
    ensures r.Ok? && r.value.CopyFile? ==> r.value.from == src
  {
    match e
    case Dir(_) => Ok(MakeDir(dst))
    case File(rel, content, parsed) =>
      if IsGoFile(rel) then
        if parsed.None? then Err(ParseFailed(src)) else Ok(WriteGo(dst, RewriteGo(rules, parsed.value)))
      else if rules.AppRules? && IsYamlFile(rel) then
        Ok(WriteText(dst, GoRewrite.RewriteText(content, rules.oldApp, rules.newApp)))
      else Ok(CopyFile(src, dst))
  }

  /** One visited entry: a parse failure comes first, then a failing
      destination path; otherwise the operation is performed. */
  function Step(w: Walker, e: Entry): (r: Result<Op, WalkError>)
    ensures r.Ok? ==> OpTarget(r.value) == TargetPath(w, e.rel)
    ensures TargetPath(w, e.rel) in w.ioFails ==> r.Err?
    ensures r.Err? ==> r.error == WriteFailed(TargetPath(w, e.rel)) || r.error.ParseFailed?
    ensures TargetPath(w, e.rel) !in w.ioFails ==> r == Produce(w.rules, e, SourcePath(w.srcDir, e.rel), TargetPath(w, e.rel))
  {
    var dst := TargetPath(w, e.rel);
    var p := Produce(w.rules, e, SourcePath(w.srcDir, e.rel), dst);
    if p.Ok? && dst in w.ioFails then Err(WriteFailed(dst)) else p
  }

  /** The elements of `xs` whose flag is set, in order. */
  function Select<T>(xs: seq<T>, keep: seq<bool>): (r: seq<T>)
    requires |keep| == |xs|
    decreases |xs|
    ensures |r| <= |xs|
    ensures (forall k :: 0 <= k < |keep| ==> !keep[k]) ==> r == []
    ensures (forall k :: 0 <= k < |keep| ==> keep[k]) ==> r == xs
  {
    if xs == [] then []
    else
      var n := |xs| - 1;
      var prev := Select(xs[..n], keep[..n]);
      assert xs[..n] + [xs[n]] == xs;
      if keep[n] then prev + [xs[n]] else prev
  }

  /** Whether each entry is visible to the walk. */
  function VisibleFlags(es: seq<Entry>): (r: seq<bool>)
    ensures |r| == |es|
    ensures forall k :: 0 <= k < |es| ==> (r[k] <==> Visible(es[k]))
  {
    seq(|es|, k requires 0 <= k < |es| => Visible(es[k]))
  }

  /** The visible entries, in walk order. */
  function Filter(es: seq<Entry>): (r: seq<Entry>)
    ensures |r| <= |es|
  {
    Select(es, VisibleFlags(es))
  }

  /** Performing step results in order until the first failure: the
      operations are those of the successful prefix, and the failure, if
      any, is the first one. */
  function Run(results: seq<Result<Op, WalkError>>): (r: Outcome)
    decreases |results|
    ensures |r.ops| <= |results|
    ensures forall k :: 0 <= k < |r.ops| ==> results[k] == Ok(r.ops[k])
    ensures r.failure.None? ==> |r.ops| == |results|
    ensures r.failure.Some? ==> |r.ops| < |results| && results[|r.ops|] == Err(r.failure.value)
  {
    if results == [] then Outcome([], None)
    else
      var prev := Run(results[..|results| - 1]);
      if prev.failure.Some? then prev
      else
        match results[|results| - 1]
        case Err(e) => Outcome(prev.ops, Some(e))
        case Ok(op) => Outcome(prev.ops + [op], None)
  }

  /** The step of every entry, in order. */
  function Steps(w: Walker, es: seq<Entry>): (r: seq<Result<Op, WalkError>>)
    ensures |r| == |es|
    ensures forall k :: 0 <= k < |es| ==> r[k] == Step(w, es[k])
  {
    seq(|es|, k requires 0 <= k < |es| => Step(w, es[k]))
  }

  /** The outcome the clone produces: the steps of the visible entries. */
  function WalkSpec(w: Walker, entries: seq<Entry>): Outcome {
    Run(Steps(w, Filter(entries)))
  }

  /** Whether `rel` lies inside one of the pruned directories. */
  predicate UnderAny(rel: string, pruned: seq<string>) {
    exists k :: 0 <= k < |pruned| && HasPrefix(rel, pruned[k] + ['/'])
  }

  /** The walk as the cutter runs it: an ignored directory is pruned, so
      nothing below it is even looked at. Pruning gives the same outcome
      as checking every entry on its own. */
  method Walk(w: Walker, entries: seq<Entry>) returns (out: Outcome)
    ensures out == WalkSpec(w, entries)
  {
    var ops: seq<Op> := [];
    var pruned: seq<string> := [];
    var i := 0;
    while i < |entries|
      invariant 0 <= i <= |entries|
      invariant forall k :: 0 <= k < |pruned| ==> Ignore.Ignored(pruned[k])
      invariant Run(Steps(w, Filter(entries[..i]))) == Outcome(ops, None)
    {
      var e := entries[i];
      var skip := false;
      if e.rel != "." {
        if UnderAny(e.rel, pruned) {
          BelowPrunedIgnored(e.rel, pruned);
          skip := true;
        } else {
          skip := Ignore.ShouldIgnore(e.rel);
          if skip && e.Dir? {
            pruned := pruned + [e.rel];
          }
        }
      }
      assert skip <==> !Visible(e);
      if skip {
        AdvanceHidden(w, entries, i, ops);
      } else {
        var st := Step(w, e);
        if st.Err? {
          AdvanceFailed(w, entries, i, ops);
          return Outcome(ops, Some(st.error));
        }
        AdvanceVisible(w, entries, i, ops);
        ops := ops + [st.value];
      }
      i := i + 1;
    }
    assert entries[..i] == entries;
    return Outcome(ops, None);
  }

  /** A hidden entry leaves the outcome so far as it is. */
  lemma AdvanceHidden(w: Walker, entries: seq<Entry>, i: nat, ops: seq<Op>)
    requires i < |entries| && !Visible(entries[i])
    requires Run(Steps(w, Filter(entries[..i]))) == Outcome(ops, None)
    ensures Run(Steps(w, Filter(entries[..i + 1]))) == Outcome(ops, None)
  {
    FilterSnoc(entries, i);
  }

  /** A visible entry whose step succeeds adds its operation. */
  lemma AdvanceVisible(w: Walker, entries: seq<Entry>, i: nat, ops: seq<Op>)
    requires i < |entries| && Visible(entries[i]) && Step(w, entries[i]).Ok?
    requires Run(Steps(w, Filter(entries[..i]))) == Outcome(ops, None)
    ensures Run(Steps(w, Filter(entries[..i + 1]))) == Outcome(ops + [Step(w, entries[i]).value], None)
  {
    FilterSnoc(entries, i);
    StepsSnoc(w, Filter(entries[..i]), entries[i]);
    RunSnoc(Steps(w, Filter(entries[..i])), Step(w, entries[i]));
  }

  /** A visible entry whose step fails ends the walk with that failure. */
  lemma AdvanceFailed(w: Walker, entries: seq<Entry>, i: nat, ops: seq<Op>)
    requires i < |entries| && Visible(entries[i]) && Step(w, entries[i]).Err?
    requires Run(Steps(w, Filter(entries[..i]))) == Outcome(ops, None)
    ensures WalkSpec(w, entries) == Outcome(ops, Some(Step(w, entries[i]).error))
  {
    var st := Step(w, entries[i]);
    FilterSnoc(entries, i);
    StepsSnoc(w, Filter(entries[..i]), entries[i]);
    RunSnoc(Steps(w, Filter(entries[..i])), st);
    var done := Steps(w, Filter(entries[..i + 1]));
    assert Run(done) == Outcome(ops, Some(st.error));
    FilterRest(entries, i + 1);
    StepsAppend(w, Filter(entries[..i + 1]), Filter(entries[i + 1..]));
    RunStuck(done, Steps(w, Filter(entries[i + 1..])));
  }

  /** The filter of one more entry. */
  lemma FilterSnoc(entries: seq<Entry>, i: nat)
    requires i < |entries|
    ensures Visible(entries[i]) ==> Filter(entries[..i + 1]) == Filter(entries[..i]) + [entries[i]]
    ensures !Visible(entries[i]) ==> Filter(entries[..i + 1]) == Filter(entries[..i])
  {
    var xs := entries[..i + 1];
    var f := VisibleFlags(xs);
    assert xs[..i] == entries[..i];
    assert f[..i] == VisibleFlags(entries[..i]);
    assert Filter(xs) == (if f[i] then Select(xs[..i], f[..i]) + [xs[i]] else Select(xs[..i], f[..i]));
  }

  lemma BelowPrunedIgnored(rel: string, pruned: seq<string>)
    requires forall k :: 0 <= k < |pruned| ==> Ignore.Ignored(pruned[k])
    requires UnderAny(rel, pruned)
    ensures Ignore.Ignored(rel)
  {
    var k :| 0 <= k < |pruned| && HasPrefix(rel, pruned[k] + ['/']);
    var d := pruned[k];
    assert rel == d + ['/'] + rel[|d| + 1..];
    Ignore.IgnoredBelow(d, rel[|d| + 1..]);
  }

  lemma StepsSnoc(w: Walker, xs: seq<Entry>, e: Entry)
    ensures Steps(w, xs + [e]) == Steps(w, xs) + [Step(w, e)]
  {
  }

  lemma StepsAppend(w: Walker, xs: seq<Entry>, ys: seq<Entry>)
    ensures Steps(w, xs + ys) == Steps(w, xs) + Steps(w, ys)
  {
  }

  /** One more result after a clean run adds its operation or stops. */
  lemma RunSnoc(xs: seq<Result<Op, WalkError>>, x: Result<Op, WalkError>)
    requires Run(xs).failure.None?
    ensures x.Err? ==> Run(xs + [x]) == Outcome(Run(xs).ops, Some(x.error))
    ensures x.Ok? ==> Run(xs + [x]) == Outcome(Run(xs).ops + [x.value], None)
  {
    assert (xs + [x])[..|xs|] == xs;
  }

  /** After a failure nothing more happens. */
  lemma {:induction false} RunStuck(xs: seq<Result<Op, WalkError>>, ys: seq<Result<Op, WalkError>>)
    requires Run(xs).failure.Some?
    ensures Run(xs + ys) == Run(xs)
    decreases |ys|
  {
    if ys == [] {
      assert xs + ys == xs;
    } else {
      var zs := xs + ys;
      assert zs[..|zs| - 1] == xs + ys[..|ys| - 1];
      RunStuck(xs, ys[..|ys| - 1]);
    }
  }

  /** Selecting from two lists one after the other. */
  lemma {:induction false} SelectAppend<T>(xs: seq<T>, fx: seq<bool>, ys: seq<T>, fy: seq<bool>)
    requires |fx| == |xs| && |fy| == |ys|
    ensures Select(xs + ys, fx + fy) == Select(xs, fx) + Select(ys, fy)
    decreases |ys|
  {
    if ys == [] {
      assert xs + ys == xs;
      assert fx + fy == fx;
    } else {
      var zs, fz := xs + ys, fx + fy;
      var n := |ys| - 1;
      assert zs[..|zs| - 1] == xs + ys[..n];
      assert fz[..|fz| - 1] == fx + fy[..n];
      SelectAppend(xs, fx, ys[..n], fy[..n]);
      assert zs[|zs| - 1] == ys[n] && fz[|fz| - 1] == fy[n];
      var a := Select(xs, fx);
      var b := Select(ys[..n], fy[..n]);
      assert Select(zs, fz) == if fy[n] then a + b + [ys[n]] else a + b;
      assert Select(ys, fy) == if fy[n] then b + [ys[n]] else b;
      assert a + b + [ys[n]] == a + (b + [ys[n]]);
    }
  }

  /** The visible entries of a list are those of a prefix followed by
      those of the rest. */
  lemma FilterAppend(xs: seq<Entry>, ys: seq<Entry>)
    ensures Filter(xs + ys) == Filter(xs) + Filter(ys)
  {
    assert VisibleFlags(xs + ys) == VisibleFlags(xs) + VisibleFlags(ys);
    SelectAppend(xs, VisibleFlags(xs), ys, VisibleFlags(ys));
  }

  lemma FilterRest(entries: seq<Entry>, i: nat)
    requires i <= |entries|
    ensures Filter(entries) == Filter(entries[..i]) + Filter(entries[i..])
  {
    assert entries == entries[..i] + entries[i..];
    FilterAppend(entries[..i], entries[i..]);
  }

  /** An ignored entry adds nothing to the outcome, whatever lies before
      it. */
  lemma IgnoredEntrySkipped(w: Walker, entries: seq<Entry>, e: Entry)
    requires e.rel != "." && Ignore.Ignored(e.rel)
    ensures WalkSpec(w, entries + [e]) == WalkSpec(w, entries)
  {
    FilterAppend(entries, [e]);
    assert !VisibleFlags([e])[0];
    assert Filter(entries) + [] == Filter(entries);
  }

  /** Entries below an ignored directory add nothing to the walk. */
  lemma PrunedSubtree(w: Walker, entries: seq<Entry>, dir: string, below: seq<Entry>)
    requires Ignore.Ignored(dir)
    requires forall k :: 0 <= k < |below| ==> HasPrefix(below[k].rel, dir + ['/'])
    ensures WalkSpec(w, entries + below) == WalkSpec(w, entries)
  {
    FilterNone(below, dir);
    FilterAppend(entries, below);
    assert Filter(entries) + [] == Filter(entries);
  }

  lemma FilterNone(below: seq<Entry>, dir: string)
    requires Ignore.Ignored(dir)
    requires forall k :: 0 <= k < |below| ==> HasPrefix(below[k].rel, dir + ['/'])
    ensures Filter(below) == []
  {
    forall k | 0 <= k < |below|
      ensures !Visible(below[k])
    {
      HiddenBelow(below[k].rel, dir);
    }
  }

  /** A path strictly below an ignored directory is hidden. */
  lemma HiddenBelow(rel: string, dir: string)
    requires Ignore.Ignored(dir)
    requires HasPrefix(rel, dir + ['/'])
    ensures rel != "." && Ignore.Ignored(rel)
  {
    assert rel == dir + ['/'] + rel[|dir| + 1..];
    Ignore.IgnoredBelow(dir, rel[|dir| + 1..]);
    assert rel[|dir|] == '/';
  }

  /** The walk only creates and writes: none of its operations deletes. */
  lemma WalkNeverRemoves(w: Walker, entries: seq<Entry>)
    ensures forall k :: 0 <= k < |WalkSpec(w, entries).ops| ==> !WalkSpec(w, entries).ops[k].RemoveAll?
  {
    var vis := Filter(entries);
    var out := WalkSpec(w, entries);
    forall k | 0 <= k < |out.ops|
      ensures !out.ops[k].RemoveAll?
    {
      var st := Step(w, vis[k]);
      assert Steps(w, vis)[k] == st;
      assert st == Ok(out.ops[k]);
      assert TargetPath(w, vis[k].rel) !in w.ioFails;
    }
  }

  /** On well-formed paths both ways of computing a target agree: the
      entry lands at the destination followed by its relative path. */
  lemma TargetsAgree(srcSegs: seq<string>, dstSegs: seq<string>, relSegs: seq<string>, rules: Rules, fails: set<string>)
    requires |srcSegs| >= 1 && |dstSegs| >= 1 && |relSegs| >= 1
    requires forall i :: 0 <= i < |srcSegs| ==> Paths.Plain(srcSegs[i])
    requires forall i :: 0 <= i < |dstSegs| ==> Paths.Plain(dstSegs[i])
    requires forall i :: 0 <= i < |relSegs| ==> Paths.Plain(relSegs[i])
    ensures var rel := JoinSep(relSegs, '/');
      TargetPath(Walker(rules, Paths.RootOf(srcSegs), Paths.RootOf(dstSegs), fails), rel)
        == Paths.RootOf(dstSegs) + ['/'] + rel
  {
    var rel := JoinSep(relSegs, '/');
    var src := Paths.RootOf(srcSegs);
    var dst := Paths.RootOf(dstSegs);
    var w := Walker(rules, src, dst, fails);
    Paths.JoinPlainShape(relSegs);
    assert rel != ".";
    Paths.JoinRootedPlain(dstSegs, relSegs);
    if rules.ProjectRules? {
      Paths.JoinRootedPlain(srcSegs, relSegs);
      ProjectTargetJoined(w, rel);
    }
  }

  /** In a project clone, an entry whose source path is the source
      directory, a slash and its relative path lands at the destination
      followed by the same relative path. */
  lemma ProjectTargetJoined(w: Walker, rel: string)
    requires w.rules.ProjectRules? && rel != "."
    requires Paths.Join([w.srcDir, rel]) == w.srcDir + ['/'] + rel
    ensures TargetPath(w, rel) == w.dstDir + ['/'] + rel
  {
    var src, dst := w.srcDir, w.dstDir;
    assert SourcePath(src, rel) == [] + src + (['/'] + rel);
    ReplaceFirstAt([], src, ['/'] + rel, dst);
    assert [] + dst + (['/'] + rel) == dst + ['/'] + rel;
  }

  /** The source directory itself maps to the destination in a project
      clone. */
  lemma ProjectRootTarget(w: Walker)
    requires w.rules.ProjectRules?
    ensures TargetPath(w, ".") == w.dstDir
  {
    ReplaceFirstAt([], w.srcDir, [], w.dstDir);
    assert [] + w.srcDir + [] == w.srcDir;
    assert [] + w.dstDir + [] == w.dstDir;
  }
}
