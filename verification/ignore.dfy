/** The ignore matcher of the cutter: a path relative to the tree being
    cloned is skipped when one of its '/'-separated elements matches one of
    a fixed list of patterns. A pattern matches an element when it equals
    it, or, for a pattern of the form `*.ext`, when the element ends in
    `.ext`. No other wildcard is understood. */
module Ignore {
  import opened Strs

  /** The built-in pattern list, in the order the matcher tries it. */
  const DefaultIgnores: seq<string> := [
    ".git", "node_modules", "vendor", "log", "logs", "tmp", "temp",
    ".idea", ".vscode", ".DS_Store", "*.log", "*.tmp", ".env.local",
    ".env.*.local", "coverage", "dist", "build"]

  predicate PatternMatches(part: string, pat: string) {
    part == pat || (HasPrefix(pat, "*.") && HasSuffix(part, pat[1..]))
  }

  predicate MatchesAny(part: string, pats: seq<string>) {
    exists j :: 0 <= j < |pats| && PatternMatches(part, pats[j])
  }

  /** The reference meaning of the matcher: some element of the path
      matches some default pattern. */
  predicate Ignored(rel: string) {
    AnyPartMatches(Split(rel, '/'))
  }

  predicate AnyPartMatches(parts: seq<string>) {
    exists i :: 0 <= i < |parts| && MatchesAny(parts[i], DefaultIgnores)
  }

  /** The matcher as the cutter runs it: elements left to right, patterns
      in list order, stopping at the first match. */
  method ShouldIgnore(rel: string) returns (ignore: bool)
    ensures ignore <==> Ignored(rel)
  {
    var parts := Split(rel, '/');
    var i := 0;
    while i < |parts|
      invariant 0 <= i <= |parts|
      invariant !AnyPartMatches(parts[..i])
    {
      var hit := PartIgnored(parts[i]);
      if hit {
        return true;
      }
      AnyPartConcat(parts[..i], [parts[i]]);
      assert parts[..i] + [parts[i]] == parts[..i + 1];
      i := i + 1;
    }
    assert parts[..i] == parts;
    return false;
  }

  /** The inner scan of the matcher: the patterns in list order against
      one element. */
  method PartIgnored(part: string) returns (hit: bool)
    ensures hit <==> MatchesAny(part, DefaultIgnores)
  {
    var j := 0;
    while j < |DefaultIgnores|
      invariant 0 <= j <= |DefaultIgnores|
      invariant forall m :: 0 <= m < j ==> !PatternMatches(part, DefaultIgnores[m])
    {
      var pat := DefaultIgnores[j];
      if part == pat {
        return true;
      }
      if HasPrefix(pat, "*.") {
        var ext := pat[1..];
        if HasSuffix(part, ext) {
          return true;
        }
      }
      j := j + 1;
    }
    return false;
  }

  /** A path below another is ignored exactly when the upper path or the
      rest below it is: matching is per element, so an ignored directory
      takes its whole subtree with it. */
  lemma IgnoredJoin(a: string, b: string)
    ensures Ignored(a + ['/'] + b) <==> Ignored(a) || Ignored(b)
  {
    SplitConcat(a, '/', b);
    AnyPartConcat(Split(a, '/'), Split(b, '/'));
  }

  lemma AnyPartConcat(pa: seq<string>, pb: seq<string>)
    ensures AnyPartMatches(pa + pb) <==> AnyPartMatches(pa) || AnyPartMatches(pb)
  {
    var p := pa + pb;
    if AnyPartMatches(pa) {
      var i :| 0 <= i < |pa| && MatchesAny(pa[i], DefaultIgnores);
      assert p[i] == pa[i];
    }
    if AnyPartMatches(pb) {
      var i :| 0 <= i < |pb| && MatchesAny(pb[i], DefaultIgnores);
      assert p[|pa| + i] == pb[i];
    }
    if AnyPartMatches(p) {
      var i :| 0 <= i < |p| && MatchesAny(p[i], DefaultIgnores);
      if i < |pa| {
        assert pa[i] == p[i];
      } else {
        assert pb[i - |pa|] == p[i];
      }
    }
  }

  /** Monotonicity: once a path is ignored, so is everything below it. */
  lemma IgnoredBelow(a: string, b: string)
    requires Ignored(a)
    ensures Ignored(a + ['/'] + b)
  {
    IgnoredJoin(a, b);
  }

  /** A single element is ignored exactly when it matches a pattern. */
  lemma IgnoredElement(part: string)
    requires '/' !in part
    ensures Ignored(part) <==> MatchesAny(part, DefaultIgnores)
  {
    SplitNoSep(part, '/');
    assert Split(part, '/')[0] == part;
  }

  /** `*.log` reaches every element, not only the last one. */
  lemma LogFileIgnored()
    ensures Ignored("a/b/c.log")
  {
    assert PatternMatches("c.log", DefaultIgnores[10]);
    IgnoredElement("c.log");
    assert "a/b/c.log" == "a/b" + ['/'] + "c.log";
    IgnoredJoin("a/b", "c.log");
  }

  /** An ignored directory prunes whatever lies below it. */
  lemma VendorIgnored()
    ensures Ignored("vendor/x/y.go")
  {
    assert PatternMatches("vendor", DefaultIgnores[2]);
    IgnoredElement("vendor");
    assert "vendor/x/y.go" == "vendor" + ['/'] + "x/y.go";
    IgnoredBelow("vendor", "x/y.go");
  }

  /** `.env.*.local` is matched literally: the '*' inside it is no
      wildcard, so a concrete local environment file is kept. */
  lemma EnvLocalNotIgnored()
    ensures !Ignored(".env.prod.local")
  {
    var part := ".env.prod.local";
    assert |part| == 15 && part[14] == 'l';
    PatternShapes();
    forall j | 0 <= j < |DefaultIgnores|
      ensures !PatternMatches(part, DefaultIgnores[j])
    {
      NoMatch(part, DefaultIgnores[j]);
    }
    IgnoredElement(part);
  }

  /** Every default pattern is at most 12 characters long, and the two
      `*.ext` patterns end in 'g' and 'p'. */
  lemma PatternShapes()
    ensures forall j :: 0 <= j < |DefaultIgnores| ==> |DefaultIgnores[j]| <= 12
    ensures forall j :: 0 <= j < |DefaultIgnores| && |DefaultIgnores[j]| > 0 && DefaultIgnores[j][0] == '*' ==>
      DefaultIgnores[j][|DefaultIgnores[j]| - 1] in "gp"
  {
  }

  /** An element longer than a pattern can only match it through the
      pattern's extension, which ends in the pattern's last character. */
  lemma NoMatch(part: string, pat: string)
    requires |part| > |pat| && |part| > 0
    requires |pat| > 0 && pat[0] == '*' ==> part[|part| - 1] != pat[|pat| - 1]
    ensures !PatternMatches(part, pat)
  {
  }
}
