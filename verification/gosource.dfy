/** The parts of a parsed Go file the cutter touches: the package name and
    the import specs, whose path is kept as the quoted literal the parser
    reports. Everything else in the file is carried along untouched. */
module GoSource {
  import opened Strs

  /** One import spec: the optional local name ("" when absent) and the
      path literal, quotes included. */
  datatype ImportSpec = ImportSpec(localName: string, pathLit: string)

  datatype GoFile = GoFile(packageName: string, imports: seq<ImportSpec>, rest: string)

  /** The import path of a spec: its literal with every surrounding '"'
      trimmed. */
  function ImportPath(spec: ImportSpec): string {
    TrimChar(spec.pathLit, '"')
  }

  /** The literal written back for a rewritten path. */
  function Quote(p: string): (r: string)
    ensures |r| == |p| + 2 && r[0] == '"' && r[|r| - 1] == '"'
    ensures r[1..|r| - 1] == p
  {
    ['"'] + p + ['"']
  }

  /** Reading a written-back literal gives the path that was written, as
      long as the path itself neither starts nor ends with a quote. */
  lemma ImportPathQuote(localName: string, p: string)
    requires p == [] || (p[0] != '"' && p[|p| - 1] != '"')
    ensures ImportPath(ImportSpec(localName, Quote(p))) == p
  {
    var q := Quote(p);
    assert q[1..] == p + ['"'];
    var t := p + ['"'];
    assert t[..|t| - 1] == p;
    if p == [] {
      assert TrimChar(t, '"') == TrimChar([], '"');
    } else {
      assert TrimChar(q, '"') == TrimChar(t, '"');
      assert t[0] == p[0] && t[0] != '"';
      assert TrimChar(t, '"') == TrimChar(p, '"');
      assert TrimChar(p, '"') == p;
    }
  }
}
