/** Naming helpers of the code generator: the field and layer predicates the
    templates call, and the removal of a configured table-name prefix from a
    derived struct name and from a generated file name. */
module Naming {
  import opened Strs
  import Paths

  /** Fields every generated model carries on its own (template helper
      `isBuiltInField`). */
  predicate IsBuiltInField(name: string) {
    name in {"ID", "CreatedAt", "UpdatedAt", "DeletedAt"}
  }

  /** Fields managed by the system rather than by the user (template helper
      `isSysField`): the built-in fields plus who created, updated or
      deleted the row. */
  function IsSysField(name: string): (r: bool)
    ensures r <==> IsBuiltInField(name) || name in {"CreatedBy", "UpdatedBy", "DeletedBy"}
    ensures IsBuiltInField(name) ==> r
  {
    name in {"ID", "CreatedAt", "CreatedBy", "UpdatedAt", "UpdatedBy", "DeletedAt", "DeletedBy"}
  }

  /** Template helper `isDefaultModelLayer`. */
  predicate IsDefaultModelLayer(name: string) {
    name == "model"
  }

  /** Template helper `isDefaultDaoLayer`. */
  predicate IsDefaultDaoLayer(name: string) {
    name == "dao"
  }

  /** One underscore-separated part of a prefix in PascalCase: first rune
      upper-cased, the rest lower-cased. */
  function PascalPart(part: string): string {
    if part == "" then "" else [UpperChar(part[0])] + ToLower(part[1..])
  }

  function PascalParts(parts: seq<string>): string
    decreases |parts|
  {
    if parts == [] then "" else PascalPart(parts[0]) + PascalParts(parts[1..])
  }

  /** The struct-name form of a table prefix: one trailing '_' dropped, the
      rest split on '_' and each non-empty part in PascalCase ("iam_" gives
      "Iam", "sys_user_" gives "SysUser"). */
  function PrefixStructName(prefix: string): string {
    PascalParts(Split(TrimSuffix(prefix, "_"), '_'))
  }

  /** The struct name with the struct-name form of `prefix` removed, when the
      table carries that prefix. The result is never empty for a non-empty
      name, and when it differs from the name it is the rest of the name
      after the prefix form, first rune upper-cased. */
  function RemoveTablePrefixFromStructName(structName: string, tableName: string, prefix: string): (r: string)
    ensures structName != "" ==> r != ""
    ensures prefix == "" || !HasPrefix(tableName, prefix) || TrimSuffix(prefix, "_") == "" ==> r == structName
    ensures r != structName ==>
      var p := PrefixStructName(prefix);
      && HasPrefix(tableName, prefix)
      && HasPrefix(structName, p) && |structName| > |p|
      && r == UpperFirst(structName[|p|..])
    ensures HasPrefix(tableName, prefix) && TrimSuffix(prefix, "_") != "" ==>
      var p := PrefixStructName(prefix);
      HasPrefix(structName, p) && |structName| > |p| ==> r == UpperFirst(structName[|p|..])
  {
    if prefix == "" then structName
    else if !HasPrefix(tableName, prefix) then structName
    else if TrimSuffix(prefix, "_") == "" then structName
    else
      var p := PrefixStructName(prefix);
      if HasPrefix(structName, p) then
        var remaining := TrimPrefix(structName, p);
        if remaining != "" then UpperFirst(remaining) else structName
      else structName
  }

  /** The file name with `TrimSuffix(prefix, "_") + "_"` removed from its
      stem, when the table carries the prefix and something of the stem
      remains. The extension is always kept. */
  function RemoveTablePrefixFromFilename(filename: string, tableName: string, prefix: string): (r: string)
    ensures prefix == "" || !HasPrefix(tableName, prefix) || TrimSuffix(prefix, "_") == "" ==> r == filename
    ensures Paths.Ext(r) == Paths.Ext(filename)
    ensures r != filename ==>
      && HasPrefix(tableName, prefix)
      && filename == TrimSuffix(prefix, "_") + "_" + r
      && |r| > |Paths.Ext(filename)|
    ensures HasPrefix(tableName, prefix) && TrimSuffix(prefix, "_") != "" ==>
      var ext := Paths.Ext(filename);
      var stem := TrimSuffix(filename, ext);
      var inName := TrimSuffix(prefix, "_") + "_";
      HasPrefix(stem, inName) && |stem| > |inName| ==> r == stem[|inName|..] + ext
  {
    if prefix == "" then filename
    else if !HasPrefix(tableName, prefix) then filename
    else
      var ext := Paths.Ext(filename);
      var stem := TrimSuffix(filename, ext);
      var bare := TrimSuffix(prefix, "_");
      if bare == "" then filename
      else
        var inName := bare + "_";
        if HasPrefix(stem, inName) && |stem| > |inName| then
          StemSplit(filename, inName, ext);
          stem[|inName|..] + ext
        else filename
  }

  /** The pieces of a file name whose stem starts with `inName`. */
  lemma StemSplit(filename: string, inName: string, ext: string)
    requires ext == Paths.Ext(filename)
    requires HasPrefix(TrimSuffix(filename, ext), inName) && |TrimSuffix(filename, ext)| > |inName|
    ensures var remaining := TrimSuffix(filename, ext)[|inName|..];
      filename == inName + (remaining + ext) && Paths.Ext(remaining + ext) == ext && remaining != []
  {
    var stem := TrimSuffix(filename, ext);
    var remaining := stem[|inName|..];
    StemPieces(filename, inName, ext);
    ExtKept(filename, inName, remaining, ext);
  }

  lemma StemPieces(filename: string, inName: string, ext: string)
    requires ext == [] || HasSuffix(filename, ext)
    requires HasPrefix(TrimSuffix(filename, ext), inName) && |TrimSuffix(filename, ext)| > |inName|
    ensures filename == inName + (TrimSuffix(filename, ext)[|inName|..] + ext)
  {
    var stem := TrimSuffix(filename, ext);
    var rest := stem[|inName|..];
    assert filename == stem + ext;
    assert stem == inName + rest;
    assert (inName + rest) + ext == inName + (rest + ext);
  }

  lemma ExtKept(filename: string, inName: string, remaining: string, ext: string)
    requires ext == Paths.Ext(filename)
    requires filename == inName + (remaining + ext)
    ensures Paths.Ext(remaining + ext) == ext
  {
    if ext == "" {
      assert remaining + ext == remaining;
      assert filename == inName + remaining;
      Paths.ExtEmptySuffix(inName, remaining);
      assert remaining + ext == remaining;
    } else {
      Paths.ExtAppend(remaining, ext);
    }
  }

  /** Stripping undoes prefixing: a struct name made of the prefix's struct
      form followed by a capitalised rest strips to that rest. */
  lemma StructPrefixRoundTrip(prefix: string, tableName: string, rest: string)
    requires HasPrefix(tableName, prefix) && TrimSuffix(prefix, "_") != ""
    requires rest != "" && UpperChar(rest[0]) == rest[0]
    ensures RemoveTablePrefixFromStructName(PrefixStructName(prefix) + rest, tableName, prefix) == rest
  {
    var p := PrefixStructName(prefix);
    assert (p + rest)[..|p|] == p;
    assert (p + rest)[|p|..] == rest;
  }

  /** Stripping undoes prefixing: `<prefix without its '_'>_<stem><ext>`
      strips to `<stem><ext>`. */
  lemma FilenamePrefixRoundTrip(prefix: string, tableName: string, stem: string, ext: string)
    requires HasPrefix(tableName, prefix) && TrimSuffix(prefix, "_") != ""
    requires stem != ""
    requires ext != [] && ext[0] == '.' && '.' !in ext[1..] && '/' !in ext
    ensures RemoveTablePrefixFromFilename(TrimSuffix(prefix, "_") + "_" + stem + ext, tableName, prefix)
         == stem + ext
  {
    var inName := TrimSuffix(prefix, "_") + "_";
    var filename := inName + stem + ext;
    Paths.ExtAppend(inName + stem, ext);
    assert TrimSuffix(filename, ext) == inName + stem;
    assert (inName + stem)[..|inName|] == inName;
    assert (inName + stem)[|inName|..] == stem;
  }

  lemma PrefixStructNameIam()
    ensures PrefixStructName("iam_") == "Iam"
  {
    assert TrimSuffix("iam_", "_") == "iam";
    SplitNoSep("iam", '_');
    assert ToLower("am") == "am";
  }

  /** The example of the function's own doc comment: table `iam_users` with
      prefix `iam_` turns `IamUsers` into `Users`; and a table without the
      prefix keeps its name. */
  lemma StripStructExamples()
    ensures RemoveTablePrefixFromStructName("IamUsers", "iam_users", "iam_") == "Users"
    ensures RemoveTablePrefixFromStructName("Users", "users", "iam_") == "Users"
  {
    assert RemoveTablePrefixFromStructName("IamUsers", "iam_users", "iam_") == "Users" by {
      PrefixStructNameIam();
      assert HasPrefix("iam_users", "iam_");
      assert "IamUsers" == "Iam" + "Users";
      StructPrefixRoundTrip("iam_", "iam_users", "Users");
    }
    assert !HasPrefix("users", "iam_") by {
      assert "users"[0] != "iam_"[0];
    }
  }

  /** The example of the function's own doc comment: `iam_user.go` of
      table `iam_users` with prefix `iam_` becomes `user.go`. */
  lemma StripFilenameExample()
    ensures RemoveTablePrefixFromFilename("iam_user.go", "iam_users", "iam_") == "user.go"
  {
    IamFilePieces();
    FilenamePrefixRoundTrip("iam_", "iam_users", "user", ".go");
  }

  /** A prefix whose struct form ends inside a word still strips: prefix
      `ia` turns `IamUsers` into `MUsers`, the rest's first letter being
      upper-cased. */
  lemma StripStructMidWord()
    ensures RemoveTablePrefixFromStructName("IamUsers", "iam_users", "ia") == "MUsers"
  {
    assert TrimSuffix("ia", "_") == "ia";
    SplitNoSep("ia", '_');
    assert ToLower("a") == "a";
    assert PrefixStructName("ia") == "Ia";
    assert HasPrefix("iam_users", "ia");
    assert "IamUsers" == "Ia" + "mUsers";
    assert UpperFirst("mUsers") == "MUsers";
  }

  /** A file name without an extension strips too: `iam_user` becomes
      `user`. */
  lemma StripFilenameNoExt()
    ensures RemoveTablePrefixFromFilename("iam_user", "iam_users", "iam_") == "user"
  {
    var f := "iam_user";
    assert Paths.Ext(f) == "";
    assert TrimSuffix(f, "") == f;
    assert TrimSuffix("iam_", "_") == "iam";
    assert HasPrefix("iam_users", "iam_");
    assert HasPrefix(f, "iam_") && f[4..] == "user";
  }

  lemma IamFilePieces()
    ensures HasPrefix("iam_users", "iam_") && TrimSuffix("iam_", "_") == "iam"
    ensures ".go"[0] == '.' && '.' !in ".go"[1..] && '/' !in ".go"
    ensures TrimSuffix("iam_", "_") + "_" + "user" + ".go" == "iam_user.go"
  {
    assert ".go"[1..] == "go";
    assert "iam_"[..3] == "iam";
  }
}
