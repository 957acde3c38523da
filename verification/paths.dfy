/** The lexical part of Go's `path/filepath` on a Unix host, where the
    separator is '/': `Clean`, `Join`, `Base` and `Ext`. Nothing here looks
    at a real file system. */
module Paths {
  import opened Strs

  /** A path element that `Clean` keeps as it is. */
  predicate Plain(seg: string) {
    seg != "" && seg != "." && seg != ".." && '/' !in seg
  }

  /** The element list `Clean` builds, consuming `segs` left to right:
      empty and "." elements vanish, ".." removes the element before it,
      and a ".." that reaches the root of a rooted path is dropped. */
  function CleanSegs(rooted: bool, segs: seq<string>): seq<string>
    decreases |segs|
  {
    if segs == [] then []
    else
      var acc := CleanSegs(rooted, segs[..|segs| - 1]);
      var seg := segs[|segs| - 1];
      if seg == "" || seg == "." then acc
      else if seg == ".." then
        if |acc| > 0 && acc[|acc| - 1] != ".." then acc[..|acc| - 1]
        else if rooted then acc
        else acc + [".."]
      else acc + [seg]
  }

  /** Go's `filepath.Clean`. */
  function Clean(p: string): string {
    if p == "" then "."
    else
      var rooted := p[0] == '/';
      var out := CleanSegs(rooted, Split(p, '/'));
      if rooted then "/" + JoinSep(out, '/')
      else if out == [] then "."
      else JoinSep(out, '/')
  }

  /** Go's `filepath.Join`: the elements from the first non-empty one on,
      joined with '/' and cleaned; "" when every element is empty. */
  function Join(elems: seq<string>): string
    decreases |elems|
  {
    if elems == [] then ""
    else if elems[0] == "" then Join(elems[1..])
    else Clean(JoinSep(elems, '/'))
  }

  /** The rooted path of a list of elements. */
  function RootOf(segs: seq<string>): string {
    "/" + JoinSep(segs, '/')
  }

  lemma {:induction false} CleanSegsPlain(rooted: bool, lead: seq<string>, segs: seq<string>)
    requires forall i :: 0 <= i < |lead| ==> lead[i] == ""
    requires forall i :: 0 <= i < |segs| ==> Plain(segs[i])
    ensures CleanSegs(rooted, lead + segs) == segs
    decreases |segs|
  {
    if segs == [] {
      CleanSegsEmpty(rooted, lead);
      assert lead + segs == lead;
    } else {
      var n := |segs| - 1;
      assert (lead + segs)[..|lead + segs| - 1] == lead + segs[..n];
      CleanSegsPlain(rooted, lead, segs[..n]);
      assert segs[..n] + [segs[n]] == segs;
    }
  }

  lemma {:induction false} CleanSegsEmpty(rooted: bool, lead: seq<string>)
    requires forall i :: 0 <= i < |lead| ==> lead[i] == ""
    ensures CleanSegs(rooted, lead) == []
    decreases |lead|
  {
    if lead != [] {
      CleanSegsEmpty(rooted, lead[..|lead| - 1]);
    }
  }

  lemma PlainNoSep(segs: seq<string>)
    requires forall i :: 0 <= i < |segs| ==> Plain(segs[i])
    ensures forall i :: 0 <= i < |segs| ==> '/' !in segs[i]
  {
  }

  /** A relative path of plain elements is already clean. */
  lemma CleanRelativePlain(segs: seq<string>)
    requires |segs| >= 1
    requires forall i :: 0 <= i < |segs| ==> Plain(segs[i])
    ensures Clean(JoinSep(segs, '/')) == JoinSep(segs, '/')
  {
    var p := JoinSep(segs, '/');
    SplitJoin(segs, '/');
    JoinPlainShape(segs);
    CleanSegsPlain(p[0] == '/', [], segs);
    assert [] + segs == segs;
  }

  /** A rooted path of plain elements is already clean. */
  lemma CleanRootedPlain(segs: seq<string>)
    requires forall i :: 0 <= i < |segs| ==> Plain(segs[i])
    ensures Clean("/" + JoinSep(segs, '/')) == "/" + JoinSep(segs, '/')
  {
    CleanSegsRooted(segs);
    assert ("/" + JoinSep(segs, '/'))[0] == '/';
  }

  /** The elements `Clean` keeps of a rooted path of plain elements. */
  lemma CleanSegsRooted(segs: seq<string>)
    requires forall i :: 0 <= i < |segs| ==> Plain(segs[i])
    ensures CleanSegs(true, Split("/" + JoinSep(segs, '/'), '/')) == segs
  {
    SplitLeadingSep('/', JoinSep(segs, '/'));
    if segs == [] {
      CleanSegsRoot();
    } else {
      SplitJoin(segs, '/');
      var lead: seq<string> := [""];
      assert lead[0] == "";
      CleanSegsPlain(true, lead, segs);
    }
  }

  /** The root alone keeps no elements. */
  lemma CleanSegsRoot()
    ensures CleanSegs(true, [""] + Split("", '/')) == []
  {
    SplitNoSep("", '/');
    var lead: seq<string> := [""] + [""];
    assert |lead| == 2 && lead[0] == "" && lead[1] == "";
    CleanSegsEmpty(true, lead);
  }

  /** A join of plain elements is non-empty and does not start at the root. */
  lemma {:induction false} JoinPlainShape(segs: seq<string>)
    requires |segs| >= 1
    requires forall i :: 0 <= i < |segs| ==> Plain(segs[i])
    ensures JoinSep(segs, '/') != "" && JoinSep(segs, '/')[0] != '/'
    ensures HasPrefix(JoinSep(segs, '/'), segs[0])
  {
    var s0 := segs[0];
    assert s0[0] != '/' by {
      assert s0[0] in s0;
    }
    if |segs| > 1 {
      assert JoinSep(segs, '/') == s0 + (['/'] + JoinSep(segs[1..], '/'));
    }
  }

  /** Joining plain elements with `Join` is joining them with '/'. */
  lemma JoinPlain(segs: seq<string>)
    requires |segs| >= 1
    requires forall i :: 0 <= i < |segs| ==> Plain(segs[i])
    ensures Join(segs) == JoinSep(segs, '/')
  {
    CleanRelativePlain(segs);
  }

  /** Joining two plain elements puts one '/' between them. */
  lemma JoinTwoPlain(a: string, b: string)
    requires Plain(a) && Plain(b)
    ensures Join([a, b]) == a + "/" + b
  {
    JoinPlain([a, b]);
    assert [a, b][1..] == [b];
  }

  /** Joining two non-empty lists is joining each and putting one
      separator between them. */
  lemma {:induction false} JoinSepAppend(a: seq<string>, b: seq<string>, c: char)
    requires |a| >= 1 && |b| >= 1
    ensures JoinSep(a + b, c) == JoinSep(a, c) + [c] + JoinSep(b, c)
    decreases |a|
  {
    if |a| > 1 {
      assert (a + b)[1..] == a[1..] + b;
      JoinSepAppend(a[1..], b, c);
    } else {
      assert (a + b)[1..] == b;
    }
  }

  /** Joining a rooted path of plain elements and a relative path of plain
      elements puts exactly one '/' between them. */
  lemma JoinRootedPlain(a: seq<string>, b: seq<string>)
    requires |a| >= 1 && |b| >= 1
    requires forall i :: 0 <= i < |a| ==> Plain(a[i])
    requires forall i :: 0 <= i < |b| ==> Plain(b[i])
    ensures Join([RootOf(a), JoinSep(b, '/')]) == RootOf(a) + ['/'] + JoinSep(b, '/')
  {
    var x := RootOf(a);
    var y := JoinSep(b, '/');
    JoinTwo(x, y);
    RootOfAppend(a, b);
    PlainAppend(a, b);
    CleanRootedPlain(a + b);
  }

  lemma PlainAppend(a: seq<string>, b: seq<string>)
    requires forall i :: 0 <= i < |a| ==> Plain(a[i])
    requires forall i :: 0 <= i < |b| ==> Plain(b[i])
    ensures forall i :: 0 <= i < |a + b| ==> Plain((a + b)[i])
  {
    forall i | 0 <= i < |a + b|
      ensures Plain((a + b)[i])
    {
      if i < |a| {
        assert (a + b)[i] == a[i];
      } else {
        assert (a + b)[i] == b[i - |a|];
      }
    }
  }

  /** The rooted path of two lists is the rooted path of the first, a '/'
      and the join of the second. */
  lemma RootOfAppend(a: seq<string>, b: seq<string>)
    requires |a| >= 1 && |b| >= 1
    ensures RootOf(a) + ['/'] + JoinSep(b, '/') == RootOf(a + b)
  {
    JoinSepAppend(a, b, '/');
    AssocSep("/", JoinSep(a, '/'), JoinSep(b, '/'));
  }

  lemma JoinTwo(x: string, y: string)
    requires x != ""
    ensures Join([x, y]) == Clean(x + ['/'] + y)
  {
    assert [x, y][0] == x && [x, y][1..] == [y];
    assert JoinSep([x, y], '/') == x + ['/'] + JoinSep([y], '/');
  }

  function TrimTrailingSlashes(p: string): (r: string)
    ensures HasPrefix(p, r)
    ensures r == [] || r[|r| - 1] != '/'
  {
    if p != [] && p[|p| - 1] == '/' then TrimTrailingSlashes(p[..|p| - 1]) else p
  }

  /** Go's `filepath.Base`: the last element, trailing slashes ignored;
      "." for the empty path and "/" for a path of slashes only. The result
      is never empty and holds a '/' only when it is the root itself. */
  function Base(p: string): (r: string)
    ensures r != ""
    ensures '/' in r ==> r == "/"
  {
    if p == "" then "."
    else
      var t := TrimTrailingSlashes(p);
      if t == "" then "/"
      else
        var i := LastIndexChar(t, '/');
        t[i + 1..]
  }

  /** The base of a rooted path of plain elements is its last element. */
  lemma BasePlain(segs: seq<string>)
    requires |segs| >= 1
    requires forall i :: 0 <= i < |segs| ==> Plain(segs[i])
    ensures Base("/" + JoinSep(segs, '/')) == segs[|segs| - 1]
  {
    var last := segs[|segs| - 1];
    assert '/' !in last && last != [];
    RootedLast(segs);
    if |segs| > 1 {
      BaseAfterSlash("/" + JoinSep(segs[..|segs| - 1], '/'), last);
    } else {
      BaseAfterSlash([], last);
    }
  }

  /** A rooted join ends in a '/' followed by its last element. */
  lemma RootedLast(segs: seq<string>)
    requires |segs| >= 1
    ensures |segs| > 1 ==> "/" + JoinSep(segs, '/') == ("/" + JoinSep(segs[..|segs| - 1], '/')) + ['/'] + segs[|segs| - 1]
    ensures |segs| == 1 ==> "/" + JoinSep(segs, '/') == [] + ['/'] + segs[0]
  {
    JoinLast(segs);
    if |segs| > 1 {
      AssocSep("/", JoinSep(segs[..|segs| - 1], '/'), segs[|segs| - 1]);
    }
  }

  /** The base of a path ending in a '/' and a non-empty name is that name. */
  lemma BaseAfterSlash(x: string, last: string)
    requires last != [] && '/' !in last
    ensures Base(x + ['/'] + last) == last
  {
    var p := x + ['/'] + last;
    assert p[|p| - 1] != '/' by {
      assert p[|p| - 1] == last[|last| - 1];
      assert last[|last| - 1] in last;
    }
    assert TrimTrailingSlashes(p) == p;
    assert LastIndexChar(p, '/') == |x| by {
      LastIndexAfter(x, '/', last);
    }
    assert p[|x| + 1..] == last;
  }

  /** A non-empty name without a '/' is its own base. */
  lemma BaseName(name: string)
    requires name != [] && '/' !in name
    ensures Base(name) == name
  {
    assert name[|name| - 1] in name;
    assert TrimTrailingSlashes(name) == name;
    assert name[0..] == name;
  }

  lemma AssocSep(a: string, f: string, last: string)
    ensures a + (f + ['/'] + last) == (a + f) + ['/'] + last
  {
  }

  /** A join splits as the join of all but the last element, a separator
      when there was more than one element, and the last element. */
  lemma {:induction false} JoinLast(segs: seq<string>)
    requires |segs| >= 1
    ensures |segs| == 1 ==> JoinSep(segs, '/') == segs[0]
    ensures |segs| > 1 ==>
      JoinSep(segs, '/') == JoinSep(segs[..|segs| - 1], '/') + ['/'] + segs[|segs| - 1]
    decreases |segs|
  {
    if |segs| > 2 {
      JoinLast(segs[1..]);
      assert segs[1..][..|segs| - 2] == segs[..|segs| - 1][1..];
    } else if |segs| == 2 {
      assert segs[..1] == [segs[0]];
    }
  }

  /** Go's `filepath.Ext`: the suffix from the last '.' of the last
      element, or "" when that element has no '.'. */
  function Ext(p: string): (r: string)
    ensures r == [] || (r[0] == '.' && HasSuffix(p, r) && '.' !in r[1..] && '/' !in r)
  {
    if p == [] || p[|p| - 1] == '/' then ""
    else if p[|p| - 1] == '.' then "."
    else
      var e := Ext(p[..|p| - 1]);
      if e == "" then "" else e + [p[|p| - 1]]
  }

  /** Any text followed by an extension has that extension. */
  lemma {:induction false} ExtAppend(x: string, e: string)
    requires e != [] && e[0] == '.' && '.' !in e[1..] && '/' !in e
    ensures Ext(x + e) == e
    decreases |e|
  {
    if |e| > 1 {
      var init := e[..|e| - 1];
      ExtInit(e);
      ExtAppend(x, init);
      ExtLastStep(x, init, e[|e| - 1]);
      assert init + [e[|e| - 1]] == e;
      assert x + init + [e[|e| - 1]] == x + e;
    } else {
      assert (x + e)[|x + e| - 1] == '.';
    }
  }

  /** Dropping the last character of a longer extension leaves one. */
  lemma ExtInit(e: string)
    requires |e| > 1 && e[0] == '.' && '.' !in e[1..] && '/' !in e
    ensures var init := e[..|e| - 1];
      init != [] && init[0] == '.' && '.' !in init[1..] && '/' !in init
    ensures e[|e| - 1] != '.' && e[|e| - 1] != '/'
  {
    var init := e[..|e| - 1];
    assert e[|e| - 1] in e[1..];
    assert init[1..] == e[1..|e| - 1];
    assert forall ch :: ch in e[1..|e| - 1] ==> ch in e[1..];
    assert forall ch :: ch in init ==> ch in e;
  }

  /** One more ordinary character after a path with an extension extends
      the extension. */
  lemma ExtLastStep(x: string, init: string, c: char)
    requires Ext(x + init) == init && init != []
    requires c != '.' && c != '/'
    ensures Ext(x + init + [c]) == init + [c]
  {
    var p := x + init + [c];
    assert p[..|p| - 1] == x + init;
  }

  /** A path whose last element has no extension ends in text that has none. */
  lemma {:induction false} ExtEmptySuffix(a: string, b: string)
    requires Ext(a + b) == ""
    ensures Ext(b) == ""
    decreases |b|
  {
    if b != [] {
      var p := a + b;
      assert p[|p| - 1] == b[|b| - 1];
      if b[|b| - 1] != '/' {
        assert p[..|p| - 1] == a + b[..|b| - 1];
        ExtEmptySuffix(a, b[..|b| - 1]);
      }
    }
  }
}
