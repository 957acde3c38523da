/** The parts of Go's `strings` package the tool relies on, over `string`
    (a sequence of runes). Search, replacement and splitting follow Go's
    left-to-right, non-overlapping semantics; casing is ASCII only. */
module Strs {

  predicate HasPrefix(s: string, p: string) {
    |p| <= |s| && s[..|p|] == p
  }

  predicate HasSuffix(s: string, p: string) {
    |p| <= |s| && s[|s| - |p|..] == p
  }

  function TrimPrefix(s: string, p: string): (r: string)
    ensures HasPrefix(s, p) ==> s == p + r
    ensures !HasPrefix(s, p) ==> r == s
  {
    if HasPrefix(s, p) then s[|p|..] else s
  }

  function TrimSuffix(s: string, p: string): (r: string)
    ensures HasSuffix(s, p) ==> s == r + p
    ensures !HasSuffix(s, p) ==> r == s
  {
    if HasSuffix(s, p) then s[..|s| - |p|] else s
  }

  /** `sub` occurs in `s` starting at index `i`. */
  predicate OccursAt(s: string, sub: string, i: int) {
    0 <= i && i + |sub| <= |s| && s[i..i + |sub|] == sub
  }

  /** The first index at or after `from` where `sub` occurs in `s`, or -1. */
  function IndexFrom(s: string, sub: string, from: nat): (r: int)
    decreases |s| - from
    ensures r == -1 || (from <= r && OccursAt(s, sub, r))
    ensures r == -1 ==> forall j :: from <= j ==> !OccursAt(s, sub, j)
    ensures r >= 0 ==> forall j :: from <= j < r ==> !OccursAt(s, sub, j)
  {
    if from + |sub| > |s| then -1
    else if s[from..from + |sub|] == sub then from
    else IndexFrom(s, sub, from + 1)
  }

  /** Go's `strings.Index`: the first occurrence of `sub` in `s`, or -1. */
  function Index(s: string, sub: string): int {
    IndexFrom(s, sub, 0)
  }

  /** Go's `strings.Contains`. */
  predicate Contains(s: string, sub: string) {
    Index(s, sub) >= 0
  }

  lemma IndexIsFirst(s: string, sub: string, k: int)
    requires OccursAt(s, sub, k)
    requires forall j :: 0 <= j < k ==> !OccursAt(s, sub, j)
    ensures Index(s, sub) == k
  {
  }

  lemma IndexNone(s: string, sub: string)
    requires forall j :: 0 <= j ==> !OccursAt(s, sub, j)
    ensures Index(s, sub) == -1
  {
  }

  lemma ContainsIff(s: string, sub: string)
    ensures Contains(s, sub) <==> exists j :: OccursAt(s, sub, j)
  {
    if !Contains(s, sub) {
      assert forall j :: 0 <= j ==> !OccursAt(s, sub, j);
    }
  }

  lemma OccursShift(x: string, b: string, sub: string, j: int)
    requires 0 <= j
    ensures OccursAt(b, sub, j) <==> OccursAt(x + b, sub, |x| + j)
  {
    if 0 <= j && j + |sub| <= |b| {
      assert (x + b)[|x| + j..|x| + j + |sub|] == b[j..j + |sub|];
    }
  }

  lemma OccursExtend(a: string, y: string, sub: string, j: int)
    requires j + |sub| <= |a|
    ensures OccursAt(a, sub, j) <==> OccursAt(a + y, sub, j)
  {
    if 0 <= j {
      assert (a + y)[j..j + |sub|] == a[j..j + |sub|];
    }
  }

  /** An occurrence found in `a` stays the first one when text is appended. */
  lemma IndexExtend(a: string, x: string, sub: string)
    requires Index(a, sub) >= 0
    ensures Index(a + x, sub) == Index(a, sub)
  {
    var k := Index(a, sub);
    OccursExtend(a, x, sub, k);
    forall j | 0 <= j < k
      ensures !OccursAt(a + x, sub, j)
    {
      OccursExtend(a, x, sub, j);
    }
    IndexIsFirst(a + x, sub, k);
  }

  /** Go's `strings.Replace(s, pat, rep, 1)`: only the first occurrence is
      replaced; an empty `pat` matches at the start. */
  function ReplaceFirst(s: string, pat: string, rep: string): (r: string)
    ensures !Contains(s, pat) ==> r == s
    ensures Contains(s, pat) ==>
      exists i :: OccursAt(s, pat, i) && (forall j :: 0 <= j < i ==> !OccursAt(s, pat, j))
        && r == s[..i] + rep + s[i + |pat|..]
  {
    var i := Index(s, pat);
    if i < 0 then s else s[..i] + rep + s[i + |pat|..]
  }

  /** Go's `strings.Replace(s, pat, rep, -1)` (= `strings.ReplaceAll`):
      non-overlapping occurrences, scanned left to right; an empty `pat`
      matches before every rune and at the end. */
  function ReplaceAll(s: string, pat: string, rep: string): string
  {
    if pat == [] then Interleave(s, rep) else ReplaceEvery(s, pat, rep)
  }

  /** `rep` before every rune of `s` and once at the end. */
  function Interleave(s: string, rep: string): string
  {
    if s == [] then rep else rep + [s[0]] + Interleave(s[1..], rep)
  }

  /** The leftmost-first scan: at each position either `pat` starts there
      and is replaced, or one rune is kept. */
  function ReplaceEvery(s: string, pat: string, rep: string): string
    requires pat != []
    decreases |s|
  {
    if s == [] then s
    else if HasPrefix(s, pat) then rep + ReplaceEvery(s[|pat|..], pat, rep)
    else [s[0]] + ReplaceEvery(s[1..], pat, rep)
  }

  lemma OccursAtZero(s: string, pat: string)
    ensures OccursAt(s, pat, 0) <==> HasPrefix(s, pat)
  {
  }

  lemma OccursTail(x: char, s: string, pat: string, j: int)
    requires 0 <= j
    ensures OccursAt(s, pat, j) <==> OccursAt([x] + s, pat, j + 1)
  {
    OccursShift([x], s, pat, j);
  }

  /** Text without an occurrence of `pat` is left as it is. */
  lemma {:induction false} ReplaceAllAbsent(s: string, pat: string, rep: string)
    requires pat != []
    requires forall j :: 0 <= j ==> !OccursAt(s, pat, j)
    ensures ReplaceAll(s, pat, rep) == s
    decreases |s|
  {
    if s != [] {
      OccursAtZero(s, pat);
      forall j | 0 <= j
        ensures !OccursAt(s[1..], pat, j)
      {
        assert s == [s[0]] + s[1..];
        OccursTail(s[0], s[1..], pat, j);
      }
      ReplaceAllAbsent(s[1..], pat, rep);
    }
  }

  /** Replacing the first occurrence touches nothing before or after it. */
  lemma {:induction false} ReplaceFirstAt(a: string, pat: string, b: string, rep: string)
    requires forall j :: 0 <= j < |a| ==> !OccursAt(a + pat + b, pat, j)
    ensures ReplaceFirst(a + pat + b, pat, rep) == a + rep + b
  {
    var s := a + pat + b;
    assert s[|a|..|a| + |pat|] == pat;
    IndexIsFirst(s, pat, |a|);
    assert s[..|a|] == a;
    assert s[|a| + |pat|..] == b;
  }

  /** When `pat` occurs exactly once, replacing all occurrences replaces that
      one and keeps the text around it. */
  lemma {:induction false} ReplaceAllUnique(a: string, pat: string, b: string, rep: string)
    requires pat != []
    requires forall j :: OccursAt(a + pat + b, pat, j) ==> j == |a|
    ensures ReplaceAll(a + pat + b, pat, rep) == a + rep + b
    decreases |a|
  {
    var s := a + pat + b;
    if a == [] {
      assert s == pat + b;
      assert HasPrefix(s, pat);
      assert s[|pat|..] == b;
      forall j | 0 <= j
        ensures !OccursAt(b, pat, j)
      {
        OccursShift(pat, b, pat, j);
      }
      ReplaceAllAbsent(b, pat, rep);
    } else {
      OccursAtZero(s, pat);
      var t := a[1..] + pat + b;
      assert s == [a[0]] + t;
      forall j | OccursAt(t, pat, j)
        ensures j == |a[1..]|
      {
        if j >= 0 {
          OccursTail(a[0], t, pat, j);
        }
      }
      ReplaceAllUnique(a[1..], pat, b, rep);
      assert [a[0]] + (a[1..] + rep + b) == a + rep + b;
    }
  }

  /** A replacement target without the separator `c` never spans it, so
      replacing in `a + [c] + b` replaces in each side separately. */
  lemma {:induction false} ReplaceAllSep(a: string, c: char, b: string, pat: string, rep: string)
    requires pat != [] && c !in pat
    ensures ReplaceAll(a + [c] + b, pat, rep) == ReplaceAll(a, pat, rep) + [c] + ReplaceAll(b, pat, rep)
    decreases |a|
  {
    var s := a + [c] + b;
    if a == [] {
      assert s == [c] + b;
      assert s[0] == c;
      assert !HasPrefix(s, pat);
      assert s[1..] == b;
    } else if HasPrefix(a, pat) {
      assert HasPrefix(s, pat) by {
        assert s[..|pat|] == a[..|pat|];
      }
      assert s[|pat|..] == a[|pat|..] + [c] + b;
      ReplaceAllSep(a[|pat|..], c, b, pat, rep);
    } else {
      assert |pat| <= |a| ==> a[..|pat|] == s[..|pat|];
      assert s[|a|] == c;
      assert !HasPrefix(s, pat);
      assert s[1..] == a[1..] + [c] + b;
      ReplaceAllSep(a[1..], c, b, pat, rep);
    }
  }

  /** Go's `strings.Join(parts, string(c))`. */
  function JoinSep(parts: seq<string>, c: char): string
    decreases |parts|
  {
    if |parts| == 0 then ""
    else if |parts| == 1 then parts[0]
    else parts[0] + [c] + JoinSep(parts[1..], c)
  }

  function ReplaceEach(parts: seq<string>, pat: string, rep: string): (r: seq<string>)
    ensures |r| == |parts|
    ensures forall i :: 0 <= i < |parts| ==> r[i] == ReplaceAll(parts[i], pat, rep)
  {
    seq(|parts|, i requires 0 <= i < |parts| => ReplaceAll(parts[i], pat, rep))
  }

  /** Replacing in a `c`-separated path is replacing in each segment. */
  lemma {:induction false} ReplaceAllJoin(parts: seq<string>, c: char, pat: string, rep: string)
    requires pat != [] && c !in pat
    ensures ReplaceAll(JoinSep(parts, c), pat, rep) == JoinSep(ReplaceEach(parts, pat, rep), c)
    decreases |parts|
  {
    if |parts| >= 2 {
      ReplaceAllSep(parts[0], c, JoinSep(parts[1..], c), pat, rep);
      ReplaceAllJoin(parts[1..], c, pat, rep);
      assert ReplaceEach(parts, pat, rep)[1..] == ReplaceEach(parts[1..], pat, rep);
    }
  }

  /** Go's `strings.Split(s, string(c))`: always at least one part. */
  function Split(s: string, c: char): (r: seq<string>)
    decreases |s|
    ensures |r| >= 1
  {
    var i := Index(s, [c]);
    if i < 0 then [s] else [s[..i]] + Split(s[i + 1..], c)
  }

  lemma OccursChar(s: string, c: char, j: int)
    ensures OccursAt(s, [c], j) <==> 0 <= j < |s| && s[j] == c
  {
    if 0 <= j < |s| {
      assert s[j..j + 1] == [s[j]];
    }
  }

  lemma SplitNoSep(s: string, c: char)
    requires c !in s
    ensures Split(s, c) == [s]
  {
    forall j | 0 <= j
      ensures !OccursAt(s, [c], j)
    {
      OccursChar(s, c, j);
    }
    IndexNone(s, [c]);
  }

  lemma {:induction false} SplitConcat(a: string, c: char, b: string)
    ensures Split(a + [c] + b, c) == Split(a, c) + Split(b, c)
    decreases |a|
  {
    var s := a + [c] + b;
    var k := Index(a, [c]);
    if k >= 0 {
      SplitPieces(a, c, b);
      var x, y := a[k + 1..], Split(b, c);
      SplitConcat(x, c, b);
      SeqAssoc([a[..k]], Split(x, c), y);
    } else {
      SplitFirstSep(a, c, b);
      assert Split(a, c) == [a];
    }
  }

  /** Where the first separator of `a` is also the first one of
      `a + [c] + b`, and what follows it. */
  lemma SplitPieces(a: string, c: char, b: string)
    requires Index(a, [c]) >= 0
    ensures var k := Index(a, [c]);
      && Index(a + [c] + b, [c]) == k
      && (a + [c] + b)[..k] == a[..k]
      && (a + [c] + b)[k + 1..] == a[k + 1..] + [c] + b
  {
    var k := Index(a, [c]);
    IndexExtend(a, [c] + b, [c]);
    assert a + [c] + b == a + ([c] + b);
  }

  /** With no separator in `a`, the separator after it is the first one. */
  lemma SplitFirstSep(a: string, c: char, b: string)
    requires Index(a, [c]) < 0
    ensures Index(a + [c] + b, [c]) == |a|
    ensures (a + [c] + b)[..|a|] == a && (a + [c] + b)[|a| + 1..] == b
    ensures Index(a, [c]) == -1
  {
    var s := a + [c] + b;
    forall j | 0 <= j < |a|
      ensures !OccursAt(s, [c], j)
    {
      OccursChar(s, c, j);
      OccursChar(a, c, j);
    }
    OccursChar(s, c, |a|);
    IndexIsFirst(s, [c], |a|);
    assert s[..|a|] == a;
    assert s[|a| + 1..] == b;
  }

  lemma SeqAssoc<T>(x: seq<T>, y: seq<T>, z: seq<T>)
    ensures x + y + z == x + (y + z)
  {
  }

  lemma SplitLeadingSep(c: char, b: string)
    ensures Split([c] + b, c) == [""] + Split(b, c)
  {
    OccursChar([c] + b, c, 0);
    IndexIsFirst([c] + b, [c], 0);
    assert ([c] + b)[1..] == b;
  }

  /** Splitting a joined list gives the list back when no part holds `c`. */
  lemma {:induction false} SplitJoin(parts: seq<string>, c: char)
    requires |parts| >= 1
    requires forall i :: 0 <= i < |parts| ==> c !in parts[i]
    ensures Split(JoinSep(parts, c), c) == parts
    decreases |parts|
  {
    if |parts| == 1 {
      SplitNoSep(parts[0], c);
    } else {
      SplitConcat(parts[0], c, JoinSep(parts[1..], c));
      SplitNoSep(parts[0], c);
      SplitJoin(parts[1..], c);
    }
  }

  /** Joining the parts of a split gives the string back. */
  lemma {:induction false} JoinSplit(s: string, c: char)
    ensures JoinSep(Split(s, c), c) == s
    decreases |s|
  {
    var i := Index(s, [c]);
    if i >= 0 {
      OccursChar(s, c, i);
      JoinSplit(s[i + 1..], c);
      assert s == s[..i] + [c] + s[i + 1..];
    }
  }

  /** The last index of `c` in `s`, or -1 (Go's `strings.LastIndex` for a
      one-rune separator). */
  function LastIndexChar(s: string, c: char): (r: int)
    ensures -1 <= r < |s|
    ensures r >= 0 ==> s[r] == c && c !in s[r + 1..]
    ensures r == -1 ==> c !in s
  {
    if s == [] then -1
    else if s[|s| - 1] == c then |s| - 1
    else
      var r := LastIndexChar(s[..|s| - 1], c);
      assert s == s[..|s| - 1] + [s[|s| - 1]];
      r
  }

  /** The last `c` is the one after which no `c` follows. */
  lemma {:induction false} LastIndexAfter(x: string, c: char, y: string)
    requires c !in y
    ensures LastIndexChar(x + [c] + y, c) == |x|
    decreases |y|
  {
    var s := x + [c] + y;
    if y != [] {
      assert s[|s| - 1] == y[|y| - 1] && y[|y| - 1] in y;
      assert s[..|s| - 1] == x + [c] + y[..|y| - 1];
      assert forall ch :: ch in y[..|y| - 1] ==> ch in y;
      LastIndexAfter(x, c, y[..|y| - 1]);
    }
  }

  /** Go's `unicode.IsSpace`. */
  predicate IsSpace(c: char) {
    || c == ' ' || c == '\t' || c == '\n' || c == '\r'
    || c == '\U{000B}' || c == '\U{000C}' || c == '\U{0085}' || c == '\U{00A0}'
    || c == '\U{1680}' || ('\U{2000}' <= c <= '\U{200A}')
    || c == '\U{2028}' || c == '\U{2029}' || c == '\U{202F}' || c == '\U{205F}'
    || c == '\U{3000}'
  }

  function TrimLeftSpace(s: string): (r: string)
    ensures HasSuffix(s, r)
    ensures r == [] || !IsSpace(r[0])
    ensures forall i :: 0 <= i < |s| - |r| ==> IsSpace(s[i])
  {
    if s != [] && IsSpace(s[0]) then TrimLeftSpace(s[1..]) else s
  }

  function TrimRightSpace(s: string): (r: string)
    ensures HasPrefix(s, r)
    ensures r == [] || !IsSpace(r[|r| - 1])
    ensures forall i :: |r| <= i < |s| ==> IsSpace(s[i])
  {
    if s != [] && IsSpace(s[|s| - 1]) then TrimRightSpace(s[..|s| - 1]) else s
  }

  /** Go's `strings.TrimSpace`: the longest slice of `s` that neither starts
      nor ends with white space. */
  function TrimSpace(s: string): (r: string)
    ensures r == [] || (!IsSpace(r[0]) && !IsSpace(r[|r| - 1]))
    ensures exists i :: OccursAt(s, r, i)
  {
    var l := TrimLeftSpace(s);
    var r := TrimRightSpace(l);
    var i := |s| - |l|;
    assert s[i..i + |r|] == r;
    assert OccursAt(s, r, i);
    r
  }

  /** Go's `strings.Trim(s, string(c))`: removes every leading and trailing `c`. */
  function TrimChar(s: string, c: char): (r: string)
    ensures r == [] || (r[0] != c && r[|r| - 1] != c)
  {
    if s != [] && s[0] == c then TrimChar(s[1..], c)
    else if s != [] && s[|s| - 1] == c then TrimChar(s[..|s| - 1], c)
    else s
  }

  function UpperChar(c: char): char {
    if 'a' <= c <= 'z' then (c as int - 32) as char else c
  }

  function LowerChar(c: char): char {
    if 'A' <= c <= 'Z' then (c as int + 32) as char else c
  }

  function ToLower(s: string): (r: string)
    ensures |r| == |s|
    ensures forall i :: 0 <= i < |s| ==> r[i] == LowerChar(s[i])
  {
    seq(|s|, i requires 0 <= i < |s| => LowerChar(s[i]))
  }

  /** The string with its first rune upper-cased. */
  function UpperFirst(s: string): (r: string)
    ensures |r| == |s|
    ensures s != [] ==> r[0] == UpperChar(s[0]) && r[1..] == s[1..]
  {
    if s == [] then s else [UpperChar(s[0])] + s[1..]
  }

  /** The string with its first rune lower-cased. */
  function LowerFirst(s: string): (r: string)
    ensures |r| == |s|
    ensures s != [] ==> r[0] == LowerChar(s[0]) && r[1..] == s[1..]
  {
    if s == [] then s else [LowerChar(s[0])] + s[1..]
  }

  /** The concatenation of `parts`, in order. */
  function Concat(parts: seq<string>): string
    decreases |parts|
  {
    if parts == [] then "" else parts[0] + Concat(parts[1..])
  }
}
