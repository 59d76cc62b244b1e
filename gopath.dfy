/**
 * Go's `path` package: Split, Join and the lexical Clean that Join applies. Clean follows its
 * documented rules: split at '/', drop empty and "." elements, let ".." remove the element
 * before it (or keep it at the start of a relative path, or drop it after the root), and give
 * "." for an empty relative result.
 */
module GoPath {
  import opened GoStrings

  /** The index of the last '/' in s[..k], or -1. */
  function SlashBefore(s: string, k: nat): (r: int)
    requires k <= |s|
    ensures -1 <= r < k
    ensures r >= 0 ==> s[r] == '/'
    decreases k
  {
    if k == 0 then -1 else if s[k - 1] == '/' then k - 1 else SlashBefore(s, k - 1)
  }

  /** strings.LastIndex(s, "/") */
  function LastSlash(s: string): int {
    SlashBefore(s, |s|)
  }

  /** No '/' lies between the one SlashBefore finds and k. */
  lemma {:induction false} SlashBeforeAfter(s: string, k: nat)
    requires k <= |s|
    ensures forall j :: SlashBefore(s, k) < j < k ==> s[j] != '/'
    decreases k
  {
    if k > 0 && s[k - 1] != '/' {
      SlashBeforeAfter(s, k - 1);
    }
  }

  lemma {:induction false} SlashBeforeAt(s: string, m: nat, k: nat)
    requires m < k <= |s| && s[m] == '/'
    requires forall j :: m < j < k ==> s[j] != '/'
    ensures SlashBefore(s, k) == m
    decreases k
  {
    if k - 1 != m {
      SlashBeforeAt(s, m, k - 1);
    }
  }

  lemma {:induction false} SlashBeforeNone(s: string, k: nat)
    requires k <= |s|
    requires forall j :: 0 <= j < k ==> s[j] != '/'
    ensures SlashBefore(s, k) == -1
    decreases k
  {
    if k > 0 {
      SlashBeforeNone(s, k - 1);
    }
  }

  /** SlashBefore looks only at s[..k]. */
  lemma {:induction false} SlashBeforePrefix(s: string, t: string, k: nat)
    requires k <= |s| && k <= |t|
    requires forall j :: 0 <= j < k ==> s[j] == t[j]
    ensures SlashBefore(s, k) == SlashBefore(t, k)
    decreases k
  {
    if k > 0 {
      SlashBeforePrefix(s, t, k - 1);
    }
  }

  /** Two strings that agree at every index of [a, b) have equal slices there. */
  lemma SliceEq(s: string, t: string, a: nat, b: nat)
    requires a <= b <= |s| && b <= |t|
    requires forall j :: a <= j < b ==> s[j] == t[j]
    ensures s[a..b] == t[a..b]
  {
    var x, y := s[a..b], t[a..b];
    forall j | 0 <= j < |x| ensures x[j] == y[j] {
      assert x[j] == s[a + j] && y[j] == t[a + j];
    }
  }

  /** The pieces of x + "/" + e. */
  lemma SlashParts(x: string, e: string)
    ensures var s := x + "/" + e;
      && s[..|x|] == x && s[..|x| + 1] == x + "/" && s[|x|] == '/'
      && s[|x| + 1..] == e && s[|x| + 1..|s|] == e
  {
    var s := x + "/" + e;
    var y := s[|x| + 1..];
    forall j | 0 <= j < |y| ensures y[j] == e[j] {
      assert y[j] == s[|x| + 1 + j];
    }
    assert s[|x| + 1..|s|] == y;
  }

  lemma NoSlash(s: string, a: nat, b: nat)
    requires a <= b <= |s|
    requires forall j :: a <= j < b ==> s[j] != '/'
    ensures '/' !in s[a..b]
  {
    var x := s[a..b];
    forall j | 0 <= j < |x| ensures x[j] != '/' {
      assert x[j] == s[a + j];
    }
  }

  lemma LastSlashAt(x: string, e: string)
    requires '/' !in e
    ensures LastSlash(x + "/" + e) == |x|
  {
    var s := x + "/" + e;
    SlashParts(x, e);
    forall j | |x| < j < |s| ensures s[j] != '/' {
      assert s[j] == e[j - |x| - 1];
    }
    SlashBeforeAt(s, |x|, |s|);
  }

  lemma LastSlashNone(e: string)
    requires '/' !in e
    ensures LastSlash(e) == -1
  {
    SlashBeforeNone(e, |e|);
  }

  /** path.Split: `dir` is everything up to and including the last '/', `file` the rest. */
  function Split(p: string): (string, string) {
    (p[..LastSlash(p) + 1], p[LastSlash(p) + 1..])
  }

  lemma TakeDrop(s: string, k: nat)
    requires k <= |s|
    ensures s[..k] + s[k..] == s
  {
  }

  /** The two parts of Split put back together give the path; the file part holds no '/'. */
  lemma SplitParts(p: string)
    ensures Split(p).0 + Split(p).1 == p
    ensures '/' !in Split(p).1
    ensures Split(p).0 == [] || Split(p).0[|Split(p).0| - 1] == '/'
  {
    var i := LastSlash(p);
    TakeDrop(p, i + 1);
    SplitFile(p);
    if i >= 0 {
      assert p[..i + 1][i] == p[i];
    }
  }

  lemma SplitFile(p: string)
    ensures '/' !in p[LastSlash(p) + 1..]
  {
    var i := LastSlash(p);
    SlashBeforeAfter(p, |p|);
    NoSlash(p, i + 1, |p|);
    assert p[i + 1..|p|] == p[i + 1..];
  }

  lemma SplitRootName(e: string)
    requires '/' !in e
    ensures Split("/" + e) == ("/", e)
  {
    var s := "/" + e;
    forall j | 0 < j < |s| ensures s[j] != '/' {
      assert s[j] == e[j - 1];
    }
    SlashBeforeAt(s, 0, |s|);
    assert s[1..] == e;
  }

  lemma SplitAfterSlash(x: string, e: string)
    requires '/' !in e
    ensures Split(x + "/" + e) == (x + "/", e)
  {
    LastSlashAt(x, e);
    SlashParts(x, e);
  }

  /** A path element that Clean keeps: not empty, not ".", without '/'. */
  predicate Elem(e: string) {
    e != "" && e != "." && '/' !in e
  }

  /** A directory entry name: an element that is not "..". */
  predicate EntryName(e: string) {
    Elem(e) && e != ".."
  }

  /** One step of Clean's element loop. */
  function Push(rooted: bool, st: seq<string>, x: string): seq<string> {
    if x != ".." then st + [x]
    else if |st| > 0 && st[|st| - 1] != ".." then st[..|st| - 1]
    else if rooted then st
    else st + [".."]
  }

  /** Clean's handling of one segment: empty and "." segments are dropped. */
  function Step(rooted: bool, prev: seq<string>, x: string): seq<string> {
    if x == "" || x == "." then prev else Push(rooted, prev, x)
  }

  /** The elements Clean's loop leaves for the '/'-separated segments of p[..k], read left to
      right; `rooted` says whether the whole path starts with '/'. */
  function CleanUpTo(rooted: bool, p: string, k: nat): seq<string>
    requires k <= |p|
    decreases k
  {
    var i := SlashBefore(p, k);
    Step(rooted, if i < 0 then [] else CleanUpTo(rooted, p, i), p[i + 1..k])
  }

  function CleanFrom(rooted: bool, p: string): seq<string> {
    CleanUpTo(rooted, p, |p|)
  }

  /** What Clean's element loop produces: elements only, no ".." after the root, and in a
      relative path every ".." ahead of every other element. */
  predicate NormalForm(rooted: bool, st: seq<string>) {
    && (forall i :: 0 <= i < |st| ==> Elem(st[i]))
    && (rooted ==> forall i :: 0 <= i < |st| ==> st[i] != "..")
    && (forall i, j :: 0 <= i < j < |st| && st[j] == ".." ==> st[i] == "..")
  }

  lemma PushNormal(rooted: bool, st: seq<string>, x: string)
    requires NormalForm(rooted, st) && Elem(x)
    ensures NormalForm(rooted, Push(rooted, st, x))
  {
    if x == ".." && (|st| == 0 || st[|st| - 1] == "..") && !rooted {
      assert forall i :: 0 <= i < |st| ==> st[i] == "..";
    }
  }

  /** Pushing the last element of a normal form onto the rest gives it back. */
  lemma PushLast(rooted: bool, st: seq<string>)
    requires st != [] && NormalForm(rooted, st)
    ensures Push(rooted, st[..|st| - 1], st[|st| - 1]) == st
  {
    var init := st[..|st| - 1];
    if st[|st| - 1] == ".." {
      assert forall i :: 0 <= i < |init| ==> init[i] == "..";
    }
    assert init + [st[|st| - 1]] == st;
  }

  lemma {:induction false} CleanUpToNormal(rooted: bool, p: string, k: nat)
    requires k <= |p|
    ensures NormalForm(rooted, CleanUpTo(rooted, p, k))
    decreases k
  {
    var i := SlashBefore(p, k);
    var prev := if i < 0 then [] else CleanUpTo(rooted, p, i);
    if i >= 0 {
      CleanUpToNormal(rooted, p, i);
    }
    var x := p[i + 1..k];
    if !(x == "" || x == ".") {
      SlashBeforeAfter(p, k);
      NoSlash(p, i + 1, k);
      PushNormal(rooted, prev, x);
    }
  }

  lemma CleanFromNormal(rooted: bool, p: string)
    ensures NormalForm(rooted, CleanFrom(rooted, p))
  {
    CleanUpToNormal(rooted, p, |p|);
  }

  /** CleanUpTo looks only at p[..k]. */
  lemma {:induction false} CleanUpToPrefix(rooted: bool, s: string, t: string, k: nat)
    requires k <= |s| && k <= |t|
    requires forall j :: 0 <= j < k ==> s[j] == t[j]
    ensures CleanUpTo(rooted, s, k) == CleanUpTo(rooted, t, k)
    decreases k
  {
    SlashBeforePrefix(s, t, k);
    var i := SlashBefore(s, k);
    var ps := if i < 0 then [] else CleanUpTo(rooted, s, i);
    var pt := if i < 0 then [] else CleanUpTo(rooted, t, i);
    if i >= 0 {
      CleanUpToPrefix(rooted, s, t, i);
    }
    SliceEq(s, t, i + 1, k);
    CleanUpToLast(rooted, s, k);
    CleanUpToLast(rooted, t, k);
    StepEq(rooted, ps, pt, s[i + 1..k], t[i + 1..k]);
  }

  /** The last segment of p[..k] is stepped onto the elements of the ones before it. */
  lemma CleanUpToLast(rooted: bool, p: string, k: nat)
    requires k <= |p|
    ensures var i := SlashBefore(p, k);
      CleanUpTo(rooted, p, k) == Step(rooted, if i < 0 then [] else CleanUpTo(rooted, p, i), p[i + 1..k])
  {
  }

  /** The last segment of x + "/" + e is e, and everything before it is x. */
  lemma CleanFromLast(rooted: bool, x: string, e: string)
    requires '/' !in e
    ensures CleanFrom(rooted, x + "/" + e) == Step(rooted, CleanFrom(rooted, x), e)
  {
    var s := x + "/" + e;
    LastSlashAt(x, e);
    SlashParts(x, e);
    CleanUpToPrefix(rooted, s, x, |x|);
  }

  lemma CleanFromAppend(rooted: bool, x: string, e: string)
    requires Elem(e)
    ensures CleanFrom(rooted, x + "/" + e) == Push(rooted, CleanFrom(rooted, x), e)
  {
    CleanFromLast(rooted, x, e);
  }

  lemma CleanFromName(rooted: bool, e: string)
    requires Elem(e)
    ensures CleanFrom(rooted, e) == Push(rooted, [], e)
  {
    LastSlashNone(e);
    assert e[0..|e|] == e;
  }

  lemma StepEq(rooted: bool, a: seq<string>, b: seq<string>, x: string, y: string)
    requires a == b && x == y
    ensures Step(rooted, a, x) == Step(rooted, b, y)
  {
  }

  function JoinSlash(xs: seq<string>): string {
    if xs == [] then "" else if |xs| == 1 then xs[0] else JoinSlash(xs[..|xs| - 1]) + "/" + xs[|xs| - 1]
  }

  lemma JoinSlashLast(st: seq<string>)
    requires |st| > 1
    ensures JoinSlash(st) == JoinSlash(st[..|st| - 1]) + "/" + st[|st| - 1]
  {
  }

  /** Re-reading a normal form written out with '/' gives it back. */
  lemma {:induction false} CleanFromJoin(rooted: bool, st: seq<string>)
    requires st != [] && NormalForm(rooted, st)
    ensures CleanFrom(rooted, JoinSlash(st)) == st
  {
    if |st| == 1 {
      CleanFromName(rooted, st[0]);
    } else {
      var init := st[..|st| - 1];
      assert NormalForm(rooted, init);
      JoinSlashLast(st);
      CleanFromAppend(rooted, JoinSlash(init), st[|st| - 1]);
      CleanFromJoin(rooted, init);
      PushLast(rooted, st);
    }
  }

  predicate Rooted(p: string) {
    |p| > 0 && p[0] == '/'
  }

  /** The elements of a path after Clean's processing. */
  function CleanElems(p: string): seq<string> {
    CleanFrom(Rooted(p), p)
  }

  /** path.Clean */
  function Clean(p: string): string {
    if p == "" then "."
    else if Rooted(p) then "/" + JoinSlash(CleanElems(p))
    else if CleanElems(p) == [] then "." else JoinSlash(CleanElems(p))
  }

  /** path.Join with two elements: empty elements are skipped, the rest joined with '/' and
      cleaned. */
  function Join(a: string, b: string): string {
    if a == "" && b == "" then ""
    else if a == "" then Clean(b)
    else if b == "" then Clean(a)
    else Clean(a + "/" + b)
  }

  /** The number of elements of a path once cleaned: "." and "/" have none. */
  function Depth(p: string): nat {
    |CleanElems(p)|
  }

  lemma RootedJoinSlash(st: seq<string>)
    requires st != [] && forall i :: 0 <= i < |st| ==> Elem(st[i])
    ensures !Rooted(JoinSlash(st)) && JoinSlash(st) != ""
  {
    if |st| > 1 {
      JoinSlashLast(st);
      RootedJoinSlash(st[..|st| - 1]);
    }
  }

  lemma CleanFromEmpty(rooted: bool)
    ensures CleanFrom(rooted, "") == [] && CleanFrom(rooted, ".") == []
  {
    assert SlashBefore("", 0) == -1 && SlashBefore(".", 1) == -1;
    assert ""[0..0] == "" && "."[0..1] == ".";
  }

  /** Re-reading a rooted normal form written out with '/' gives it back. */
  lemma {:induction false} CleanFromRootedJoin(st: seq<string>)
    requires NormalForm(true, st)
    ensures CleanFrom(true, "/" + JoinSlash(st)) == st
  {
    if st == [] {
      CleanFromRoot();
    } else if |st| == 1 {
      CleanFromRootName(st[0]);
    } else {
      var init := st[..|st| - 1];
      assert NormalForm(true, init);
      CleanFromRootedJoin(init);
      RootedJoinLast(st);
      PushLast(true, st);
    }
  }

  lemma CleanFromRoot()
    ensures CleanFrom(true, "/") == []
  {
    CleanFromEmpty(true);
    assert "/" == "" + "/" + "";
    CleanFromLast(true, "", "");
  }

  lemma CleanFromRootName(e: string)
    requires Elem(e) && e != ".."
    ensures CleanFrom(true, "/" + e) == [e]
  {
    CleanFromEmpty(true);
    assert "/" + e == "" + "/" + e;
    CleanFromAppend(true, "", e);
  }

  lemma RootedJoinLast(st: seq<string>)
    requires |st| > 1 && Elem(st[|st| - 1])
    ensures CleanFrom(true, "/" + JoinSlash(st)) ==
      Push(true, CleanFrom(true, "/" + JoinSlash(st[..|st| - 1])), st[|st| - 1])
  {
    var init := st[..|st| - 1];
    JoinSlashLast(st);
    assert "/" + JoinSlash(st) == ("/" + JoinSlash(init)) + "/" + st[|st| - 1];
    CleanFromAppend(true, "/" + JoinSlash(init), st[|st| - 1]);
  }

  lemma CleanElemsRooted(st: seq<string>)
    requires NormalForm(true, st)
    ensures Rooted("/" + JoinSlash(st)) && CleanElems("/" + JoinSlash(st)) == st
  {
    CleanFromRootedJoin(st);
  }

  lemma CleanElemsRelative(st: seq<string>)
    requires st != [] && NormalForm(false, st)
    ensures !Rooted(JoinSlash(st)) && CleanElems(JoinSlash(st)) == st
  {
    RootedJoinSlash(st);
    CleanFromJoin(false, st);
  }

  lemma CleanDot()
    ensures !Rooted(".") && CleanElems(".") == []
  {
    CleanFromEmpty(false);
  }

  /** Cleaning keeps a path's elements as Clean's loop leaves them, and its rootedness. */
  lemma CleanElemsOfClean(q: string)
    ensures Rooted(Clean(q)) == Rooted(q)
    ensures CleanElems(Clean(q)) == CleanElems(q)
  {
    var st := CleanElems(q);
    CleanFromNormal(Rooted(q), q);
    if q == "" {
      CleanDot();
      CleanFromEmpty(false);
    } else if Rooted(q) {
      CleanElemsRooted(st);
    } else if st == [] {
      CleanDot();
    } else {
      CleanElemsRelative(st);
    }
  }

  lemma JoinElems(p: string, e: string)
    requires EntryName(e)
    ensures Rooted(Join(p, e)) == Rooted(p)
    ensures CleanElems(Join(p, e)) == CleanElems(p) + [e]
  {
    var q := if p == "" then e else p + "/" + e;
    assert Join(p, e) == Clean(q);
    CleanElemsOfClean(q);
    if p == "" {
      SplitParts(e);
      CleanFromName(false, e);
      CleanFromEmpty(false);
    } else {
      assert Rooted(q) == Rooted(p);
      CleanFromAppend(Rooted(p), p, e);
    }
  }

  /** Joining a directory entry adds exactly one element. */
  lemma DepthJoin(p: string, e: string)
    requires EntryName(e)
    ensures Depth(Join(p, e)) == Depth(p) + 1
  {
    JoinElems(p, e);
  }

  lemma SlashAssoc(a: string, e: string)
    ensures "/" + (a + "/" + e) == ("/" + a) + "/" + e
  {
  }

  lemma SplitJoinSlash(st: seq<string>)
    requires st != [] && forall i :: 0 <= i < |st| ==> Elem(st[i])
    ensures Split(JoinSlash(st)).1 == st[|st| - 1]
    ensures Split("/" + JoinSlash(st)).1 == st[|st| - 1]
  {
    var last := st[|st| - 1];
    assert Elem(last);
    if |st| == 1 {
      LastSlashNone(last);
      assert last[0..] == last;
      SplitRootName(last);
    } else {
      var a := JoinSlash(st[..|st| - 1]);
      JoinSlashLast(st);
      SplitAfterSlash(a, last);
      SlashAssoc(a, last);
      SplitAfterSlash("/" + a, last);
    }
  }

  /** The file part of a cleaned path with elements is its last element. */
  lemma SplitClean(q: string)
    requires CleanElems(q) != []
    ensures Split(Clean(q)).1 == CleanElems(q)[|CleanElems(q)| - 1]
  {
    var st := CleanElems(q);
    CleanFromNormal(Rooted(q), q);
    SplitJoinSlash(st);
    assert q != "" by {
      CleanFromEmpty(false);
    }
    if Rooted(q) {
      assert Clean(q) == "/" + JoinSlash(st);
    } else {
      assert Clean(q) == JoinSlash(st);
    }
  }

  /** The file part of Join(d, e) is e itself when e is a plain name. */
  lemma SplitJoin(d: string, e: string)
    requires EntryName(e)
    ensures Split(Join(d, e)).1 == e
  {
    var q := if d == "" then e else d + "/" + e;
    assert Join(d, e) == Clean(q);
    JoinElems(d, e);
    CleanElemsOfClean(q);
    SplitClean(q);
  }
}
