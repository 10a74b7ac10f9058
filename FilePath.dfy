/**
 * The lexical part of Go's path/filepath on a Unix system, as the resolver
 * uses it: IsAbs, Clean, Join and Abs. Nothing here touches the file system;
 * the working directory Abs needs is a parameter.
 */
module FilePath {

  /** filepath.IsAbs: a Unix path is absolute when it starts with `/`. */
  predicate IsAbs(p: string) {
    |p| > 0 && p[0] == '/'
  }

  predicate NoSlash(e: string) {
    forall i | 0 <= i < |e| :: e[i] != '/'
  }

  /** The `/`-separated elements of p, empty ones included. */
  function SplitSlash(p: string): (r: seq<string>)
    ensures |r| >= 1
    ensures forall k | 0 <= k < |r| :: NoSlash(r[k])
  {
    if p == [] then [[]]
    else
      var rest := SplitSlash(p[1..]);
      if p[0] == '/' then [[]] + rest
      else [[p[0]] + rest[0]] + rest[1..]
  }

  /** strings.Join(elems, "/") */
  function JoinSlash(elems: seq<string>): string {
    if elems == [] then []
    else if |elems| == 1 then elems[0]
    else elems[0] + "/" + JoinSlash(elems[1..])
  }

  /**
   * The stack of elements Clean keeps: no empty element, no `.`, and `..`
   * only at the front of a relative path.
   */
  predicate Normal(stack: seq<string>, rooted: bool) {
    && (forall k | 0 <= k < |stack| :: stack[k] != [] && stack[k] != "." && NoSlash(stack[k]))
    && (forall k | 0 <= k < |stack| :: stack[k] == ".." ==> !rooted && forall j | 0 <= j < k :: stack[j] == "..")
  }

  /**
   * One element of Clean's lexical walk: drop empty and `.` elements, let
   * `..` remove the last real element, keep a `..` that cannot be resolved
   * in a relative path and drop it at the root.
   */
  function CleanStep(stack: seq<string>, e: string, rooted: bool): (r: seq<string>)
    requires Normal(stack, rooted) && NoSlash(e)
    ensures Normal(r, rooted)
  {
    if e == [] || e == "." then stack
    else if e == ".." then
      if |stack| > 0 && stack[|stack| - 1] != ".." then stack[..|stack| - 1]
      else if rooted then stack
      else stack + [".."]
    else stack + [e]
  }

  function CleanElems(stack: seq<string>, elems: seq<string>, rooted: bool): (r: seq<string>)
    requires Normal(stack, rooted) && forall k | 0 <= k < |elems| :: NoSlash(elems[k])
    ensures Normal(r, rooted)
    decreases |elems|
  {
    if elems == [] then stack
    else CleanElems(CleanStep(stack, elems[0], rooted), elems[1..], rooted)
  }

  /** filepath.Clean on a Unix path; the empty path and a path that cleans to nothing become ".". */
  function Clean(p: string): (r: string)
    ensures r != []
  {
    if p == [] then "."
    else
      var rooted := p[0] == '/';
      var s := (if rooted then "/" else "") + JoinSlash(CleanElems([], SplitSlash(p), rooted));
      if s == [] then "." else s
  }

  /** Cleaning keeps a path absolute, and keeps a relative one relative. */
  lemma CleanKeepsAbs(p: string)
    ensures IsAbs(Clean(p)) <==> IsAbs(p)
  {
    if p != [] && p[0] != '/' {
      var st := CleanElems([], SplitSlash(p), false);
      if st != [] {
        JoinSlashHead(st);
      }
    }
  }

  /** A non-empty stack joins to text that starts with its first element's first character. */
  lemma JoinSlashHead(st: seq<string>)
    requires st != [] && st[0] != []
    ensures JoinSlash(st) != [] && JoinSlash(st)[0] == st[0][0]
  {
  }

  /** Splitting `a/b` where a has no slash: a, then the elements of b. */
  lemma {:induction false} SplitSlashAt(a: string, b: string)
    requires NoSlash(a)
    ensures SplitSlash(a + "/" + b) == [a] + SplitSlash(b)
    decreases |a|
  {
    if a != [] {
      assert (a + "/" + b)[1..] == a[1..] + "/" + b;
      SplitSlashAt(a[1..], b);
      assert [a[0]] + a[1..] == a;
    }
  }

  lemma {:induction false} SplitSlashNone(a: string)
    requires NoSlash(a)
    ensures SplitSlash(a) == [a]
    decreases |a|
  {
    if a != [] {
      SplitSlashNone(a[1..]);
      assert [a[0]] + a[1..] == a;
    }
  }

  /** Splitting undoes joining, for elements without slashes. */
  lemma {:induction false} SplitJoin(elems: seq<string>)
    requires elems != [] && forall k | 0 <= k < |elems| :: NoSlash(elems[k])
    ensures SplitSlash(JoinSlash(elems)) == elems
    decreases |elems|
  {
    if |elems| == 1 {
      SplitSlashNone(elems[0]);
    } else {
      SplitSlashAt(elems[0], JoinSlash(elems[1..]));
      SplitJoin(elems[1..]);
    }
  }

  /** Clean's walk keeps every element of a stack that is already normal. */
  lemma {:induction false} CleanElemsKept(stack: seq<string>, elems: seq<string>, rooted: bool)
    requires Normal(stack + elems, rooted)
    ensures Normal(stack, rooted) && (forall k | 0 <= k < |elems| :: NoSlash(elems[k]))
    ensures CleanElems(stack, elems, rooted) == stack + elems
    decreases |elems|
  {
    var all := stack + elems;
    assert forall k | 0 <= k < |stack| :: stack[k] == all[k];
    assert forall k | 0 <= k < |elems| :: elems[k] == all[|stack| + k];
    if elems != [] {
      var e := elems[0];
      assert e == all[|stack|];
      if e == ".." && |stack| > 0 {
        assert stack[|stack| - 1] == all[|stack| - 1] == "..";
      }
      assert CleanStep(stack, e, rooted) == stack + [e];
      assert (stack + [e]) + elems[1..] == all;
      CleanElemsKept(stack + [e], elems[1..], rooted);
    }
  }

  /** Cleaning a clean path changes nothing. */
  lemma CleanIdempotent(p: string)
    ensures Clean(Clean(p)) == Clean(p)
  {
    if p != [] {
      var rooted := p[0] == '/';
      var st := CleanElems([], SplitSlash(p), rooted);
      if st == [] {
        if rooted {
          CleanRoot();
        } else {
          CleanDot();
        }
      } else if rooted {
        CleanRooted(st);
      } else {
        JoinSlashHead(st);
        assert "" + JoinSlash(st) == JoinSlash(st);
        CleanRelative(st);
      }
    }
  }

  lemma CleanRoot()
    ensures Clean("/") == "/"
  {
    assert SplitSlash("/") == [[], []];
  }

  lemma CleanDot()
    ensures Clean(".") == "."
  {
    SplitSlashNone(".");
    assert ["."][1..] == [];
  }

  lemma CleanRooted(st: seq<string>)
    requires st != [] && Normal(st, true)
    ensures Clean("/" + JoinSlash(st)) == "/" + JoinSlash(st)
  {
    var c := "/" + JoinSlash(st);
    SplitJoin(st);
    assert c[1..] == JoinSlash(st);
    assert SplitSlash(c) == [[]] + st;
    assert [] + st == st;
    CleanElemsKept([], st, true);
    assert ([[]] + st)[1..] == st;
  }

  lemma CleanRelative(st: seq<string>)
    requires st != [] && Normal(st, false)
    ensures Clean(JoinSlash(st)) == JoinSlash(st)
  {
    SplitJoin(st);
    JoinSlashHead(st);
    assert [] + st == st;
    CleanElemsKept([], st, false);
  }

  /**
   * filepath.Join(a, b): the non-empty elements joined with `/` and cleaned;
   * the empty string when both are empty.
   */
  function Join(a: string, b: string): (r: string)
    ensures r == [] <==> a == [] && b == []
    ensures a != [] && IsAbs(a) ==> IsAbs(r)
  {
    if a == [] && b == [] then []
    else
      var s := if a == [] then b else if b == [] then a else a + "/" + b;
      CleanKeepsAbs(s);
      Clean(s)
  }

  /** filepath.Abs with the working directory given: a relative path is joined onto it. */
  function Abs(cwd: string, p: string): (r: string)
    requires IsAbs(cwd)
    ensures IsAbs(r)
  {
    if IsAbs(p) then
      CleanKeepsAbs(p);
      Clean(p)
    else Join(cwd, p)
  }

  /** An absolute form is already clean. */
  lemma AbsClean(cwd: string, p: string)
    requires IsAbs(cwd)
    ensures Clean(Abs(cwd, p)) == Abs(cwd, p)
  {
    if IsAbs(p) {
      CleanIdempotent(p);
    } else if p == [] {
      CleanIdempotent(cwd);
    } else {
      CleanIdempotent(cwd + "/" + p);
    }
  }
}
