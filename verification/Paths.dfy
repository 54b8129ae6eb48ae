/** Path strings: splitting off the first component, splitting off the last one, and the
    component list both are about. */
module Paths {

  datatype Option<+T> = None | Some(value: T)

  /** Position of the first c, or the length (strchr). */
  function IndexOf(s: string, c: char): (i: nat)
    ensures i <= |s| && (forall j :: 0 <= j < i ==> s[j] != c) && (i < |s| ==> s[i] == c)
  {
    if s == "" || s[0] == c then 0 else 1 + IndexOf(s[1..], c)
  }

  /** Position of the last c, or -1 (strrchr). */
  function LastIndexOf(s: string, c: char): (i: int)
    ensures -1 <= i < |s| && (forall j :: i < j < |s| ==> s[j] != c) && (i >= 0 ==> s[i] == c)
    decreases |s|
  {
    if s == "" then -1
    else if s[|s| - 1] == c then |s| - 1
    else LastIndexOf(s[..|s| - 1], c)
  }

  /** div_string: the first component, and what is left if there is a further '/'. */
  function DivString(path: string): (r: (string, Option<string>))
    ensures r.1.Some? ==> |r.1.value| < |path|
  {
    var q := if path != "" && path[0] == '/' then path[1..] else path;
    var i := IndexOf(q, '/');
    if i < |q| then (q[..i], Some(q[i + 1..])) else (q, None)
  }

  /** find_parent: everything before the last '/' (the root when that is the first
      character), and the name after it. */
  function FindParent(path: string): (string, string)
    requires path != ""
  {
    var q := path[1..];
    var i := LastIndexOf(q, '/');
    if i >= 0 then (path[..i + 1], q[i + 1..]) else ("/", q)
  }

  /** The components op_open's loop looks up, one div_string at a time. */
  function Components(path: string): (c: seq<string>)
    ensures |c| > 0
    decreases |path|
  {
    var (fname, surplus) := DivString(path);
    if surplus.None? then [fname] else [fname] + Components(surplus.value)
  }

  /** What a path denotes: the root is a case of its own in op_open. */
  function Parse(path: string): seq<string> {
    if path == "/" then [] else Components(path)
  }

  predicate GoodName(n: string) {
    n != "" && '/' !in n
  }

  predicate GoodNames(c: seq<string>) {
    forall i :: 0 <= i < |c| ==> GoodName(c[i])
  }

  function Join(c: seq<string>): string {
    if c == [] then "" else "/" + c[0] + Join(c[1..])
  }

  function Render(c: seq<string>): string {
    if c == [] then "/" else Join(c)
  }

  /** A normalised path, as the kernel passes it: absolute, no empty component. */
  ghost predicate Normal(path: string) {
    GoodNames(Parse(path)) && path == Render(Parse(path))
  }

  lemma FirstSlash(n: string, rest: string)
    requires '/' !in n
    ensures IndexOf(n + rest, '/') == |n| + IndexOf(rest, '/')
  {
    if n == "" {
      assert n + rest == rest;
    } else {
      assert (n + rest)[0] == n[0] && (n + rest)[1..] == n[1..] + rest;
      FirstSlash(n[1..], rest);
    }
  }

  lemma LastSlash(s: string, n: string)
    requires '/' !in n
    ensures LastIndexOf(s + n, '/') == LastIndexOf(s, '/')
    decreases |n|
  {
    if n == "" {
      assert s + n == s;
    } else {
      assert (s + n)[..|s + n| - 1] == s + n[..|n| - 1];
      LastSlash(s, n[..|n| - 1]);
    }
  }

  /** One div_string, with or without a leading '/', takes off exactly the first name. */
  lemma DivFirst(n: string, rest: string, path: string)
    requires GoodName(n) && (rest == "" || rest[0] == '/')
    requires path == n + rest || path == "/" + (n + rest)
    ensures DivString(path) == (n, if rest == "" then None else Some(rest[1..]))
  {
    var q := n + rest;
    assert q[0] == n[0] != '/';
    assert q == if path != "" && path[0] == '/' then path[1..] else path;
    FirstSlash(n, rest);
    assert q[..|n|] == n;
    if rest != "" {
      assert IndexOf(rest, '/') == 0;
      assert q[|n| + 1..] == rest[1..];
    } else {
      assert q == n;
    }
  }

  lemma JoinHead(c: seq<string>)
    ensures c != [] ==> Join(c) == "/" + (c[0] + Join(c[1..])) && Join(c) != ""
    ensures Join(c) == "" || Join(c)[0] == '/'
  {
  }

  lemma {:induction false} ComponentsOfJoin(c: seq<string>, path: string)
    requires c != [] && GoodNames(c)
    requires path == c[0] + Join(c[1..]) || path == "/" + (c[0] + Join(c[1..]))
    ensures Components(path) == c
    decreases c
  {
    hide Join, DivString;
    var rest := Join(c[1..]);
    JoinHead(c[1..]);
    DivFirst(c[0], rest, path);
    if |c| > 1 {
      assert rest[1..] == c[1] + Join(c[1..][1..]);
      ComponentsOfJoin(c[1..], rest[1..]);
      assert c == [c[0]] + c[1..];
    } else {
      assert rest == "" by { JoinEmpty(); }
      assert c == [c[0]];
    }
  }

  lemma JoinEmpty()
    ensures Join([]) == ""
  {
  }

  /** Reading a rendered path back gives its components: every component list is the
      meaning of exactly one normalised path. */
  lemma ParseRender(c: seq<string>)
    requires GoodNames(c)
    ensures Parse(Render(c)) == c && Normal(Render(c))
  {
    if c != [] {
      JoinHead(c);
      ComponentsOfJoin(c, Join(c));
      assert Join(c)[1] == c[0][0];
    }
  }

  lemma {:induction false} JoinLast(c: seq<string>)
    requires c != []
    ensures Join(c) == Join(c[..|c| - 1]) + "/" + c[|c| - 1]
  {
    if |c| > 1 {
      JoinLast(c[1..]);
      assert c[1..][..|c| - 2] == c[..|c| - 1][1..];
      assert c[1..][|c| - 2] == c[|c| - 1];
    } else {
      assert c[1..] == [] && c[..0] == [];
      assert Join(c) == "/" + c[0] + "";
    }
  }

  /** Splitting at the last '/' and splitting component by component agree: for every
      normalised path below the root, find_parent's two halves are the component list
      without its last name, and that name. */
  lemma ParentAndName(path: string)
    requires Normal(path) && path != "/"
    ensures var (parent, fname) := FindParent(path); var c := Parse(path);
      && c != [] && parent == Render(c[..|c| - 1]) && fname == c[|c| - 1]
      && Normal(parent) && Parse(parent) == c[..|c| - 1]
  {
    hide LastIndexOf, Join, Components;
    var c := Parse(path);
    var front, last := c[..|c| - 1], c[|c| - 1];
    JoinLast(c);
    JoinHead(front);
    var q := path[1..];
    if front == [] {
      JoinEmpty();
      assert q == last;
      NoSlash(q);
    } else {
      var p := Join(front)[1..];
      assert path == Join(front) + "/" + last;
      assert q == (p + "/") + last;
      LastSlash(p + "/", last);
      SlashAtEnd(p);
      assert path[..|p| + 1] == Join(front);
      assert q[|p| + 1..] == last;
    }
    ParseRender(front);
  }

  lemma NoSlash(s: string)
    requires '/' !in s
    ensures LastIndexOf(s, '/') == -1
  {
  }

  lemma SlashAtEnd(p: string)
    ensures LastIndexOf(p + "/", '/') == |p|
  {
  }
}
