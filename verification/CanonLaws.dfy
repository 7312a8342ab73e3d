/**
 What the resolution of a path is, said one component at a time and without following
 the path: where a relative path starts, and what one more component at the end does.
 */
module CanonLaws {
  import opened Common
  import opened CanonPath

  // ---------- parts of paths ----------

  /** The first component and what is behind it. */
  lemma {:induction false} Head(a: string) returns (first: string, more: string)
    requires Rooted(a) && a != ""
    ensures a == "/" + first + more && '/' !in first && Rooted(more) && |more| < |a|
  {
    var k := NextSlash(a[1..]);
    first, more := a[1..][..k], a[1..][k..];
  }

  lemma {:induction false} FirstAppended(a: string, first: string, more: string, b: string)
    requires a == "/" + first + more && '/' !in first && Rooted(more) && Rooted(b) && Rooted(more + b)
    requires Components(more + b) == Components(more) + Components(b)
    ensures Rooted(a) && Rooted(a + b) && Components(a + b) == Components(a) + Components(b)
  {
    Front(a, first, more);
    AppendAssoc("/" + first, more, b);
    Front(a + b, first, more + b);
    AppendAssoc([first], Components(more), Components(b));
  }

  lemma {:induction false} ComponentsAppend(a: string, b: string)
    requires Rooted(a) && b != "" && b[0] == '/'
    ensures Rooted(a + b) && Components(a + b) == Components(a) + Components(b)
    decreases |a|
  {
    if a == "" {
      assert a + b == b;
    } else {
      var first, more := Head(a);
      ComponentsAppend(more, b);
      FirstAppended(a, first, more, b);
    }
  }

  /** The stack after one component. */
  function Step(stack: seq<string>, c: string): seq<string> {
    if c == "" || c == "." then stack else if c == ".." then Pop(stack) else stack + [c]
  }

  /** Resolving two lists of components is resolving one and then the other. */
  lemma {:induction false} ResolveAppend(stack: seq<string>, a: seq<string>, b: seq<string>, size: nat)
    ensures Resolve(stack, a + b) == Resolve(Resolve(stack, a), b)
    ensures Fits(stack, a + b, size) <==> Fits(stack, a, size) && Fits(Resolve(stack, a), b, size)
    decreases |a|
  {
    if a == [] {
      assert a + b == b;
    } else {
      assert (a + b)[0] == a[0] && (a + b)[1..] == a[1..] + b;
      ResolveAppend(Step(stack, a[0]), a[1..], b, size);
    }
  }

  lemma {:induction false} ResolveOne(stack: seq<string>, c: string, size: nat)
    ensures Resolve(stack, [c]) == Step(stack, c)
    ensures Fits(stack, [c], size) <==> |Join(stack)| < size && |Join(Step(stack, c))| < size
  {
    assert [c][1..] == [];
  }

  // ---------- where a relative path starts ----------

  /** A directory as getcwd reports it: its names on a stack. */
  ghost predicate WorkingDir(cwd: string, stack: seq<string>) {
    AllNormal(stack) && cwd == if stack == [] then "/" else Join(stack)
  }

  /** Resolving the directory itself, or the root, leaves its names. */
  lemma {:induction false} DirResolves(cwd: string, stack: seq<string>, size: nat)
    requires WorkingDir(cwd, stack)
    ensures Rooted(cwd) && cwd != "" && cwd[0] == '/'
    ensures Resolve([], Components(cwd)) == stack
    ensures Fits([], Components(cwd), size) <==> |Join(stack)| < size
  {
    if stack == [] {
      assert "/" == "/" + "" + "";
      Front("/", "", "");
      ResolveOne([], "", size);
      assert Components("/") == [""];
    } else {
      ComponentsOfJoin(stack);
      JoinRooted(stack);
      NormalsResolve([], stack, size);
      assert [] + stack == stack;
    }
  }

  /** What a list of components comes to, if it fits on the way. */
  function Resolved(components: seq<string>, size: nat): Option<string> {
    if Fits([], components, size) then Some(Join(Resolve([], components))) else None
  }

  lemma {:induction false} AbsoluteIs(cwd: string, p: string, size: nat)
    requires Rooted(cwd) && p != "" && p[0] == '/'
    ensures Canon(cwd, p, size) == Resolved(Components(p), size)
  {
  }

  lemma {:induction false} RelativeIs(cwd: string, input: string, size: nat)
    requires Rooted(cwd) && (input == "" || input[0] != '/')
    ensures Rooted(cwd + ("/" + input))
    ensures Canon(cwd, input, size) ==
            if |cwd| + 1 + |input| < PATH_MAX then Resolved(Components(cwd + ("/" + input)), size) else None
  {
    assert cwd + "/" + input == cwd + ("/" + input);
  }

  /** A path that does not start with a slash is resolved from the working directory. */
  lemma {:induction false} RelativeIsUnderCwd(cwd: string, stack: seq<string>, input: string, size: nat)
    requires WorkingDir(cwd, stack) && Rooted(cwd)
    requires input == "" || input[0] != '/'
    ensures var names := Components("/" + input);
            Canon(cwd, input, size) ==
              if |cwd| + 1 + |input| < PATH_MAX && |Join(stack)| < size && Fits(stack, names, size)
              then Some(Join(Resolve(stack, names))) else None
  {
    DirResolves(cwd, stack, size);
    RelativeIs(cwd, input, size);
    ComponentsAppend(cwd, "/" + input);
    ResolvedBehind(Components(cwd), stack, Components("/" + input), size);
  }

  lemma {:induction false} ResolvedBehind(dirs: seq<string>, stack: seq<string>, names: seq<string>, size: nat)
    requires Resolve([], dirs) == stack && (Fits([], dirs, size) <==> |Join(stack)| < size)
    ensures Resolved(dirs + names, size) ==
            if |Join(stack)| < size && Fits(stack, names, size) then Some(Join(Resolve(stack, names))) else None
  {
    ResolveAppend([], dirs, names, size);
  }

  /** That is what the same path written behind the working directory resolves to, wherever that is done. */
  lemma {:induction false} RelativeIsAbsolute(cwd: string, stack: seq<string>, input: string, size: nat, other: string)
    requires WorkingDir(cwd, stack) && Rooted(cwd) && Rooted(other)
    requires (input == "" || input[0] != '/') && |cwd| + 1 + |input| < PATH_MAX
    ensures Canon(cwd, input, size) == Canon(other, cwd + "/" + input, size)
  {
    var p := cwd + ("/" + input);
    DirResolves(cwd, stack, size);
    RelativeIs(cwd, input, size);
    assert cwd + "/" + input == p && p[0] == cwd[0];
    AbsoluteIs(other, p, size);
  }

  // ---------- one more component ----------

  /** What is before the last slash. */
  function Parent(r: string): string {
    if r == "" then "" else if r[|r| - 1] == '/' then r[..|r| - 1] else Parent(r[..|r| - 1])
  }

  lemma {:induction false} ParentBehind(a: string, c: string)
    requires '/' !in c
    ensures Parent(a + "/" + c) == a
  {
    var r := a + "/" + c;
    if c == "" {
      assert r[..|r| - 1] == a;
    } else {
      var shorter := c[..|c| - 1];
      assert r[|r| - 1] == c[|c| - 1] && r[..|r| - 1] == a + "/" + shorter;
      ParentBehind(a, shorter);
    }
  }

  lemma {:induction false} ParentOfJoin(stack: seq<string>)
    requires AllNormal(stack)
    ensures Parent(Join(stack)) == Join(Pop(stack))
  {
    if stack != [] { ParentBehind(Join(Pop(stack)), stack[|stack| - 1]); }
  }

  /** The canonical path r with one more component behind it. */
  function Behind(r: string, c: string, size: nat): Option<string> {
    if c == "" || c == "." then Some(r)
    else if c == ".." then Some(Parent(r))
    else if |r| + 1 + |c| < size then Some(r + "/" + c)
    else None
  }

  lemma {:induction false} PopJoins(stack: seq<string>)
    requires AllNormal(stack)
    ensures Join(Pop(stack)) == Parent(Join(stack)) && |Join(Pop(stack))| <= |Join(stack)|
  {
    ParentOfJoin(stack);
    if stack != [] {
      JoinGrows(Pop(stack), [stack[|stack| - 1]]);
      assert Pop(stack) + [stack[|stack| - 1]] == stack;
    }
  }

  lemma {:induction false} StepJoins(stack: seq<string>, c: string, size: nat)
    requires AllNormal(stack) && |Join(stack)| < size
    ensures Behind(Join(stack), c, size) ==
            if |Join(Step(stack, c))| < size then Some(Join(Step(stack, c))) else None
  {
    if c == ".." { PopJoins(stack); } else { JoinPush(stack, c); }
  }

  /**
   One more component at the end of an absolute path: nothing, for an empty one or ".";
   the part before the last slash, for ".."; and the component behind a slash for any
   other, if that fits. What was too long stays too long.
   */
  lemma {:induction false} OneMoreComponent(cwd: string, p: string, c: string, size: nat)
    requires Rooted(cwd) && p != "" && p[0] == '/' && '\0' !in p && '/' !in c
    ensures var r := Canon(cwd, p, size);
            Canon(cwd, p + "/" + c, size) == if r.Some? then Behind(r.value, c, size) else None
  {
    ComponentsSnoc(p, c);
    JoinLast(p, c);
    AbsoluteIs(cwd, p, size);
    AbsoluteIs(cwd, p + ("/" + c), size);
    ComponentsPlain(p);
    ResolvedOneMore(Components(p), c, size);
  }

  lemma {:induction false} ResolvedOneMore(components: seq<string>, c: string, size: nat)
    requires Plain(components)
    ensures var r := Resolved(components, size);
            Resolved(components + [c], size) == if r.Some? then Behind(r.value, c, size) else None
  {
    var stack := Resolve([], components);
    ResolveAppend([], components, [c], size);
    ResolveOne(stack, c, size);
    ResolveNormal([], components);
    if Fits([], components, size) {
      FitsResult([], components, size);
      StepJoins(stack, c, size);
    }
  }

  /** And the first component of one. With these two every absolute path is resolved. */
  lemma {:induction false} FirstComponent(cwd: string, c: string, size: nat)
    requires Rooted(cwd) && '/' !in c && 0 < size
    ensures Canon(cwd, "/" + c, size) == Behind("", c, size)
  {
    assert "/" + c == "/" + c + "";
    Front("/" + c, c, "");
    assert Components("/" + c) == [c] + [] == [c];
    ResolveOne([], c, size);
    StepJoins([], c, size);
  }
}
