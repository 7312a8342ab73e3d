/** canonpath of ctl.c: one pass over the path with an output pointer that moves back for "..". */
module CanonPath {
  import opened Common

  const PATH_MAX := 4096

  /** A component that stays in a canonical path. */
  predicate Normal(c: string) {
    c != "" && c != "." && c != ".." && '/' !in c && '\0' !in c
  }

  ghost predicate AllNormal(stack: seq<string>) {
    forall i :: 0 <= i < |stack| ==> Normal(stack[i])
  }

  /** What starts with a slash or is empty: a path, or what is left of one behind a component. */
  predicate Rooted(r: string) {
    r == "" || r[0] == '/'
  }

  lemma {:induction false} PastFirst(s: string, k: nat)
    requires s != "" && k <= |s| - 1
    ensures s[..1 + k] == [s[0]] + s[1..][..k] && s[1 + k..] == s[1..][k..]
  {
  }

  /** The position of the first slash, or the length. */
  function NextSlash(s: string): (k: nat)
    ensures k <= |s| && '/' !in s[..k] && Rooted(s[k..])
  {
    if s == "" || s[0] == '/' then 0
    else
      PastFirst(s, NextSlash(s[1..]));
      1 + NextSlash(s[1..])
  }

  /** The components of a path, the empty ones included. */
  function Components(r: string): seq<string>
    requires Rooted(r)
    decreases |r|
  {
    if r == "" then []
    else
      var k := NextSlash(r[1..]);
      [r[1..][..k]] + Components(r[1..][k..])
  }

  function Pop(stack: seq<string>): seq<string> {
    if stack == [] then [] else stack[..|stack| - 1]
  }

  /** Resolving components on a stack. */
  function Resolve(stack: seq<string>, components: seq<string>): seq<string>
    decreases |components|
  {
    if components == [] then stack
    else
      var c, rest := components[0], components[1..];
      if c == "" || c == "." then Resolve(stack, rest)
      else if c == ".." then Resolve(Pop(stack), rest)
      else Resolve(stack + [c], rest)
  }

  function Join(stack: seq<string>): string {
    if stack == [] then "" else Join(stack[..|stack| - 1]) + "/" + stack[|stack| - 1]
  }

  /** Everything put on the stack fits in size characters, with the terminator. */
  predicate Fits(stack: seq<string>, components: seq<string>, size: nat)
    decreases |components|
  {
    && |Join(stack)| < size
    && (components == [] ||
        var c, rest := components[0], components[1..];
        if c == "" || c == "." then Fits(stack, rest, size)
        else if c == ".." then Fits(Pop(stack), rest, size)
        else Fits(stack + [c], rest, size))
  }

  /** The path that is worked on: a relative one is taken from the working directory. */
  function Full(cwd: string, input: string): Option<string> {
    if input != "" && input[0] == '/' then Some(input)
    else if |cwd| + 1 + |input| < PATH_MAX then Some(cwd + "/" + input)
    else None
  }

  /** What canonpath is for: the resolved components, if they fit on the way. */
  function Canon(cwd: string, input: string, size: nat): Option<string>
    requires Rooted(cwd)
  {
    var full := Full(cwd, input);
    if full.Some? && Fits([], Components(full.value), size) then Some(Join(Resolve([], Components(full.value))))
    else None
  }

  /** The character at i of a C string; only the terminator may be read beyond the last one. */
  function At(s: string, i: nat): char
    requires i <= |s|
  {
    if i < |s| then s[i] else '\0'
  }

  lemma {:induction false} JoinPush(stack: seq<string>, c: string)
    ensures Join(stack + [c]) == Join(stack) + "/" + c
  {
    assert (stack + [c])[..|stack|] == stack;
  }

  // ---------- the cases of the loop, for what is left of the path ----------

  lemma {:induction false} NextSlashAfter(c: string, rest: string)
    requires '/' !in c && Rooted(rest)
    ensures NextSlash(c + rest) == |c|
  {
    if c == "" {
      assert c + rest == rest;
    } else {
      assert (c + rest)[1..] == c[1..] + rest;
      NextSlashAfter(c[1..], rest);
    }
  }

  /** The component at the front of a path and what follows it. */
  lemma {:induction false} Front(r: string, c: string, rest: string)
    requires r == "/" + c + rest && '/' !in c && Rooted(rest)
    ensures Rooted(r) && Components(r) == [c] + Components(rest)
  {
    assert r[1..] == c + rest;
    NextSlashAfter(c, rest);
    assert (c + rest)[..|c|] == c && (c + rest)[|c|..] == rest;
  }

  /** "", "." and ".." at the front of the rest. */
  lemma {:induction false} DotStep(stack: seq<string>, rest: string, c: string, size: nat)
    requires (c == "" || c == "." || c == "..") && |c| < |rest| && rest[..|c| + 1] == "/" + c && Rooted(rest[|c| + 1..])
    requires |Join(stack)| < size
    ensures var below := if c == ".." then Pop(stack) else stack;
            && Rooted(rest)
            && Resolve(stack, Components(rest)) == Resolve(below, Components(rest[|c| + 1..]))
            && Fits(stack, Components(rest), size) == Fits(below, Components(rest[|c| + 1..]), size)
  {
    assert rest == "/" + c + rest[|c| + 1..];
    Front(rest, c, rest[|c| + 1..]);
    assert Components(rest)[1..] == Components(rest[|c| + 1..]);
  }

  /** Any other component at the front. */
  lemma {:induction false} PushStep(stack: seq<string>, rest: string, size: nat) returns (c: string, after: string)
    requires rest != "" && rest[0] == '/' && '\0' !in rest && |Join(stack)| < size
    requires var k := NextSlash(rest[1..]); rest[1..][..k] != "" && rest[1..][..k] != "." && rest[1..][..k] != ".."
    ensures rest == "/" + c + after && Normal(c) && Rooted(after)
    ensures Resolve(stack, Components(rest)) == Resolve(stack + [c], Components(after))
    ensures Fits(stack, Components(rest), size) == Fits(stack + [c], Components(after), size)
  {
    var k := NextSlash(rest[1..]);
    c, after := rest[1..][..k], rest[1..][k..];
    Front(rest, c, after);
    assert Components(rest)[1..] == Components(after);
  }

  predicate EndsComponent(ch: char) {
    ch == '/' || ch == '\0'
  }

  /** The three tests of the code, which look up to three characters ahead. */
  predicate EmptyAt(path: string, p: nat)
    requires p < |path|
  {
    path[p] == '/' && EndsComponent(At(path, p + 1))
  }

  predicate DotAt(path: string, p: nat)
    requires p < |path| && '\0' !in path
  {
    path[p] == '/' && At(path, p + 1) == '.' && EndsComponent(At(path, p + 2))
  }

  predicate DotDotAt(path: string, p: nat)
    requires p < |path| && '\0' !in path
  {
    path[p] == '/' && At(path, p + 1) == '.' && At(path, p + 2) == '.' && EndsComponent(At(path, p + 3))
  }

  /** They recognise exactly the components "", "." and "..". */
  lemma {:induction false} Lookahead(path: string, p: nat)
    requires p < |path| && path[p] == '/' && '\0' !in path
    ensures var k := NextSlash(path[p..][1..]);
            var c := path[p..][1..][..k];
            && (c == "" <==> EmptyAt(path, p))
            && (c == "." <==> DotAt(path, p))
            && (c == ".." <==> DotDotAt(path, p))
  {
    LookaheadFront(path[p..]);
    assert forall i :: 0 <= i < |path| - p ==> path[p..][i] == path[p + i];
  }

  lemma {:induction false} LookaheadFront(r: string)
    requires r != "" && r[0] == '/' && '\0' !in r
    ensures var k := NextSlash(r[1..]);
            var c := r[1..][..k];
            && (c == "" <==> EmptyAt(r, 0))
            && (c == "." <==> DotAt(r, 0))
            && (c == ".." <==> DotDotAt(r, 0))
  {
  }

  // ---------- the loop ----------

  /**
   Where the loop is: the stack, the component being copied, how much of its slash
   and name is copied, and what follows it.
   */
  datatype Place = Place(stack: seq<string>, c: string, done: nat, rest: string) {

    /** The stack once the current component has been copied. */
    function Current(): seq<string> {
      if done == 0 then stack else stack + [c]
    }

    /** It describes what has been written and what is left to read. */
    ghost predicate State(out: string, left: string) {
      && AllNormal(stack) && Rooted(rest)
      && done <= |c| && (done > 0 ==> Normal(c))
      && out == Join(stack) + ("/" + c)[..done]
      && left == (if done == 0 then "" else c[done - 1..]) + rest
    }

    /** What it promises for the end. */
    ghost predicate Heading(size: nat, goal: seq<string>, fits: bool) {
      && Rooted(rest)
      && Resolve(Current(), Components(rest)) == goal
      && Fits(Current(), Components(rest), size) == fits
    }
  }

  /** The scan back over the last component. */
  method ScanBack(buf: array<char>, q: nat, ghost stack: seq<string>) returns (back: nat)
    requires q <= buf.Length && AllNormal(stack) && buf[..q] == Join(stack)
    ensures back <= q && buf[..back] == Join(Pop(stack))
  {
    back := q;
    if back != 0 {
      ghost var n := |Join(Pop(stack))|;
      assert stack != [] && buf[..q] == Join(Pop(stack)) + "/" + stack[|stack| - 1];
      assert forall i :: n < i < q ==> buf[i] == stack[|stack| - 1][i - n - 1];
      back := back - 1;
      while buf[back] != '/'
        invariant n <= back < q
        decreases back
      {
        back := back - 1;
      }
    }
  }

  /** Between components. */
  lemma {:induction false} Boundary(at: Place, out: string, left: string)
    requires at.State(out, left) && (at.done == 0 || left == "" || left[0] == '/')
    ensures at.done == 0 && out == Join(at.stack) && left == at.rest && at.Current() == at.stack
  {
  }

  lemma {:induction false} AtBoundary(stack: seq<string>, rest: string)
    requires AllNormal(stack) && Rooted(rest)
    ensures Place(stack, "", 0, rest).State(Join(stack), rest)
  {
  }

  lemma {:induction false} CopiedOneMore(a: string, s: string, k: nat)
    requires k < |s|
    ensures a + s[..k] + [s[k]] == a + s[..k + 1]
  {
  }

  lemma {:induction false} DropOneMore(c: string, k: nat, rest: string)
    requires k < |c|
    ensures (c[k..] + rest)[0] == c[k] && (c[k..] + rest)[1..] == c[k + 1..] + rest
  {
  }

  /** Inside a component one character is copied. */
  lemma {:induction false} CopyStep(at: Place, out: string, left: string) returns (at': Place)
    requires at.State(out, left) && at.done > 0
    ensures left != "" && at'.State(out + [left[0]], left[1..])
    ensures at'.Current() == at.Current() && at'.rest == at.rest
  {
    var name := "/" + at.c;
    CopiedOneMore(Join(at.stack), name, at.done);
    DropOneMore(at.c, at.done - 1, at.rest);
    if at.done == |at.c| {
      at' := ComponentDone(at);
    } else {
      at' := at.(done := at.done + 1);
    }
  }

  lemma {:induction false} ComponentDone(at: Place) returns (at': Place)
    requires AllNormal(at.stack) && Normal(at.c) && Rooted(at.rest)
    ensures at' == Place(at.stack + [at.c], "", 0, at.rest)
    ensures at'.State(Join(at.stack) + ("/" + at.c)[..|at.c| + 1], at.c[|at.c|..] + at.rest)
  {
    at' := Place(at.stack + [at.c], "", 0, at.rest);
    JoinPush(at.stack, at.c);
    assert ("/" + at.c)[..|at.c| + 1] == "/" + at.c;
    assert Join(at.stack) + ("/" + at.c) == Join(at'.stack);
    assert at.c[|at.c|..] + at.rest == at.rest;
    AtBoundary(at'.stack, at.rest);
  }

  lemma {:induction false} TailOf(c: string, after: string)
    ensures ("/" + c + after)[1..] == c + after
  {
  }

  lemma {:induction false} SlashCopied(stack: seq<string>, c: string, after: string)
    requires AllNormal(stack) && Rooted(after) && Normal(c)
    ensures Place(stack, c, 1, after).State(Join(stack) + ['/'], c + after)
  {
    assert ("/" + c)[..1] == ['/'] && c[0..] == c;
  }

  /** At the front of any other component its slash is copied. */
  lemma {:induction false} StartStep(path: string, p: nat, stack: seq<string>, size: nat) returns (at': Place)
    requires p < |path| && '\0' !in path && AllNormal(stack) && |Join(stack)| < size && Rooted(path[p..])
    requires !EmptyAt(path, p) && !DotAt(path, p) && !DotDotAt(path, p)
    ensures at'.State(Join(stack) + [path[p]], path[p + 1..])
    ensures at'.Heading(size, Resolve(stack, Components(path[p..])), Fits(stack, Components(path[p..]), size))
  {
    Lookahead(path, p);
    var c, after := PushStep(stack, path[p..], size);
    SlashCopied(stack, c, after);
    TailOf(c, after);
    assert path[p..][1..] == path[p + 1..];
    at' := Place(stack, c, 1, after);
  }

  /** The copying branch of the loop. */
  lemma {:induction false} OtherStep(path: string, p: nat, at: Place, out: string, size: nat, goal: seq<string>,
      fits: bool) returns (at': Place)
    requires p < |path| && '\0' !in path && at.State(out, path[p..]) && |out| < size && at.Heading(size, goal, fits)
    requires !EmptyAt(path, p) && !DotAt(path, p) && !DotDotAt(path, p)
    ensures at'.State(out + [path[p]], path[p + 1..]) && at'.Heading(size, goal, fits)
  {
    if at.done == 0 {
      Boundary(at, out, path[p..]);
      at' := StartStep(path, p, at.stack, size);
    } else {
      at' := CopyStep(at, out, path[p..]);
      assert path[p..][1..] == path[p + 1..];
    }
  }

  /** The branches that skip "" and ".", and that of "..". */
  lemma {:induction false} SkipStep(path: string, p: nat, at: Place, out: string, c: string, size: nat,
      goal: seq<string>, fits: bool) returns (at': Place)
    requires p < |path| && '\0' !in path && at.State(out, path[p..]) && |out| < size && at.Heading(size, goal, fits)
    requires if c == "" then EmptyAt(path, p) else if c == "." then DotAt(path, p) else c == ".." && DotDotAt(path, p)
    ensures p + |c| + 1 <= |path| && AllNormal(at.stack) && out == Join(at.stack)
    ensures at'.stack == (if c == ".." then Pop(at.stack) else at.stack)
    ensures at'.State(Join(at'.stack), path[p + |c| + 1..]) && at'.Heading(size, goal, fits)
  {
    Boundary(at, out, path[p..]);
    SeenIs(path, p, c);
    DotStep(at.stack, path[p..], c, size);
    at' := Place(if c == ".." then Pop(at.stack) else at.stack, "", 0, path[p + |c| + 1..]);
    AtBoundary(at'.stack, at'.rest);
  }

  lemma {:induction false} SeenIs(path: string, p: nat, c: string)
    requires p < |path| && '\0' !in path
    requires if c == "" then EmptyAt(path, p) else if c == "." then DotAt(path, p) else c == ".." && DotDotAt(path, p)
    ensures p + |c| + 1 <= |path| && path[p..][..|c| + 1] == "/" + c
    ensures path[p..][|c| + 1..] == path[p + |c| + 1..] && Rooted(path[p + |c| + 1..])
  {
  }

  /** At the end of the path, or of the buffer. */
  lemma {:induction false} AtEnd(at: Place, out: string, left: string, size: nat, goal: seq<string>, fits: bool)
    requires at.State(out, left) && at.Heading(size, goal, fits) && |out| <= size
    requires left == "" || |out| == size
    ensures fits == (left == "" && |out| < size)
    ensures left == "" ==> out == Join(goal)
  {
    if left == "" { Boundary(at, out, left); }
    if |out| == size && at.done > 0 { JoinPush(at.stack, at.c); }
  }

  method PutChar(buf: array<char>, q: nat, ch: char)
    requires q < buf.Length
    modifies buf
    ensures buf[..q + 1] == old(buf[..q]) + [ch]
  {
    buf[q] := ch;
  }

  /** The copying branch of the loop: one character goes to the buffer. */
  method CopyOne(path: string, p: nat, buf: array<char>, q: nat, ghost at: Place, ghost goal: seq<string>,
      ghost fits: bool)
      returns (ghost at': Place)
    requires '\0' !in path && p < |path| && q < buf.Length
    requires at.State(buf[..q], path[p..]) && at.Heading(buf.Length, goal, fits)
    requires !EmptyAt(path, p) && !DotAt(path, p) && !DotDotAt(path, p)
    modifies buf
    ensures at'.State(buf[..q + 1], path[p + 1..]) && at'.Heading(buf.Length, goal, fits)
  {
    at' := OtherStep(path, p, at, buf[..q], buf.Length, goal, fits);
    PutChar(buf, q, path[p]);
  }

  /** The branch of "..": the last component in the buffer is dropped. */
  method StepBack(path: string, p: nat, buf: array<char>, q: nat, ghost at: Place, ghost goal: seq<string>,
      ghost fits: bool)
      returns (q': nat, ghost at': Place)
    requires '\0' !in path && p < |path| && q < buf.Length
    requires at.State(buf[..q], path[p..]) && at.Heading(buf.Length, goal, fits)
    requires DotDotAt(path, p)
    ensures p + 3 <= |path| && q' <= buf.Length
    ensures at'.State(buf[..q'], path[p + 3..]) && at'.Heading(buf.Length, goal, fits)
  {
    at' := SkipStep(path, p, at, buf[..q], "..", buf.Length, goal, fits);
    q' := ScanBack(buf, q, at.stack);
  }

  /** The branch of an empty component: its slash is passed over. */
  lemma {:induction false} PassEmpty(path: string, p: nat, at: Place, out: string, size: nat, goal: seq<string>,
      fits: bool) returns (at': Place)
    requires '\0' !in path && p < |path| && at.State(out, path[p..]) && at.Heading(size, goal, fits)
    requires |out| < size && EmptyAt(path, p)
    ensures at'.State(out, path[p + 1..]) && at'.Heading(size, goal, fits)
  {
    at' := SkipStep(path, p, at, out, "", size, goal, fits);
  }

  /** The branch of ".": both characters are passed over. */
  lemma {:induction false} PassDot(path: string, p: nat, at: Place, out: string, size: nat, goal: seq<string>,
      fits: bool) returns (at': Place)
    requires '\0' !in path && p < |path| && at.State(out, path[p..]) && at.Heading(size, goal, fits)
    requires |out| < size && DotAt(path, p)
    ensures p + 2 <= |path| && at'.State(out, path[p + 2..]) && at'.Heading(size, goal, fits)
  {
    at' := SkipStep(path, p, at, out, ".", size, goal, fits);
  }

  /** One round of the loop of canonpath. */
  method Round(path: string, p: nat, buf: array<char>, q: nat, ghost at: Place, ghost goal: seq<string>,
      ghost fits: bool)
      returns (p': nat, q': nat, ghost at': Place)
    requires '\0' !in path && p < |path| && q < buf.Length
    requires at.State(buf[..q], path[p..]) && at.Heading(buf.Length, goal, fits)
    modifies buf
    ensures p < p' <= |path| && q' <= buf.Length
    ensures at'.State(buf[..q'], path[p'..]) && at'.Heading(buf.Length, goal, fits)
  {
    if EmptyAt(path, p) {
      at' := PassEmpty(path, p, at, buf[..q], buf.Length, goal, fits);
      p', q' := p + 1, q;
    } else if DotAt(path, p) {
      at' := PassDot(path, p, at, buf[..q], buf.Length, goal, fits);
      p', q' := p + 2, q;
    } else if DotDotAt(path, p) {
      q', at' := StepBack(path, p, buf, q, at, goal, fits);
      p' := p + 3;
    } else {
      at' := CopyOne(path, p, buf, q, at, goal, fits);
      p', q' := p + 1, q + 1;
    }
  }

  /** The loop of canonpath over a path that starts with a slash. */
  method Walk(path: string, buf: array<char>) returns (ok: bool)
    requires Rooted(path) && '\0' !in path
    modifies buf
    ensures ok == Fits([], Components(path), buf.Length)
    ensures ok ==>
              var r := Join(Resolve([], Components(path)));
              |r| < buf.Length && buf[..|r|] == r && buf[|r|] == '\0'
  {
    var p: nat, q: nat := 0, 0;
    ghost var goal, fits := Resolve([], Components(path)), Fits([], Components(path), buf.Length);
    ghost var at := Place([], "", 0, path);
    AtBoundary([], path);
    while p < |path| && q < buf.Length
      invariant p <= |path| && q <= buf.Length
      invariant at.State(buf[..q], path[p..]) && at.Heading(buf.Length, goal, fits)
      decreases |path| - p
    {
      p, q, at := Round(path, p, buf, q, at, goal, fits);
    }
    AtEnd(at, buf[..q], path[p..], buf.Length, goal, fits);
    ok := p == |path| && q < buf.Length;
    if ok { buf[q] := '\0'; }
  }

  /** canonpath */
  method Canonpath(cwd: string, input: string, buf: array<char>) returns (ok: bool)
    requires Rooted(cwd) && '\0' !in cwd && '\0' !in input
    modifies buf
    ensures var r := Canon(cwd, input, buf.Length);
            && ok == r.Some?
            && (ok ==> |r.value| < buf.Length && buf[..|r.value|] == r.value && buf[|r.value|] == '\0')
  {
    var path := input;
    if At(input, 0) != '/' {
      if |cwd| + 1 + |input| >= PATH_MAX { return false; }
      path := cwd + "/" + input;
    }
    ok := Walk(path, buf);
  }

  // ---------- what canonical means ----------

  ghost predicate Plain(components: seq<string>) {
    forall i :: 0 <= i < |components| ==> '/' !in components[i] && '\0' !in components[i]
  }

  lemma {:induction false} ComponentsPlain(r: string)
    requires Rooted(r) && '\0' !in r
    ensures Plain(Components(r))
    decreases |r|
  {
    if r != "" {
      var k := NextSlash(r[1..]);
      assert forall ch :: ch in r[1..][k..] ==> ch in r;
      ComponentsPlain(r[1..][k..]);
    }
  }

  lemma {:induction false} ResolveNormal(stack: seq<string>, components: seq<string>)
    requires AllNormal(stack) && Plain(components)
    ensures AllNormal(Resolve(stack, components))
    decreases |components|
  {
    if components != [] {
      var c, rest := components[0], components[1..];
      assert forall i :: 0 <= i < |rest| ==> rest[i] == components[i + 1];
      ResolveNormal(if c == "" || c == "." then stack else if c == ".." then Pop(stack) else stack + [c], rest);
    }
  }

  lemma {:induction false} SlashAppended(a: string, k: nat, b: string)
    requires a != "" && a[0] == '/' && k <= |a[1..]|
    ensures a + b == "/" + a[1..][..k] + (a[1..][k..] + b)
  {
  }

  lemma {:induction false} ComponentsSnoc(a: string, c: string)
    requires Rooted(a) && '/' !in c
    ensures Rooted(a + ("/" + c)) && Components(a + ("/" + c)) == Components(a) + [c]
    decreases |a|
  {
    if a == "" {
      assert "/" + c == "/" + c + "" && a + ("/" + c) == "/" + c;
      Front("/" + c, c, "");
    } else {
      var k := NextSlash(a[1..]);
      var first, more := a[1..][..k], a[1..][k..];
      ComponentsSnoc(more, c);
      SlashAppended(a, k, "/" + c);
      Front(a + ("/" + c), first, more + ("/" + c));
    }
  }

  lemma {:induction false} JoinLast(a: string, c: string)
    ensures a + "/" + c == a + ("/" + c)
  {
  }

  lemma {:induction false} WholeStack(stack: seq<string>)
    ensures stack[..|stack|] == stack
  {
  }

  lemma {:induction false} ComponentsOfJoin(stack: seq<string>)
    requires AllNormal(stack)
    ensures Rooted(Join(stack)) && Components(Join(stack)) == stack
  {
    if stack != [] {
      var n := |stack| - 1;
      ComponentsOfJoin(stack[..n]);
      ComponentsSnoc(Join(stack[..n]), stack[n]);
      JoinLast(Join(stack[..n]), stack[n]);
      TakeOneMore(stack, n);
      WholeStack(stack);
    }
  }

  lemma {:induction false} JoinGrows(stack: seq<string>, more: seq<string>)
    ensures |Join(stack)| <= |Join(stack + more)|
    ensures '\0' !in Join(stack) || '\0' in Join(stack + more)
    decreases |more|
  {
    if more == [] {
      assert stack + more == stack;
    } else {
      var n := |more| - 1;
      JoinGrows(stack, more[..n]);
      assert stack + more == stack + more[..n] + [more[n]];
      JoinPush(stack + more[..n], more[n]);
    }
  }

  lemma {:induction false} NormalsResolve(stack: seq<string>, components: seq<string>, size: nat)
    requires AllNormal(components)
    ensures Resolve(stack, components) == stack + components
    ensures Fits(stack, components, size) == (|Join(stack + components)| < size)
    decreases |components|
  {
    if components == [] {
      assert stack + components == stack;
    } else {
      var c, rest := components[0], components[1..];
      assert Normal(c);
      assert forall i :: 0 <= i < |rest| ==> rest[i] == components[i + 1];
      NormalsResolve(stack + [c], rest, size);
      assert stack + [c] + rest == stack + components;
      JoinGrows(stack, components);
    }
  }

  /** A path that canonpath leaves alone: normal components, each behind a slash. */
  ghost predicate Canonical(path: string) {
    exists stack :: AllNormal(stack) && path == Join(stack)
  }

  lemma {:induction false} JoinRooted(stack: seq<string>)
    requires AllNormal(stack)
    ensures Rooted(Join(stack)) && '\0' !in Join(stack) && (Join(stack) == "" <==> stack == [])
  {
    if stack != [] {
      JoinRooted(stack[..|stack| - 1]);
    }
  }

  /** Every result has no empty component, no "." and no "..", and fits. */
  lemma {:induction false} ResultIsCanonical(cwd: string, input: string, size: nat)
    requires Rooted(cwd) && '\0' !in cwd && '\0' !in input && Canon(cwd, input, size).Some?
    ensures Canonical(Canon(cwd, input, size).value) && |Canon(cwd, input, size).value| < size
  {
    var full := Full(cwd, input).value;
    ComponentsPlain(full);
    ResolveNormal([], Components(full));
    FitsResult([], Components(full), size);
  }

  lemma {:induction false} FitsResult(stack: seq<string>, components: seq<string>, size: nat)
    requires Fits(stack, components, size)
    ensures |Join(Resolve(stack, components))| < size
    decreases |components|
  {
    if components != [] {
      var c, rest := components[0], components[1..];
      FitsResult(if c == "" || c == "." then stack else if c == ".." then Pop(stack) else stack + [c], rest, size);
    }
  }

  /** A canonical path other than the empty one is its own result. */
  lemma {:induction false} CanonicalIsKept(cwd: string, path: string, size: nat)
    requires Rooted(cwd) && Canonical(path) && path != ""
    ensures Canon(cwd, path, size) == if |path| < size then Some(path) else None
  {
    var stack :| AllNormal(stack) && path == Join(stack);
    JoinRooted(stack);
    ComponentsOfJoin(stack);
    NormalsResolve([], stack, size);
    assert [] + stack == stack;
  }

  /** The working directory as getcwd reports it: the root, or a canonical path. */
  ghost predicate Reported(cwd: string) {
    cwd == "/" || (cwd != "" && Canonical(cwd))
  }

  lemma {:induction false} ReportedRooted(cwd: string)
    requires Reported(cwd)
    ensures Rooted(cwd) && '\0' !in cwd
  {
    if cwd != "/" {
      var stack :| AllNormal(stack) && cwd == Join(stack);
      JoinRooted(stack);
    }
  }

  /** The root directory itself comes out as the empty string. */
  lemma {:induction false} RootIsEmpty(cwd: string, size: nat)
    requires Rooted(cwd) && 0 < size
    ensures Canon(cwd, "/", size) == Some("")
  {
    Front("/", "", "");
    assert "/" == "/" + "" + "";
    var one: seq<string>, none: seq<string> := [""], [];
    assert Components("/") == one && one[1..] == none;
    assert Resolve(none, one) == Resolve(none, none) == none;
  }

  lemma {:induction false} EmptyAtRoot(size: nat)
    requires 0 < size
    ensures Canon("/", "", size) == Some("")
  {
    Front("//", "", "/");
    Front("/", "", "");
    assert "//" == "/" + "" + "/" && "/" == "/" + "" + "" && "/" + "/" + "" == "//";
    var two: seq<string>, one: seq<string>, none: seq<string> := ["", ""], [""], [];
    assert Components("//") == two && two[1..] == one && one[1..] == none;
    assert Resolve(none, two) == Resolve(none, one) == Resolve(none, none) == none;
    assert Fits(none, one, size) && Fits(none, two, size);
  }

  /** The empty path is the working directory. */
  lemma {:induction false} EmptyIsCwd(cwd: string, size: nat)
    requires cwd != "" && Canonical(cwd) && Rooted(cwd)
    ensures Canon(cwd, "", size) == if |cwd| + 1 < PATH_MAX && |cwd| < size then Some(cwd) else None
  {
    var stack :| AllNormal(stack) && cwd == Join(stack);
    assert cwd + "/" + "" == cwd + ("/" + "");
    SlashedCwd(stack, size);
  }

  /** A trailing slash changes nothing. */
  lemma {:induction false} SlashedCwd(stack: seq<string>, size: nat)
    requires AllNormal(stack)
    ensures var path := Join(stack) + ("/" + "");
            && Rooted(path) && Resolve([], Components(path)) == stack
            && Fits([], Components(path), size) == (|Join(stack)| < size)
  {
    ComponentsOfJoin(stack);
    ComponentsSnoc(Join(stack), "");
    ResolveSnocEmpty([], stack, size);
    NormalsResolve([], stack, size);
    assert [] + stack == stack;
  }

  /**
   Idempotence, exactly: a second pass gives the same result, unless the first
   gave the empty string (the root directory) and the working directory is
   another one.
   */
  lemma {:induction false} IdempotentIff(cwd: string, input: string, size: nat)
    requires Reported(cwd) && Rooted(cwd) && '\0' !in input && Canon(cwd, input, size).Some?
    ensures var r := Canon(cwd, input, size).value;
            Canon(cwd, r, size) == Some(r) <==> r != "" || cwd == "/"
  {
    var r := Canon(cwd, input, size).value;
    ReportedRooted(cwd);
    ResultIsCanonical(cwd, input, size);
    if r == "" {
      if cwd == "/" { EmptyAtRoot(size); } else { EmptyIsCwd(cwd, size); }
    } else {
      CanonicalIsKept(cwd, r, size);
    }
  }

  lemma {:induction false} ResolveSnocEmpty(stack: seq<string>, components: seq<string>, size: nat)
    ensures Resolve(stack, components + [""]) == Resolve(stack, components)
    ensures Fits(stack, components + [""], size) == Fits(stack, components, size)
    decreases |components|
  {
    if components == [] {
      assert components + [""] == [""] && [""][1..] == [];
    } else {
      var c, rest := components[0], components[1..];
      assert (components + [""])[1..] == rest + [""];
      var next := if c == "" || c == "." then stack else if c == ".." then Pop(stack) else stack + [c];
      ResolveSnocEmpty(next, rest, size);
    }
  }

  /** A path shorter than the buffer always fits: only longer ones are refused. */
  lemma {:induction false} ShortPathFits(stack: seq<string>, r: string, size: nat)
    requires Rooted(r) && |Join(stack)| + |r| < size
    ensures Fits(stack, Components(r), size)
    decreases |r|
  {
    if r != "" {
      var k := NextSlash(r[1..]);
      var c, rest := r[1..][..k], r[1..][k..];
      assert Components(r)[1..] == Components(rest);
      JoinPush(stack, c);
      ShortPathFits(if c == "" || c == "." then stack else if c == ".." then Pop(stack) else stack + [c], rest, size);
    }
  }

  lemma {:induction false} ShortInputSucceeds(cwd: string, input: string, size: nat)
    requires Rooted(cwd) && Full(cwd, input).Some? && |Full(cwd, input).value| < size
    ensures Canon(cwd, input, size).Some?
  {
    ShortPathFits([], Full(cwd, input).value, size);
  }

  // ---------- the characters of a result ----------

  ghost predicate AllWithout(stack: seq<string>, ch: char) {
    forall i :: 0 <= i < |stack| ==> ch !in stack[i]
  }

  lemma {:induction false} ComponentsWithout(r: string, ch: char)
    requires Rooted(r) && ch !in r
    ensures AllWithout(Components(r), ch)
    decreases |r|
  {
    if r != "" {
      var k := NextSlash(r[1..]);
      assert forall x :: x in r[1..][k..] ==> x in r;
      ComponentsWithout(r[1..][k..], ch);
    }
  }

  lemma {:induction false} ResolveWithout(stack: seq<string>, components: seq<string>, ch: char)
    requires AllWithout(stack, ch) && AllWithout(components, ch)
    ensures AllWithout(Resolve(stack, components), ch)
    decreases |components|
  {
    if components != [] {
      var c, rest := components[0], components[1..];
      assert forall i :: 0 <= i < |rest| ==> rest[i] == components[i + 1];
      ResolveWithout(if c == "" || c == "." then stack else if c == ".." then Pop(stack) else stack + [c], rest, ch);
    }
  }

  lemma {:induction false} JoinWithout(stack: seq<string>, ch: char)
    requires AllWithout(stack, ch) && ch != '/'
    ensures ch !in Join(stack)
  {
    if stack != [] {
      JoinWithout(stack[..|stack| - 1], ch);
    }
  }

  /** No character comes out that did not go in. */
  lemma {:induction false} ResultWithout(cwd: string, input: string, size: nat, ch: char)
    requires Rooted(cwd) && Full(cwd, input).Some? && ch !in Full(cwd, input).value && ch != '/'
    ensures Canon(cwd, input, size).Some? ==> ch !in Canon(cwd, input, size).value
  {
    var components := Components(Full(cwd, input).value);
    ComponentsWithout(Full(cwd, input).value, ch);
    ResolveWithout([], components, ch);
    JoinWithout(Resolve([], components), ch);
  }
}
