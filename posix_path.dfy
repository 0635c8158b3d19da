/**
 * The POSIX flavour of `path.join` and `path.normalize` that the public-file
 * handlers use, over `/`-separated strings: split into segments, drop empty
 * and `.` segments, let `..` pop the previous segment, and render the
 * result with its leading and trailing separators.
 */
module PosixPath {

  /** `s.split('/')`: the pieces between separators, empty ones included. */
  function Split(s: string): (segs: seq<string>)
    ensures |segs| >= 1
    ensures forall i :: 0 <= i < |segs| ==> '/' !in segs[i]
    decreases |s|
  {
    if s == [] then [""]
    else if s[0] == '/' then [""] + Split(s[1..])
    else
      var rest := Split(s[1..]);
      [[s[0]] + rest[0]] + rest[1..]
  }

  /** `segs.join('/')` */
  function JoinSegments(segs: seq<string>): string
    decreases |segs|
  {
    if segs == [] then ""
    else if |segs| == 1 then segs[0]
    else segs[0] + "/" + JoinSegments(segs[1..])
  }

  /** Splitting at a separator splits the two sides independently. */
  lemma {:induction false} SplitAppend(a: string, b: string)
    ensures Split(a + "/" + b) == Split(a) + Split(b)
    decreases |a|
  {
    if a == [] {
      assert (a + "/" + b)[1..] == b;
    } else {
      assert (a + "/" + b)[1..] == a[1..] + "/" + b;
      SplitAppend(a[1..], b);
    }
  }

  /** A string without separators is a single segment. */
  lemma {:induction false} SplitPlain(s: string)
    requires '/' !in s
    ensures Split(s) == [s]
    decreases |s|
  {
    if s != [] {
      SplitPlain(s[1..]);
      assert [s[0]] + s[1..] == s;
    }
  }

  /** Three pieces without separators, joined by `/`, split back into the three. */
  lemma SplitThree(a: string, b: string, c: string)
    requires '/' !in a && '/' !in b && '/' !in c
    ensures Split(a + "/" + (b + "/" + c)) == [a, b, c]
  {
    assert Split(b + "/" + c) == [b, c] by {
      SplitAppend(b, c);
      SplitPlain(b);
      SplitPlain(c);
    }
    assert Split(a + "/" + (b + "/" + c)) == Split(a) + [b, c] by {
      SplitAppend(a, b + "/" + c);
    }
    SplitPlain(a);
  }

  /** Joining segments that hold no separator and splitting again gives them back. */
  lemma {:induction false} SplitJoin(segs: seq<string>)
    requires |segs| >= 1
    requires forall i :: 0 <= i < |segs| ==> '/' !in segs[i]
    ensures Split(JoinSegments(segs)) == segs
    decreases |segs|
  {
    SplitPlain(segs[0]);
    if |segs| > 1 {
      SplitJoin(segs[1..]);
      SplitAppend(segs[0], JoinSegments(segs[1..]));
      assert [segs[0]] + segs[1..] == segs;
    }
  }

  lemma {:induction false} JoinAppend(a: seq<string>, b: seq<string>)
    requires |a| >= 1 && |b| >= 1
    ensures JoinSegments(a + b) == JoinSegments(a) + "/" + JoinSegments(b)
    decreases |a|
  {
    if |a| == 1 {
      assert (a + b)[1..] == b;
    } else {
      assert (a + b)[1..] == a[1..] + b;
      JoinAppend(a[1..], b);
    }
  }

  /** Neither end of a join of separator-free, non-empty segments is a separator. */
  lemma {:induction false} JoinEnds(segs: seq<string>)
    requires |segs| >= 1
    requires forall i :: 0 <= i < |segs| ==> segs[i] != "" && '/' !in segs[i]
    ensures var j := JoinSegments(segs); |j| > 0 && j[0] != '/' && j[|j| - 1] != '/'
    decreases |segs|
  {
    assert segs[0][0] in segs[0];
    if |segs| > 1 {
      JoinEnds(segs[1..]);
      var rest := JoinSegments(segs[1..]);
      assert rest[|rest| - 1] in segs[1..][|segs[1..]| - 1] by {
        JoinLast(segs[1..]);
      }
    }
  }

  lemma {:induction false} JoinLast(segs: seq<string>)
    requires |segs| >= 1 && segs[|segs| - 1] != ""
    ensures var j := JoinSegments(segs); |j| > 0 && j[|j| - 1] == segs[|segs| - 1][|segs[|segs| - 1]| - 1]
    decreases |segs|
  {
    if |segs| > 1 {
      JoinLast(segs[1..]);
    }
  }

  /** How one segment changes the stack of resolved segments. */
  function Step(stack: seq<string>, seg: string, absolute: bool): (r: seq<string>)
    ensures seg == "" || seg == "." ==> r == stack
    ensures seg != "" && seg != "." && seg != ".." ==> r == stack + [seg]
    ensures seg == ".." && |stack| > 0 && stack[|stack| - 1] != ".." ==> r == stack[..|stack| - 1]
    ensures seg == ".." && absolute && (stack == [] || stack[|stack| - 1] == "..") ==> r == stack
    ensures seg == ".." && !absolute && (stack == [] || stack[|stack| - 1] == "..") ==> r == stack + [".."]
  {
    if seg == "" || seg == "." then stack
    else if seg == ".." then
      if |stack| > 0 && stack[|stack| - 1] != ".." then stack[..|stack| - 1]
      else if absolute then stack
      else stack + [".."]
    else stack + [seg]
  }

  /** Resolve the segments left to right, starting from `stack`. */
  function Resolve(stack: seq<string>, segs: seq<string>, absolute: bool): (r: seq<string>)
    ensures |r| <= |stack| + |segs|
    decreases |segs|
  {
    if segs == [] then stack else Resolve(Step(stack, segs[0], absolute), segs[1..], absolute)
  }

  /** Resolving a leading segment first. */
  lemma ResolveHead(stack: seq<string>, seg: string, rest: seq<string>, absolute: bool)
    ensures Resolve(stack, [seg] + rest, absolute) == Resolve(Step(stack, seg, absolute), rest, absolute)
  {
    assert ([seg] + rest)[0] == seg;
    assert ([seg] + rest)[1..] == rest;
  }

  /** `..` pops a named last segment. */
  lemma StepParent(stack: seq<string>, name: string, absolute: bool)
    requires name != ".."
    ensures Step(stack + [name], "..", absolute) == stack
  {
    assert (stack + [name])[..|stack|] == stack;
  }

  /**
   * What resolution can produce: no empty, `.` or separator-holding
   * segment; `..` only in front, and never in an absolute path.
   */
  predicate Clean(stack: seq<string>, absolute: bool) {
    && (forall i :: 0 <= i < |stack| ==> stack[i] != "" && stack[i] != "." && '/' !in stack[i])
    && (absolute ==> ".." !in stack)
    && (forall i, j :: 0 <= j < i < |stack| && stack[i] == ".." ==> stack[j] == "..")
  }

  /** Render a resolved stack the way `normalize` does. */
  function Render(stack: seq<string>, absolute: bool, trailing: bool): string {
    if stack == [] then
      (if absolute then "/" else if trailing then "./" else ".")
    else
      (if absolute then "/" else "") + JoinSegments(stack) + (if trailing then "/" else "")
  }

  /** `path.normalize(path)` */
  function Normalize(path: string): (r: string)
    ensures path == "" ==> r == "."
    ensures |r| >= 1
    ensures path != "" ==> (r[0] == '/' <==> path[0] == '/')
    ensures path != "" && path[|path| - 1] == '/' ==> r[|r| - 1] == '/'
  {
    if path == "" then "."
    else
      var absolute := path[0] == '/';
      var stack := Resolve([], Split(path), absolute);
      ResolveClean([], Split(path), absolute);
      RenderShape(stack, absolute, path[|path| - 1] == '/');
      Render(stack, absolute, path[|path| - 1] == '/')
  }

  /** A rendered clean stack is never empty, starts with `/` exactly when absolute, and keeps a trailing `/`. */
  lemma RenderShape(stack: seq<string>, absolute: bool, trailing: bool)
    requires Clean(stack, absolute)
    ensures var r := Render(stack, absolute, trailing);
      && |r| >= 1 && (r[0] == '/' <==> absolute) && (trailing ==> r[|r| - 1] == '/')
  {
    if stack != [] {
      var joined := JoinSegments(stack);
      assert |stack[0]| >= 1 && stack[0][0] != '/' by {
        assert stack[0] != "" && '/' !in stack[0];
      }
      assert |joined| >= 1 && joined[0] == stack[0][0] by {
        if |stack| > 1 {
          assert joined == stack[0] + "/" + JoinSegments(stack[1..]);
        }
      }
    }
  }

  function NonEmpty(parts: seq<string>): (r: seq<string>)
    ensures forall i :: 0 <= i < |r| ==> r[i] != ""
  {
    if parts == [] then []
    else (if parts[0] == "" then [] else [parts[0]]) + NonEmpty(parts[1..])
  }

  lemma NonEmptyAll(parts: seq<string>)
    requires forall i :: 0 <= i < |parts| ==> parts[i] != ""
    ensures NonEmpty(parts) == parts
  {
    if parts != [] {
      NonEmptyAll(parts[1..]);
    }
  }

  lemma NonEmptyPair(a: string, b: string)
    ensures NonEmpty([a, b]) == (if a == "" then [] else [a]) + (if b == "" then [] else [b])
  {
    assert [a, b][1..] == [b];
    assert [b][1..] == [];
    assert NonEmpty([b]) == (if b == "" then [] else [b]) + NonEmpty([]);
  }

  lemma JoinTwo(a: string, b: string)
    ensures JoinSegments([a, b]) == a + "/" + b
  {
    assert [a, b][1..] == [b];
  }

  lemma JoinThree(a: string, b: string, c: string)
    ensures JoinSegments([a, b, c]) == a + "/" + (b + "/" + c)
  {
    assert [a, b, c][1..] == [b, c];
    JoinTwo(b, c);
  }

  /** `path.join(...parts)`: the non-empty parts joined by `/`, then normalised. */
  function Join(parts: seq<string>): (r: string)
    ensures NonEmpty(parts) == [] ==> r == "."
    ensures Normalize(r) == r
  {
    NormalizeIdempotent(JoinSegments(NonEmpty(parts)));
    Normalize(JoinSegments(NonEmpty(parts)))
  }

  lemma {:induction false} ResolveAppend(stack: seq<string>, a: seq<string>, b: seq<string>, absolute: bool)
    ensures Resolve(stack, a + b, absolute) == Resolve(Resolve(stack, a, absolute), b, absolute)
    decreases |a|
  {
    if a == [] {
      assert a + b == b;
    } else {
      assert (a + b)[1..] == a[1..] + b;
      ResolveAppend(Step(stack, a[0], absolute), a[1..], b, absolute);
    }
  }

  lemma StepClean(stack: seq<string>, seg: string, absolute: bool)
    requires Clean(stack, absolute) && '/' !in seg
    ensures Clean(Step(stack, seg, absolute), absolute)
  {
    var n := |stack|;
    if seg == ".." && !(n > 0 && stack[n - 1] != "..") && !absolute {
      var r := stack + [".."];
      forall i, j | 0 <= j < i < |r| && r[i] == ".." ensures r[j] == ".." {
        if i == n && n > 0 {
          assert stack[n - 1] == "..";
          if j < n - 1 { assert stack[j] == ".."; }
        }
      }
    } else if seg == ".." && n > 0 && stack[n - 1] != ".." {
      assert forall i :: 0 <= i < n - 1 ==> stack[..n - 1][i] == stack[i];
    }
  }

  /** Resolution keeps a clean stack clean. */
  lemma {:induction false} ResolveClean(stack: seq<string>, segs: seq<string>, absolute: bool)
    requires Clean(stack, absolute)
    requires forall i :: 0 <= i < |segs| ==> '/' !in segs[i]
    ensures Clean(Resolve(stack, segs, absolute), absolute)
    decreases |segs|
  {
    if segs != [] {
      StepClean(stack, segs[0], absolute);
      ResolveClean(Step(stack, segs[0], absolute), segs[1..], absolute);
    }
  }

  /** Resolving segments that are already clean after `stack` just appends them. */
  lemma {:induction false} ResolveCleanIdentity(stack: seq<string>, segs: seq<string>, absolute: bool)
    requires Clean(stack + segs, absolute)
    ensures Resolve(stack, segs, absolute) == stack + segs
    decreases |segs|
  {
    if segs != [] {
      var all := stack + segs;
      var n := |stack|;
      assert all[n] == segs[0];
      if segs[0] == ".." {
        assert !absolute by { assert all[n] in all; }
        if n > 0 { assert all[n - 1] == stack[n - 1]; }
      }
      assert Step(stack, segs[0], absolute) == stack + [segs[0]];
      assert (stack + [segs[0]]) + segs[1..] == all;
      ResolveCleanIdentity(stack + [segs[0]], segs[1..], absolute);
    }
  }

  function Marker(present: bool): seq<string> {
    if present then [""] else []
  }

  /** The segments and the two ends of a rendered non-empty clean stack. */
  lemma SplitRender(stack: seq<string>, absolute: bool, trailing: bool)
    requires Clean(stack, absolute) && stack != []
    ensures var r := Render(stack, absolute, trailing);
      && |r| > 0
      && Split(r) == Marker(absolute) + stack + Marker(trailing)
      && (r[0] == '/' <==> absolute)
      && (r[|r| - 1] == '/' <==> trailing)
  {
    var j := JoinSegments(stack);
    JoinEnds(stack);
    SplitJoin(stack);
    var mid := (if absolute then "/" else "") + j;
    if absolute {
      SplitAppend("", j);
      assert mid == "" + "/" + j;
    } else {
      assert mid == j;
    }
    assert Split(mid) == Marker(absolute) + stack;
    assert mid[|mid| - 1] == j[|j| - 1];
    var r := Render(stack, absolute, trailing);
    if trailing {
      SplitAppend(mid, "");
      assert r == mid + "/" + "";
    } else {
      assert r == mid;
    }
  }

  /** The three renderings of an empty stack are fixed points of `normalize`. */
  lemma RenderNormalEmpty(absolute: bool, trailing: bool)
    ensures Normalize(Render([], absolute, trailing)) == Render([], absolute, trailing)
  {
    if absolute {
      assert Split("/") == ["", ""] by { SplitAppend("", ""); }
    } else if trailing {
      assert Split("./") == [".", ""] by { SplitAppend(".", ""); SplitPlain("."); }
    } else {
      SplitPlain(".");
    }
  }

  /** Resolving the segments of a rendered clean stack gives the stack back. */
  lemma ResolveRendered(stack: seq<string>, absolute: bool, trailing: bool)
    requires Clean(stack, absolute)
    ensures Resolve([], Marker(absolute) + stack + Marker(trailing), absolute) == stack
  {
    assert Clean([] + stack, absolute);
    ResolveCleanIdentity([], stack, absolute);
    ResolveAppend([], Marker(absolute) + stack, Marker(trailing), absolute);
    ResolveAppend([], Marker(absolute), stack, absolute);
    assert Resolve([], Marker(absolute), absolute) == [];
    assert Resolve(stack, Marker(trailing), absolute) == stack;
  }

  /** Normalising a rendered clean stack gives the same string back. */
  lemma RenderNormal(stack: seq<string>, absolute: bool, trailing: bool)
    requires Clean(stack, absolute)
    ensures Normalize(Render(stack, absolute, trailing)) == Render(stack, absolute, trailing)
  {
    if stack == [] {
      RenderNormalEmpty(absolute, trailing);
    } else {
      SplitRender(stack, absolute, trailing);
      ResolveRendered(stack, absolute, trailing);
    }
  }

  /** `normalize` is idempotent. */
  lemma NormalizeIdempotent(path: string)
    ensures Normalize(Normalize(path)) == Normalize(path)
  {
    if path == "" {
      SplitPlain(".");
    } else {
      var absolute := path[0] == '/';
      ResolveClean([], Split(path), absolute);
      RenderNormal(Resolve([], Split(path), absolute), absolute, path[|path| - 1] == '/');
    }
  }

  /** The segments that name something: neither empty nor `.`. */
  function Named(segs: seq<string>): seq<string> {
    if segs == [] then []
    else (if segs[0] == "" || segs[0] == "." then [] else [segs[0]]) + Named(segs[1..])
  }

  /** Without `..`, resolution only appends the named segments. */
  lemma {:induction false} ResolveWithoutParent(stack: seq<string>, segs: seq<string>, absolute: bool)
    requires ".." !in segs
    ensures Resolve(stack, segs, absolute) == stack + Named(segs)
    decreases |segs|
  {
    if segs != [] {
      var head, tail := segs[0], segs[1..];
      var named := if head == "" || head == "." then [] else [head];
      assert ".." !in tail by {
        forall i | 0 <= i < |tail| ensures tail[i] != ".." {
          assert tail[i] == segs[i + 1] && segs[i + 1] in segs;
        }
      }
      assert Resolve(stack, segs, absolute) == Resolve(stack + named, tail, absolute) by {
        assert segs == [head] + tail;
        assert head != ".." by { assert head in segs; }
        assert stack + [] == stack;
        assert Step(stack, head, absolute) == stack + named;
        ResolveHead(stack, head, tail, absolute);
      }
      assert Named(segs) == named + Named(tail);
      ResolveWithoutParent(stack + named, tail, absolute);
      assert stack + named + Named(tail) == stack + (named + Named(tail));
    }
  }

  /** Appending segments that are plain names keeps a stack clean. */
  lemma AppendNamesClean(stack: seq<string>, names: seq<string>, absolute: bool)
    requires Clean(stack, absolute)
    requires forall i :: 0 <= i < |names| ==> names[i] != "" && names[i] != "." && names[i] != ".." && '/' !in names[i]
    ensures Clean(stack + names, absolute)
  {
    var r := stack + names;
    forall i | 0 <= i < |r| ensures r[i] != "" && r[i] != "." && '/' !in r[i] && (i >= |stack| ==> r[i] != "..") {
      if i >= |stack| { assert r[i] == names[i - |stack|]; }
    }
  }

  /** Normalising `dir + "/" + tail` for an absolute `dir`: `tail` resolves on top of `dir`. */
  lemma NormalizeBelow(dir: string, tail: string)
    requires |dir| > 0 && dir[0] == '/' && tail != ""
    ensures Normalize(dir + "/" + tail) ==
      Render(Resolve(Resolve([], Split(dir), true), Split(tail), true), true, tail[|tail| - 1] == '/')
  {
    var q := dir + "/" + tail;
    SplitAppend(dir, tail);
    ResolveAppend([], Split(dir), Split(tail), true);
    assert q[0] == '/' && q[|q| - 1] == tail[|tail| - 1];
  }
}
