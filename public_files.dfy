/**
 * The `/public/:filename` handlers: the guarded `PublicFileHandler.get` of
 * the utilities file and the unguarded variant in the main plugin file.
 * Reading the file is I/O; a reply names the path it would read.
 */
module PublicFiles {
  import opened Wrappers
  import opened Text
  import opened PosixPath

  /** What the handler puts in `response.body`: a literal text or the contents of a file. */
  datatype Body = Message(text: string) | FileAt(path: string)

  /** `status` and `response.type` are None when the handler leaves them unset. */
  datatype Reply = Reply(status: Option<nat>, contentType: Option<string>, body: Body)

  const ForbiddenReply := Reply(Some(403), None, Message("Forbidden"))

  /** `.css` and `.js` are never both suffixes of one name. */
  lemma SuffixesExclusive(filename: string)
    ensures !(EndsWith(filename, ".css") && EndsWith(filename, ".js"))
  {
    var n := |filename|;
    if n >= 4 {
      assert filename[n - 4..][1] == filename[n - 3];
      assert filename[n - 3..][0] == filename[n - 3];
    }
  }

  /** Content type of the guarded handler: `.css` is checked first, then `.js`. */
  function ContentType(filename: string): (t: Option<string>)
    ensures t == Some("application/javascript") <==> EndsWith(filename, ".js")
    ensures t == Some("text/css") <==> EndsWith(filename, ".css")
    ensures t.None? <==> !EndsWith(filename, ".js") && !EndsWith(filename, ".css")
  {
    SuffixesExclusive(filename);
    var t := if EndsWith(filename, ".css") then Some("text/css") else None;
    if EndsWith(filename, ".js") then Some("application/javascript") else t
  }

  /** Content type of the unguarded handler: `.js` is checked first, then `.css`. */
  function IndexContentType(filename: string): (t: Option<string>)
    ensures t == Some("text/css") <==> EndsWith(filename, ".css")
    ensures t == Some("application/javascript") <==> EndsWith(filename, ".js") && !EndsWith(filename, ".css")
    ensures t.None? <==> !EndsWith(filename, ".js") && !EndsWith(filename, ".css")
  {
    var t := if EndsWith(filename, ".js") then Some("application/javascript") else None;
    if EndsWith(filename, ".css") then Some("text/css") else t
  }

  /** The two handlers agree on every content type: the order of the tests does not matter. */
  lemma SameContentType(filename: string)
    ensures IndexContentType(filename) == ContentType(filename)
  {
    SuffixesExclusive(filename);
  }

  /** `base = join(__dirname, '..', 'public')`, for the handler's directory `dir`. */
  function PublicBase(dir: string): (base: string)
    ensures Normalize(base) == base
  {
    Join([dir, "..", "public"])
  }

  /** `p = normalize(join(base, filename))` */
  function ServedPath(dir: string, filename: string): (p: string)
    ensures p == Join([PublicBase(dir), filename])
  {
    Normalize(Join([PublicBase(dir), filename]))
  }

  /** The guarded handler as written: a string-prefix test on the normalised path. */
  function Decide(dir: string, filename: string): (r: Reply)
    ensures r.status == Some(403) <==> !StartsWith(ServedPath(dir, filename), PublicBase(dir))
    ensures r.status == Some(403) ==> r == ForbiddenReply
    ensures r.status != Some(403) ==>
      r.status.None? && r.contentType == ContentType(filename) && r.body == FileAt(ServedPath(dir, filename))
  {
    var base := PublicBase(dir);
    var p := ServedPath(dir, filename);
    if !StartsWith(p, base) then ForbiddenReply
    else Reply(None, ContentType(filename), FileAt(p))
  }

  /** Containment segment by segment: the path is the base itself or lies below `base + "/"`. */
  predicate Inside(base: string, p: string) {
    p == base || StartsWith(p, base + "/")
  }

  /** The guard as evidently intended: the same handler with `Inside` in place of the prefix test. */
  function DecideContained(dir: string, filename: string): (r: Reply)
    ensures r.status == Some(403) <==> !Inside(PublicBase(dir), ServedPath(dir, filename))
    ensures r.status == Some(403) ==> r == ForbiddenReply
    ensures r.status != Some(403) ==>
      r.status.None? && r.contentType == ContentType(filename) && r.body == FileAt(ServedPath(dir, filename))
  {
    var base := PublicBase(dir);
    var p := ServedPath(dir, filename);
    if !Inside(base, p) then ForbiddenReply
    else Reply(None, ContentType(filename), FileAt(p))
  }

  /** The unguarded handler: `join(__dirname, 'public', filename)` is always read. */
  function IndexDecide(dir: string, filename: string): (r: Reply)
    ensures r.status.None? && r.contentType == ContentType(filename)
    ensures r.body == FileAt(Join([dir, "public", filename]))
  {
    SameContentType(filename);
    Reply(None, IndexContentType(filename), FileAt(Join([dir, "public", filename])))
  }

  /** The resolved segments of `dir` with its last one popped by `..`. */
  function Parent(dir: string): seq<string> {
    Step(Resolve([], Split(dir), true), "..", true)
  }

  /** For an absolute `dir`, the base directory is the parent of `dir` followed by `public`. */
  lemma PublicBaseShape(dir: string)
    requires |dir| > 0 && dir[0] == '/'
    ensures Clean(Parent(dir), true) && Clean(Parent(dir) + ["public"], true)
    ensures PublicBase(dir) == Render(Parent(dir) + ["public"], true, false)
  {
    NonEmptyAll([dir, "..", "public"]);
    var joined := dir + "/" + (".." + "/" + "public");
    JoinThree(dir, "..", "public");
    SplitAppend(dir, ".." + "/" + "public");
    SplitAppend("..", "public");
    SplitPlain("..");
    SplitPlain("public");
    assert Split(joined) == Split(dir) + ["..", "public"];
    ResolveAppend([], Split(dir), ["..", "public"], true);
    ParentClean(dir);
    assert Resolve(Resolve([], Split(dir), true), ["..", "public"], true) == Parent(dir) + ["public"];
    assert joined[0] == '/';
    assert joined[|joined| - 1] == 'c';
  }

  /** The parent of an absolute directory is clean, and so is it followed by `public`. */
  lemma ParentClean(dir: string)
    ensures Clean(Parent(dir), true) && Clean(Parent(dir) + ["public"], true)
  {
    var d := Resolve([], Split(dir), true);
    ResolveClean([], Split(dir), true);
    StepClean(d, "..", true);
    AppendNamesClean(Parent(dir), ["public"], true);
  }

  /** Rendering extra named segments after a non-empty absolute stack stays inside its rendering. */
  lemma RenderBelow(stack: seq<string>, names: seq<string>, trailing: bool)
    requires stack != []
    ensures Inside(Render(stack, true, false), Render(stack + names, true, trailing))
  {
    var base := Render(stack, true, false);
    if names == [] {
      assert stack + names == stack;
    } else {
      JoinAppend(stack, names);
      assert Render(stack + names, true, trailing) ==
        base + "/" + JoinSegments(names) + (if trailing then "/" else "");
    }
  }

  /** `join(base, filename)` for a rendered absolute `base`: `filename` resolves on top of the base's segments. */
  lemma JoinBelow(stack: seq<string>, filename: string)
    requires Clean(stack, true) && stack != [] && filename != ""
    ensures Join([Render(stack, true, false), filename]) ==
      Render(Resolve(stack, Split(filename), true), true, filename[|filename| - 1] == '/')
  {
    var base := Render(stack, true, false);
    SplitRender(stack, true, false);
    NonEmptyPair(base, filename);
    var q := base + "/" + filename;
    JoinTwo(base, filename);
    SplitAppend(base, filename);
    var front := Marker(true) + stack + Marker(false);
    assert Split(q) == front + Split(filename);
    ResolveAppend([], front, Split(filename), true);
    ResolveRendered(stack, true, false);
    assert Resolve([], Split(q), true) == Resolve(stack, Split(filename), true);
    assert q[0] == '/' && q[|q| - 1] == filename[|filename| - 1];
  }

  /** The served path for a non-empty filename: its segments resolved on top of the base's. */
  lemma ServedFrom(dir: string, filename: string)
    requires |dir| > 0 && dir[0] == '/'
    requires filename != ""
    ensures ServedPath(dir, filename) ==
      Render(Resolve(Parent(dir) + ["public"], Split(filename), true), true, filename[|filename| - 1] == '/')
  {
    PublicBaseShape(dir);
    var st := Parent(dir) + ["public"];
    JoinBelow(st, filename);
    ResolveClean(st, Split(filename), true);
    RenderNormal(Resolve(st, Split(filename), true), true, filename[|filename| - 1] == '/');
  }

  /** A filename without `..` segments always resolves inside the public directory. */
  lemma PlainFilenameInside(dir: string, filename: string)
    requires |dir| > 0 && dir[0] == '/'
    requires ".." !in Split(filename)
    ensures Inside(PublicBase(dir), ServedPath(dir, filename))
  {
    PublicBaseShape(dir);
    var st := Parent(dir) + ["public"];
    var base := PublicBase(dir);
    if filename == "" {
      SplitRender(st, true, false);
      NonEmptyPair(base, filename);
      RenderNormal(st, true, false);
    } else {
      ServedFrom(dir, filename);
      ResolveWithoutParent(st, Split(filename), true);
      RenderBelow(st, Named(Split(filename)), filename[|filename| - 1] == '/');
    }
  }

  /** Hence the guarded handler serves every such filename, and so does the corrected one. */
  lemma PlainFilenameServed(dir: string, filename: string)
    requires |dir| > 0 && dir[0] == '/'
    requires ".." !in Split(filename)
    ensures Decide(dir, filename).status.None?
    ensures DecideContained(dir, filename) == Decide(dir, filename)
  {
    PlainFilenameInside(dir, filename);
  }

  /** What the corrected guard admits lies inside the base directory, segment by segment. */
  lemma InsideBySegments(base: string, p: string)
    requires Inside(base, p)
    ensures Split(base) <= Split(p)
  {
    if p != base {
      var rest := p[|base| + 1..];
      assert p == base + "/" + rest;
      SplitAppend(base, rest);
    }
  }

  lemma ContainedStaysInside(dir: string, filename: string)
    requires DecideContained(dir, filename).status.None?
    ensures Split(PublicBase(dir)) <= Split(ServedPath(dir, filename))
  {
    InsideBySegments(PublicBase(dir), ServedPath(dir, filename));
  }

  /** The path reached through `../<sibling>/<f>`: the sibling of the public directory. */
  lemma ServedSibling(dir: string, sibling: string, f: string)
    requires |dir| > 0 && dir[0] == '/'
    requires '/' !in sibling
    requires f != "" && f != "." && f != ".." && '/' !in f
    ensures ServedPath(dir, "../" + sibling + "/" + f) == Render(Step(Parent(dir), sibling, true) + [f], true, false)
  {
    var filename := "../" + sibling + "/" + f;
    var st := Parent(dir) + ["public"];
    assert Split(filename) == ["..", sibling, f] by {
      assert filename == ".." + "/" + (sibling + "/" + f);
      SplitThree("..", sibling, f);
    }
    assert ServedPath(dir, filename) == Render(Resolve(st, ["..", sibling, f], true), true, false) by {
      ServedFrom(dir, filename);
      assert filename[|filename| - 1] == f[|f| - 1];
    }
    ResolveSibling(Parent(dir), sibling, f);
  }

  /** From `<parent>/public`, the segments `..`, `<sibling>`, `<f>` reach `<parent>/<sibling>/<f>`. */
  lemma ResolveSibling(parent: seq<string>, sibling: string, f: string)
    requires f != "" && f != "." && f != ".."
    ensures Resolve(parent + ["public"], ["..", sibling, f], true) == Step(parent, sibling, true) + [f]
  {
    var mid := Step(parent, sibling, true);
    assert ["..", sibling, f] == [".."] + [sibling, f];
    ResolveHead(parent + ["public"], "..", [sibling, f], true);
    StepParent(parent, "public", true);
    assert [sibling, f] == [sibling] + [f];
    ResolveHead(parent, sibling, [f], true);
    assert [f] == [f] + [];
    ResolveHead(mid, f, [], true);
  }

  /** A rendered stack is a string prefix of the rendering with its last segment lengthened. */
  lemma RenderLonger(parent: seq<string>, name: string, suffix: string, f: string)
    ensures StartsWith(Render(parent + [name + suffix, f], true, false), Render(parent + [name], true, false))
  {
    var sibling := name + suffix;
    assert [sibling, f][1..] == [f];
    if parent == [] {
      assert parent + [name] == [name];
      assert parent + [sibling, f] == [sibling, f];
      JoinTwo(sibling, f);
      assert Render([sibling, f], true, false) == "/" + name + (suffix + "/" + f);
    } else {
      JoinAppend(parent, [name]);
      JoinAppend(parent, [sibling, f]);
      JoinTwo(sibling, f);
      assert Render(parent + [sibling, f], true, false) ==
        "/" + JoinSegments(parent) + "/" + name + (suffix + "/" + f);
    }
  }

  /**
   * The prefix test as written admits `../public<suffix>/<f>`: a file in a
   * sibling directory whose name merely starts with `public` is served,
   * although its path does not lie inside the public directory. The
   * corrected guard refuses it.
   */
  lemma SiblingPrefixAdmitted(dir: string, suffix: string, f: string)
    requires |dir| > 0 && dir[0] == '/'
    requires suffix != "" && '/' !in suffix
    requires f != "" && f != "." && f != ".." && '/' !in f
    ensures var filename := "../public" + suffix + "/" + f;
      && Decide(dir, filename).body == FileAt(ServedPath(dir, filename))
      && !(Split(PublicBase(dir)) <= Split(ServedPath(dir, filename)))
      && DecideContained(dir, filename) == ForbiddenReply
  {
    var filename := "../public" + suffix + "/" + f;
    var parent := Parent(dir);
    var base := PublicBase(dir);
    var p := ServedPath(dir, filename);
    SiblingPath(dir, suffix, f);
    PublicBaseShape(dir);
    RenderLonger(parent, "public", suffix, f);
    assert StartsWith(p, base);
    SiblingOutside(parent, suffix, f);
    if Inside(base, p) {
      InsideBySegments(base, p);
    }
  }

  /** `../public<suffix>/<f>` resolves to `<suffix>`'s sibling directory of `public`, then `f`. */
  lemma SiblingPath(dir: string, suffix: string, f: string)
    requires |dir| > 0 && dir[0] == '/'
    requires suffix != "" && '/' !in suffix
    requires f != "" && f != "." && f != ".." && '/' !in f
    ensures ServedPath(dir, "../public" + suffix + "/" + f) == Render(Parent(dir) + ["public" + suffix, f], true, false)
  {
    var sibling := "public" + suffix;
    assert '/' !in sibling && |sibling| > 6;
    assert "../public" + suffix + "/" + f == "../" + sibling + "/" + f by {
      assert "../public" + suffix == "../" + sibling;
    }
    ServedSibling(dir, sibling, f);
    assert Step(Parent(dir), sibling, true) + [f] == Parent(dir) + [sibling, f] by {
      assert Step(Parent(dir), sibling, true) == Parent(dir) + [sibling];
    }
  }

  /** The sibling path does not continue the segments of `<parent>/public`. */
  lemma SiblingOutside(parent: seq<string>, suffix: string, f: string)
    requires Clean(parent, true)
    requires suffix != "" && '/' !in suffix
    requires f != "" && f != "." && f != ".." && '/' !in f
    ensures !(Split(Render(parent + ["public"], true, false)) <= Split(Render(parent + ["public" + suffix, f], true, false)))
  {
    var sibling := "public" + suffix;
    assert '/' !in sibling && |sibling| > 6;
    AppendNamesClean(parent, ["public"], true);
    AppendNamesClean(parent, [sibling, f], true);
    SplitRender(parent + ["public"], true, false);
    SplitRender(parent + [sibling, f], true, false);
    var i := |parent| + 1;
    assert Split(Render(parent + ["public"], true, false))[i] == "public";
    assert Split(Render(parent + [sibling, f], true, false))[i] == sibling;
  }

  lemma SplitPublicParent(f: string)
    requires '/' !in f
    ensures Split("public" + "/" + ("../" + f)) == ["public", "..", f]
  {
    assert "../" + f == ".." + "/" + f;
    SplitThree("public", "..", f);
  }

  lemma ResolvePublicParent(d: seq<string>, f: string)
    ensures Resolve(d, ["public", "..", f], true) == Resolve(d, [f], true)
  {
    assert ["public", "..", f][1..] == ["..", f];
    assert ["..", f][1..] == [f];
    assert Step(d, "public", true) == d + ["public"];
    assert Step(d + ["public"], "..", true) == d;
  }

  /** `join(dir, 'public', '../' + f)` resolves `f` directly under `dir`. */
  lemma JoinPublicParent(dir: string, f: string)
    requires |dir| > 0 && dir[0] == '/'
    requires f != "" && '/' !in f
    ensures Join([dir, "public", "../" + f]) ==
      Render(Resolve(Resolve([], Split(dir), true), [f], true), true, false)
  {
    var tail := "public" + "/" + ("../" + f);
    var d := Resolve([], Split(dir), true);
    JoinOfThree(dir, "public", "../" + f);
    assert tail[|tail| - 1] == f[|f| - 1];
    NormalizeBelow(dir, tail);
    SplitPublicParent(f);
    ResolvePublicParent(d, f);
  }

  /** Joining three non-empty parts normalises them joined by `/`. */
  lemma JoinOfThree(a: string, b: string, c: string)
    requires a != "" && b != "" && c != ""
    ensures Join([a, b, c]) == Normalize(a + "/" + (b + "/" + c))
  {
    NonEmptyAll([a, b, c]);
    JoinThree(a, b, c);
  }

  lemma JoinDirect(dir: string, f: string)
    requires |dir| > 0 && dir[0] == '/'
    requires f != "" && '/' !in f
    ensures Join([dir, f]) == Render(Resolve(Resolve([], Split(dir), true), [f], true), true, false)
  {
    SplitPlain(f);
    NonEmptyAll([dir, f]);
    JoinTwo(dir, f);
    NormalizeBelow(dir, f);
  }

  /** The unguarded handler reads `<dir>/../<f>` for the filename `../<f>`: outside its public directory. */
  lemma UnguardedEscapes(dir: string, f: string)
    requires |dir| > 0 && dir[0] == '/'
    requires f != "" && '/' !in f
    ensures IndexDecide(dir, "../" + f).body == FileAt(Join([dir, f]))
  {
    JoinPublicParent(dir, f);
    JoinDirect(dir, f);
  }
}
