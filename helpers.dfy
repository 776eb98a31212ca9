/**
 * `sanitize_path` from the yaturl helpers: turns the path of an HTTP request
 * into a path relative to the static document root.
 */
module Helpers {
  import opened Common
  import opened PosixPath

  /** `path[0:path.find('?')]` when the path has a '?', else the path itself. */
  function DropQuery(path: string): (r: string)
    ensures '?' !in r
    ensures StartsWith(path, r)
    ensures '?' !in path ==> r == path
  {
    var q := Find(path, '?');
    if q > -1 then path[..q] else path
  }

  /** Strips the one leading character of an absolute path (`os.path.isabs`). */
  function StripRoot(path: string): (r: string)
    ensures StartsWith(path, "/") ==> path == "/" + r
    ensures !StartsWith(path, "/") ==> r == path
  {
    if StartsWith(path, "/") then path[1..] else path
  }

  /** `sanitize_path(path)` as written. */
  function SanitizePath(path: string): (r: string)
    ensures path == "" <==> r == ""
  {
    if path == "" then "" else NormPath(DropQuery(StripRoot(path)))
  }

  /** Nothing from the first '?' onwards survives, and an empty path gives ''. */
  lemma SanitizeDropsQuery(path: string)
    ensures path == "" <==> SanitizePath(path) == ""
    ensures '?' !in SanitizePath(path)
  {
    if path != "" {
      NormPathChars(DropQuery(StripRoot(path)));
    }
  }

  /**
   * For an ordinary request path (one leading slash) the result is relative
   * and normalised: it is "." or its components are non-empty, never ".",
   * and ".." occurs only as a leading run.
   */
  lemma SanitizeNormalises(path: string)
    requires StartsWith(path, "/") && !StartsWith(path, "//")
    ensures var r := SanitizePath(path);
      !StartsWith(r, "/") && (r == "." || Normalized(Split(r), false))
  {
    var p := DropQuery(StripRoot(path));
    assert !StartsWith(StripRoot(path), "/") by {
      assert StripRoot(path) == path[1..];
      if |path| >= 2 { assert path[..2] == "/" + [path[1]]; }
    }
    assert !StartsWith(p, "/");
    NormPathShape(p);
    var cs := NormComponents(p);
    if p != "" && cs != [] {
      assert NormPath(p) == Join(cs) || NormPath(p) == ".";
      if NormPath(p) != "." {
        assert '/' !in cs[0];
        if |cs| > 1 { assert Join(cs) == cs[0] + "/" + Join(cs[1..]); }
        assert NormPath(p)[0] == cs[0][0];
      }
    } else if p != "" {
      assert LeadingSlashes(p) == 0;
      assert Slashes(0) + Join(cs) == "";
      assert NormPath(p) == ".";
    }
    assert !StartsWith(".", "/") by { assert "."[..1] == "."; }
  }

  /** A prefix without '?' survives the query cut. */
  lemma DropQueryKeepsPrefix(s: string, pre: string)
    requires StartsWith(s, pre) && '?' !in pre
    ensures StartsWith(DropQuery(s), pre)
  {
    var q := Find(s, '?');
    forall i | 0 <= i < |pre| ensures s[i] != '?' {
      assert s[i] == pre[i];
    }
    if q != -1 {
      assert q >= |pre|;
      assert s[..q][..|pre|] == pre;
    }
  }

  /**
   * "//" followed by a relative path: one slash is stripped and normpath
   * keeps the single slash left, so the result is absolute with exactly one
   * leading slash ("//x" gives "/x").
   */
  lemma SanitizeDoubleSlash(p: string)
    requires !StartsWith(p, "/")
    ensures var r := SanitizePath("//" + p); StartsWith(r, "/") && !StartsWith(r, "//")
  {
    var s := "/" + p;
    assert StripRoot("//" + p) == s by { assert ("//" + p)[..1] == "/"; assert ("//" + p)[1..] == s; }
    assert s[..1] == "/";
    DropQueryKeepsPrefix(s, "/");
    var q := DropQuery(s);
    assert LeadingSlashes(q) == 1 by {
      if |q| >= 2 {
        assert q[1] == s[1] == p[0];
        assert p[..1] != "/";
      }
    }
    NormPathKeepsSlashes(q);
    var r := NormPath(q);
    assert r[..1] == "/";
    if |r| >= 2 {
      assert r[..2][1] == r[1];
    }
  }

  /**
   * "///" followed by a relative path: after one slash is stripped exactly
   * two leading slashes are left, and normpath keeps both ("///x" gives "//x").
   */
  lemma SanitizeTripleSlash(p: string)
    requires !StartsWith(p, "/")
    ensures var r := SanitizePath("///" + p); StartsWith(r, "//") && !StartsWith(r, "///")
  {
    var s := "//" + p;
    assert StripRoot("///" + p) == s by { assert ("///" + p)[..1] == "/"; assert ("///" + p)[1..] == s; }
    assert s[..2] == "//";
    DropQueryKeepsPrefix(s, "//");
    var q := DropQuery(s);
    assert StartsWith(q, "//");
    assert !StartsWith(q, "///") by {
      if |q| >= 3 {
        assert q == s[..|q|];
        assert q[2] == p[0];
        assert p[..1] != "/";
        assert q[..3][2] != '/';
      }
    }
    assert LeadingSlashes(q) == 2;
    NormPathKeepsSlashes(q);
    var r := NormPath(q);
    assert r[..2] == "//";
    if |r| >= 3 {
      assert r[..3][2] == r[2];
    }
  }

  /**
   * As written, a leading ".." survives: the request path "/../x" becomes
   * "../x", so the file opened is `docroot + "../x"`, outside the document
   * root, although the function promises to remove every "..".
   */
  lemma LeadingParentSurvives()
    ensures SanitizePath("/../x") == "../x"
    ensures ".." in Split(SanitizePath("/../x"))
  {
    assert StripRoot("/../x") == "../x";
    assert DropQuery("../x") == "../x";
    assert LeadingSlashes("../x") == 0 by {
      assert "../x"[..1] != "/";
    }
    ParentXComponents();
    assert NormComponents("../x") == ["..", "x"];
    assert Slashes(0) + Join(["..", "x"]) == "../x";
  }

  /** "../x" splits into ".." and "x", and relative normalisation keeps both. */
  lemma ParentXComponents()
    ensures Split("../x") == ["..", "x"]
    ensures Fold(["..", "x"], false, []) == ["..", "x"]
    ensures Join(["..", "x"]) == "../x"
  {
    SplitNoSlash("x");
    SplitAfterComponent("..", "x");
    assert ".." + "/" + "x" == "../x";
    assert Step([], "..", false) == [".."];
    assert Step([".."], "x", false) == ["..", "x"];
    assert Fold(["..", "x"], false, []) == Fold(["x"], false, [".."]);
    assert Fold(["x"], false, [".."]) == Fold([], false, ["..", "x"]);
  }

  /**
   * `sanitize_path` as evidently intended: the path is normalised as if it
   * were rooted, so a ".." with nothing before it is dropped instead of kept.
   */
  function SanitizePathConfined(path: string): string
  {
    if path == "" then ""
    else
      var cs := Fold(Split(DropQuery(StripRoot(path))), true, []);
      if cs == [] then "." else Join(cs)
  }

  /** Rooted normalisation of a query-free path keeps normalised, query-free components. */
  lemma ConfinedComponents(p: string)
    requires '?' !in p
    ensures var cs := Fold(Split(p), true, []);
      Normalized(cs, true) && forall i :: 0 <= i < |cs| ==> '?' !in cs[i]
  {
    var cs := Fold(Split(p), true, []);
    FoldNormalized(Split(p), true, []);
    FoldKeepsInputComponents(Split(p), true, []);
    SplitChars(p);
    forall i | 0 <= i < |cs| ensures '?' !in cs[i] {
      assert cs[i] in Split(p);
    }
  }

  /** Joined rooted-normalised components: relative, split back exactly, with no "..". */
  lemma RootedJoinShape(cs: seq<string>)
    requires Normalized(cs, true) && cs != []
    ensures Split(Join(cs)) == cs && !StartsWith(Join(cs), "/") && ".." !in cs
  {
    SplitJoin(cs);
    NormalizedJoinHead(cs, true);
  }

  /** The intended property: no ".." component, no leading slash, no query. */
  lemma ConfinedHasNoParent(path: string)
    ensures var r := SanitizePathConfined(path);
      && (path == "" <==> r == "")
      && (path != "" ==> ".." !in Split(r))
      && !StartsWith(r, "/")
      && '?' !in r
  {
    if path != "" {
      var p := DropQuery(StripRoot(path));
      var cs := Fold(Split(p), true, []);
      ConfinedComponents(p);
      if cs != [] {
        RootedJoinShape(cs);
        JoinChars(cs);
      } else {
        SplitNoSlash(".");
        assert "."[..1] == ".";
      }
    }
  }

  lemma {:induction false} LeadingParentStays(comps: seq<string>, kept: seq<string>)
    requires kept != [] && kept[0] == ".."
    ensures var r := Fold(comps, false, kept); r != [] && r[0] == ".."
  {
    if comps != [] {
      LeadingParentStays(comps[1..], Step(kept, comps[0], false));
    }
  }

  lemma {:induction false} FoldModesAgree(comps: seq<string>, kept: seq<string>)
    requires ".." !in Fold(comps, false, kept)
    ensures Fold(comps, true, kept) == Fold(comps, false, kept)
  {
    if comps != [] {
      if comps[0] == ".." && kept == [] {
        assert Step(kept, comps[0], false) == [".."];
        LeadingParentStays(comps[1..], [".."]);
        assert false;
      } else {
        FoldModesAgree(comps[1..], Step(kept, comps[0], false));
      }
    }
  }

  /** A relative path normalises to its kept components joined by '/', or '.' when none are kept. */
  lemma NormPathRelative(p: string)
    requires p != "" && !StartsWith(p, "/")
    ensures NormPath(p) == if NormComponents(p) == [] then "." else Join(NormComponents(p))
  {
    var cs := NormComponents(p);
    assert Slashes(0) + Join(cs) == Join(cs);
    if cs != [] {
      NormPathShape(p);
      assert cs[0] != "";
      if |cs| > 1 { assert Join(cs) == cs[0] + "/" + Join(cs[1..]); }
    }
  }

  /** Where the written code keeps no leading slash and no "..", the fix changes nothing. */
  lemma ConfinedAgreesRelative(path: string)
    requires !StartsWith(StripRoot(path), "/")
    requires ".." !in NormComponents(DropQuery(StripRoot(path)))
    ensures SanitizePathConfined(path) == SanitizePath(path)
  {
    var p := DropQuery(StripRoot(path));
    if path != "" {
      assert !StartsWith(p, "/") by {
        if |p| >= 1 { assert StripRoot(path)[..|p|] == p; assert StripRoot(path)[..1] == p[..1]; }
      }
      assert SanitizePath(path) == NormPath(p);
      assert NormComponents(p) == Fold(Split(p), false, []);
      FoldModesAgree(Split(p), []);
      var cs := Fold(Split(p), true, []);
      assert SanitizePathConfined(path) == if cs == [] then "." else Join(cs);
      if p == "" {
        assert Split(p) == [""];
      } else {
        NormPathRelative(p);
      }
    }
  }

  /** A request path starting "//" stays absolute as written. */
  lemma RootedStaysAbsolute(path: string)
    requires StartsWith(path, "//")
    ensures StartsWith(SanitizePath(path), "/")
  {
    var s := StripRoot(path);
    assert s == path[1..] && path[..1] == "/";
    assert s[..1] == path[1..2] == "/";
    DropQueryKeepsPrefix(s, "/");
    var q := DropQuery(s);
    var full := Slashes(LeadingSlashes(q)) + Join(NormComponents(q));
    assert NormPath(q) == full;
    assert full[0] == '/';
  }

  /**
   * Exactly where the fix changes the result: the two sanitisers agree on a
   * path when it is empty, or when what is left after stripping one slash is
   * relative and normpath keeps no ".." of it. They differ on "//x" ("/x"
   * against "x") and on "/../x" ("../x" against "x").
   */
  lemma ConfinedAgreesWithoutParent(path: string)
    ensures SanitizePathConfined(path) == SanitizePath(path) <==>
      (path == "" || (!StartsWith(StripRoot(path), "/") && ".." !in NormComponents(DropQuery(StripRoot(path)))))
  {
    var p := DropQuery(StripRoot(path));
    if path == "" {
    } else if StartsWith(StripRoot(path), "/") {
      assert StartsWith(path, "//") by {
        assert StartsWith(path, "/");
        assert path[1..][..1] == "/";
        assert path[..2] == path[..1] + path[1..][..1];
      }
      RootedStaysAbsolute(path);
      ConfinedHasNoParent(path);
    } else if ".." in NormComponents(p) {
      assert !StartsWith(p, "/") by {
        if |p| >= 1 { assert StripRoot(path)[..|p|] == p; assert StripRoot(path)[..1] == p[..1]; }
      }
      assert NormComponents("") == [] by {
        assert Split("") == [""];
      }
      assert p != "";
      NormPathShape(p);
      assert Split(SanitizePath(path)) == NormComponents(p);
      ConfinedHasNoParent(path);
    } else {
      ConfinedAgreesRelative(path);
    }
  }
}
