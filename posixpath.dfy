/**
 * POSIX path normalisation as Python's `posixpath.normpath` performs it:
 * the path is split at '/', empty and '.' components are dropped, a '..'
 * cancels the component before it, a '..' that has nothing to cancel is kept
 * in a relative path and dropped at the root of an absolute one, and the
 * leading slashes are kept as one slash, except that exactly two leading
 * slashes are kept as two.
 */
module PosixPath {
  import opened Common

  /** `s.split('/')`: always at least one (possibly empty) component. */
  function Split(s: string): (r: seq<string>)
    ensures |r| >= 1
    ensures forall i :: 0 <= i < |r| ==> '/' !in r[i]
  {
    if s == [] then [""]
    else
      var rest := Split(s[1..]);
      if s[0] == '/' then [""] + rest
      else [[s[0]] + rest[0]] + rest[1..]
  }

  /** `'/'.join(comps)` */
  function Join(comps: seq<string>): string
  {
    if comps == [] then ""
    else if |comps| == 1 then comps[0]
    else comps[0] + "/" + Join(comps[1..])
  }

  /** Joining the pieces of a split gives the string back. */
  lemma {:induction false} JoinSplit(s: string)
    ensures Join(Split(s)) == s
  {
    if s != [] {
      JoinSplit(s[1..]);
      var rest := Split(s[1..]);
      if s[0] != '/' && |rest| > 1 {
        assert Join(rest) == rest[0] + "/" + Join(rest[1..]);
        assert ([s[0]] + rest[0]) + "/" + Join(rest[1..]) == [s[0]] + Join(rest);
      }
      assert s == [s[0]] + s[1..];
    }
  }

  lemma {:induction false} SplitNoSlash(s: string)
    requires '/' !in s
    ensures Split(s) == [s]
  {
    if s != [] {
      assert '/' !in s[1..];
      SplitNoSlash(s[1..]);
      assert s == [s[0]] + s[1..];
    }
  }

  lemma {:induction false} SplitAfterComponent(a: string, b: string)
    requires '/' !in a
    ensures Split(a + "/" + b) == [a] + Split(b)
  {
    if a == [] {
      assert a + "/" + b == "/" + b;
      assert ("/" + b)[1..] == b;
    } else {
      assert '/' !in a[1..];
      SplitAfterComponent(a[1..], b);
      assert (a + "/" + b)[1..] == a[1..] + "/" + b;
      assert [a[0]] + a[1..] == a;
    }
  }

  /** Splitting a join of slash-free components gives the components back. */
  lemma {:induction false} SplitJoin(comps: seq<string>)
    requires |comps| > 0
    requires forall i :: 0 <= i < |comps| ==> '/' !in comps[i]
    ensures Split(Join(comps)) == comps
  {
    if |comps| == 1 {
      SplitNoSlash(comps[0]);
    } else {
      SplitJoin(comps[1..]);
      SplitAfterComponent(comps[0], Join(comps[1..]));
      assert comps == [comps[0]] + comps[1..];
    }
  }

  /** One component processed by normpath, given the components kept so far. */
  function Step(kept: seq<string>, comp: string, rooted: bool): (r: seq<string>)
  {
    if comp == "" || comp == "." then kept
    else if comp != ".." || (!rooted && kept == []) || (kept != [] && kept[|kept| - 1] == "..") then kept + [comp]
    else if kept != [] then kept[..|kept| - 1]
    else kept
  }

  function Fold(comps: seq<string>, rooted: bool, kept: seq<string>): (r: seq<string>)
    ensures |r| <= |kept| + |comps|
  {
    if comps == [] then kept else Fold(comps[1..], rooted, Step(kept, comps[0], rooted))
  }

  /** How many slashes normpath puts in front: two for exactly two, else one for any. */
  function LeadingSlashes(path: string): (n: nat)
    ensures n <= 2
    ensures n == 0 <==> !StartsWith(path, "/")
    ensures n == 2 <==> StartsWith(path, "//") && !StartsWith(path, "///")
  {
    if StartsWith(path, "/") then
      (if StartsWith(path, "//") && !StartsWith(path, "///") then 2 else 1)
    else 0
  }

  function Slashes(n: nat): (r: string)
    ensures |r| == n && forall i :: 0 <= i < n ==> r[i] == '/'
  {
    if n == 0 then "" else "/" + Slashes(n - 1)
  }

  /** The components normpath keeps, in order. */
  function NormComponents(path: string): (r: seq<string>)
    ensures |r| <= |Split(path)|
  {
    Fold(Split(path), LeadingSlashes(path) > 0, [])
  }

  /** `posixpath.normpath(path)` */
  function NormPath(path: string): (r: string)
    ensures r != ""
  {
    if path == "" then "."
    else
      var full := Slashes(LeadingSlashes(path)) + Join(NormComponents(path));
      if full == "" then "." else full
  }

  /**
   * The shape of a normalised component list: no empty and no '.'
   * components, no slashes inside a component, and '..' only in a leading
   * run of a relative path.
   */
  ghost predicate Normalized(comps: seq<string>, rooted: bool)
  {
    forall i :: 0 <= i < |comps| ==>
      && comps[i] != ""
      && comps[i] != "."
      && '/' !in comps[i]
      && (comps[i] == ".." ==> !rooted && forall j :: 0 <= j < i ==> comps[j] == "..")
  }

  lemma {:induction false} FoldNormalized(comps: seq<string>, rooted: bool, kept: seq<string>)
    requires Normalized(kept, rooted)
    requires forall i :: 0 <= i < |comps| ==> '/' !in comps[i]
    ensures Normalized(Fold(comps, rooted, kept), rooted)
  {
    if comps != [] {
      var next := Step(kept, comps[0], rooted);
      assert Normalized(next, rooted) by {
        if kept != [] && kept[|kept| - 1] == ".." {
          assert forall j :: 0 <= j < |kept| ==> kept[j] == "..";
        }
      }
      FoldNormalized(comps[1..], rooted, next);
    }
  }

  /** Every component normpath keeps is a component of the input. */
  lemma {:induction false} FoldKeepsInputComponents(comps: seq<string>, rooted: bool, kept: seq<string>)
    ensures forall c :: c in Fold(comps, rooted, kept) ==> c in kept || c in comps
  {
    if comps != [] {
      var next := Step(kept, comps[0], rooted);
      assert forall c :: c in next ==> c in kept || c == comps[0];
      FoldKeepsInputComponents(comps[1..], rooted, next);
    }
  }

  /**
   * normpath's result: "." or the leading slashes followed by normalised
   * components; for a relative path the components are exactly what a split
   * of the result gives.
   */
  lemma NormPathShape(path: string)
    ensures Normalized(NormComponents(path), LeadingSlashes(path) > 0)
    ensures NormPath(path) == "." || NormPath(path) == Slashes(LeadingSlashes(path)) + Join(NormComponents(path))
    ensures path != "" && LeadingSlashes(path) == 0 && NormComponents(path) != [] ==>
              Split(NormPath(path)) == NormComponents(path)
  {
    FoldNormalized(Split(path), LeadingSlashes(path) > 0, []);
    var cs := NormComponents(path);
    if path != "" && LeadingSlashes(path) == 0 && cs != [] {
      SplitJoin(cs);
      assert Join(cs) != "" by {
        if |cs| > 1 { assert Join(cs) == cs[0] + "/" + Join(cs[1..]); }
      }
      assert Slashes(0) + Join(cs) == Join(cs);
    }
  }

  /** A non-empty normalised component list joins to a text starting with its first component's first character. */
  lemma NormalizedJoinHead(cs: seq<string>, rooted: bool)
    requires Normalized(cs, rooted) && cs != []
    ensures Join(cs) != "" && Join(cs)[0] == cs[0][0] && Join(cs)[0] != '/'
  {
    assert cs[0] != "" && '/' !in cs[0];
    if |cs| > 1 { assert Join(cs) == cs[0] + "/" + Join(cs[1..]); }
  }

  /**
   * normpath of an absolute path starts with exactly the slashes it counts:
   * one, or two for exactly two, and no further slash follows them.
   */
  lemma NormPathKeepsSlashes(path: string)
    requires StartsWith(path, "/")
    ensures var n := LeadingSlashes(path); var r := NormPath(path);
      n <= |r| && r[..n] == Slashes(n) && (n < |r| ==> r[n] != '/')
  {
    NormPathShape(path);
    var n := LeadingSlashes(path);
    var cs := NormComponents(path);
    var r := NormPath(path);
    assert r == Slashes(n) + Join(cs);
    assert r[..n] == Slashes(n);
    if cs != [] {
      NormalizedJoinHead(cs, true);
      assert r[n] == Join(cs)[0];
    }
  }

  lemma {:induction false} SplitChars(s: string)
    ensures forall i, c :: 0 <= i < |Split(s)| && c in Split(s)[i] ==> c in s
  {
    if s != [] {
      SplitChars(s[1..]);
      var rest := Split(s[1..]);
      forall i, c | 0 <= i < |Split(s)| && c in Split(s)[i] ensures c in s {
        if s[0] == '/' {
          assert Split(s)[i] == rest[i - 1];
        } else if i == 0 {
          assert c == s[0] || c in rest[0];
        } else {
          assert Split(s)[i] == rest[i];
        }
        assert c in s[1..] || c == s[0];
      }
    }
  }

  lemma {:induction false} JoinChars(comps: seq<string>)
    ensures forall c :: c in Join(comps) ==> c == '/' || exists i :: 0 <= i < |comps| && c in comps[i]
  {
    if |comps| > 1 {
      JoinChars(comps[1..]);
      forall c | c in Join(comps[1..])
        ensures c == '/' || exists i :: 0 <= i < |comps| && c in comps[i]
      {
        if c != '/' {
          var i :| 0 <= i < |comps[1..]| && c in comps[1..][i];
          assert c in comps[i + 1];
        }
      }
    }
  }

  /** normpath adds no character but '/' and '.': everything else comes from the input. */
  lemma NormPathChars(path: string)
    ensures forall c :: c in NormPath(path) ==> c == '/' || c == '.' || c in path
  {
    if path != "" {
      var cs := NormComponents(path);
      FoldKeepsInputComponents(Split(path), LeadingSlashes(path) > 0, []);
      SplitChars(path);
      JoinChars(cs);
      forall c | c in Join(cs) && c != '/'
        ensures c in path
      {
        var i :| 0 <= i < |cs| && c in cs[i];
        assert cs[i] in Split(path);
        var k :| 0 <= k < |Split(path)| && Split(path)[k] == cs[i];
      }
      var full := Slashes(LeadingSlashes(path)) + Join(cs);
      forall c | c in full ensures c == '/' || c in Join(cs) {
        var k :| 0 <= k < |full| && full[k] == c;
        if k >= LeadingSlashes(path) {
          assert c == Join(cs)[k - LeadingSlashes(path)];
        }
      }
    }
  }
}
