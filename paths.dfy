/**
 * The parts of `std::filesystem::path` the tool relies on, for generic
 * (forward-slash) paths: the file name after the last separator, the parent
 * before it, and `operator/`.
 */
module Paths {
  import opened Wrappers
  import opened Utils

  /** The index of the last '/', if any. */
  function LastSlash(p: string): (r: Option<nat>)
    ensures r.Some? ==> r.value < |p| && p[r.value] == '/' && '/' !in p[r.value + 1..]
    ensures r.None? ==> '/' !in p
    decreases |p|
  {
    if |p| == 0 then None
    else if p[|p| - 1] == '/' then Some(|p| - 1)
    else
      var r := LastSlash(p[..|p| - 1]);
      assert p[..|p| - 1] + [p[|p| - 1]] == p;
      if r.Some? then
        assert p[r.value + 1..] == p[..|p| - 1][r.value + 1..] + [p[|p| - 1]];
        r
      else None
  }

  /** `path::filename`: what follows the last separator (empty after a trailing one). */
  function FileName(p: string): string
  {
    match LastSlash(p)
    case None => p
    case Some(i) => p[i + 1..]
  }

  /** `path::parent_path`: what precedes the last separator; the root stays the root. */
  function ParentPath(p: string): string
  {
    match LastSlash(p)
    case None => ""
    case Some(i) => if i == 0 then "/" else p[..i]
  }

  /** A directory as `parent_path` yields it: empty, the root, or without a trailing separator. */
  predicate IsDirName(d: string)
  {
    d == "/" || |d| == 0 || d[|d| - 1] != '/'
  }

  /** `operator/`: an absolute right side replaces the left; otherwise one separator joins them. */
  function Join(a: string, b: string): string
  {
    if |b| > 0 && b[0] == '/' then b
    else if |a| == 0 then b
    else if a[|a| - 1] == '/' then a + b
    else a + "/" + b
  }

  /** Joining a directory and a plain file name splits back into the two. */
  lemma JoinSplits(d: string, f: string)
    requires IsDirName(d) && |f| > 0 && '/' !in f
    ensures FileName(Join(d, f)) == f && ParentPath(Join(d, f)) == d
  {
    var j := Join(d, f);
    if |d| == 0 {
      assert j == f;
    } else if d == "/" {
      assert j == "/" + f;
      assert j[1..] == f;
      assert LastSlash(j) == Some(0) by {
        assert '/' !in j[1..];
      }
    } else {
      assert j == d + "/" + f;
      assert j[|d|] == '/' && j[|d| + 1..] == f;
      assert LastSlash(j) == Some(|d|) by {
        LastSlashIsLast(j, |d|);
      }
      assert j[..|d|] == d;
    }
  }

  /** A '/' with none after it is the last one. */
  lemma LastSlashIsLast(p: string, i: nat)
    requires i < |p| && p[i] == '/' && '/' !in p[i + 1..]
    ensures LastSlash(p) == Some(i)
  {
  }

  /** The file name holds no separator; a path without one is all file name and has no parent. */
  lemma PartsWellFormed(p: string)
    ensures '/' !in FileName(p)
    ensures '/' !in p ==> FileName(p) == p && ParentPath(p) == ""
  {
  }

  // ------------------------------------------------------ lexically_normal

  /**
   * `lexically_normal`'s walk over the segments between separators: empty
   * segments (repeated separators) and "." go; ".." removes the segment
   * before it unless that is ".." too; right after the root a ".." goes.
   */
  function NormalSegments(segs: seq<string>, rooted: bool): seq<string>
  {
    if |segs| == 0 then []
    else
      var done := NormalSegments(segs[..|segs| - 1], rooted);
      var s := segs[|segs| - 1];
      if s == "" || s == "." then done
      else if s == ".." && |done| > 0 && done[|done| - 1] != ".." then done[..|done| - 1]
      else if s == ".." && |done| == 0 && rooted then done
      else done + [s]
  }

  /** What is left after the walk: no empty or "." segment, and ".." only in a leading run of a relative path. */
  predicate CleanSegments(segs: seq<string>, rooted: bool)
  {
    forall i :: 0 <= i < |segs| ==>
      segs[i] != "" && segs[i] != "."
      && (segs[i] == ".." ==> !rooted && forall k :: 0 <= k < i ==> segs[k] == "..")
  }

  /** Whether `lexically_normal` keeps a separator at the end: after a directory the last segment left open. */
  predicate KeepsTrailing(segs: seq<string>, res: seq<string>)
    requires |segs| > 0
  {
    var last := segs[|segs| - 1];
    (last == "" || last == "." || last == "..") && |res| > 0 && res[|res| - 1] != ".."
  }

  /**
   * `path::lexically_normal` on a generic path: the segments the walk keeps,
   * joined by single separators, after the root when there is one, with a
   * final separator after a directory, and "." for a relative path left empty.
   */
  function LexicallyNormal(p: string): string
  {
    if |p| == 0 then "" else NormalOf(p[0] == '/', Elements(p))
  }

  /**
   * The text between the separators of a path, as `Split('/', p)` computes
   * it but with only its length in the contract, so that the normal form
   * unfolds cheaply where it is used; `ElementsAreSplit` proves the two equal.
   */
  function Elements(p: string): (r: seq<string>)
    ensures |r| >= 1
  {
    if |p| == 0 then [""]
    else
      var init := Elements(p[..|p| - 1]);
      var c := p[|p| - 1];
      if c == '/' then init + [""]
      else init[..|init| - 1] + [init[|init| - 1] + [c]]
  }

  lemma {:induction false} ElementsAreSplit(p: string)
    ensures Elements(p) == Split('/', p)
    decreases |p|
  {
    if |p| > 0 {
      ElementsAreSplit(p[..|p| - 1]);
    }
  }

  /** The normal form of a non-empty path split into `segs`, rooted or not. */
  function NormalOf(rooted: bool, segs: seq<string>): string
    requires |segs| > 0
  {
    var res := NormalSegments(segs, rooted);
    var body := JoinWith('/', res) + (if KeepsTrailing(segs, res) then "/" else "");
    if rooted then "/" + body
    else if |body| == 0 then "."
    else body
  }

  /** The walk leaves clean segments. */
  lemma {:induction false} NormalSegmentsClean(segs: seq<string>, rooted: bool)
    ensures CleanSegments(NormalSegments(segs, rooted), rooted)
    decreases |segs|
  {
    if |segs| > 0 {
      var init := segs[..|segs| - 1];
      NormalSegmentsClean(init, rooted);
      var done := NormalSegments(init, rooted);
      var s := segs[|segs| - 1];
      if s == "" || s == "." {
      } else if s == ".." && |done| > 0 && done[|done| - 1] != ".." {
        CleanPop(done, rooted);
      } else if s == ".." && |done| == 0 && rooted {
      } else {
        CleanPush(done, s, rooted);
      }
    }
  }

  /** Dropping the last of clean segments leaves them clean. */
  lemma {:induction false} CleanPop(done: seq<string>, rooted: bool)
    requires |done| > 0 && CleanSegments(done, rooted)
    ensures CleanSegments(done[..|done| - 1], rooted)
  {
  }

  /** A plain segment, or a ".." after nothing but "..", keeps a relative walk clean. */
  lemma {:induction false} CleanPush(done: seq<string>, s: string, rooted: bool)
    requires CleanSegments(done, rooted) && s != "" && s != "."
    requires s == ".." ==> !rooted && (|done| == 0 || done[|done| - 1] == "..")
    ensures CleanSegments(done + [s], rooted)
  {
    if s == ".." && |done| > 0 {
      assert forall k :: 0 <= k < |done| ==> done[k] == "..";
    }
  }

  /** Every segment the walk keeps is one of the segments it was given. */
  lemma {:induction false} NormalSegmentsFrom(segs: seq<string>, rooted: bool)
    ensures forall i :: 0 <= i < |NormalSegments(segs, rooted)| ==> NormalSegments(segs, rooted)[i] in segs
    decreases |segs|
  {
    if |segs| > 0 {
      var init := segs[..|segs| - 1];
      NormalSegmentsFrom(init, rooted);
      var done := NormalSegments(init, rooted);
      forall i | 0 <= i < |done|
        ensures done[i] in segs
      {
        assert done[i] in init;
      }
    }
  }

  /** Clean segments go through the walk unchanged. */
  lemma {:induction false} NormalSegmentsFixed(segs: seq<string>, rooted: bool)
    requires CleanSegments(segs, rooted)
    ensures NormalSegments(segs, rooted) == segs
    decreases |segs|
  {
    if |segs| > 0 {
      var init := segs[..|segs| - 1];
      assert CleanSegments(init, rooted);
      NormalSegmentsFixed(init, rooted);
      assert init + [segs[|segs| - 1]] == segs;
    }
  }

  /** Empty segments at either end change nothing in the walk. */
  lemma {:induction false} NormalSegmentsSkipEmpty(segs: seq<string>, rooted: bool)
    ensures NormalSegments(segs + [""], rooted) == NormalSegments(segs, rooted)
    ensures NormalSegments([""] + segs, rooted) == NormalSegments(segs, rooted)
    decreases |segs|
  {
    assert (segs + [""])[..|segs|] == segs;
    if |segs| > 0 {
      var init := segs[..|segs| - 1];
      NormalSegmentsSkipEmpty(init, rooted);
      assert ([""] + segs)[..|segs|] == [""] + init;
    } else {
      assert [""] + segs == [""];
    }
  }

  /** A separator in front of pieces is an empty first piece. */
  lemma {:induction false} JoinAfterRoot(res: seq<string>)
    requires |res| > 0
    ensures JoinWith('/', [""] + res) == "/" + JoinWith('/', res)
    decreases |res|
  {
    if |res| > 1 {
      var init := res[..|res| - 1];
      JoinAfterRoot(init);
      assert ([""] + res)[..|res|] == [""] + init;
    } else {
      assert [""] + res == ["", res[0]];
      assert JoinWith('/', ["", res[0]]) == JoinWith('/', [""]) + ['/'] + res[0];
    }
  }

  /** The pieces `NormalOf` joins, which `Split` gives back. */
  function NormalPieces(rooted: bool, res: seq<string>, trailing: bool): seq<string>
  {
    if rooted then
      if trailing || |res| == 0 then [""] + res + [""] else [""] + res
    else if trailing then res + [""]
    else res
  }

  /** The pieces hold no separator when the segments they come from hold none. */
  lemma {:induction false} NormalPiecesNoSeparator(rooted: bool, segs: seq<string>, trailing: bool)
    requires NoSeparator('/', segs)
    ensures NoSeparator('/', NormalPieces(rooted, NormalSegments(segs, rooted), trailing))
  {
    var res := NormalSegments(segs, rooted);
    NormalSegmentsFrom(segs, rooted);
    var pieces := NormalPieces(rooted, res, trailing);
    forall k | 0 <= k < |pieces|
      ensures '/' !in pieces[k]
    {
      if pieces[k] != "" {
        assert pieces[k] in res;
      }
    }
  }

  /** An empty last piece is a final separator. */
  lemma {:induction false} JoinTrailing(res: seq<string>)
    requires |res| > 0
    ensures JoinWith('/', res + [""]) == JoinWith('/', res) + "/"
  {
    assert (res + [""])[..|res|] == res;
  }

  /** The join of the pieces: the root, the kept segments, the final separator. */
  lemma {:induction false} NormalPiecesJoin(rooted: bool, res: seq<string>, trailing: bool)
    requires trailing ==> |res| > 0
    ensures !rooted && !trailing ==> JoinWith('/', NormalPieces(rooted, res, trailing)) == JoinWith('/', res)
    ensures !rooted && trailing ==> JoinWith('/', NormalPieces(rooted, res, trailing)) == JoinWith('/', res) + "/"
    ensures rooted && !trailing ==> JoinWith('/', NormalPieces(rooted, res, trailing)) == "/" + JoinWith('/', res)
    ensures rooted && trailing ==> JoinWith('/', NormalPieces(rooted, res, trailing)) == "/" + JoinWith('/', res) + "/"
  {
    var pieces := NormalPieces(rooted, res, trailing);
    if |res| == 0 {
      if rooted {
        assert pieces == [""] + [] + [""] == ["", ""];
        assert JoinWith('/', ["", ""]) == JoinWith('/', [""]) + ['/'] + "";
      }
    } else if trailing {
      JoinTrailing(res);
      if rooted {
        assert [""] + res + [""] == [""] + (res + [""]);
        JoinAfterRoot(res + [""]);
      } else {
      }
    } else if rooted {
      JoinAfterRoot(res);
    }
  }

  /** A normal form other than "." is the join of its separator-free pieces. */
  lemma {:induction false} NormalJoin(rooted: bool, segs: seq<string>)
    requires |segs| > 0 && NoSeparator('/', segs) && NormalOf(rooted, segs) != "."
    ensures var res := NormalSegments(segs, rooted);
      var pieces := NormalPieces(rooted, res, KeepsTrailing(segs, res));
      |pieces| > 0 && NoSeparator('/', pieces) && JoinWith('/', pieces) == NormalOf(rooted, segs)
  {
    var res := NormalSegments(segs, rooted);
    var trailing := KeepsTrailing(segs, res);
    NormalPiecesNoSeparator(rooted, segs, trailing);
    NormalPiecesJoin(rooted, res, trailing);
  }

  /** The walk over the pieces of a normal form keeps exactly its segments and its final separator. */
  lemma {:induction false} NormalPiecesWalk(rooted: bool, res: seq<string>, trailing: bool)
    requires CleanSegments(res, rooted) && (rooted || |res| > 0)
    requires trailing ==> |res| > 0 && res[|res| - 1] != ".."
    ensures var pieces := NormalPieces(rooted, res, trailing);
      |pieces| > 0 && NormalSegments(pieces, rooted) == res && KeepsTrailing(pieces, res) == trailing
  {
    var pieces := NormalPieces(rooted, res, trailing);
    var mid := (if rooted then [""] else []) + res;
    NormalSegmentsFixed(res, rooted);
    if rooted {
      NormalSegmentsSkipEmpty(res, rooted);
    } else {
      assert mid == res;
    }
    if trailing || (rooted && |res| == 0) {
      assert pieces == mid + [""];
      NormalSegmentsSkipEmpty(mid, rooted);
    } else {
      assert pieces == mid && |res| > 0;
      assert pieces[|pieces| - 1] == res[|res| - 1];
    }
  }

  /** A relative normal form starts with its first segment, so not with a separator. */
  lemma {:induction false} RelativeNormalStart(segs: seq<string>)
    requires |segs| > 0 && NoSeparator('/', segs) && NormalOf(false, segs) != "."
    ensures NormalOf(false, segs)[0] != '/'
  {
    var res := NormalSegments(segs, false);
    NormalSegmentsClean(segs, false);
    NormalSegmentsFrom(segs, false);
    var pieces := NormalPieces(false, res, KeepsTrailing(segs, res));
    NormalJoin(false, segs);
    assert |res| > 0 && res[0] in segs && res[0] != "";
    assert pieces[0] == res[0];
    JoinFirst(pieces);
  }

  /** Normalising a normal path changes nothing. */
  lemma LexicallyNormalIdempotent(p: string)
    ensures LexicallyNormal(LexicallyNormal(p)) == LexicallyNormal(p)
  {
    if p == "" {
      return;
    }
    var segs := Elements(p);
    ElementsAreSplit(p);
    var rooted := p[0] == '/';
    var q := NormalOf(rooted, segs);
    if q == "." {
      SplitUnique('/', ".", ["."]);
      ElementsAreSplit(".");
      assert NormalSegments(["."], false) == [] by {
        assert ["."][..0] == [];
      }
      return;
    }
    var res := NormalSegments(segs, rooted);
    var trailing := KeepsTrailing(segs, res);
    NormalSegmentsClean(segs, rooted);
    NormalJoin(rooted, segs);
    var pieces := NormalPieces(rooted, res, trailing);
    SplitUnique('/', q, pieces);
    ElementsAreSplit(q);
    if !rooted {
      RelativeNormalStart(segs);
    }
    NormalPiecesWalk(rooted, res, trailing);
    assert LexicallyNormal(q) == NormalOf(rooted, pieces);
  }

  /** The join of pieces starts with the first piece. */
  lemma {:induction false} JoinFirst(pieces: seq<string>)
    requires |pieces| > 0
    ensures |pieces[0]| <= |JoinWith('/', pieces)| && JoinWith('/', pieces)[..|pieces[0]|] == pieces[0]
    decreases |pieces|
  {
    if |pieces| > 1 {
      JoinFirst(pieces[..|pieces| - 1]);
    }
  }

  /** A leading "./" goes: "./f" is "f" for a plain file name. */
  lemma {:induction false} NormalAfterDot(f: string)
    requires f != "" && f != "." && f != ".." && '/' !in f
    ensures LexicallyNormal("./" + f) == f
  {
    var segs := [".", f];
    assert segs[..1] == ["."] && ["."][..0] == [];
    assert JoinWith('/', segs) == "./" + f;
    var p := "./" + f;
    SplitUnique('/', p, segs);
    ElementsAreSplit(p);
    assert p != "" && p[0] == '.';
    assert LexicallyNormal(p) == NormalOf(false, segs);
    assert NormalSegments(segs, false) == [f];
    assert !KeepsTrailing(segs, [f]);
    assert JoinWith('/', [f]) == f;
  }

  /** The source file "./a.cpp" is keyed as "a.cpp". */
  lemma NormalDropsDot()
    ensures LexicallyNormal("./a.cpp") == "a.cpp"
  {
    NormalAfterDot("a.cpp");
    assert "./" + "a.cpp" == "./a.cpp";
  }

  /** A step up cancels the directory segment before it. */
  lemma {:induction false} NormalSegmentsCancel(segs: seq<string>, d: string, rooted: bool)
    requires d != "" && d != "." && d != ".."
    ensures NormalSegments(segs + [d, ".."], rooted) == NormalSegments(segs, rooted)
  {
    var done := NormalSegments(segs, rooted);
    assert (segs + [d, ".."])[..|segs| + 1] == segs + [d];
    assert (segs + [d])[..|segs|] == segs;
    assert NormalSegments(segs + [d], rooted) == done + [d];
    assert (done + [d])[..|done|] == done;
  }
}
