/** Repository paths as the folder manager handles them: strings split on
    `/` with JavaScript's `String.prototype.split`, cut with `slice` and glued
    back with `Array.prototype.join`. */
module Paths {
  import opened Common

  const Sep: char := '/'

  /** A path segment: a string without a separator. */
  predicate NoSep(s: string)
  {
    Sep !in s
  }

  /** `s.split('/')`: always at least one piece; the pieces hold no separator
      and, joined again, give back `s` (lemma JoinSplit). */
  function Split(s: string): (r: seq<string>)
    ensures |r| >= 1
    ensures forall i :: 0 <= i < |r| ==> NoSep(r[i])
  {
    if s == [] then [""]
    else
      var rest := Split(s[1..]);
      if s[0] == Sep then [""] + rest
      else [[s[0]] + rest[0]] + rest[1..]
  }

  /** `xs.join('/')`; the join of no pieces is the empty string. */
  function Join(xs: seq<string>): string
  {
    if |xs| == 0 then ""
    else if |xs| == 1 then xs[0]
    else xs[0] + [Sep] + Join(xs[1..])
  }

  /** `xs.slice(0, -1)`: everything but the last element; nothing for an
      empty array. */
  function DropLast<T>(xs: seq<T>): (r: seq<T>)
    ensures |xs| > 0 ==> |r| == |xs| - 1
    ensures |xs| == 0 ==> r == []
    ensures forall i :: 0 <= i < |r| ==> r[i] == xs[i]
  {
    if |xs| == 0 then [] else xs[..|xs| - 1]
  }

  /** `xs.filter(Boolean)` on strings: drops the empty ones, keeps order. */
  function NonEmpty(xs: seq<string>): (r: seq<string>)
    ensures |r| <= |xs|
    ensures forall i :: 0 <= i < |r| ==> r[i] != "" && r[i] in xs
    ensures (forall i :: 0 <= i < |xs| ==> xs[i] != "") ==> r == xs
  {
    if xs == [] then []
    else if xs[0] == "" then NonEmpty(xs[1..])
    else [xs[0]] + NonEmpty(xs[1..])
  }

  /** `currentPath ? currentPath.split('/').filter(Boolean) : []`: the
      breadcrumbs of a path, its non-empty segments in order. */
  function Segments(p: string): (r: seq<string>)
    ensures forall i :: 0 <= i < |r| ==> r[i] != "" && NoSep(r[i])
  {
    if p == "" then [] else NonEmpty(Split(p))
  }

  /** `currentFolder.split('/').slice(0, -1).join('/')`: the folder that
      "back" enters. A path without a separator has the root `""` as parent;
      otherwise the parent is everything before the path's last separator. */
  function ParentOf(p: string): (r: string)
    ensures Sep !in p ==> r == ""
    ensures Sep in p ==>
              |r| < |p| && p[..|r|] == r && p[|r|] == Sep && NoSep(p[|r| + 1..])
  {
    LastSeparator(p);
    Join(DropLast(Split(p)))
  }

  /** `pathParts.slice(0, -1).join('/')`: the folder the navigator opens on,
      the one holding the file `currentPath` names. Its breadcrumbs are all of
      `currentPath`'s breadcrumbs but the last. */
  function InitialFolder(currentPath: string): (r: string)
    ensures Segments(r) == DropLast(Segments(currentPath))
  {
    SegmentsJoin(DropLast(Segments(currentPath)));
    Join(DropLast(Segments(currentPath)))
  }

  /** `breadcrumbs.slice(0, index + 1).join('/')`: the folder that a click on
      breadcrumb `index` enters. When the crumbs are breadcrumbs (non-empty
      segments), that folder's breadcrumbs are the first `index + 1`. */
  function CrumbPath(crumbs: seq<string>, index: nat): (r: string)
    requires index < |crumbs|
    ensures (forall k :: 0 <= k < |crumbs| ==> crumbs[k] != "" && NoSep(crumbs[k])) ==>
              Segments(r) == crumbs[..index + 1]
  {
    SegmentsJoinOfCrumbs(crumbs[..index + 1]);
    Join(crumbs[..index + 1])
  }

  /** Joining the pieces of a split restores the string. */
  lemma {:induction false} JoinSplit(s: string)
    ensures Join(Split(s)) == s
    decreases |s|
  {
    if s != [] {
      var rest := Split(s[1..]);
      JoinSplit(s[1..]);
      if s[0] == Sep {
        assert Split(s) == [""] + rest;
        assert Join(Split(s)) == "" + [Sep] + Join(rest);
        assert s == [s[0]] + s[1..];
      } else if |rest| == 1 {
        assert Split(s) == [[s[0]] + rest[0]];
        assert s == [s[0]] + s[1..];
      } else {
        var r := Split(s);
        assert r == [[s[0]] + rest[0]] + rest[1..];
        assert r[1..] == rest[1..];
        assert Join(r) == ([s[0]] + rest[0]) + [Sep] + Join(rest[1..]);
        assert Join(rest) == rest[0] + [Sep] + Join(rest[1..]);
        assert s == [s[0]] + s[1..];
      }
    }
  }

  /** A string without a separator splits into itself. */
  lemma {:induction false} SplitNoSep(s: string)
    requires NoSep(s)
    ensures Split(s) == [s]
    decreases |s|
  {
    if s != [] {
      assert forall c :: c in s[1..] ==> c in s;
      SplitNoSep(s[1..]);
      assert s == [s[0]] + s[1..];
    }
  }

  /** Splitting `a/b` splits `a` and `b` separately. */
  lemma {:induction false} SplitAppend(a: string, b: string)
    ensures Split(a + [Sep] + b) == Split(a) + Split(b)
    decreases |a|
  {
    var s := a + [Sep] + b;
    if a == [] {
      assert s[0] == Sep && s[1..] == b;
      assert Split(s) == [""] + Split(b);
    } else {
      assert s[0] == a[0] && s[1..] == a[1..] + [Sep] + b;
      SplitAppend(a[1..], b);
      var ra, rb := Split(a[1..]), Split(b);
      assert Split(s[1..]) == ra + rb;
      if a[0] == Sep {
        assert Split(s) == [""] + (ra + rb);
        assert Split(a) == [""] + ra;
      } else {
        var r := ra + rb;
        assert r[0] == ra[0] && r[1..] == ra[1..] + rb;
        assert Split(s) == [[a[0]] + r[0]] + r[1..];
        assert Split(a) == [[a[0]] + ra[0]] + ra[1..];
      }
    }
  }

  /** Adding one last piece to a non-empty join. */
  lemma {:induction false} JoinSnoc(xs: seq<string>, x: string)
    requires |xs| >= 1
    ensures Join(xs + [x]) == Join(xs) + [Sep] + x
    decreases |xs|
  {
    if |xs| == 1 {
      assert xs + [x] == [xs[0], x];
      assert [xs[0], x][1..] == [x];
    } else {
      var ys := xs + [x];
      assert ys[1..] == xs[1..] + [x];
      JoinSnoc(xs[1..], x);
    }
  }

  /** Splitting a join of segments gives back the segments. */
  lemma {:induction false} SplitJoin(xs: seq<string>)
    requires |xs| >= 1
    requires forall i :: 0 <= i < |xs| ==> NoSep(xs[i])
    ensures Split(Join(xs)) == xs
    decreases |xs|
  {
    SplitNoSep(xs[0]);
    if |xs| > 1 {
      SplitAppend(xs[0], Join(xs[1..]));
      SplitJoin(xs[1..]);
      assert xs == [xs[0]] + xs[1..];
    }
  }

  /** Breadcrumbs round trip: the segments of a join of non-empty segments
      are those segments. */
  lemma {:induction false} SegmentsJoin(xs: seq<string>)
    requires forall i :: 0 <= i < |xs| ==> xs[i] != "" && NoSep(xs[i])
    ensures Segments(Join(xs)) == xs
  {
    if |xs| > 0 {
      SplitJoin(xs);
      assert Join(xs) != "" by {
        if |xs| == 1 {
        } else {
          assert |Join(xs)| >= |xs[0]| + 1;
        }
      }
    }
  }

  /** `SegmentsJoin` for the prefixes the breadcrumb bar hands out. */
  lemma SegmentsJoinOfCrumbs(xs: seq<string>)
    ensures (forall k :: 0 <= k < |xs| ==> xs[k] != "" && NoSep(xs[k])) ==> Segments(Join(xs)) == xs
  {
    if forall k :: 0 <= k < |xs| ==> xs[k] != "" && NoSep(xs[k]) {
      SegmentsJoin(xs);
    }
  }

  /** The last separator of a path: with none the split has one piece;
      otherwise the path is the join of all pieces but the last, a
      separator, and the last piece. */
  lemma LastSeparator(p: string)
    ensures Sep !in p ==> |Split(p)| == 1
    ensures Sep in p ==>
              |Split(p)| >= 2 &&
              p == Join(DropLast(Split(p))) + [Sep] + Split(p)[|Split(p)| - 1]
  {
    var xs := Split(p);
    JoinSplit(p);
    if |xs| >= 2 {
      assert xs == DropLast(xs) + [xs[|xs| - 1]];
      JoinSnoc(DropLast(xs), xs[|xs| - 1]);
      var r := Join(DropLast(xs));
      assert p[|r|] == Sep;
    }
  }

  /** `filter(Boolean)` distributes over concatenation. */
  lemma {:induction false} NonEmptyAppend(a: seq<string>, b: seq<string>)
    ensures NonEmpty(a + b) == NonEmpty(a) + NonEmpty(b)
    decreases |a|
  {
    if a == [] {
      assert a + b == b;
    } else {
      assert (a + b)[0] == a[0] && (a + b)[1..] == a[1..] + b;
      NonEmptyAppend(a[1..], b);
    }
  }

  /** The `currentPath ?` guard only spares the split: the empty path's one
      piece is empty and is filtered out anyway. */
  lemma SegmentsOfSplit(p: string)
    ensures Segments(p) == NonEmpty(Split(p))
  {
    if p == "" {
      assert Split(p) == [""];
      assert NonEmpty([""]) == NonEmpty([""][1..]);
    }
  }

  /** The breadcrumbs of `a/b` are those of `a` followed by those of `b`. */
  lemma SegmentsAppend(a: string, b: string)
    ensures Segments(a + [Sep] + b) == Segments(a) + Segments(b)
  {
    SplitAppend(a, b);
    NonEmptyAppend(Split(a), Split(b));
    SegmentsOfSplit(a);
    SegmentsOfSplit(b);
    SegmentsOfSplit(a + [Sep] + b);
  }

  /** A single segment is its own only breadcrumb; the empty one has none. */
  lemma SegmentsOfSegment(s: string)
    requires NoSep(s)
    ensures Segments(s) == if s == "" then [] else [s]
  {
    if s != "" {
      SplitNoSep(s);
      assert [s][1..] == [];
    }
  }

  /** The parent of `q/s`, for a segment `s`, is `q`. */
  lemma ParentOfChild(q: string, s: string)
    requires NoSep(s)
    ensures ParentOf(q + [Sep] + s) == q
  {
    SplitAppend(q, s);
    SplitNoSep(s);
    JoinSplit(q);
    assert DropLast(Split(q) + [s]) == Split(q);
  }

  /** The parent of a single segment, and of the root `""`, is the root. */
  lemma ParentOfTopLevel(s: string)
    requires NoSep(s)
    ensures ParentOf(s) == ""
  {
    SplitNoSep(s);
  }

  /** Going back from breadcrumb `i` lands on breadcrumb `i - 1`. */
  lemma ParentOfCrumb(crumbs: seq<string>, i: nat)
    requires 0 < i < |crumbs|
    requires forall k :: 0 <= k < |crumbs| ==> NoSep(crumbs[k])
    ensures ParentOf(CrumbPath(crumbs, i)) == CrumbPath(crumbs, i - 1)
  {
    assert crumbs[..i + 1] == crumbs[..i] + [crumbs[i]];
    JoinSnoc(crumbs[..i], crumbs[i]);
    ParentOfChild(Join(crumbs[..i]), crumbs[i]);
  }

  /** For a path written without empty segments, the initial folder is the
      path's parent: the navigator opens on the folder holding the file. */
  lemma {:induction false} InitialFolderIsParent(p: string)
    requires Join(Segments(p)) == p
    ensures InitialFolder(p) == ParentOf(p)
  {
    var xs := Segments(p);
    if |xs| == 0 {
      assert p == "";
    } else if |xs| == 1 {
      ParentOfTopLevel(p);
    } else {
      assert xs == DropLast(xs) + [xs[|xs| - 1]];
      JoinSnoc(DropLast(xs), xs[|xs| - 1]);
      ParentOfChild(Join(DropLast(xs)), xs[|xs| - 1]);
    }
  }

  /** The placeholder file that stands in for a new folder. */
  const Placeholder := "README.md"

  /** `currentFolder ? `${currentFolder}/${folderName}/README.md`
      : `${folderName}/README.md``: the placeholder sits directly inside the
      new folder, and the new folder directly inside the current one. */
  function NewFolderPath(currentFolder: string, folderName: string): (r: string)
    ensures EndsWith(r, [Sep] + Placeholder)
    ensures ParentOf(r) == if currentFolder == "" then folderName else currentFolder + [Sep] + folderName
  {
    var folder := if currentFolder == "" then folderName else currentFolder + [Sep] + folderName;
    ParentOfChild(folder, Placeholder);
    folder + [Sep] + Placeholder
  }

  /** For a folder name without a separator, two steps back from the
      placeholder reach the folder it was created in. */
  lemma NewFolderInCurrent(currentFolder: string, folderName: string)
    requires NoSep(folderName)
    ensures ParentOf(ParentOf(NewFolderPath(currentFolder, folderName))) == currentFolder
  {
    if currentFolder == "" {
      ParentOfTopLevel(folderName);
    } else {
      ParentOfChild(currentFolder, folderName);
    }
  }
}
