/** A file system as a process sees it: looking up path strings through links, and the three ways in which the receiver
    of a copy creates something. */
module FileSystem {
  import opened Wire
  import opened Paths

  datatype Object = FileObject(content: bytes) | DirObject | LinkObject(target: bytes)

  /** What is at each path from the root directory, which has the empty path. Links are not followed on these paths. */
  type Files = map<Path, Object>

  function At(fs: Files, p: Path): Option<Object> {
    if p in fs then Some(fs[p]) else None
  }

  predicate HasParent(fs: Files, p: Path) {
    p != [] && At(fs, Parent(p)) == Some(DirObject)
  }

  /** Everything is in a directory. */
  ghost predicate IsTree(fs: Files) {
    && At(fs, []) == Some(DirObject)
    && forall p {:trigger HasParent(fs, p)} | p in fs && p != [] :: HasParent(fs, p)
  }

  // ---- Looking up a path string ----

  /** The number of links that may be met on the way. */
  const MAX_LINKS := 40

  /** A path string ends at the first zero byte when it is given to the system. */
  function CString(s: bytes): (t: bytes)
    ensures NUL !in t && t <= s
    ensures NUL !in s ==> t == s
  {
    if s == [] || s[0] == NUL then [] else [s[0]] + CString(s[1..])
  }

  /** The names to walk through; a separator at the end asks for a directory. */
  function Names(s: bytes): Path {
    Components(s) + if s != [] && s[|s| - 1] == SLASH then [DOT] else []
  }

  function StartOf(cwd: Path, s: bytes): Path {
    if IsAbsolute(s) then [] else cwd
  }

  /** Where the names lead from directory `at`: links on the way are followed, the last one if `follow` says so, and at
      most `links` of them. There need not be anything at the place, but the directory it is in is there. */
  function Walk(fs: Files, at: Path, names: Path, follow: bool, links: nat): Option<Path>
    decreases links, |names|
  {
    if names == [] then Some(at)
    else if At(fs, at) != Some(DirObject) then None
    else
      var n, rest := names[0], names[1..];
      if n == DOT then Walk(fs, at, rest, follow, links)
      else if n == DOTDOT then Walk(fs, if at == [] then [] else Parent(at), rest, follow, links)
      else
        match At(fs, at + [n])
        case Some(LinkObject(target)) =>
          if rest == [] && !follow then Some(at + [n])
          else if links == 0 || target == [] then None
          else Walk(fs, StartOf(at, target), Names(target) + rest, follow, links - 1)
        case _ => Walk(fs, at + [n], rest, follow, links)
  }

  function Locate(fs: Files, cwd: Path, path: bytes, follow: bool): Option<Path> {
    var s := CString(path);
    if s == [] then None else Walk(fs, StartOf(cwd, s), Names(s), follow, MAX_LINKS)
  }

  // ---- Creating something ----

  /** The place of a file that is opened for writing from scratch, which follows links: it is created in an existing
      directory, or emptied. */
  function OpenForWriting(fs: Files, cwd: Path, path: bytes): Option<Path> {
    var p :- Locate(fs, cwd, path, true);
    match At(fs, p)
    case None => if HasParent(fs, p) then Some(p) else None
    case Some(FileObject(_)) => Some(p)
    case Some(_) => None
  }

  /** The place of a new link, where there must not be anything, not even a link. */
  function PlaceOfLink(fs: Files, cwd: Path, path: bytes): Option<Path> {
    var p :- Locate(fs, cwd, path, false);
    if At(fs, p) == None && HasParent(fs, p) then Some(p) else None
  }

  function CreateSymlink(fs: Files, cwd: Path, path: bytes, target: bytes): Option<Files> {
    var p :- PlaceOfLink(fs, cwd, path);
    if CString(target) == [] then None else Some(fs[p := LinkObject(CString(target))])
  }

  /** The place of a new directory; a separator at the end of its path makes no difference. */
  function PlaceOfDirectory(fs: Files, cwd: Path, path: bytes): Option<Path> {
    var s := CString(path);
    if s == [] then None else Walk(fs, StartOf(cwd, s), Components(s), false, MAX_LINKS)
  }

  /** A directory that is there already, or a link that leads to one, is accepted. */
  function CreateDirectory(fs: Files, cwd: Path, path: bytes): Option<Files> {
    var p :- PlaceOfDirectory(fs, cwd, path);
    if At(fs, p) == None then if HasParent(fs, p) then Some(fs[p := DirObject]) else None
    else
      var there :- Locate(fs, cwd, path, true);
      if At(fs, there) == Some(DirObject) then Some(fs) else None
  }

  // ---- Where a walk ends ----

  predicate DotFree(p: Path) {
    forall i | 0 <= i < |p| :: !IsDots(p[i])
  }

  lemma {:induction false} AncestorsAreDirectories(fs: Files, p: Path, k: nat)
    requires IsTree(fs) && p in fs && k < |p|
    ensures At(fs, p[..k]) == Some(DirObject)
    decreases |p|
  {
    assert HasParent(fs, p);
    if k < |p| - 1 {
      assert Parent(p)[..k] == p[..k];
      AncestorsAreDirectories(fs, Parent(p), k);
    }
  }

  /** Where links and dots have led there are no dots any more, the parent is a directory, and there is no link if links
      are followed. */
  lemma {:induction false} WalkEnds(fs: Files, at: Path, names: Path, follow: bool, links: nat)
    requires IsTree(fs) && At(fs, at) == Some(DirObject) && DotFree(at)
    requires Walk(fs, at, names, follow, links).Some?
    ensures var q := Walk(fs, at, names, follow, links).value;
      && DotFree(q) && (q == [] || HasParent(fs, q))
      && !(follow && At(fs, q).Some? && At(fs, q).value.LinkObject?)
    decreases links, |names|
  {
    assert at == [] || HasParent(fs, at);
    if names != [] {
      var n, rest := names[0], names[1..];
      if n == DOT {
        WalkEnds(fs, at, rest, follow, links);
      } else if n == DOTDOT {
        WalkEnds(fs, if at == [] then [] else Parent(at), rest, follow, links);
      } else {
        var here := at + [n];
        assert Parent(here) == at;
        if At(fs, here).Some? && At(fs, here).value.LinkObject? {
          var target := At(fs, here).value.target;
          if !(rest == [] && !follow) {
            WalkEnds(fs, StartOf(at, target), Names(target) + rest, follow, links - 1);
          }
        } else if rest != [] {
          WalkEnds(fs, here, rest, follow, links);
        }
      }
    }
  }

  /** Names lead to the place they spell if and only if there are no dots among them, the parent of the place is a
      directory, and there is no link at it that would be followed. As everything is in a directory, there is then no
      link at any ancestor either. */
  lemma {:induction false} LeadsToItselfIff(fs: Files, at: Path, names: Path, follow: bool, links: nat)
    requires IsTree(fs) && At(fs, at) == Some(DirObject) && DotFree(at) && names != []
    ensures Walk(fs, at, names, follow, links) == Some(at + names)
       <==> && DotFree(names) && HasParent(fs, at + names)
            && !(follow && At(fs, at + names).Some? && At(fs, at + names).value.LinkObject?)
  {
    var p := at + names;
    if Walk(fs, at, names, follow, links) == Some(p) {
      WalkEnds(fs, at, names, follow, links);
      assert forall i | 0 <= i < |names| :: names[i] == p[|at| + i];
    }
    if DotFree(names) && HasParent(fs, p) && !(follow && At(fs, p).Some? && At(fs, p).value.LinkObject?) {
      WalksStraight(fs, at, names, follow, links);
    }
  }

  lemma {:induction false} WalksStraight(fs: Files, at: Path, names: Path, follow: bool, links: nat)
    requires IsTree(fs) && DotFree(names) && names != [] && HasParent(fs, at + names)
    requires !(follow && At(fs, at + names).Some? && At(fs, at + names).value.LinkObject?)
    ensures Walk(fs, at, names, follow, links) == Some(at + names)
    decreases |names|
  {
    var p := at + names;
    var here, rest := at + [names[0]], names[1..];
    assert here + rest == p && !IsDots(names[0]);
    if rest == [] {
      assert here == p && Parent(p) == at;
      assert Walk(fs, here, rest, follow, links) == Some(here);
    } else {
      var parent := Parent(p);
      assert parent[..|at|] == at && (|here| < |parent| ==> parent[..|here|] == here);
      assert |here| == |parent| ==> here == parent;
      AncestorsAreDirectories(fs, parent, |at|);
      if |here| < |parent| {
        AncestorsAreDirectories(fs, parent, |here|);
      }
      assert forall i | 0 <= i < |rest| :: rest[i] == names[i + 1];
      WalksStraight(fs, here, rest, follow, links);
    }
  }

  /** What ends with a dot leads to a directory. */
  lemma {:induction false} WalkToDot(fs: Files, at: Path, names: Path, follow: bool, links: nat)
    requires names != [] && names[|names| - 1] == DOT && Walk(fs, at, names, follow, links).Some?
    ensures At(fs, Walk(fs, at, names, follow, links).value) == Some(DirObject)
    decreases links, |names|
  {
    var n, rest := names[0], names[1..];
    if rest != [] {
      assert rest[|rest| - 1] == DOT;
      if n == DOT {
        WalkToDot(fs, at, rest, follow, links);
      } else if n == DOTDOT {
        WalkToDot(fs, if at == [] then [] else Parent(at), rest, follow, links);
      } else if At(fs, at + [n]).Some? && At(fs, at + [n]).value.LinkObject? {
        var target := At(fs, at + [n]).value.target;
        WalkToDot(fs, StartOf(at, target), Names(target) + rest, follow, links - 1);
      } else {
        WalkToDot(fs, at + [n], rest, follow, links);
      }
    }
  }

  /** The place the names of a path spell, links and dots disregarded. */
  function OwnPlace(cwd: Path, path: bytes): Path {
    StartOf(cwd, CString(path)) + Components(CString(path))
  }

  /** The names of a path string are those of what is to be created: no dots, and no separator at the end. */
  predicate PlainPath(s: bytes) {
    s != [] && s[|s| - 1] != SLASH && DotFree(Components(s))
  }

  /** An absolute path takes no notice of what it is appended to. */
  lemma AbsolutePlace(cwd: Path, base: bytes, rel: bytes)
    requires IsAbsolute(rel) && NUL !in rel
    ensures OwnPlace(cwd, Append(base, rel)) == Components(rel)
  {
  }

  /** A file is opened at the place its path spells if and only if the path is plain, the parent is a directory, so that
      there is no link above the place, and at the place itself there is nothing or a regular file, in particular no
      link. */
  lemma OpensOwnPlaceIff(fs: Files, cwd: Path, path: bytes)
    requires IsTree(fs) && At(fs, cwd) == Some(DirObject) && DotFree(cwd)
    ensures var own := OwnPlace(cwd, path);
      OpenForWriting(fs, cwd, path) == Some(own)
      <==> && PlainPath(CString(path)) && HasParent(fs, own)
           && (At(fs, own).Some? ==> At(fs, own).value.FileObject?)
  {
    var s := CString(path);
    if s != [] {
      if s[|s| - 1] == SLASH {
        if Locate(fs, cwd, path, true).Some? {
          WalkToDot(fs, StartOf(cwd, s), Names(s), true, MAX_LINKS);
        }
      } else {
        SomeComponent(s);
        assert Names(s) == Components(s);
        LeadsToItselfIff(fs, StartOf(cwd, s), Components(s), true, MAX_LINKS);
      }
    }
  }

  /** A new directory at the place its path spells: it is created if there is nothing, and a directory that is there
      already, or a link that leads to one, is accepted; anything else is in the way. */
  lemma DirectoryAtOwnPlace(fs: Files, cwd: Path, path: bytes)
    requires IsTree(fs) && At(fs, cwd) == Some(DirObject) && DotFree(cwd)
    requires PlainPath(CString(path)) && HasParent(fs, OwnPlace(cwd, path))
    ensures var own := OwnPlace(cwd, path);
      CreateDirectory(fs, cwd, path)
      == match At(fs, own)
         case None => Some(fs[own := DirObject])
         case Some(DirObject) => Some(fs)
         case Some(FileObject(_)) => None
         case Some(LinkObject(_)) =>
           var there := Locate(fs, cwd, path, true);
           if there.Some? && At(fs, there.value) == Some(DirObject) then Some(fs) else None
  {
    var s := CString(path);
    SomeComponent(s);
    assert Names(s) == Components(s);
    LeadsToItselfIff(fs, StartOf(cwd, s), Components(s), false, MAX_LINKS);
    LeadsToItselfIff(fs, StartOf(cwd, s), Components(s), true, MAX_LINKS);
  }

  /** A new link at the place its path spells is created if and only if there is nothing, not even a link, and it has a
      target. */
  lemma LinkAtOwnPlaceIff(fs: Files, cwd: Path, path: bytes, target: bytes)
    requires IsTree(fs) && At(fs, cwd) == Some(DirObject) && DotFree(cwd)
    requires PlainPath(CString(path)) && HasParent(fs, OwnPlace(cwd, path))
    ensures var own := OwnPlace(cwd, path);
      && (CreateSymlink(fs, cwd, path, target).Some? <==> At(fs, own) == None && CString(target) != [])
      && (CreateSymlink(fs, cwd, path, target).Some? ==>
            CreateSymlink(fs, cwd, path, target).value == fs[own := LinkObject(CString(target))])
  {
    var s := CString(path);
    SomeComponent(s);
    assert Names(s) == Components(s);
    LeadsToItselfIff(fs, StartOf(cwd, s), Components(s), false, MAX_LINKS);
  }

  // ---- What links and dots mean ----

  lemma {:induction false} WalksStraightThen(fs: Files, at: Path, names: Path, rest: Path, follow: bool, links: nat)
    requires IsTree(fs) && DotFree(names) && At(fs, at + names) == Some(DirObject)
    ensures Walk(fs, at, names + rest, follow, links) == Walk(fs, at + names, rest, follow, links)
    decreases |names|
  {
    if names == [] {
      assert names + rest == rest && at + names == at;
    } else {
      var here, tail := at + [names[0]], names[1..];
      assert here + tail == at + names && (names + rest)[0] == names[0] && (names + rest)[1..] == tail + rest;
      assert (at + names)[..|at|] == at && (at + names)[..|here|] == here;
      AncestorsAreDirectories(fs, at + names, |at|);
      if tail != [] {
        AncestorsAreDirectories(fs, at + names, |here|);
      } else {
        assert here == at + names;
      }
      assert forall i | 0 <= i < |tail| :: tail[i] == names[i + 1];
      WalksStraightThen(fs, here, tail, rest, follow, links);
    }
  }

  /** Whatever comes after a link to a directory is looked up in that directory, wherever it is, as long as not too many
      links were met; the target is looked up from the directory the link is in, or from the root. */
  lemma FollowsLink(fs: Files, at: Path, n: Name, target: bytes, rest: Path, follow: bool, links: nat)
    requires IsTree(fs) && At(fs, at) == Some(DirObject) && !IsDots(n) && At(fs, at + [n]) == Some(LinkObject(target))
    requires PlainPath(target) && At(fs, StartOf(at, target) + Components(target)) == Some(DirObject)
    requires rest != [] || follow
    ensures Walk(fs, at, [n] + rest, follow, links)
         == if links == 0 then None
            else Walk(fs, StartOf(at, target) + Components(target), rest, follow, links - 1)
  {
    if links > 0 {
      FollowsOneLink(fs, at, n, target, rest, follow, links, links - 1);
    } else {
      assert ([n] + rest)[0] == n && ([n] + rest)[1..] == rest;
    }
  }

  lemma FollowsOneLink(fs: Files, at: Path, n: Name, target: bytes, rest: Path, follow: bool, links: nat, fewer: nat)
    requires At(fs, at) == Some(DirObject) && !IsDots(n) && At(fs, at + [n]) == Some(LinkObject(target))
    requires IsTree(fs) && PlainPath(target) && At(fs, StartOf(at, target) + Components(target)) == Some(DirObject)
    requires (rest != [] || follow) && links == fewer + 1
    ensures Walk(fs, at, [n] + rest, follow, links)
         == Walk(fs, StartOf(at, target) + Components(target), rest, follow, fewer)
  {
    var names := [n] + rest;
    assert names[0] == n && names[1..] == rest;
    assert Names(target) == Components(target);
    assert Walk(fs, at, names, follow, links)
        == Walk(fs, StartOf(at, target), Components(target) + rest, follow, fewer);
    WalksStraightThen(fs, StartOf(at, target), Components(target), rest, follow, fewer);
  }

  /** A dot leads nowhere, and two dots lead back. */
  lemma FollowsDots(fs: Files, at: Path, n: Name, rest: Path, follow: bool, links: nat)
    requires At(fs, at) == Some(DirObject) && !IsDots(n) && At(fs, at + [n]) == Some(DirObject)
    ensures Walk(fs, at, [DOT] + rest, follow, links) == Walk(fs, at, rest, follow, links)
    ensures Walk(fs, at, [n] + ([DOTDOT] + rest), follow, links) == Walk(fs, at, rest, follow, links)
  {
    assert ([DOT] + rest)[1..] == rest && ([DOTDOT] + rest)[1..] == rest;
    assert ([n] + ([DOTDOT] + rest))[1..] == [DOTDOT] + rest;
    assert Parent(at + [n]) == at;
  }

  /** One more name, in a directory the others lead to. */
  lemma {:induction false} WalksOn(fs: Files, at: Path, names: Path, links: nat, here: Path, n: Name, follow: bool)
    requires Walk(fs, at, names, true, links) == Some(here) && At(fs, here) == Some(DirObject) && !IsDots(n)
    requires !(follow && At(fs, here + [n]).Some? && At(fs, here + [n]).value.LinkObject?)
    ensures Walk(fs, at, names + [n], follow, links) == Some(here + [n])
    decreases links, |names|
  {
    var all := names + [n];
    if names == [] {
      assert all[0] == n && all[1..] == [];
      assert Walk(fs, here + [n], all[1..], follow, links) == Some(here + [n]);
    } else {
      var first, rest := names[0], names[1..];
      assert all[0] == first && all[1..] == rest + [n];
      if first == DOT {
        WalksOn(fs, at, rest, links, here, n, follow);
      } else if first == DOTDOT {
        WalksOn(fs, if at == [] then [] else Parent(at), rest, links, here, n, follow);
      } else if At(fs, at + [first]).Some? && At(fs, at + [first]).value.LinkObject? {
        var target := At(fs, at + [first]).value.target;
        assert Names(target) + (rest + [n]) == (Names(target) + rest) + [n];
        WalksOn(fs, StartOf(at, target), Names(target) + rest, links - 1, here, n, follow);
      } else {
        WalksOn(fs, at + [first], rest, links, here, n, follow);
      }
    }
  }

  /** Everything that was there is still there, and still the same. */
  ghost predicate Extends(fs: Files, fs': Files) {
    forall p {:trigger At(fs, p)} {:trigger At(fs', p)} | p in fs :: At(fs', p) == At(fs, p)
  }

  /** What leads to a directory goes on leading there when things are added. */
  lemma {:induction false} WalkIsKept(fs: Files, fs': Files, at: Path, names: Path, links: nat)
    requires Extends(fs, fs') && Walk(fs, at, names, true, links).Some?
    requires At(fs, Walk(fs, at, names, true, links).value) == Some(DirObject)
    ensures Walk(fs', at, names, true, links) == Walk(fs, at, names, true, links)
    decreases links, |names|
  {
    if names != [] {
      var n, rest := names[0], names[1..];
      assert At(fs', at) == At(fs, at);
      if n == DOT {
        WalkIsKept(fs, fs', at, rest, links);
      } else if n == DOTDOT {
        WalkIsKept(fs, fs', if at == [] then [] else Parent(at), rest, links);
      } else {
        var here := at + [n];
        assert here in fs ==> At(fs', here) == At(fs, here);
        if here in fs && fs[here].LinkObject? {
          WalkIsKept(fs, fs', StartOf(at, fs[here].target), Names(fs[here].target) + rest, links - 1);
        } else if here in fs {
          WalkIsKept(fs, fs', here, rest, links);
        }
      }
    }
  }
}
