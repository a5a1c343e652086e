/** A browser panel of the client: where it is, what it lists, and what is selected in it. */
module BrowserPanel {
  import opened Wire
  import opened Paths
  import opened Tree

  // ---- Navigation ----

  /** The string without its last name. */
  function DropName(s: bytes): bytes {
    if s != [] && s[|s| - 1] != SLASH then DropName(s[..|s| - 1]) else s
  }

  /** `std::filesystem::path::parent_path`: without the last name and the separators in front of it; a root directory is
      its own parent. */
  function ParentPath(s: bytes): bytes {
    var dir := DropName(s);
    if StripSlashes(dir) == [] then dir else StripSlashes(dir)
  }

  lemma {:induction false} DropNameOf(base: bytes, n: bytes)
    requires SLASH !in n && (base != [] ==> base[|base| - 1] == SLASH)
    ensures DropName(base + n) == base
  {
    if n == [] {
      assert base + n == base;
    } else {
      var s := base + n;
      assert s[|s| - 1] == n[|n| - 1] && n[|n| - 1] in n;
      assert s[..|s| - 1] == base + n[..|n| - 1];
      DropNameOf(base, n[..|n| - 1]);
    }
  }

  lemma {:induction false} JoinOneMore(p: Path, n: Name)
    requires ValidPath(p) && ValidName(n)
    ensures Join(p + [n]) == Append(Join(p), n)
  {
    assert n[0] in n;
    JoinIsNotAbsolute(p);
    if p == [] {
      assert p + [n] == [n];
    } else {
      assert (p + [n])[1..] == p[1..] + [n];
      JoinOneMore(p[1..], n);
      if |p| > 1 {
        JoinIsNotAbsolute(p[1..]);
        assert Join(p + [n]) == p[0] + [SLASH] + (Join(p[1..]) + [SLASH] + n);
        assert Join(p) + [SLASH] + n == p[0] + [SLASH] + (Join(p[1..]) + [SLASH] + n);
      } else {
        assert p[1..] == [] && Join(p[1..] + [n]) == n;
        assert Join(p) == p[0];
      }
    }
  }

  /** Going up undoes going down. */
  lemma ParentUndoesDescent(p: Path, n: Name)
    requires ValidPath(p) && ValidName(n)
    ensures ParentPath(Append(Join(p), n)) == Join(p)
  {
    assert n[0] in n;
    JoinIsNotAbsolute(p);
    var cwd := Join(p);
    if p == [] {
      assert cwd + n == n && [] + n == n;
      DropNameOf([], n);
    } else {
      assert Append(cwd, n) == (cwd + [SLASH]) + n;
      DropNameOf(cwd + [SLASH], n);
      assert (cwd + [SLASH])[..|cwd|] == cwd;
      assert StripSlashes(cwd + [SLASH]) == cwd;
    }
  }

  /** One visit to another directory, and whether its listing arrived. */
  datatype Move = Descend(name: Name, listed: bool) | Ascend(listed: bool)

  /** The working directory after a move: it changes when the listing arrives, and not at the top, where going up
      disconnects. */
  function CwdAfter(cwd: bytes, m: Move): bytes {
    match m
    case Descend(n, listed) => if listed then Append(cwd, n) else cwd
    case Ascend(listed) => if listed && cwd != [] then ParentPath(cwd) else cwd
  }

  function StackAfter(stack: Path, m: Move): Path {
    match m
    case Descend(n, listed) => if listed then stack + [n] else stack
    case Ascend(listed) => if listed && stack != [] then stack[..|stack| - 1] else stack
  }

  function CwdAfterAll(cwd: bytes, moves: seq<Move>): bytes
    decreases |moves|
  {
    if moves == [] then cwd else CwdAfterAll(CwdAfter(cwd, moves[0]), moves[1..])
  }

  function StackAfterAll(stack: Path, moves: seq<Move>): Path
    decreases |moves|
  {
    if moves == [] then stack else StackAfterAll(StackAfter(stack, moves[0]), moves[1..])
  }

  predicate ValidMoves(moves: seq<Move>) {
    forall i | 0 <= i < |moves| && moves[i].Descend? :: ValidName(moves[i].name)
  }

  /** Whatever the user does, the working directory is the joined stack of the names gone into and not left; it is empty
      exactly at the top. */
  lemma {:induction false} NavigationIsAStack(stack: Path, moves: seq<Move>)
    requires ValidPath(stack) && ValidMoves(moves)
    ensures ValidPath(StackAfterAll(stack, moves))
    ensures CwdAfterAll(Join(stack), moves) == Join(StackAfterAll(stack, moves))
    ensures CwdAfterAll(Join(stack), moves) == [] <==> StackAfterAll(stack, moves) == []
    decreases |moves|
  {
    JoinIsNotAbsolute(stack);
    if moves != [] {
      var next := StackAfter(stack, moves[0]);
      MoveIsAStackMove(stack, moves[0]);
      NavigationIsAStack(next, moves[1..]);
    }
  }

  lemma MoveIsAStackMove(stack: Path, m: Move)
    requires ValidPath(stack) && (m.Descend? ==> ValidName(m.name))
    ensures ValidPath(StackAfter(stack, m))
    ensures CwdAfter(Join(stack), m) == Join(StackAfter(stack, m))
  {
    JoinIsNotAbsolute(stack);
    match m
    case Descend(n, listed) => JoinOneMore(stack, n);
    case Ascend(listed) =>
      if stack != [] {
        var below, n := stack[..|stack| - 1], stack[|stack| - 1];
        assert stack == below + [n];
        JoinOneMore(below, n);
        ParentUndoesDescent(below, n);
      }
  }

  // ---- The order of a listing ----

  datatype Dentry = Dentry(basename: Name, meta: Metainfo)

  /** `<=` on strings. */
  predicate NameLe(a: Name, b: Name)
    decreases |a|
  {
    a == [] || (b != [] && (a[0] < b[0] || (a[0] == b[0] && NameLe(a[1..], b[1..]))))
  }

  lemma {:induction false} NameLeIsTotalOrder(a: Name, b: Name, c: Name)
    ensures NameLe(a, a)
    ensures NameLe(a, b) || NameLe(b, a)
    ensures NameLe(a, b) && NameLe(b, a) ==> a == b
    ensures NameLe(a, b) && NameLe(b, c) ==> NameLe(a, c)
    decreases |a|
  {
    if a != [] {
      var b' := if b == [] then [] else b[1..];
      var c' := if c == [] then [] else c[1..];
      NameLeIsTotalOrder(a[1..], b', c');
      if b != [] && a[0] == b[0] && a[1..] == b[1..] {
        assert a == [a[0]] + a[1..] && b == [b[0]] + b[1..];
      }
    }
  }

  /** The comparator given to the sort: directories before everything else, otherwise by name. */
  predicate Before(a: Dentry, b: Dentry) {
    if FileType(a.meta) != FileType(b.meta) then
      if IsDir(a.meta) then true
      else if IsDir(b.meta) then false
      else NameLe(a.basename, b.basename)
    else NameLe(a.basename, b.basename)
  }

  /** It holds in both directions exactly for entries that have one name and are both directories or both not. So on a
      directory listing, where names are distinct, it orders any two entries strictly, but it is never strict on an
      entry and itself. */
  lemma BeforeIsStrictOnDistinctNames(a: Dentry, b: Dentry, c: Dentry)
    ensures Before(a, b) || Before(b, a)
    ensures Before(a, b) && Before(b, a) <==> a.basename == b.basename && IsDir(a.meta) == IsDir(b.meta)
    ensures Before(a, b) && Before(b, c) ==> Before(a, c)
  {
    NameLeIsTotalOrder(a.basename, b.basename, c.basename);
    NameLeIsTotalOrder(b.basename, a.basename, c.basename);
  }

  // What the order means for someone who looks at the listing.

  /** A name comes before another one if it is a beginning of it, or smaller at the first byte where they differ. */
  ghost predicate Precedes(a: Name, b: Name) {
    a <= b || exists k: nat :: k < |a| && k < |b| && a[..k] == b[..k] && a[k] < b[k]
  }

  lemma {:induction false} NameLeIs(a: Name, b: Name)
    ensures NameLe(a, b) <==> Precedes(a, b)
    decreases |a|
  {
    if a != [] && b != [] && a[0] == b[0] {
      NameLeIs(a[1..], b[1..]);
      if Precedes(a, b) {
        PrecedesAfterFirst(a, b);
      }
      if Precedes(a[1..], b[1..]) {
        PrecedesFromFirst(a, b);
      }
    } else if a != [] && b != [] && a[0] < b[0] {
      assert a[..0] == b[..0];
    }
  }

  lemma PrecedesAfterFirst(a: Name, b: Name)
    requires a != [] && b != [] && a[0] == b[0] && Precedes(a, b)
    ensures Precedes(a[1..], b[1..])
  {
    if !(a <= b) {
      var k: nat :| k < |a| && k < |b| && a[..k] == b[..k] && a[k] < b[k];
      assert a[1..][..k - 1] == a[..k][1..] && b[1..][..k - 1] == b[..k][1..];
      assert a[1..][k - 1] < b[1..][k - 1];
    }
  }

  lemma PrecedesFromFirst(a: Name, b: Name)
    requires a != [] && b != [] && a[0] == b[0] && Precedes(a[1..], b[1..])
    ensures Precedes(a, b)
  {
    if a[1..] <= b[1..] {
      assert a == [a[0]] + a[1..] && b == [b[0]] + b[1..];
    } else {
      var k: nat :| k < |a[1..]| && k < |b[1..]| && a[1..][..k] == b[1..][..k] && a[1..][k] < b[1..][k];
      assert a[..k + 1] == [a[0]] + a[1..][..k] && b[..k + 1] == [b[0]] + b[1..][..k];
      assert a[k + 1] < b[k + 1];
    }
  }

  /** Two entries that follow each other in a listing: a directory never comes after something else, and among directories
      and among everything else the names go up. */
  ghost predicate InOrder(nameA: Name, metaA: Metainfo, nameB: Name, metaB: Metainfo) {
    && (IsDir(metaB) ==> IsDir(metaA))
    && (IsDir(metaA) == IsDir(metaB) ==> Precedes(nameA, nameB))
  }

  lemma BeforeIsInOrder(a: Dentry, b: Dentry)
    ensures Before(a, b) <==> InOrder(a.basename, a.meta, b.basename, b.meta)
  {
    NameLeIs(a.basename, b.basename);
  }

  ghost predicate Ordered(ds: seq<Dentry>) {
    forall i, j | 0 <= i < j < |ds| :: Before(ds[i], ds[j])
  }

  ghost predicate DistinctBasenames(ds: seq<Dentry>) {
    forall i, j | 0 <= i < j < |ds| :: ds[i].basename != ds[j].basename
  }

  function Insert(d: Dentry, ds: seq<Dentry>): seq<Dentry> {
    if ds == [] || Before(d, ds[0]) then [d] + ds else [ds[0]] + Insert(d, ds[1..])
  }

  /** The listing in order. */
  function SortDents(ds: seq<Dentry>): seq<Dentry> {
    if ds == [] then [] else Insert(ds[0], SortDents(ds[1..]))
  }

  lemma {:induction false} InsertKeepsOrder(d: Dentry, ds: seq<Dentry>)
    requires Ordered(ds)
    ensures Ordered(Insert(d, ds)) && multiset(Insert(d, ds)) == multiset(ds) + multiset{d}
  {
    if ds == [] {
    } else if Before(d, ds[0]) {
      forall j | 0 < j < |ds| ensures Before(d, ds[j]) {
        BeforeIsStrictOnDistinctNames(d, ds[0], ds[j]);
      }
    } else {
      assert ds == [ds[0]] + ds[1..];
      BeforeIsStrictOnDistinctNames(d, ds[0], d);
      InsertKeepsOrder(d, ds[1..]);
      var rest := Insert(d, ds[1..]);
      forall j | 0 <= j < |rest| ensures Before(ds[0], rest[j]) {
        assert rest[j] in multiset(rest);
        if rest[j] != d {
          assert rest[j] in multiset(ds[1..]);
        }
      }
    }
  }

  lemma {:induction false} SortOrders(ds: seq<Dentry>)
    ensures Ordered(SortDents(ds)) && multiset(SortDents(ds)) == multiset(ds)
  {
    if ds != [] {
      SortOrders(ds[1..]);
      InsertKeepsOrder(ds[0], SortDents(ds[1..]));
      assert ds == [ds[0]] + ds[1..];
    }
  }

  /** In the sorted listing the directories come first, and names go up among directories and among everything else. */
  lemma SortedIsInOrder(ds: seq<Dentry>, i: nat, j: nat)
    requires i < j < |SortDents(ds)|
    ensures var a, b := SortDents(ds)[i], SortDents(ds)[j]; InOrder(a.basename, a.meta, b.basename, b.meta)
  {
    SortOrders(ds);
    BeforeIsInOrder(SortDents(ds)[i], SortDents(ds)[j]);
  }

  lemma SortKeepsLength(ds: seq<Dentry>)
    ensures |SortDents(ds)| == |ds|
  {
    SortOrders(ds);
    assert |multiset(SortDents(ds))| == |multiset(ds)|;
  }

  /** The first of an ordered list comes before, or is, everything in it. */
  lemma FirstIsLeast(ds: seq<Dentry>, d: Dentry)
    requires ds != [] && Ordered(ds) && d in multiset(ds)
    ensures Before(ds[0], d)
  {
    var i :| 0 <= i < |ds| && ds[i] == d;
    BeforeIsStrictOnDistinctNames(d, d, d);
  }

  lemma SameNameSameEntry(ds: seq<Dentry>, d: Dentry, e: Dentry)
    requires DistinctBasenames(ds) && d in multiset(ds) && e in multiset(ds) && d.basename == e.basename
    ensures d == e
  {
    var i :| 0 <= i < |ds| && ds[i] == d;
    var j :| 0 <= j < |ds| && ds[j] == e;
    assert !(i < j) && !(j < i);
  }

  lemma RestOf(ds: seq<Dentry>)
    requires ds != []
    ensures multiset(ds[1..]) == multiset(ds) - multiset{ds[0]}
  {
    assert ds == [ds[0]] + ds[1..];
  }

  /** Two ordered arrangements of the same entries are equal, if names are distinct: any correct sort shows the same
      list. */
  lemma {:induction false} OrderIsUnique(a: seq<Dentry>, b: seq<Dentry>)
    requires multiset(a) == multiset(b) && Ordered(a) && Ordered(b) && DistinctBasenames(a)
    ensures a == b
  {
    assert |multiset(a)| == |a| && |multiset(b)| == |b|;
    if a != [] {
      assert a[0] in multiset(a) && b[0] in multiset(b);
      FirstIsLeast(a, b[0]);
      FirstIsLeast(b, a[0]);
      BeforeIsStrictOnDistinctNames(a[0], b[0], a[0]);
      SameNameSameEntry(a, a[0], b[0]);
      RestOf(a);
      RestOf(b);
      OrderIsUnique(a[1..], b[1..]);
      assert a == [a[0]] + a[1..] && b == [b[0]] + b[1..];
    }
  }

  /** The entries as two parallel vectors show them, without the one in front that leads up. */
  function Shown(names: seq<Name>, metas: seq<Metainfo>): (ds: seq<Dentry>)
    requires |names| == |metas| > 0
    ensures |ds| == |names| - 1 && forall i | 0 <= i < |ds| :: ds[i] == Dentry(names[i + 1], metas[i + 1])
  {
    seq(|names| - 1, i requires 0 <= i < |names| - 1 => Dentry(names[i + 1], metas[i + 1]))
  }

  ghost predicate AllInOrder(names: seq<Name>, metas: seq<Metainfo>)
    requires |names| == |metas|
  {
    forall i, j | 0 < i < j < |names| :: InOrder(names[i], metas[i], names[j], metas[j])
  }

  lemma ShownInOrder(names: seq<Name>, metas: seq<Metainfo>, ds: seq<Dentry>)
    requires |names| == |metas| == |ds| + 1 && |SortDents(ds)| == |ds|
    requires forall k | 0 <= k < |ds| :: names[k + 1] == SortDents(ds)[k].basename && metas[k + 1] == SortDents(ds)[k].meta
    ensures Shown(names, metas) == SortDents(ds) && multiset(Shown(names, metas)) == multiset(ds)
    ensures AllInOrder(names, metas)
  {
    assert Shown(names, metas) == SortDents(ds);
    SortOrders(ds);
    forall i, j | 0 < i < j < |names| ensures InOrder(names[i], metas[i], names[j], metas[j]) {
      SortedIsInOrder(ds, i - 1, j - 1);
    }
  }

  // ---- Selection ----

  /** The names whose flag is set, in order. */
  function Flagged(names: seq<Name>, flags: seq<bool>): seq<Name>
    requires |names| == |flags|
  {
    if names == [] then []
    else
      var k := |names| - 1;
      Flagged(names[..k], flags[..k]) + (if flags[k] then [names[k]] else [])
  }

  /** The positions of set flags, in order. */
  function Positions(flags: seq<bool>): seq<nat> {
    if flags == [] then []
    else
      var k := |flags| - 1;
      Positions(flags[..k]) + (if flags[k] then [k] else [])
  }

  /** The flagged names are the ones at the positions of set flags, each position once and in increasing order. */
  lemma {:induction false} FlaggedIsSublist(names: seq<Name>, flags: seq<bool>)
    requires |names| == |flags|
    ensures |Flagged(names, flags)| == |Positions(flags)|
    ensures forall i | 0 <= i < |Positions(flags)| ::
              && Positions(flags)[i] < |names| && flags[Positions(flags)[i]]
              && Flagged(names, flags)[i] == names[Positions(flags)[i]]
    ensures forall i, j | 0 <= i < j < |Positions(flags)| :: Positions(flags)[i] < Positions(flags)[j]
  {
    if flags != [] {
      var k := |flags| - 1;
      var before := Positions(flags[..k]);
      FlaggedIsSublist(names[..k], flags[..k]);
      forall i | 0 <= i < |before| ensures flags[before[i]] && names[..k][before[i]] == names[before[i]] {
        assert flags[..k][before[i]] == flags[before[i]];
      }
    }
  }

  /** And no set flag is left out. */
  lemma {:induction false} PositionsOfAllFlags(flags: seq<bool>, i: nat)
    requires i < |flags|
    ensures flags[i] <==> i in Positions(flags)
    ensures forall p | p in Positions(flags) :: p < |flags|
  {
    var k := |flags| - 1;
    if i < k {
      PositionsOfAllFlags(flags[..k], i);
    } else if k > 0 {
      PositionsOfAllFlags(flags[..k], 0);
    }
  }

  /** A selection from a listing: some of its names, in its order, none twice. */
  ghost predicate IsSelection(chosen: seq<Name>, listing: seq<Name>) {
    exists flags: seq<bool> | |flags| == |listing| :: chosen == Flagged(listing, flags)
  }

  lemma SelectionIsDistinct(chosen: seq<Name>, listing: seq<Name>)
    requires IsSelection(chosen, listing) && Distinct(listing)
    ensures Distinct(chosen) && forall n | n in chosen :: n in listing
  {
    var flags: seq<bool> :| |flags| == |listing| && chosen == Flagged(listing, flags);
    FlaggedIsSublist(listing, flags);
    var ps := Positions(flags);
    forall i, j | 0 <= i < j < |chosen| ensures chosen[i] != chosen[j] {
      assert listing[ps[i]] != listing[ps[j]];
    }
    forall n | n in chosen ensures n in listing {
      var i :| 0 <= i < |chosen| && chosen[i] == n;
      assert listing[ps[i]] == n;
    }
  }

  lemma {:induction false} AllFlagged(names: seq<Name>, flags: seq<bool>)
    requires |names| == |flags| && forall i | 0 <= i < |flags| :: flags[i]
    ensures Flagged(names, flags) == names
  {
    if names != [] {
      var k := |names| - 1;
      AllFlagged(names[..k], flags[..k]);
    }
  }

  lemma {:induction false} OneFlagged(names: seq<Name>, flags: seq<bool>, at: nat)
    requires |names| == |flags| && at < |flags| && forall i | 0 <= i < |flags| :: flags[i] <==> i == at
    ensures Flagged(names, flags) == [names[at]]
  {
    var k := |names| - 1;
    if at < k {
      OneFlagged(names[..k], flags[..k], at);
    } else {
      NoneFlagged(names[..k], flags[..k]);
    }
  }

  lemma {:induction false} NoneFlagged(names: seq<Name>, flags: seq<bool>)
    requires |names| == |flags| && forall i | 0 <= i < |flags| :: !flags[i]
    ensures Flagged(names, flags) == []
  {
    if names != [] {
      var k := |names| - 1;
      NoneFlagged(names[..k], flags[..k]);
    }
  }

  lemma WholeIsSelection(listing: seq<Name>)
    ensures IsSelection(listing, listing)
  {
    var all := seq(|listing|, _ => true);
    AllFlagged(listing, all);
  }

  lemma OneIsSelection(listing: seq<Name>, at: nat)
    requires at < |listing|
    ensures IsSelection([listing[at]], listing)
  {
    var one := seq(|listing|, k => k == at);
    OneFlagged(listing, one, at);
  }

  /** Flags on a listing with the entry that leads up in front of it, which is never flagged. */
  lemma {:induction false} SlotZeroIsNotFlagged(names: seq<Name>, flags: seq<bool>)
    requires |names| == |flags| > 0 && !flags[0]
    ensures Flagged(names, flags) == Flagged(names[1..], flags[1..])
  {
    var k := |names| - 1;
    if k > 0 {
      SlotZeroIsNotFlagged(names[..k], flags[..k]);
      assert names[..k][1..] == names[1..][..k - 1] && flags[..k][1..] == flags[1..][..k - 1];
    }
  }

  lemma NothingIsFlagged(names: seq<Name>, flags: seq<bool>)
    requires |names| == |flags| > 0 && !flags[0]
    ensures Flagged(names, flags) == [] <==> forall i | 0 < i < |flags| :: !flags[i]
  {
    FlaggedIsSublist(names, flags);
    if Flagged(names, flags) == [] {
      forall i | 0 < i < |flags| ensures !flags[i] {
        PositionsOfAllFlags(flags, i);
      }
    } else {
      assert flags[Positions(flags)[0]];
    }
  }

  lemma OneMoreFlag(names: seq<Name>, flags: seq<bool>, i: nat)
    requires i < |names| == |flags|
    ensures Flagged(names[..i + 1], flags[..i + 1])
         == Flagged(names[..i], flags[..i]) + if flags[i] then [names[i]] else []
  {
    assert names[..i + 1][..i] == names[..i] && flags[..i + 1][..i] == flags[..i];
  }

  lemma FlaggedIsSelection(names: seq<Name>, flags: seq<bool>)
    requires |names| == |flags| > 0 && !flags[0]
    ensures IsSelection(Flagged(names, flags), names[1..])
    ensures Flagged(names, flags) != [] ==> |names| > 1
  {
    SlotZeroIsNotFlagged(names, flags);
    assert Flagged(names, flags) == Flagged(names[1..], flags[1..]);
  }

  /** What is taken when nothing is flagged. */
  lemma InsteadOfFlagged(names: seq<Name>, at: nat)
    requires at < |names|
    ensures var chosen := if at == 0 then names[1..] else [names[at]];
      IsSelection(chosen, names[1..]) && (chosen == [] <==> |names| == 1)
  {
    if at == 0 {
      WholeIsSelection(names[1..]);
    } else {
      OneIsSelection(names[1..], at - 1);
    }
  }

  // ---- The panel ----

  datatype Action = Nothing | Disconnect | Cd(path: bytes)

  const UP: Name := DOTDOT

  /** The parallel vectors of a panel; slot 0 is the entry that leads up. */
  class Browser {
    var cwd: bytes
    var menuIndex: nat
    var basenames: seq<Name>
    var metas: seq<Metainfo>
    var selected: seq<bool>

    constructor ()
      ensures Aligned() && cwd == [] && basenames == [UP] && menuIndex == 0
    {
      cwd, menuIndex, basenames, metas, selected := [], 0, [UP], [], [false];
    }

    /** The vectors have one length, except that there is no metadata before the first listing; the cursor is on an entry;
        slot 0 is never selected. */
    predicate Aligned()
      reads this
    {
      && menuIndex < |basenames| == |selected|
      && (|metas| == |basenames| || (metas == [] && |basenames| == 1))
      && basenames[0] == UP && !selected[0]
    }

    /** A listing arrives, or the request for one has failed. It is shown with all of its entries and nothing else,
        directories first, and with names going up among directories and among everything else. */
    method ShowDents(path: bytes, dents: Option<seq<Dentry>>)
      requires Aligned()
      modifies this
      ensures Aligned()
      ensures dents == None ==> cwd == old(cwd) && menuIndex == old(menuIndex) && basenames == old(basenames)
                                && metas == old(metas) && selected == old(selected)
      ensures dents.Some? ==>
                && cwd == path && menuIndex == 0
                && |basenames| == |metas| == |dents.value| + 1
                && Shown(basenames, metas) == SortDents(dents.value)
                && multiset(Shown(basenames, metas)) == multiset(dents.value) && AllInOrder(basenames, metas)
                && forall i | 0 <= i < |selected| :: !selected[i]
    {
      if dents == None {
        return;
      }
      cwd, menuIndex := path, 0;
      basenames := basenames[..1];
      metas := if metas == [] then [seq(56, _ => 0)] else metas[..1];
      selected := seq(|dents.value| + 1, _ => false);
      SortKeepsLength(dents.value);
      AddEntries(SortDents(dents.value));
      ShownInOrder(basenames, metas, dents.value);
    }

    /** The loop that adds the entries after the one that leads up. */
    method AddEntries(sorted: seq<Dentry>)
      requires |basenames| == |metas| == 1
      modifies this`basenames, this`metas
      ensures |basenames| == |metas| == |sorted| + 1 && basenames[0] == old(basenames)[0]
      ensures forall k | 0 <= k < |sorted| :: basenames[k + 1] == sorted[k].basename && metas[k + 1] == sorted[k].meta
    {
      var i := 0;
      while i < |sorted|
        invariant 0 <= i <= |sorted|
        invariant |basenames| == |metas| == i + 1 && basenames[0] == old(basenames)[0]
        invariant forall k | 0 <= k < i :: basenames[k + 1] == sorted[k].basename && metas[k + 1] == sorted[k].meta
      {
        basenames := basenames + [sorted[i].basename];
        metas := metas + [sorted[i].meta];
        i := i + 1;
      }
    }

    /** Enter on the current entry: up, into a directory, or nothing. */
    method OnEnter() returns (a: Action)
      requires Aligned()
      ensures menuIndex == 0 ==> a == if cwd == [] then Disconnect else Cd(CwdAfter(cwd, Ascend(true)))
      ensures menuIndex > 0 ==> a == if IsDir(metas[menuIndex]) then Cd(CwdAfter(cwd, Descend(basenames[menuIndex], true)))
                                     else Nothing
    {
      if menuIndex == 0 {
        a := if cwd == [] then Disconnect else Cd(ParentPath(cwd));
      } else if !IsDir(metas[menuIndex]) {
        a := Nothing;
      } else {
        a := Cd(Append(cwd, basenames[menuIndex]));
      }
    }

    /** Space: toggles the current entry and moves on, not beyond the last one. */
    method Toggle()
      requires Aligned()
      modifies this`selected, this`menuIndex
      ensures Aligned()
      ensures if old(menuIndex) == 0 then selected == old(selected) && menuIndex == 0
              else selected == old(selected)[old(menuIndex) := !old(selected)[old(menuIndex)]]
                   && menuIndex == Min(old(menuIndex) + 1, |basenames| - 1)
    {
      if menuIndex > 0 {
        selected := selected[menuIndex := !selected[menuIndex]];
        menuIndex := Min(menuIndex + 1, |basenames| - 1);
      }
    }

    /** The entries to be copied or deleted: the selected ones; without any, the current one, or on slot 0 all. They are a
        selection from the listing, which never has slot 0 in it, and there are none only in an empty directory. */
    method CollectSelected() returns (chosen: seq<Name>)
      requires Aligned()
      ensures IsSelection(chosen, basenames[1..])
      ensures chosen == [] <==> |basenames| == 1
      ensures (exists i :: 0 < i < |selected| && selected[i]) ==> chosen == Flagged(basenames, selected)
      ensures (forall i | 0 < i < |selected| :: !selected[i]) ==>
                chosen == if menuIndex == 0 then basenames[1..] else [basenames[menuIndex]]
    {
      chosen := [];
      var i := 1;
      while i < |selected|
        invariant 1 <= i <= |selected|
        invariant chosen == Flagged(basenames[..i], selected[..i])
      {
        OneMoreFlag(basenames, selected, i);
        if selected[i] {
          chosen := chosen + [basenames[i]];
        }
        i := i + 1;
      }
      assert basenames[..i] == basenames && selected[..i] == selected;
      NothingIsFlagged(basenames, selected);
      FlaggedIsSelection(basenames, selected);
      if chosen == [] {
        InsteadOfFlagged(basenames, menuIndex);
        if menuIndex == 0 {
          chosen := basenames[1..];
        } else {
          chosen := [basenames[menuIndex]];
        }
      }
    }
  }
}
