/** The source tree of a copy, and the order in which a copy enumerates it. */
module Tree {
  import opened Wire
  import opened Paths

  /** What `statx` tells about a file, as the 56 bytes of `FileMetainfo`: the size is the first field, the mode is at
      offset 16. */
  type Metainfo = m: bytes | |m| == 56 witness seq(56, _ => 0)

  function SizeOf(m: Metainfo): u64 {
    FromWord(m[..8])
  }

  /** The file type bits of the mode, `mode & S_IFMT`, as a number from 0 to 15. */
  function FileType(m: Metainfo): nat {
    (m[16] as int + 256 * m[17] as int) / 4096
  }

  predicate IsReg(m: Metainfo) {
    FileType(m) == 8
  }

  predicate IsDir(m: Metainfo) {
    FileType(m) == 4
  }

  predicate IsLnk(m: Metainfo) {
    FileType(m) == 10
  }

  /** What a file counts for in the total size of a copy. */
  function RegularSize(m: Metainfo): u64 {
    if IsReg(m) then SizeOf(m) else 0
  }

  /** A directory lists its entries in the order in which iterating over it meets them. A symbolic link that leads to a
      directory has the entries of that directory `behind` it. */
  datatype Node =
    | File(meta: Metainfo, content: bytes)
    | Dir(meta: Metainfo, entries: seq<Entry>)
    | Link(meta: Metainfo, target: bytes, behind: seq<Entry>)
    | Other(meta: Metainfo)

  datatype Entry = Entry(name: Name, node: Node)

  predicate DistinctNames(es: seq<Entry>) {
    forall i, j | 0 <= i < j < |es| :: es[i].name != es[j].name
  }

  /** A snapshot of a directory: metadata agrees with what is there, and lengths fit in 64 bits. A file may have got another
      length since its size was taken. */
  predicate WellFormed(es: seq<Entry>)
    decreases es
  {
    && DistinctNames(es)
    && forall i | 0 <= i < |es| ::
         && EntryName(es[i].name)
         && Honest(es[i].node)
         && match es[i].node
            case Dir(_, entries) => WellFormed(entries)
            case Link(_, _, behind) => WellFormed(behind)
            case _ => true
  }

  predicate Honest(node: Node) {
    match node
    case File(m, _) => IsReg(m)
    case Dir(m, _) => IsDir(m)
    case Link(m, target, _) => IsLnk(m) && target != [] && NUL !in target && |target| < U64_LIMIT
    case Other(m) => !IsReg(m) && !IsDir(m) && !IsLnk(m)
  }

  /** The file has the length it had when its size was taken, and path strings are shorter than 2^64. */
  predicate Stable(item: Item) {
    && (item.node.File? ==> SizeOf(item.node.meta) == |item.node.content|)
    && |Join(item.path)| < U64_LIMIT
  }

  function Find(es: seq<Entry>, name: Name): Option<Node> {
    if es == [] then None
    else if es[0].name == name then Some(es[0].node)
    else Find(es[1..], name)
  }

  /** What is at a path, without following links: the reference an enumeration is compared with. */
  function Lookup(es: seq<Entry>, p: Path): Option<Node>
    requires p != []
    decreases |p|
  {
    var node :- Find(es, p[0]);
    if |p| == 1 then Some(node)
    else if node.Dir? then Lookup(node.entries, p[1..])
    else None
  }

  /** One entry of the list a copy works through. */
  datatype Item = Item(path: Path, node: Node)

  /** `recursive_directory_iterator`: every entry, a directory before its contents, not following links. */
  function PreOrder(prefix: Path, es: seq<Entry>): seq<Item>
    decreases es
  {
    if es == [] then []
    else
      var here := prefix + [es[0].name];
      [Item(here, es[0].node)]
      + (if es[0].node.Dir? then PreOrder(here, es[0].node.entries) else [])
      + PreOrder(prefix, es[1..])
  }

  /** Inside directories, only files, directories and links are copied. */
  function Supported(items: seq<Item>): seq<Item> {
    if items == [] then []
    else (if items[0].node.Other? then [] else [items[0]]) + Supported(items[1..])
  }

  /** The list for the entries `es` of the directory at `prefix`; `others` tells whether entries of other types are
      listed as well, which they are among the roots only. */
  function Flatten(prefix: Path, es: seq<Entry>, others: bool): seq<Item>
    decreases es
  {
    if es == [] then []
    else
      var here := prefix + [es[0].name];
      (if es[0].node.Other? && !others then [] else [Item(here, es[0].node)])
      + (if es[0].node.Dir? then Flatten(here, es[0].node.entries, false) else [])
      + Flatten(prefix, es[1..], others)
  }

  lemma {:induction false} SupportedConcat(a: seq<Item>, b: seq<Item>)
    ensures Supported(a + b) == Supported(a) + Supported(b)
  {
    if a == [] {
      assert a + b == b;
    } else {
      SupportedConcat(a[1..], b);
      assert (a + b)[0] == a[0] && (a + b)[1..] == a[1..] + b;
      Regroup(if a[0].node.Other? then [] else [a[0]], Supported(a[1..]), Supported(b));
    }
  }

  lemma {:induction false} FlattenIsSupportedPreOrder(prefix: Path, es: seq<Entry>)
    ensures Supported(PreOrder(prefix, es)) == Flatten(prefix, es, false)
    decreases es
  {
    if es != [] {
      var here := prefix + [es[0].name];
      var inner := if es[0].node.Dir? then PreOrder(here, es[0].node.entries) else [];
      SupportedConcat([Item(here, es[0].node)] + inner, PreOrder(prefix, es[1..]));
      SupportedConcat([Item(here, es[0].node)], inner);
      FlattenIsSupportedPreOrder(prefix, es[1..]);
      if es[0].node.Dir? {
        FlattenIsSupportedPreOrder(here, es[0].node.entries);
      }
    }
  }

  /** What iterating below a root visits: `is_directory` follows a link, so the iteration does as well at a root. */
  function Inside(node: Node): seq<Entry> {
    match node
    case Dir(_, entries) => entries
    case Link(_, _, behind) => behind
    case _ => []
  }

  /** The list for the selected names; it fails when a name is not there. A root is listed whatever its type. */
  function FlattenRoots(src: seq<Entry>, names: seq<Name>): Option<seq<Item>> {
    if names == [] then Some([])
    else
      var node :- Find(src, names[0]);
      var rest :- FlattenRoots(src, names[1..]);
      Some([Item([names[0]], node)] + Flatten([names[0]], Inside(node), false) + rest)
  }

  /** The subtrees that were selected, in the order of selection. */
  function Select(src: seq<Entry>, names: seq<Name>): Option<seq<Entry>> {
    if names == [] then Some([])
    else
      var node :- Find(src, names[0]);
      var rest :- Select(src, names[1..]);
      Some([Entry(names[0], node)] + rest)
  }

  predicate GoodItem(item: Item) {
    item.path != [] && EntryPath(item.path) && Honest(item.node)
  }

  lemma {:induction false} FlattenedAreGood(prefix: Path, es: seq<Entry>, others: bool)
    requires WellFormed(es) && EntryPath(prefix)
    ensures forall i | 0 <= i < |Flatten(prefix, es, others)| :: GoodItem(Flatten(prefix, es, others)[i])
    decreases es
  {
    if es != [] {
      TailWellFormed(es);
      FlattenedAreGood(prefix, es[1..], others);
      if es[0].node.Dir? {
        FlattenedAreGood(prefix + [es[0].name], es[0].node.entries, false);
      }
    }
  }

  lemma {:induction false} ListedAreGood(src: seq<Entry>, names: seq<Name>)
    requires WellFormed(src) && FlattenRoots(src, names).Some?
    ensures forall i | 0 <= i < |FlattenRoots(src, names).value| :: GoodItem(FlattenRoots(src, names).value[i])
  {
    if names != [] {
      FoundAt(src, names[0]);
      ListedAreGood(src, names[1..]);
      FlattenedAreGood([names[0]], Inside(Find(src, names[0]).value), false);
    }
  }

  predicate Distinct(names: seq<Name>) {
    forall i, j | 0 <= i < j < |names| :: names[i] != names[j]
  }

  // ---- The enumeration lists exactly the supported nodes, once, parents first ----

  lemma FoundAt(es: seq<Entry>, name: Name)
    ensures Find(es, name).Some? <==> exists i | 0 <= i < |es| :: es[i].name == name
    ensures Find(es, name).Some? ==> exists i | 0 <= i < |es| :: es[i] == Entry(name, Find(es, name).value)
  {
    if es != [] {
      if es[0].name == name {
        assert es[0] == Entry(name, Find(es, name).value);
      } else {
        FoundAt(es[1..], name);
        if Find(es[1..], name).Some? {
          var i :| 0 <= i < |es[1..]| && es[1..][i] == Entry(name, Find(es[1..], name).value);
          assert es[i + 1] == es[1..][i];
        } else {
          assert forall i | 0 < i < |es| :: es[i] == es[1..][i - 1];
        }
      }
    }
  }

  lemma {:induction false} TailWellFormed(es: seq<Entry>)
    requires WellFormed(es) && es != []
    ensures WellFormed(es[1..])
    ensures Find(es[1..], es[0].name) == None
  {
    var t := es[1..];
    assert forall i | 0 <= i < |t| :: t[i] == es[i + 1];
    FoundAt(t, es[0].name);
  }

  lemma HeadWellFormed(es: seq<Entry>)
    requires WellFormed(es) && es != []
    ensures EntryName(es[0].name) && Honest(es[0].node)
    ensures es[0].node.Dir? ==> WellFormed(es[0].node.entries)
  {
  }

  /** The nodes a list of items gives for one path, in order. */
  function NodesAt(items: seq<Item>, p: Path): seq<Node> {
    if items == [] then []
    else (if items[0].path == p then [items[0].node] else []) + NodesAt(items[1..], p)
  }

  lemma {:induction false} NodesAtConcat(a: seq<Item>, b: seq<Item>, p: Path)
    ensures NodesAt(a + b, p) == NodesAt(a, p) + NodesAt(b, p)
  {
    if a == [] {
      assert a + b == b;
    } else {
      NodesAtConcat(a[1..], b, p);
      assert (a + b)[0] == a[0] && (a + b)[1..] == a[1..] + b;
      Regroup(if a[0].path == p then [a[0].node] else [], NodesAt(a[1..], p), NodesAt(b, p));
    }
  }

  /** What a faithful list of the supported nodes under `prefix` gives for a path. */
  function Expected(prefix: Path, es: seq<Entry>, p: Path): seq<Node> {
    if !Below(prefix, p) then []
    else
      match Lookup(es, p[|prefix|..])
      case None => []
      case Some(node) => if node.Other? then [] else [node]
  }

  lemma ExpectedUnfolds(prefix: Path, es: seq<Entry>, p: Path)
    requires es != [] && Find(es[1..], es[0].name) == None
    ensures Expected(prefix, es, p)
         == (if p == prefix + [es[0].name] && !es[0].node.Other? then [es[0].node] else [])
          + (if es[0].node.Dir? then Expected(prefix + [es[0].name], es[0].node.entries, p) else [])
          + Expected(prefix, es[1..], p)
  {
    var here := prefix + [es[0].name];
    if Below(here, p) {
      assert p[..|prefix|] == p[..|here|][..|prefix|] && p[|prefix|] == p[..|here|][|prefix|];
      assert p[|prefix|..][1..] == p[|here|..];
    } else if Below(prefix, p) && p[|prefix|] == es[0].name {
      assert p[..|here|] == here;
    }
  }

  /** The enumeration gives a path once if there is a supported node at it, with that node, and never otherwise. */
  lemma {:induction false} FlattenListsEachNodeOnce(prefix: Path, es: seq<Entry>, p: Path)
    requires WellFormed(es)
    ensures NodesAt(Flatten(prefix, es, false), p) == Expected(prefix, es, p)
    decreases es
  {
    if es != [] {
      var here := prefix + [es[0].name];
      var node := es[0].node;
      var head := if node.Other? then [] else [Item(here, node)];
      var inner := if node.Dir? then Flatten(here, node.entries, false) else [];
      var tail := Flatten(prefix, es[1..], false);
      TailWellFormed(es);
      ExpectedUnfolds(prefix, es, p);
      NodesAtConcat(head + inner, tail, p);
      NodesAtConcat(head, inner, p);
      FlattenListsEachNodeOnce(prefix, es[1..], p);
      if node.Dir? {
        FlattenListsEachNodeOnce(here, node.entries, p);
      }
    }
  }

  /** Every item's parent is known beforehand or is a directory earlier in the list. */
  predicate ParentsFirst(known: set<Path>, items: seq<Item>)
    decreases |items|
  {
    items == [] ||
    (&& items[0].path != []
     && Parent(items[0].path) in known
     && ParentsFirst(if items[0].node.Dir? then known + {items[0].path} else known, items[1..]))
  }

  lemma {:induction false} ParentsFirstConcat(known: set<Path>, more: set<Path>, a: seq<Item>, b: seq<Item>)
    requires ParentsFirst(known, a) && ParentsFirst(more, b) && more <= known
    ensures ParentsFirst(known, a + b)
    decreases |a|
  {
    if a == [] {
      assert a + b == b;
      ParentsFirstMonotone(more, known, b);
    } else {
      assert (a + b)[1..] == a[1..] + b;
      ParentsFirstConcat(if a[0].node.Dir? then known + {a[0].path} else known, more, a[1..], b);
    }
  }

  lemma {:induction false} ParentsFirstMonotone(known: set<Path>, more: set<Path>, items: seq<Item>)
    requires ParentsFirst(known, items) && known <= more
    ensures ParentsFirst(more, items)
    decreases |items|
  {
    if items != [] {
      if items[0].node.Dir? {
        ParentsFirstMonotone(known + {items[0].path}, more + {items[0].path}, items[1..]);
      } else {
        ParentsFirstMonotone(known, more, items[1..]);
      }
    }
  }

  /** A directory is listed before anything in it. */
  lemma {:induction false} FlattenListsParentsFirst(prefix: Path, es: seq<Entry>)
    ensures ParentsFirst({prefix}, Flatten(prefix, es, false))
    decreases es
  {
    if es != [] {
      var here := prefix + [es[0].name];
      var node := es[0].node;
      var head := [Item(here, node)];
      assert Parent(here) == prefix;
      FlattenListsParentsFirst(prefix, es[1..]);
      if node.Dir? {
        var inner := Flatten(here, node.entries, false);
        FlattenListsParentsFirst(here, node.entries);
        ParentsFirstMonotone({here}, {prefix, here}, inner);
        assert {prefix} + {here} == {prefix, here};
        assert (head + inner)[1..] == inner;
        ParentsFirstConcat({prefix}, {prefix}, head + inner, Flatten(prefix, es[1..], false));
      } else if !node.Other? {
        assert ParentsFirst({prefix}, head[1..]);
        ParentsFirstConcat({prefix}, {prefix}, head, Flatten(prefix, es[1..], false));
        assert Flatten(prefix, es, false) == head + Flatten(prefix, es[1..], false);
      } else {
        assert Flatten(prefix, es, false) == Flatten(prefix, es[1..], false);
      }
    }
  }

  // ---- The list for selected roots ----

  /** There is nothing in the directory that a copy could list. */
  predicate NothingToList(es: seq<Entry>) {
    forall i | 0 <= i < |es| :: es[i].node.Other?
  }

  lemma {:induction false} ListsNothingIff(prefix: Path, es: seq<Entry>)
    ensures Flatten(prefix, es, false) == [] <==> NothingToList(es)
    decreases |es|
  {
    if es != [] {
      ListsNothingIff(prefix, es[1..]);
      assert forall i | 0 < i < |es| :: es[i] == es[1..][i - 1];
      assert NothingToList(es) <==> es[0].node.Other? && NothingToList(es[1..]);
    }
  }

  /** No selected link leads to a directory that has something to copy in it. */
  predicate LinksLeadNowhere(sel: seq<Entry>) {
    forall i | 0 <= i < |sel| && sel[i].node.Link? :: NothingToList(sel[i].node.behind)
  }

  /** The list one would expect: roots of any type, and what is below those that are directories. */
  function Roots(sel: seq<Entry>): seq<Item> {
    Flatten([], sel, true)
  }

  lemma RootsOfCons(e: Entry, tail: seq<Entry>)
    ensures Roots([e] + tail)
         == [Item([e.name], e.node)]
          + (if e.node.Dir? then Flatten([e.name], e.node.entries, false) else [])
          + Roots(tail)
  {
    var none: Path := [];
    assert none + [e.name] == [e.name];
    assert ([e] + tail)[1..] == tail;
  }

  lemma LinksOfCons(e: Entry, tail: seq<Entry>)
    ensures LinksLeadNowhere([e] + tail)
       <==> ((e.node.Link? ==> NothingToList(e.node.behind)) && LinksLeadNowhere(tail))
  {
    var sel := [e] + tail;
    assert sel[0] == e;
    assert forall i | 0 <= i < |tail| :: tail[i] == sel[i + 1];
  }

  lemma SameAfter<T>(a: seq<T>, more: seq<T>, b: seq<T>, c: seq<T>)
    requires |b| >= |c|
    ensures a + more + b == a + c <==> (more == [] && b == c)
  {
    if a + more + b == a + c {
      assert |more| + |b| == |c|;
      assert (a + more + b)[|a|..] == b;
      assert (a + c)[|a|..] == c;
    }
  }

  lemma OneRoot(e: Entry, listed: seq<Item>, tail: seq<Entry>)
    requires |listed| >= |Roots(tail)|
    ensures var all := [Item([e.name], e.node)] + Flatten([e.name], Inside(e.node), false) + listed;
      && |all| >= |Roots([e] + tail)|
      && (all == Roots([e] + tail)
          <==> (e.node.Link? ==> NothingToList(e.node.behind)) && listed == Roots(tail))
  {
    RootsOfCons(e, tail);
    ListsNothingIff([e.name], Inside(e.node));
    var head := [Item([e.name], e.node)];
    var inside := Flatten([e.name], Inside(e.node), false);
    if e.node.Link? {
      SameAfter(head, inside, listed, Roots(tail));
      assert head + [] + Roots(tail) == head + Roots(tail);
    } else {
      SameAfter(head + inside, [], listed, Roots(tail));
      assert head + inside + [] + listed == head + inside + listed;
    }
  }

  /** The list is the expected one if and only if no selected root is a link to a non-empty directory: the contents of
      such a directory are listed below the link. */
  lemma {:induction false} CollectsExactly(src: seq<Entry>, names: seq<Name>)
    ensures FlattenRoots(src, names).Some? <==> Select(src, names).Some?
    ensures Select(src, names).Some? ==> |FlattenRoots(src, names).value| >= |Roots(Select(src, names).value)|
    ensures Select(src, names).Some? ==>
              (FlattenRoots(src, names).value == Roots(Select(src, names).value)
               <==> LinksLeadNowhere(Select(src, names).value))
  {
    if names != [] && Find(src, names[0]).Some? {
      CollectsExactly(src, names[1..]);
      if Select(src, names).Some? {
        var e := Entry(names[0], Find(src, names[0]).value);
        var tail := Select(src, names[1..]).value;
        var listed := FlattenRoots(src, names[1..]).value;
        LinksOfCons(e, tail);
        OneRoot(e, listed, tail);
      }
    }
  }

  /** What a faithful list of the selected names gives for a path: the roots, whatever they are, and what is supported
      below them. */
  function ExpectedOfRoots(src: seq<Entry>, names: seq<Name>, p: Path): seq<Node> {
    if p == [] || p[0] !in names then []
    else
      match Lookup(src, p)
      case None => []
      case Some(node) => if node.Other? && |p| > 1 then [] else [node]
  }

  /** One root and what is listed below it. */
  lemma RootIsListedOnce(src: seq<Entry>, name: Name, p: Path)
    requires WellFormed(src) && Find(src, name).Some?
    requires var node := Find(src, name).value; node.Link? ==> NothingToList(node.behind)
    ensures var node := Find(src, name).value;
      NodesAt([Item([name], node)] + Flatten([name], Inside(node), false), p) == ExpectedOfRoots(src, [name], p)
  {
    var node := Find(src, name).value;
    var head := [Item([name], node)];
    var inside := Flatten([name], Inside(node), false);
    FoundAt(src, name);
    NodesAtConcat(head, inside, p);
    assert NodesAt(head, p) == if p == [name] then [node] else [];
    ListsNothingIff([name], Inside(node));
    if node.Dir? {
      FlattenListsEachNodeOnce([name], node.entries, p);
    }
    if p != [] && p[0] == name {
      assert p[..1] == [name];
      assert |p| == 1 ==> p == [name];
    }
  }

  /** The list the sender works through gives a selected root once, each supported node below a selected directory once,
      and nothing else. */
  lemma {:induction false} ListsEachNodeOnce(src: seq<Entry>, names: seq<Name>, p: Path)
    requires WellFormed(src) && Distinct(names)
    requires Select(src, names).Some? && LinksLeadNowhere(Select(src, names).value)
    ensures FlattenRoots(src, names).Some?
    ensures NodesAt(FlattenRoots(src, names).value, p) == ExpectedOfRoots(src, names, p)
  {
    CollectsExactly(src, names);
    if names != [] {
      var e := Entry(names[0], Find(src, names[0]).value);
      var first := [Item([e.name], e.node)] + Flatten([e.name], Inside(e.node), false);
      LinksOfCons(e, Select(src, names[1..]).value);
      RootIsListedOnce(src, e.name, p);
      ListsEachNodeOnce(src, names[1..], p);
      NodesAtConcat(first, FlattenRoots(src, names[1..]).value, p);
    }
  }

  /** Every root is in the base directory, and a directory is listed before anything in it. */
  lemma {:induction false} ListsParentsFirst(src: seq<Entry>, names: seq<Name>)
    requires Select(src, names).Some? && LinksLeadNowhere(Select(src, names).value)
    ensures FlattenRoots(src, names).Some?
    ensures ParentsFirst({[]}, FlattenRoots(src, names).value)
  {
    CollectsExactly(src, names);
    if names != [] {
      var e := Entry(names[0], Find(src, names[0]).value);
      LinksOfCons(e, Select(src, names[1..]).value);
      ListsParentsFirst(src, names[1..]);
      RootParentsFirst(e);
      ParentsFirstConcat({[]}, {[]}, [Item([e.name], e.node)] + Flatten([e.name], Inside(e.node), false),
                         FlattenRoots(src, names[1..]).value);
    }
  }

  lemma RootParentsFirst(e: Entry)
    requires e.node.Link? ==> NothingToList(e.node.behind)
    ensures ParentsFirst({[]}, [Item([e.name], e.node)] + Flatten([e.name], Inside(e.node), false))
  {
    var root: Path := [e.name];
    var none: Path := [];
    var inside := Flatten(root, Inside(e.node), false);
    assert Parent(root) == none;
    ListsNothingIff(root, Inside(e.node));
    assert ([Item(root, e.node)] + inside)[1..] == inside;
    if e.node.Dir? {
      FlattenListsParentsFirst(root, e.node.entries);
      ParentsFirstMonotone({root}, {none} + {root}, inside);
    }
  }

  lemma {:induction false} SelectedIsWellFormed(src: seq<Entry>, names: seq<Name>)
    requires WellFormed(src) && Distinct(names) && Select(src, names).Some?
    ensures WellFormed(Select(src, names).value)
    ensures |Select(src, names).value| == |names|
    ensures forall i | 0 <= i < |names| :: Select(src, names).value[i].name == names[i]
  {
    if names != [] {
      SelectedIsWellFormed(src, names[1..]);
      FoundAt(src, names[0]);
      var sel := Select(src, names).value;
      var tail := Select(src, names[1..]).value;
      assert forall i | 0 < i < |sel| :: sel[i] == tail[i - 1] && names[i] == names[1..][i - 1];
    }
  }

  /** Among the selected entries, a name finds the same node as in the whole directory. */
  lemma {:induction false} FindSelected(src: seq<Entry>, names: seq<Name>, name: Name)
    requires Select(src, names).Some?
    ensures Find(Select(src, names).value, name) == if name in names then Find(src, name) else None
  {
    if names != [] {
      FindSelected(src, names[1..], name);
      var tail := Select(src, names[1..]).value;
      assert Select(src, names).value[1..] == tail;
    }
  }
}
