/** A copy whose stream ends too early, at any byte: what the receiver has changed by then. */
module BrokenCopy {
  import opened Wire
  import opened Serde
  import opened Sockets
  import opened Paths
  import opened Tree
  import opened FileSystem
  import opened CopySender
  import opened CopyReceiver
  import opened CopyPipeline

  /** Whatever differs is one of the `names` in directory `dir`, or below one. */
  ghost predicate OnlyUnder(dir: Path, names: seq<Name>, fs: Files, fs': Files) {
    forall p {:trigger At(fs', p)} :: At(fs', p) != At(fs, p) ==> Below(dir, p) && p[|dir|] in names
  }

  lemma OnlyUnderThen(dir: Path, names: seq<Name>, a: Files, b: Files, c: Files)
    requires OnlyUnder(dir, names, a, b) && OnlyUnder(dir, names, b, c)
    ensures OnlyUnder(dir, names, a, c)
  {
    forall p | At(c, p) != At(a, p) ensures Below(dir, p) && p[|dir|] in names {
      assert At(c, p) != At(b, p) || At(b, p) != At(a, p);
    }
  }

  /** A cut lies in the first of two pieces or in the second. */
  lemma CutIn(a: bytes, b: bytes, s: bytes)
    requires s <= a + b
    ensures |s| < |a| ==> s <= a && s != a
    ensures |s| >= |a| ==> s == a + s[|a|..] && s[|a|..] <= b
  {
    assert s == (a + b)[..|s|];
    if |s| >= |a| {
      assert s[|a|..] == (a + b)[..|s|][|a|..] == b[..|s| - |a|];
    }
  }

  // ---- One item ----

  lemma CutText(text: bytes, s: bytes)
    requires |text| < U64_LIMIT && s <= Size(|text|) + text && s != Size(|text|) + text
    ensures TakeText(s) == None
  {
    var v := Str(text);
    CutValueIsNotRead(v, StrT, |s|);
    assert s == Encode(v)[..|s|];
  }

  lemma HeaderIsCut(m: Metainfo, path: bytes, base: Base, fs: Files, s: bytes)
    requires |path| < U64_LIMIT && s <= m + (Size(|path|) + path) && s != m + (Size(|path|) + path)
    ensures ReceiveOne(base, fs, s) == Failed(fs)
  {
    if |s| >= METAINFO_SIZE {
      var rest := s[METAINFO_SIZE..];
      CutIn(m, Size(|path|) + path, s);
      CutText(path, rest);
    }
  }

  /** Where an item is to be created: in a directory that the base leads to, with nothing at its own path yet. */
  ghost predicate CanCreate(fs: Files, base: Base, dir: Path, p: Path) {
    p != [] && LeadsTo(fs, base, Parent(p), dir + Parent(p)) && dir + p !in fs
  }

  /** The number of bytes in front of what the type of a file adds: metadata, and path with its length. */
  function HeadLength(item: Item): nat {
    METAINFO_SIZE + 8 + |Join(item.path)|
  }

  /** What is at the path of an item of which the first `n` bytes have arrived, and not all: of a regular file the whole
      blocks of content, if its metadata and path have arrived; otherwise nothing. */
  function LeftOf(item: Item, n: nat): Option<Object> {
    if item.node.File? && HeadLength(item) <= n < HeadLength(item) + |item.node.content| then
      var arrived := n - HeadLength(item);
      Some(FileObject(item.node.content[..arrived - arrived % CHUNK]))
    else None
  }

  function Begun(fs: Files, dir: Path, item: Item, n: nat): Files {
    match LeftOf(item, n)
    case None => fs
    case Some(o) => fs[dir + item.path := o]
  }

  lemma BodyIsCut(fs: Files, base: Base, dir: Path, item: Item, t: bytes, n: nat)
    requires GoodItem(item) && Stable(item) && CanCreate(fs, base, dir, item.path)
    requires t <= BodyOf(item.node) && t != BodyOf(item.node) && n == HeadLength(item) + |t|
    ensures ReceiveBody(item.node.meta, base.cwd, Append(base.path, Join(item.path)), fs, t)
         == Failed(Begun(fs, dir, item, n))
  {
    PlacesOfNewEntry(fs, base, item.path, dir);
    match item.node
    case File(_, content) =>
      ContentIsExact(item);
      CutBlocks(content, t);
    case Link(_, target, _) => CutText(target, t);
    case _ =>
  }

  lemma CutBlocks(content: bytes, t: bytes)
    requires t <= content
    ensures t[..|t| - |t| % CHUNK] == content[..|t| - |t| % CHUNK]
  {
  }

  /** The receiver does not finish an item that is cut. Of a regular file it has written the whole blocks that arrived; it
      has created nothing else, and changed nothing at other paths. */
  lemma ItemIsCut(base: Base, dir: Path, fs: Files, item: Item, s: bytes)
    requires GoodItem(item) && Stable(item) && CanCreate(fs, base, dir, item.path)
    requires s <= Part(item) && s != Part(item)
    ensures ReceiveOne(base, fs, s) == Failed(Begun(fs, dir, item, |s|))
  {
    var head := item.node.meta + (Size(|Join(item.path)|) + Join(item.path));
    CutIn(head, BodyOf(item.node), s);
    if |s| < |head| {
      HeaderIsCut(item.node.meta, Join(item.path), base, fs, s);
    } else {
      CutBehindHead(base, dir, fs, item, s, s[|head|..]);
    }
  }

  lemma CutBehindHead(base: Base, dir: Path, fs: Files, item: Item, s: bytes, t: bytes)
    requires GoodItem(item) && Stable(item) && CanCreate(fs, base, dir, item.path)
    requires s == item.node.meta + (Size(|Join(item.path)|) + Join(item.path)) + t
    requires t <= BodyOf(item.node) && t != BodyOf(item.node)
    ensures ReceiveOne(base, fs, s) == Failed(Begun(fs, dir, item, |s|))
  {
    HeaderIsRead(item.node.meta, Join(item.path), t);
    BodyIsCut(fs, base, dir, item, t, |s|);
  }

  // ---- The whole list ----

  ghost predicate RootedIn(items: seq<Item>, names: seq<Name>) {
    forall i | 0 <= i < |items| :: GoodItem(items[i]) && Stable(items[i]) && items[i].path[0] in names
  }

  lemma RestRootedIn(items: seq<Item>, names: seq<Name>)
    requires items != [] && RootedIn(items, names)
    ensures RootedIn(items[1..], names)
  {
  }

  predicate DistinctPaths(items: seq<Item>) {
    forall i, j | 0 <= i < j < |items| :: items[i].path != items[j].path
  }

  lemma {:induction false} MemberIsAt(items: seq<Item>, i: nat)
    requires i < |items|
    ensures NodesAt(items, items[i].path) != []
  {
    if i > 0 {
      MemberIsAt(items[1..], i - 1);
    }
  }

  /** A list that gives no path twice has distinct paths. */
  lemma {:induction false} OnceIsDistinct(items: seq<Item>)
    requires forall p :: |NodesAt(items, p)| <= 1
    ensures DistinctPaths(items)
  {
    if items != [] {
      var rest := items[1..];
      forall p ensures |NodesAt(rest, p)| <= 1 {
        assert |NodesAt(items, p)| <= 1;
      }
      OnceIsDistinct(rest);
      forall j | 0 < j < |items| ensures items[0].path != items[j].path {
        MemberIsAt(rest, j - 1);
        assert |NodesAt(items, items[0].path)| <= 1;
      }
      assert forall i | 0 < i < |items| :: items[i] == rest[i - 1];
    }
  }

  /** What was created so far, and what is to come: the base leads to each of the directories `known`, and there is
      nothing at the paths of `items`. */
  ghost predicate Prepared(fs: Files, base: Base, dir: Path, known: set<Path>, items: seq<Item>) {
    && (forall q | q in known :: LeadsTo(fs, base, q, dir + q))
    && forall i | 0 <= i < |items| :: dir + items[i].path !in fs
  }

  function KnownAfter(known: set<Path>, item: Item): set<Path> {
    if item.node.Dir? then known + {item.path} else known
  }

  lemma SameStart(dir: Path, p: Path, q: Path)
    ensures dir + p == dir + q ==> p == q
  {
    assert (dir + p)[|dir|..] == p && (dir + q)[|dir|..] == q;
  }

  lemma StillPrepared(fs: Files, base: Base, dir: Path, known: set<Path>, items: seq<Item>)
    requires items != [] && GoodItem(items[0]) && Parent(items[0].path) in known
    requires Prepared(fs, base, dir, known, items) && DistinctPaths(items)
    ensures Prepared(Create(fs, dir + items[0].path, items[0].node), base, dir, KnownAfter(known, items[0]), items[1..])
  {
    var p := items[0].path;
    var n := p[|p| - 1];
    var fs' := Create(fs, dir + p, items[0].node);
    assert p == Parent(p) + [n] && dir + p == dir + Parent(p) + [n];
    forall q | q in known ensures LeadsTo(fs', base, q, dir + q) {
      StillLeads(fs, fs', base, q, dir + q);
    }
    if items[0].node.Dir? {
      LeadsOn(fs', base, Parent(p), dir + Parent(p), n);
    }
    forall i | 0 <= i < |items[1..]| ensures dir + items[1..][i].path !in fs' {
      assert items[1..][i] == items[i + 1];
      SameStart(dir, p, items[i + 1].path);
    }
  }

  lemma RestIsDistinct(items: seq<Item>)
    requires items != [] && DistinctPaths(items)
    ensures DistinctPaths(items[1..])
  {
  }

  /** The destination when the first `n` bytes of the list have arrived: what arrived whole was created, and the item after
      that was begun. */
  function AfterCut(fs: Files, dir: Path, items: seq<Item>, n: nat): Files
    decreases |items|
  {
    if items == [] then fs
    else if n < |Part(items[0])| then Begun(fs, dir, items[0], n)
    else AfterCut(Create(fs, dir + items[0].path, items[0].node), dir, items[1..], n - |Part(items[0])|)
  }

  lemma AfterFirstItem(fs: Files, dir: Path, items: seq<Item>, n: nat, rest: nat)
    requires items != [] && n == |Part(items[0])| + rest
    ensures AfterCut(fs, dir, items, n)
         == AfterCut(Create(fs, dir + items[0].path, items[0].node), dir, items[1..], rest)
  {
  }

  /** Wherever the list is cut, only what it names was changed; and only the whole list is ever read to the end. */
  lemma {:induction false} ListIsCut(base: Base, dir: Path, names: seq<Name>, known: set<Path>, items: seq<Item>, n: nat,
                                     fs: Files, s: bytes)
    requires n == |items| && RootedIn(items, names) && s <= Bytes(items)
    requires ParentsFirst(known, items) && DistinctPaths(items) && Prepared(fs, base, dir, known, items)
    ensures OnlyUnder(dir, names, fs, ReceiveFiles(n, base, fs, s).fs)
    ensures ReceiveFiles(n, base, fs, s).Done? ==> s == Bytes(items)
    ensures ReceiveFiles(n, base, fs, s).fs == AfterCut(fs, dir, items, |s|)
    decreases n
  {
    if n > 0 {
      var item, rest := items[0], items[1..];
      var more: nat := n - 1;
      FirstBytes(items);
      CutIn(Part(item), Bytes(rest), s);
      if |s| < |Part(item)| {
        CutInFirst(base, dir, names, item, n, more, fs, s);
      } else {
        var after := s[|Part(item)|..];
        var fs' := Create(fs, dir + item.path, item.node);
        RestRootedIn(items, names);
        RestIsDistinct(items);
        StillPrepared(fs, base, dir, known, items);
        ListIsCut(base, dir, names, KnownAfter(known, item), rest, more, fs', after);
        FirstIsWhole(base, dir, item, n, more, fs, s, after);
        AfterFirstItem(fs, dir, items, |s|, |after|);
        CreateIsUnder(dir, names, item, fs);
        OnlyUnderThen(dir, names, fs, fs', ReceiveFiles(more, base, fs', after).fs);
      }
    }
  }

  lemma CutInFirst(base: Base, dir: Path, names: seq<Name>, item: Item, n: nat, more: nat, fs: Files, s: bytes)
    requires GoodItem(item) && Stable(item) && CanCreate(fs, base, dir, item.path) && item.path[0] in names
    requires n == more + 1 && s <= Part(item) && s != Part(item)
    ensures ReceiveFiles(n, base, fs, s) == Failed(Begun(fs, dir, item, |s|))
    ensures OnlyUnder(dir, names, fs, Begun(fs, dir, item, |s|))
  {
    ItemIsCut(base, dir, fs, item, s);
    AfterFirstFile(n, more, base, fs, s);
    BegunIsUnder(dir, names, item, fs, |s|);
  }

  lemma BegunIsUnder(dir: Path, names: seq<Name>, item: Item, fs: Files, n: nat)
    requires item.path != [] && item.path[0] in names
    ensures OnlyUnder(dir, names, fs, Begun(fs, dir, item, n))
  {
    var here := dir + item.path;
    assert here[..|dir|] == dir && here[|dir|] == item.path[0];
  }

  lemma FirstIsWhole(base: Base, dir: Path, item: Item, n: nat, more: nat, fs: Files, s: bytes, r: bytes)
    requires GoodItem(item) && Stable(item) && CanCreate(fs, base, dir, item.path)
    requires n == more + 1 && s == Part(item) + r
    ensures ReceiveFiles(n, base, fs, s) == ReceiveFiles(more, base, Create(fs, dir + item.path, item.node), r)
  {
    ItemIsReceived(base, dir, fs, item, r);
    AfterFirstFile(n, more, base, fs, s);
  }

  lemma CreateIsUnder(dir: Path, names: seq<Name>, item: Item, fs: Files)
    requires item.path != [] && item.path[0] in names
    ensures OnlyUnder(dir, names, fs, Create(fs, dir + item.path, item.node))
  {
    var here := dir + item.path;
    assert here[..|dir|] == dir && here[|dir|] == item.path[0];
  }

  lemma {:induction false} FlattenedBelow(prefix: Path, es: seq<Entry>, others: bool)
    ensures forall i | 0 <= i < |Flatten(prefix, es, others)| :: Below(prefix, Flatten(prefix, es, others)[i].path)
    decreases es
  {
    if es != [] {
      var here := prefix + [es[0].name];
      assert here[..|prefix|] == prefix;
      FlattenedBelow(prefix, es[1..], others);
      if es[0].node.Dir? {
        var inner := Flatten(here, es[0].node.entries, false);
        FlattenedBelow(here, es[0].node.entries, false);
        forall i | 0 <= i < |inner| ensures Below(prefix, inner[i].path) {
          assert inner[i].path[..|prefix|] == inner[i].path[..|here|][..|prefix|];
        }
      }
    }
  }

  /** Every listed path begins with a selected name. */
  lemma {:induction false} ListedUnderNames(src: seq<Entry>, names: seq<Name>)
    requires FlattenRoots(src, names).Some?
    ensures forall i | 0 <= i < |FlattenRoots(src, names).value| ::
              var p := FlattenRoots(src, names).value[i].path;
              p != [] && p[0] in names
  {
    if names != [] {
      var inside := Flatten([names[0]], Inside(Find(src, names[0]).value), false);
      ListedUnderNames(src, names[1..]);
      FlattenedBelow([names[0]], Inside(Find(src, names[0]).value), false);
      forall i | 0 <= i < |inside| ensures inside[i].path[0] == names[0] {
        assert inside[i].path[0] == inside[i].path[..1][0];
      }
    }
  }

  // ---- What exactly there is after a cut ----

  /** The number of items that are whole in the first `n` bytes of the list. */
  function Whole(items: seq<Item>, n: nat): (w: nat)
    ensures w <= |items|
    decreases |items|
  {
    if items == [] || n < |Part(items[0])| then 0 else 1 + Whole(items[1..], n - |Part(items[0])|)
  }

  /** The number of bytes of the next item among them. */
  function CutAt(items: seq<Item>, n: nat): nat
    decreases |items|
  {
    if items == [] || n < |Part(items[0])| then n else CutAt(items[1..], n - |Part(items[0])|)
  }

  /** So the cut is in the next item, if there is one. */
  lemma {:induction false} WholeIs(items: seq<Item>, n: nat)
    ensures n == |Bytes(items[..Whole(items, n)])| + CutAt(items, n)
    ensures Whole(items, n) < |items| ==> CutAt(items, n) < |Part(items[Whole(items, n)])|
    decreases |items|
  {
    var w := Whole(items, n);
    if w == 0 {
      assert Bytes(items[..0]) == [];
    } else {
      WholeIs(items[1..], n - |Part(items[0])|);
      assert items[..w][1..] == items[1..][..w - 1];
      FirstBytes(items[..w]);
    }
  }

  /** At each path of the list there is what it lists if the item is one of the first `w`; what is left of an item that is
      cut after `cut` bytes at the path of the next; nothing at those of the items after that; and at any other path what
      there was. */
  ghost predicate GivesAt(fs: Files, fs': Files, dir: Path, items: seq<Item>, w: nat, cut: nat, p: Path) {
    && (forall j | 0 <= j < |items| && p == dir + items[j].path ::
          At(fs', p) == if j < w then Image(items[j].node) else if j == w then LeftOf(items[j], cut) else None)
    && ((forall j | 0 <= j < |items| :: p != dir + items[j].path) ==> At(fs', p) == At(fs, p))
  }

  lemma {:induction false} AfterCutGives(fs: Files, dir: Path, items: seq<Item>, n: nat, p: Path)
    requires DistinctPaths(items) && forall i | 0 <= i < |items| :: dir + items[i].path !in fs
    ensures GivesAt(fs, AfterCut(fs, dir, items, n), dir, items, Whole(items, n), CutAt(items, n), p)
    decreases |items|
  {
    if items != [] {
      var tail := items[1..];
      if n >= |Part(items[0])| {
        var rest: nat := n - |Part(items[0])|;
        var made := Create(fs, dir + items[0].path, items[0].node);
        RestIsDistinct(items);
        NewAfterFirst(fs, dir, items);
        AfterFirstItem(fs, dir, items, n, rest);
        WholeAfterFirst(items, n, rest);
        AfterCutGives(made, dir, tail, rest, p);
        FirstThenCut(fs, AfterCut(made, dir, tail, rest), dir, items, Whole(tail, rest), CutAt(tail, rest), p);
      } else {
        BegunGives(fs, dir, items, n, p);
      }
    }
  }

  lemma OtherPaths(dir: Path, items: seq<Item>)
    requires items != [] && DistinctPaths(items)
    ensures forall j | 0 < j < |items| :: dir + items[j].path != dir + items[0].path
    ensures forall j | 0 <= j < |items[1..]| :: items[1..][j] == items[j + 1]
  {
    forall j | 0 < j < |items| ensures dir + items[j].path != dir + items[0].path {
      SameStart(dir, items[0].path, items[j].path);
    }
  }

  lemma WholeAfterFirst(items: seq<Item>, n: nat, rest: nat)
    requires items != [] && n == |Part(items[0])| + rest
    ensures Whole(items, n) == Whole(items[1..], rest) + 1 && CutAt(items, n) == CutAt(items[1..], rest)
  {
  }

  lemma NewAfterFirst(fs: Files, dir: Path, items: seq<Item>)
    requires items != [] && DistinctPaths(items) && forall i | 0 <= i < |items| :: dir + items[i].path !in fs
    ensures forall i | 0 <= i < |items[1..]| ::
              dir + items[1..][i].path !in Create(fs, dir + items[0].path, items[0].node)
  {
    OtherPaths(dir, items);
  }

  lemma BegunGives(fs: Files, dir: Path, items: seq<Item>, n: nat, p: Path)
    requires items != [] && DistinctPaths(items) && forall i | 0 <= i < |items| :: dir + items[i].path !in fs
    ensures GivesAt(fs, Begun(fs, dir, items[0], n), dir, items, 0, n, p)
  {
    OtherPaths(dir, items);
  }

  lemma FirstThenCut(fs: Files, fs': Files, dir: Path, items: seq<Item>, w: nat, cut: nat, p: Path)
    requires items != [] && DistinctPaths(items) && dir + items[0].path !in fs
    requires GivesAt(Create(fs, dir + items[0].path, items[0].node), fs', dir, items[1..], w, cut, p)
    ensures GivesAt(fs, fs', dir, items, w + 1, cut, p)
  {
    OtherPaths(dir, items);
    forall j | 0 < j < |items| && p == dir + items[j].path
      ensures At(fs', p) == if j < w + 1 then Image(items[j].node) else if j == w + 1 then LeftOf(items[j], cut) else None
    {
      assert p == dir + items[1..][j - 1].path;
    }
  }
}
