/** The copy from end to end: what the sender lists and writes is what the receiver creates. */
module CopyPipeline {
  import opened Wire
  import opened Serde
  import opened Sockets
  import opened Paths
  import opened Tree
  import opened FileSystem
  import opened CopySender
  import opened CopyReceiver

  // ---- What a copy is meant to do ----

  /** What a node looks like at the destination; other types of files are not copied. */
  function Image(node: Node): Option<Object> {
    match node
    case File(_, content) => Some(FileObject(content))
    case Dir(_, _) => Some(DirObject)
    case Link(_, target, _) => Some(LinkObject(target))
    case Other(_) => None
  }

  function ImageAt(es: seq<Entry>, p: Path): Option<Object>
    requires p != []
  {
    var node :- Lookup(es, p);
    Image(node)
  }

  /** The path lies in directory `dir` or deeper, under one of the entries `es`. */
  predicate Under(dir: Path, es: seq<Entry>, p: Path) {
    Below(dir, p) && Find(es, p[|dir|]).Some?
  }

  /** What should be at `p` after the entries `es` were copied into `dir`: under the copied entries the image of the
      source tree, and everywhere else what was there before. */
  function Copied(fs: Files, dir: Path, es: seq<Entry>, p: Path): Option<Object> {
    if Under(dir, es, p) then ImageAt(es, p[|dir|..]) else At(fs, p)
  }

  // ---- Creating a tree in pre-order ----

  function Create(fs: Files, p: Path, node: Node): Files {
    match Image(node)
    case None => fs
    case Some(o) => fs[p := o]
  }

  function Install(fs: Files, dir: Path, es: seq<Entry>): Files
    decreases es
  {
    if es == [] then fs
    else
      var here := dir + [es[0].name];
      var made := Create(fs, here, es[0].node);
      Install(if es[0].node.Dir? then Install(made, here, es[0].node.entries) else made, dir, es[1..])
  }

  lemma UnderUnfolds(dir: Path, es: seq<Entry>, p: Path)
    requires es != [] && Find(es[1..], es[0].name) == None
    ensures Under(dir, es, p) <==>
              (p == dir + [es[0].name] || Below(dir + [es[0].name], p) || Under(dir, es[1..], p))
    ensures !(p == dir + [es[0].name] && Under(dir, es[1..], p))
    ensures !(Below(dir + [es[0].name], p) && Under(dir, es[1..], p))
    ensures Below(dir + [es[0].name], p) ==> p[|dir|..][1..] == p[|dir| + 1..] && p[|dir|] == es[0].name
  {
    var here := dir + [es[0].name];
    if Below(here, p) {
      assert p[..|dir|] == p[..|here|][..|dir|] && p[|dir|] == p[..|here|][|dir|];
    } else if Below(dir, p) && p[|dir|] == es[0].name {
      assert p[..|here|] == here;
    }
  }

  lemma ImageBelow(dir: Path, es: seq<Entry>, p: Path)
    requires es != [] && es[0].node.Dir? && Below(dir + [es[0].name], p)
    ensures ImageAt(es, p[|dir|..]) == ImageAt(es[0].node.entries, p[|dir| + 1..])
    ensures !Under(dir + [es[0].name], es[0].node.entries, p) ==> ImageAt(es, p[|dir|..]) == None
  {
    var here := dir + [es[0].name];
    var rel := p[|dir|..];
    assert rel[0] == p[..|here|][|dir|];
    assert rel[1..] == p[|dir| + 1..];
    assert p[|dir| + 1..][0] == p[|here|];
  }

  /** Pre-order creation gives the intended result, path by path. */
  lemma {:induction false} InstallGives(fs: Files, dir: Path, es: seq<Entry>, p: Path)
    requires WellFormed(es)
    requires Under(dir, es, p) ==> p !in fs
    ensures At(Install(fs, dir, es), p) == Copied(fs, dir, es, p)
    decreases es
  {
    if es != [] {
      var here := dir + [es[0].name];
      var node := es[0].node;
      var made := Create(fs, here, node);
      TailWellFormed(es);
      UnderUnfolds(dir, es, p);
      if node.Dir? {
        InstallGives(made, here, node.entries, p);
        InstallGives(Install(made, here, node.entries), dir, es[1..], p);
        if Below(here, p) {
          ImageBelow(dir, es, p);
        }
      } else {
        InstallGives(made, dir, es[1..], p);
      }
    }
  }

  // ---- The receiver on a well-formed stream ----

  function PlainRecord(item: Item): Record {
    Record(item.node.meta, Join(item.path), BodyOf(item.node), Ends(item.node))
  }

  function PlainRecords(items: seq<Item>): (rs: seq<Record>)
    ensures |rs| == |items|
    ensures forall i | 0 <= i < |items| :: rs[i] == PlainRecord(items[i])
  {
    seq(|items|, i requires 0 <= i < |items| => PlainRecord(items[i]))
  }

  function Glue(parts: seq<bytes>): bytes {
    if parts == [] then [] else parts[0] + Glue(parts[1..])
  }

  lemma {:induction false} GlueConcat(a: seq<bytes>, b: seq<bytes>)
    ensures Glue(a + b) == Glue(a) + Glue(b)
  {
    if a == [] {
      assert a + b == b;
    } else {
      GlueConcat(a[1..], b);
      assert (a + b)[0] == a[0] && (a + b)[1..] == a[1..] + b;
      Regroup(a[0], Glue(a[1..]), Glue(b));
    }
  }

  function Part(item: Item): bytes {
    EncodeRecord(PlainRecord(item))
  }

  function Parts(items: seq<Item>): (parts: seq<bytes>)
    ensures |parts| == |items|
    ensures forall i | 0 <= i < |items| :: parts[i] == Part(items[i])
  {
    seq(|items|, i requires 0 <= i < |items| => Part(items[i]))
  }

  /** The bytes of a list of items. */
  function Bytes(items: seq<Item>): bytes {
    Glue(Parts(items))
  }

  lemma BytesOfOne(item: Item)
    ensures Bytes([item]) == Part(item)
  {
    assert Parts([item]) == [Part(item)];
    assert [Part(item)][1..] == [];
    assert Glue([Part(item)]) == Part(item) + Glue([]) == Part(item);
  }

  lemma BytesOfTwo(a: seq<Item>, b: seq<Item>)
    ensures Bytes(a + b) == Bytes(a) + Bytes(b)
  {
    assert Parts(a + b) == Parts(a) + Parts(b);
    GlueConcat(Parts(a), Parts(b));
  }

  lemma FirstBytes(items: seq<Item>)
    requires items != []
    ensures Bytes(items) == Part(items[0]) + Bytes(items[1..])
  {
    BytesOfTwo([items[0]], items[1..]);
    BytesOfOne(items[0]);
    assert [items[0]] + items[1..] == items;
  }

  /** The path strings the sender transmits are the joined names below the base. */
  lemma RecordsArePlain(base: bytes, items: seq<Item>)
    requires base != [] ==> base[|base| - 1] != SLASH
    requires forall i | 0 <= i < |items| :: GoodItem(items[i])
    ensures Records(base, items) == PlainRecords(items)
  {
    forall i | 0 <= i < |items| ensures RecordOf(base, items[i]) == PlainRecord(items[i]) {
      assert GoodItem(items[i]);
      StripThenAppend(base, items[i].path);
    }
  }

  lemma {:induction false} BytesOfRecords(items: seq<Item>)
    requires AllStable(items)
    ensures EncodeRecords(PlainRecords(items)) == Bytes(items) && AllEnd(PlainRecords(items))
  {
    if items != [] {
      BytesOfRecords(items[1..]);
      assert PlainRecords(items)[1..] == PlainRecords(items[1..]);
      assert Parts(items)[1..] == Parts(items[1..]);
    }
  }

  lemma ContentIsExact(item: Item)
    requires GoodItem(item) && Stable(item) && item.node.File?
    ensures BodyOf(item.node) == item.node.content
  {
    SendsAnnouncedSizeIff(|item.node.content|, SizeOf(item.node.meta));
  }

  lemma HeaderIsRead(m: Metainfo, path: bytes, r: bytes)
    requires |path| < U64_LIMIT
    ensures TakeBlock(METAINFO_SIZE, m + (Size(|path|) + path) + r) == Some(Parsed(m, Size(|path|) + path + r))
    ensures TakeText(Size(|path|) + path + r) == Some(Parsed(path, r))
  {
    TextThenRest(path, r);
    var s := m + (Size(|path|) + path) + r;
    assert s[..METAINFO_SIZE] == m && s[METAINFO_SIZE..] == Size(|path|) + path + r;
  }

  /** From the base, `prefix` leads to the directory `here`, through whatever links and dots there are in the base. */
  ghost predicate LeadsTo(fs: Files, base: Base, prefix: Path, here: Path) {
    && NUL !in base.path && At(fs, here) == Some(DirObject)
    && Walk(fs, StartOf(base.cwd, base.path), Components(base.path) + prefix, true, MAX_LINKS) == Some(here)
  }

  /** A directory that was created inside is led to by its name. */
  lemma LeadsOn(fs: Files, base: Base, prefix: Path, here: Path, n: Name)
    requires LeadsTo(fs, base, prefix, here) && EntryName(n) && At(fs, here + [n]) == Some(DirObject)
    ensures LeadsTo(fs, base, prefix + [n], here + [n])
  {
    var names := Components(base.path) + prefix;
    WalksOn(fs, StartOf(base.cwd, base.path), names, MAX_LINKS, here, n, true);
    assert Components(base.path) + (prefix + [n]) == names + [n];
  }

  lemma StillLeads(fs: Files, fs': Files, base: Base, prefix: Path, here: Path)
    requires LeadsTo(fs, base, prefix, here) && Extends(fs, fs')
    ensures LeadsTo(fs', base, prefix, here)
  {
    WalkIsKept(fs, fs', StartOf(base.cwd, base.path), Components(base.path) + prefix, MAX_LINKS);
    assert At(fs', here) == At(fs, here);
  }

  lemma PathString(base: Base, p: Path)
    requires p != [] && EntryPath(p) && NUL !in base.path
    ensures var path := Append(base.path, Join(p));
      && NUL !in path && path != [] && path[|path| - 1] != SLASH
      && StartOf(base.cwd, path) == StartOf(base.cwd, base.path)
      && Components(path) == Components(base.path) + p
  {
    JoinIsNotAbsolute(p);
    NoZeroInJoin(p);
    ComponentsOfAppend(base.path, Join(p));
    ComponentsOfJoin(p);
  }

  /** The path string of a new entry, as the system looks it up. */
  lemma PathOfNewEntry(fs: Files, base: Base, p: Path, dir: Path, follow: bool)
    requires p != [] && EntryPath(p) && LeadsTo(fs, base, Parent(p), dir + Parent(p)) && dir + p !in fs
    ensures Walk(fs, StartOf(base.cwd, base.path), Components(base.path) + p, follow, MAX_LINKS) == Some(dir + p)
    ensures HasParent(fs, dir + p)
  {
    var n := p[|p| - 1];
    var names := Components(base.path) + Parent(p);
    assert p == Parent(p) + [n];
    assert dir + p == dir + Parent(p) + [n] && Parent(dir + p) == dir + Parent(p);
    assert Components(base.path) + p == names + [n];
    WalksOn(fs, StartOf(base.cwd, base.path), names, MAX_LINKS, dir + Parent(p), n, follow);
  }

  /** So a new entry is created at its own place, whatever it is. */
  lemma PlacesOfNewEntry(fs: Files, base: Base, p: Path, dir: Path)
    requires p != [] && EntryPath(p) && LeadsTo(fs, base, Parent(p), dir + Parent(p)) && dir + p !in fs
    ensures var path := Append(base.path, Join(p));
      && OpenForWriting(fs, base.cwd, path) == Some(dir + p)
      && PlaceOfLink(fs, base.cwd, path) == Some(dir + p)
      && PlaceOfDirectory(fs, base.cwd, path) == Some(dir + p)
      && HasParent(fs, dir + p)
  {
    PathString(base, p);
    PathOfNewEntry(fs, base, p, dir, true);
    PathOfNewEntry(fs, base, p, dir, false);
    assert Names(Append(base.path, Join(p))) == Components(base.path) + p;
  }

  lemma {:induction false} NoZeroInJoin(p: Path)
    requires EntryPath(p)
    ensures NUL !in Join(p)
  {
    if |p| > 1 {
      NoZeroInJoin(p[1..]);
    }
  }

  lemma BodyIsReceived(fs: Files, base: Base, dir: Path, item: Item, r: bytes)
    requires GoodItem(item) && Stable(item)
    requires LeadsTo(fs, base, Parent(item.path), dir + Parent(item.path)) && dir + item.path !in fs
    ensures ReceiveBody(item.node.meta, base.cwd, Append(base.path, Join(item.path)), fs, BodyOf(item.node) + r)
         == Done(Create(fs, dir + item.path, item.node), r)
  {
    var s := BodyOf(item.node) + r;
    PlacesOfNewEntry(fs, base, item.path, dir);
    match item.node
    case File(_, content) =>
      ContentIsExact(item);
      assert s[..|content|] == content && s[|content|..] == r;
    case Link(_, target, _) => TextThenRest(target, r);
    case _ => assert s == r;
  }

  /** One item of the stream creates one object, and exactly its bytes are consumed. */
  lemma ItemIsReceived(base: Base, dir: Path, fs: Files, item: Item, r: bytes)
    requires GoodItem(item) && Stable(item)
    requires LeadsTo(fs, base, Parent(item.path), dir + Parent(item.path)) && dir + item.path !in fs
    ensures ReceiveOne(base, fs, Part(item) + r) == Done(Create(fs, dir + item.path, item.node), r)
  {
    var m := item.node.meta;
    var rel := Join(item.path);
    var body := BodyOf(item.node);
    PartIs(m, Size(|rel|) + rel, body, r);
    HeaderIsRead(m, rel, body + r);
    assert Size(|rel|) + rel + (body + r) == (Size(|rel|) + rel) + (body + r);
    BodyIsReceived(fs, base, dir, item, r);
  }

  lemma PartIs(a: bytes, b: bytes, c: bytes, r: bytes)
    ensures a + b + c + r == a + b + (c + r)
  {
  }

  ghost predicate AllStable(items: seq<Item>) {
    forall i | 0 <= i < |items| :: Stable(items[i])
  }

  lemma StableParts(a: seq<Item>, b: seq<Item>)
    requires AllStable(a + b)
    ensures AllStable(a) && AllStable(b)
  {
    assert forall i | 0 <= i < |a| :: a[i] == (a + b)[i];
    assert forall i | 0 <= i < |b| :: b[i] == (a + b)[|a| + i];
  }

  /** Nothing is in the way of the entries `es` in directory `dir`. */
  ghost predicate Free(fs: Files, dir: Path, es: seq<Entry>) {
    forall p {:trigger Under(dir, es, p)} :: Under(dir, es, p) ==> p !in fs
  }

  /** The state after one entry and what is below it. */
  function After(fs: Files, dir: Path, e: Entry): Files {
    var here := dir + [e.name];
    var made := Create(fs, here, e.node);
    if e.node.Dir? then Install(made, here, e.node.entries) else made
  }

  lemma AfterElsewhere(fs: Files, dir: Path, e: Entry, p: Path)
    requires e.node.Dir? ==> WellFormed(e.node.entries)
    requires p != dir + [e.name] && !Below(dir + [e.name], p)
    ensures At(After(fs, dir, e), p) == At(fs, p)
  {
    if e.node.Dir? {
      InstallGives(Create(fs, dir + [e.name], e.node), dir + [e.name], e.node.entries, p);
    }
  }

  lemma FreeBelow(fs: Files, dir: Path, es: seq<Entry>)
    requires WellFormed(es) && es != [] && Free(fs, dir, es) && es[0].node.Dir?
    ensures Free(Create(fs, dir + [es[0].name], es[0].node), dir + [es[0].name], es[0].node.entries)
  {
    TailWellFormed(es);
    var here := dir + [es[0].name];
    forall p | Under(here, es[0].node.entries, p) ensures p !in Create(fs, here, es[0].node) {
      UnderUnfolds(dir, es, p);
      assert Under(dir, es, p);
    }
  }

  lemma FreeAfter(fs: Files, dir: Path, es: seq<Entry>)
    requires WellFormed(es) && es != [] && Free(fs, dir, es)
    ensures Free(After(fs, dir, es[0]), dir, es[1..])
    ensures At(After(fs, dir, es[0]), dir) == At(fs, dir)
  {
    TailWellFormed(es);
    HeadWellFormed(es);
    AfterElsewhere(fs, dir, es[0], dir);
    forall p | Under(dir, es[1..], p) ensures p !in After(fs, dir, es[0]) {
      UnderUnfolds(dir, es, p);
      assert Under(dir, es, p);
      AfterElsewhere(fs, dir, es[0], p);
    }
  }

  lemma FreeHere(fs: Files, dir: Path, es: seq<Entry>)
    requires es != [] && Free(fs, dir, es)
    ensures dir + [es[0].name] !in fs
  {
    assert Under(dir, es, dir + [es[0].name]);
  }

  /** Reading `n` files from `b` takes the destination from `fs` to `fs'`, whatever comes next. */
  ghost predicate Consumes(base: Base, fs: Files, n: nat, b: bytes, fs': Files) {
    forall all: nat, more: nat, s: bytes, r: bytes
      {:trigger ReceiveFiles(all, base, fs, s), ReceiveFiles(more, base, fs', r)} ::
      all == n + more && s == b + r ==> ReceiveFiles(all, base, fs, s) == ReceiveFiles(more, base, fs', r)
  }

  lemma ConsumesNothing(base: Base, fs: Files)
    ensures Consumes(base, fs, 0, [], fs)
  {
    assert forall r: bytes :: [] + r == r;
  }

  lemma ConsumesThen(base: Base, fs: Files, n: nat, b: bytes, fs': Files, more: nat, r: bytes, all: nat, s: bytes)
    requires Consumes(base, fs, n, b, fs') && all == n + more && s == b + r
    ensures ReceiveFiles(all, base, fs, s) == ReceiveFiles(more, base, fs', r)
  {
  }

  lemma ConsumesConcat(base: Base, fs: Files, n: nat, b: bytes, fs': Files, n': nat, b': bytes, fs'': Files,
                       total: nat, both: bytes)
    requires Consumes(base, fs, n, b, fs') && Consumes(base, fs', n', b', fs'')
    requires total == n + n' && both == b + b'
    ensures Consumes(base, fs, total, both, fs'')
  {
    forall all: nat, more: nat, s: bytes, r: bytes | all == total + more && s == both + r
      ensures ReceiveFiles(all, base, fs, s) == ReceiveFiles(more, base, fs'', r)
    {
      var middle: nat := n' + more;
      Regroup(b, b', r);
      ConsumesThen(base, fs, n, b, fs', middle, b' + r, all, s);
      ConsumesThen(base, fs', n', b', fs'', more, r, middle, b' + r);
    }
  }

  lemma ConsumesItem(base: Base, dir: Path, fs: Files, item: Item)
    requires GoodItem(item) && Stable(item)
    requires LeadsTo(fs, base, Parent(item.path), dir + Parent(item.path)) && dir + item.path !in fs
    ensures Consumes(base, fs, 1, Bytes([item]), Create(fs, dir + item.path, item.node))
  {
    BytesOfOne(item);
    forall all: nat, more: nat, s: bytes, r: bytes | all == 1 + more && s == Bytes([item]) + r
      ensures ReceiveFiles(all, base, fs, s) == ReceiveFiles(more, base, Create(fs, dir + item.path, item.node), r)
    {
      ItemIsReceived(base, dir, fs, item, r);
      AfterFirstFile(all, more, base, fs, s);
    }
  }

  /** The items of one entry: itself, and what is below it. */
  function FirstItems(prefix: Path, e: Entry, others: bool): seq<Item> {
    OwnItem(prefix, e, others)
    + (if e.node.Dir? then Flatten(prefix + [e.name], e.node.entries, false) else [])
  }

  function OwnItem(prefix: Path, e: Entry, others: bool): seq<Item> {
    if e.node.Other? && !others then [] else [Item(prefix + [e.name], e.node)]
  }

  lemma FlattenIs(prefix: Path, es: seq<Entry>, others: bool)
    requires es != []
    ensures Flatten(prefix, es, others) == FirstItems(prefix, es[0], others) + Flatten(prefix, es[1..], others)
  {
  }

  lemma ConsumesBoth(base: Base, fs: Files, a: seq<Item>, fs': Files, b: seq<Item>, fs'': Files)
    requires Consumes(base, fs, |a|, Bytes(a), fs') && Consumes(base, fs', |b|, Bytes(b), fs'')
    ensures Consumes(base, fs, |a + b|, Bytes(a + b), fs'')
  {
    BytesOfTwo(a, b);
    ConsumesConcat(base, fs, |a|, Bytes(a), fs', |b|, Bytes(b), fs'', |a + b|, Bytes(a + b));
  }

  /** Creating what is new keeps what was there. */
  lemma FirstExtends(fs: Files, dir: Path, es: seq<Entry>)
    requires WellFormed(es) && es != [] && Free(fs, dir, es)
    ensures Extends(fs, After(fs, dir, es[0]))
  {
    TailWellFormed(es);
    HeadWellFormed(es);
    forall p | p in fs ensures At(After(fs, dir, es[0]), p) == At(fs, p) {
      UnderUnfolds(dir, es, p);
      assert Under(dir, es, p) ==> p !in fs;
      AfterElsewhere(fs, dir, es[0], p);
    }
  }

  /** The part of a stream that lists a forest makes the receiver create that forest in pre-order, and is consumed
      exactly. Every object is created inside a directory that exists. */
  lemma {:induction false} ForestIsReceived(base: Base, dir: Path, prefix: Path, es: seq<Entry>, others: bool, fs: Files)
    requires WellFormed(es) && EntryPath(prefix) && AllStable(Flatten(prefix, es, others))
    requires LeadsTo(fs, base, prefix, dir + prefix) && Free(fs, dir + prefix, es)
    ensures Consumes(base, fs, |Flatten(prefix, es, others)|, Bytes(Flatten(prefix, es, others)),
                     Install(fs, dir + prefix, es))
    decreases es, 1
  {
    if es == [] {
      ConsumesNothing(base, fs);
    } else {
      var here := dir + prefix;
      FlattenIs(prefix, es, others);
      StableParts(FirstItems(prefix, es[0], others), Flatten(prefix, es[1..], others));
      FirstIsReceived(base, dir, prefix, es, others, fs);
      FreeAfter(fs, here, es);
      FirstExtends(fs, here, es);
      StillLeads(fs, After(fs, here, es[0]), base, prefix, here);
      TailWellFormed(es);
      ForestIsReceived(base, dir, prefix, es[1..], others, After(fs, here, es[0]));
      ConsumesBoth(base, fs, FirstItems(prefix, es[0], others), After(fs, here, es[0]),
                   Flatten(prefix, es[1..], others), Install(fs, here, es));
    }
  }

  lemma {:induction false} FirstIsReceived(base: Base, dir: Path, prefix: Path, es: seq<Entry>, others: bool, fs: Files)
    requires es != [] && WellFormed(es) && EntryPath(prefix) && AllStable(FirstItems(prefix, es[0], others))
    requires LeadsTo(fs, base, prefix, dir + prefix) && Free(fs, dir + prefix, es)
    ensures Consumes(base, fs, |FirstItems(prefix, es[0], others)|, Bytes(FirstItems(prefix, es[0], others)),
                     After(fs, dir + prefix, es[0]))
    decreases es, 0
  {
    var e := es[0];
    HeadWellFormed(es);
    FreeHere(fs, dir + prefix, es);
    OwnIsReceived(base, dir, prefix, e, others, fs);
    if e.node.Dir? {
      FreeBelow(fs, dir + prefix, es);
      InsideIsReceived(base, dir, prefix, e, others, fs);
    } else {
      assert FirstItems(prefix, e, others) == OwnItem(prefix, e, others);
    }
  }

  /** A directory, and then what is in it. */
  lemma {:induction false} InsideIsReceived(base: Base, dir: Path, prefix: Path, e: Entry, others: bool, fs: Files)
    requires EntryPath(prefix) && EntryName(e.name) && e.node.Dir? && WellFormed(e.node.entries)
    requires AllStable(FirstItems(prefix, e, others))
    requires LeadsTo(fs, base, prefix, dir + prefix) && dir + prefix + [e.name] !in fs
    requires var made := Create(fs, dir + prefix + [e.name], e.node);
      && Free(made, dir + prefix + [e.name], e.node.entries)
      && Consumes(base, fs, |OwnItem(prefix, e, others)|, Bytes(OwnItem(prefix, e, others)), made)
    ensures Consumes(base, fs, |FirstItems(prefix, e, others)|, Bytes(FirstItems(prefix, e, others)),
                     After(fs, dir + prefix, e))
    decreases e.node, 2
  {
    var path := prefix + [e.name];
    var made := Create(fs, dir + prefix + [e.name], e.node);
    var inner := Flatten(path, e.node.entries, false);
    StableParts(OwnItem(prefix, e, others), inner);
    assert dir + path == dir + prefix + [e.name];
    StillLeads(fs, made, base, prefix, dir + prefix);
    LeadsOn(made, base, prefix, dir + prefix, e.name);
    ForestIsReceived(base, dir, path, e.node.entries, false, made);
    ConsumesBoth(base, fs, OwnItem(prefix, e, others), made, inner, After(fs, dir + prefix, e));
  }

  lemma OwnIsReceived(base: Base, dir: Path, prefix: Path, e: Entry, others: bool, fs: Files)
    requires EntryPath(prefix) && EntryName(e.name) && Honest(e.node) && AllStable(FirstItems(prefix, e, others))
    requires LeadsTo(fs, base, prefix, dir + prefix) && dir + prefix + [e.name] !in fs
    ensures Consumes(base, fs, |OwnItem(prefix, e, others)|, Bytes(OwnItem(prefix, e, others)),
                     Create(fs, dir + prefix + [e.name], e.node))
  {
    var path := prefix + [e.name];
    assert dir + path == dir + prefix + [e.name] && Parent(path) == prefix;
    if e.node.Other? && !others {
      ConsumesNothing(base, fs);
    } else {
      assert Item(path, e.node) == FirstItems(prefix, e, others)[0];
      ConsumesItem(base, dir, fs, Item(path, e.node));
    }
  }
}
