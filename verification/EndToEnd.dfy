/** A copy from end to end: sender, server and receiver together rebuild the selected subtrees. */
module EndToEnd {
  import opened Wire
  import opened Serde
  import opened Sockets
  import opened Paths
  import opened Tree
  import opened FileSystem
  import opened CopySender
  import opened CopyReceiver
  import opened CopyRelay
  import opened CopyProgress
  import opened CopyPipeline
  import opened BrokenCopy

  // ---- The server on a well-formed stream ----

  function HeadOf(item: Item): Head {
    Head(item.node.meta, Join(item.path))
  }

  function Heads(items: seq<Item>): (heads: seq<Head>)
    ensures |heads| == |items|
    ensures forall i | 0 <= i < |items| :: heads[i] == HeadOf(items[i])
  {
    seq(|items|, i requires 0 <= i < |items| => HeadOf(items[i]))
  }

  lemma BodyIsRelayed(item: Item, r: bytes)
    requires GoodItem(item) && Stable(item)
    ensures RelayBody(item.node.meta, BodyOf(item.node) + r) == Relayed([], 0, BodyOf(item.node), r, true)
  {
    var s := BodyOf(item.node) + r;
    match item.node
    case File(_, content) =>
      ContentIsExact(item);
      assert s[..|content|] == content && s[|content|..] == r;
    case Link(_, target, _) => TextThenRest(target, r);
    case _ => assert s == r;
  }

  lemma ItemIsRelayed(item: Item, r: bytes)
    requires GoodItem(item) && Stable(item)
    ensures Complete(RelayFile(Part(item) + r), [HeadOf(item)], Part(item), r)
  {
    var m := item.node.meta;
    var rel := Join(item.path);
    var body := BodyOf(item.node);
    PartIs(m, Size(|rel|) + rel, body, r);
    HeaderIsRead(m, rel, body + r);
    assert Size(|rel|) + rel + (body + r) == (Size(|rel|) + rel) + (body + r);
    BodyIsRelayed(item, r);
  }

  lemma FilesAreRelayed(n: nat, more: nat, s: bytes, head: Head, part: bytes, rest: bytes, heads: seq<Head>,
                        out: bytes, r: bytes, allHeads: seq<Head>, all: bytes)
    requires n == more + 1 && Complete(RelayFile(s), [head], part, rest)
    requires Complete(RelayFiles(more, rest), heads, out, r)
    requires allHeads == [head] + heads && all == part + out
    ensures Complete(RelayFiles(n, s), allHeads, all, r)
  {
    FileThenMore(n, more, s);
  }

  /** At every file boundary the server's position in the stream is the sender's. */
  lemma {:induction false} ItemsAreRelayed(items: seq<Item>, n: nat, r: bytes)
    requires n == |items| && forall i | 0 <= i < |items| :: GoodItem(items[i]) && Stable(items[i])
    ensures Complete(RelayFiles(n, Bytes(items) + r), Heads(items), Bytes(items), r)
    decreases n
  {
    if n == 0 {
      assert Bytes(items) + r == r;
    } else {
      var rest := items[1..];
      var more: nat := n - 1;
      ItemsAreRelayed(rest, more, r);
      FirstItem(items, r);
      ItemIsRelayed(items[0], Bytes(rest) + r);
      FilesAreRelayed(n, more, Bytes(items) + r, HeadOf(items[0]), Part(items[0]), Bytes(rest) + r,
                      Heads(rest), Bytes(rest), r, Heads(items), Bytes(items));
    }
  }

  lemma FirstItem(items: seq<Item>, r: bytes)
    requires items != []
    ensures Bytes(items) == Part(items[0]) + Bytes(items[1..])
    ensures Bytes(items) + r == Part(items[0]) + (Bytes(items[1..]) + r)
    ensures Heads(items) == [HeadOf(items[0])] + Heads(items[1..])
  {
    var rest := Bytes(items[1..]);
    FirstBytes(items);
    assert (Part(items[0]) + rest) + r == Part(items[0]) + (rest + r);
    FirstHead(items);
  }

  lemma FirstHead(items: seq<Item>)
    requires items != []
    ensures Heads(items) == [HeadOf(items[0])] + Heads(items[1..])
  {
  }

  /** The announced total is the sum of the sizes of regular files, as long as that fits in 64 bits. */
  lemma {:induction false} TotalIsSum(items: seq<Item>)
    ensures TotalSize(PlainRecords(items)) == Sum(Heads(items)) % U64_LIMIT
  {
    if items != [] {
      TotalIsSum(items[1..]);
      FirstTotal(items);
      FirstHead(items);
      SameModulo(RegularSize(items[0].node.meta), TotalSize(PlainRecords(items[1..])), Sum(Heads(items[1..])));
    }
  }

  lemma SameModulo(a: nat, b: nat, c: nat)
    requires b == c % U64_LIMIT
    ensures (a + b) % U64_LIMIT == (a + c) % U64_LIMIT
  {
    CountsOn(c, a);
  }

  lemma TotalFits(items: seq<Item>)
    requires Sum(Heads(items)) < U64_LIMIT
    ensures TotalSize(PlainRecords(items)) == Sum(Heads(items))
  {
    TotalIsSum(items);
    Unwrapped(Sum(Heads(items)));
  }

  lemma FirstTotal(items: seq<Item>)
    requires items != []
    ensures TotalSize(PlainRecords(items))
         == (RegularSize(items[0].node.meta) + TotalSize(PlainRecords(items[1..]))) % U64_LIMIT
  {
    assert PlainRecords(items)[1..] == PlainRecords(items[1..]);
  }

  /** What the sender writes for a list of items. */
  function Transmission(items: seq<Item>): bytes
    requires |items| < U64_LIMIT
  {
    Word(|items|) + Word(TotalSize(PlainRecords(items))) + Bytes(items)
  }

  lemma StreamIsTransmission(base: bytes, items: seq<Item>)
    requires |items| < U64_LIMIT && AllStable(items)
    requires forall i | 0 <= i < |items| :: GoodItem(items[i])
    ensures Stream(Records(StripSlashes(base), items)) == Transmission(items)
    ensures AllEnd(Records(StripSlashes(base), items))
  {
    StripSlashesResult(base);
    RecordsArePlain(StripSlashes(base), items);
    BytesOfRecords(items);
  }

  lemma CountsAreRead(items: seq<Item>, r: bytes)
    requires |items| < U64_LIMIT
    ensures var s := Transmission(items) + r;
      var total := TotalSize(PlainRecords(items));
      && Announced(s) == (|items|, total)
      && RelayCounts(s) == Relayed([], 0, Word(|items|) + Word(total), Bytes(items) + r, true)
      && TakeWord(s) == Some(Parsed(|items|, Word(total) + (Bytes(items) + r)))
      && TakeWord(Word(total) + (Bytes(items) + r)) == Some(Parsed(total, Bytes(items) + r))
  {
    var total := TotalSize(PlainRecords(items));
    var tail := Bytes(items) + r;
    WordThenRest(|items|, Word(total) + tail);
    WordThenRest(total, tail);
    assert Transmission(items) + r == Word(|items|) + (Word(total) + tail);
  }

  /** The server forwards a transmission completely and unchanged, and takes nothing of what follows. */
  lemma TransmissionIsRelayed(items: seq<Item>, r: bytes)
    requires |items| < U64_LIMIT
    requires forall i | 0 <= i < |items| :: GoodItem(items[i]) && Stable(items[i])
    ensures Complete(Relay(Transmission(items) + r), Heads(items), Transmission(items), r)
  {
    CountsAreRead(items, r);
    ItemsAreRelayed(items, |items|, r);
  }

  // ---- The server on a transmission that is cut ----

  /** The server does not complete a file that is cut, and knows of no other file. */
  lemma CutFileIsNotRelayed(item: Item, s: bytes)
    requires GoodItem(item) && Stable(item) && s <= Part(item) && s != Part(item)
    ensures !RelayFile(s).ok && RelayFile(s).heads <= [HeadOf(item)]
  {
    var m := item.node.meta;
    var rel := Join(item.path);
    var head := m + (Size(|rel|) + rel);
    CutIn(head, BodyOf(item.node), s);
    if |s| < |head| {
      CutIn(m, Size(|rel|) + rel, s);
      if |s| >= METAINFO_SIZE {
        CutText(rel, s[METAINFO_SIZE..]);
      }
    } else {
      HeaderIsRead(m, rel, s[|head|..]);
      CutBodyIsNotRelayed(item, s[|head|..]);
    }
  }

  lemma CutBodyIsNotRelayed(item: Item, t: bytes)
    requires GoodItem(item) && Stable(item) && t <= BodyOf(item.node) && t != BodyOf(item.node)
    ensures !RelayBody(item.node.meta, t).ok
  {
    match item.node
    case File(_, content) => ContentIsExact(item);
    case Link(_, target, _) => CutText(target, t);
    case _ =>
  }

  /** Wherever the list is cut, the server knows of the first few files only; and it completes the whole list only. */
  lemma {:induction false} CutListIsRelayed(items: seq<Item>, n: nat, s: bytes)
    requires n == |items| && s <= Bytes(items)
    requires forall i | 0 <= i < |items| :: GoodItem(items[i]) && Stable(items[i])
    ensures RelayFiles(n, s).heads <= Heads(items)
    ensures RelayFiles(n, s).ok ==> s == Bytes(items)
    decreases n
  {
    if n > 0 {
      var part, rest := Part(items[0]), items[1..];
      var more: nat := n - 1;
      FirstItem(items, []);
      CutIn(part, Bytes(rest), s);
      if |s| < |part| {
        CutFileIsNotRelayed(items[0], s);
        assert RelayFiles(n, s) == RelayFile(s);
      } else {
        ItemIsRelayed(items[0], s[|part|..]);
        FileThenMore(n, more, s);
        CutListIsRelayed(rest, more, s[|part|..]);
      }
    }
  }

  lemma CutTransmissionIsRelayed(items: seq<Item>, s: bytes)
    requires |items| < U64_LIMIT && s <= Transmission(items)
    requires forall i | 0 <= i < |items| :: GoodItem(items[i]) && Stable(items[i])
    ensures Relay(s).heads <= Heads(items)
    ensures Relay(s).ok ==> s == Transmission(items)
    ensures Announced(s) == (|items|, TotalSize(PlainRecords(items))) || (Announced(s) == (0, 0) && Relay(s).heads == [])
  {
    var counts := Word(|items|) + Word(TotalSize(PlainRecords(items)));
    CutIn(counts, Bytes(items), s);
    if |s| >= 16 {
      var rest := s[16..];
      CountsOfCut(items, s, rest);
      CutListIsRelayed(items, |items|, rest);
    }
  }

  lemma CountsOfCut(items: seq<Item>, s: bytes, rest: bytes)
    requires |items| < U64_LIMIT && s == Word(|items|) + Word(TotalSize(PlainRecords(items))) + rest
    ensures Announced(s) == (|items|, TotalSize(PlainRecords(items)))
    ensures RelayCounts(s) == Relayed([], 0, Word(|items|) + Word(TotalSize(PlainRecords(items))), rest, true)
  {
    var total := TotalSize(PlainRecords(items));
    WordThenRest(|items|, Word(total) + rest);
    WordThenRest(total, rest);
    assert s == Word(|items|) + (Word(total) + rest);
  }

  // ---- The whole copy ----

  /** A request that can be carried out: the names are distinct and exist, nothing has changed since it was listed, and
      no root is a link to a directory with contents. */
  ghost predicate Valid(src: seq<Entry>, names: seq<Name>) {
    && WellFormed(src) && Distinct(names)
    && Select(src, names).Some? && LinksLeadNowhere(Select(src, names).value)
    && AllStable(Listed(src, names)) && |Listed(src, names)| < U64_LIMIT
  }

  function Listed(src: seq<Entry>, names: seq<Name>): seq<Item> {
    match FlattenRoots(src, names)
    case None => []
    case Some(items) => items
  }

  /** The destination is a file tree, the base leads to directory `dir` in it, through whatever links, and none of the
      selected names is there yet. */
  ghost predicate Ready(fs: Files, base: Base, dir: Path, names: seq<Name>) {
    && IsTree(fs) && LeadsTo(fs, base, [], dir)
    && forall n | n in names :: dir + [n] !in fs
  }

  /** What should be at `p` afterwards. */
  function Wanted(fs: Files, dir: Path, src: seq<Entry>, names: seq<Name>, p: Path): Option<Object> {
    if Below(dir, p) && p[|dir|] in names then ImageAt(src, p[|dir|..]) else At(fs, p)
  }

  lemma NothingInTheWay(fs: Files, base: Base, dir: Path, src: seq<Entry>, names: seq<Name>)
    requires Ready(fs, base, dir, names) && Select(src, names).Some?
    ensures Free(fs, dir, Select(src, names).value)
  {
    var sel := Select(src, names).value;
    forall p | Under(dir, sel, p) ensures p !in fs {
      FindSelected(src, names, p[|dir|]);
      NothingBelow(fs, dir, p);
    }
  }

  lemma NothingBelow(fs: Files, dir: Path, p: Path)
    requires IsTree(fs) && Below(dir, p) && dir + [p[|dir|]] !in fs
    ensures p !in fs
  {
    assert p[..|dir| + 1] == dir + [p[|dir|]];
    if p in fs && |p| > |dir| + 1 {
      AncestorsAreDirectories(fs, p, |dir| + 1);
    }
    assert |p| == |dir| + 1 ==> p == p[..|dir| + 1];
  }

  lemma CopiedIsWanted(fs: Files, dir: Path, src: seq<Entry>, names: seq<Name>, p: Path)
    requires Select(src, names).Some?
    requires Below(dir, p) && p[|dir|] in names ==> Find(src, p[|dir|]).Some?
    ensures Copied(fs, dir, Select(src, names).value, p) == Wanted(fs, dir, src, names, p)
  {
    if Below(dir, p) {
      FindSelected(src, names, p[|dir|]);
    }
  }

  lemma {:induction false} SelectedExist(src: seq<Entry>, names: seq<Name>, n: Name)
    requires Select(src, names).Some? && n in names
    ensures Find(src, n).Some?
  {
    if n != names[0] {
      SelectedExist(src, names[1..], n);
    }
  }

  /** The receiver rebuilds exactly the selected subtrees, restricted to files, directories and links, below the base:
      same names, kinds, contents and link targets. Everything else is as before, the stream is consumed exactly, and no
      step fails, so no object is ever created outside an existing directory. */
  lemma TransmissionIsReceived(src: seq<Entry>, names: seq<Name>, base: Base, dir: Path, fs: Files, r: bytes)
    requires Valid(src, names) && Ready(fs, base, dir, names)
    ensures var end := Receive(base, fs, Transmission(Listed(src, names)) + r);
      && end.Done? && end.rest == r
      && forall p :: At(end.fs, p) == Wanted(fs, dir, src, names, p)
  {
    var sel := Select(src, names).value;
    var items := Listed(src, names);
    var none: Path := [];
    CollectsExactly(src, names);
    SelectedIsWellFormed(src, names);
    NothingInTheWay(fs, base, dir, src, names);
    assert dir + none == dir;
    ForestIsReceived(base, dir, none, sel, true, fs);
    CountsAreRead(items, r);
    assert ReceiveFiles(|items| + 0, base, fs, Bytes(items) + r) == ReceiveFiles(0, base, Install(fs, dir, sel), r);
    forall p ensures At(Install(fs, dir, sel), p) == Wanted(fs, dir, src, names, p) {
      InstallGives(fs, dir, sel, p);
      if Below(dir, p) && p[|dir|] in names {
        SelectedExist(src, names, p[|dir|]);
      }
      CopiedIsWanted(fs, dir, src, names, p);
    }
  }

  lemma ListedIsRooted(src: seq<Entry>, names: seq<Name>)
    requires Valid(src, names)
    ensures RootedIn(Listed(src, names), names)
  {
    ListedIsGood(src, names);
    ListedUnderNames(src, names);
  }

  /** Before anything has been created: the list has parents first and no path twice, the base leads to the directory of
      the roots, and nothing is in the way. */
  lemma ListIsReady(src: seq<Entry>, names: seq<Name>, base: Base, dir: Path, fs: Files)
    requires Valid(src, names) && Ready(fs, base, dir, names)
    ensures var items := Listed(src, names);
      ParentsFirst({[]}, items) && DistinctPaths(items) && Prepared(fs, base, dir, {[]}, items)
  {
    var items := Listed(src, names);
    var none: Path := [];
    ListsParentsFirst(src, names);
    forall p ensures |NodesAt(items, p)| <= 1 {
      ListsEachNodeOnce(src, names, p);
    }
    OnceIsDistinct(items);
    ListedIsRooted(src, names);
    assert dir + none == dir;
    forall i | 0 <= i < |items| ensures dir + items[i].path !in fs {
      var p := dir + items[i].path;
      assert p[..|dir|] == dir && p[|dir|] == items[i].path[0];
      NothingBelow(fs, dir, p);
    }
  }

  lemma CutTransmission(items: seq<Item>, s: bytes)
    requires |items| < U64_LIMIT && s <= Transmission(items)
    ensures match TakeWord(s)
            case None => s != Transmission(items)
            case Some(amount) =>
              && amount.value == |items|
              && match TakeWord(amount.rest)
                 case None => s != Transmission(items)
                 case Some(total) => total.rest <= Bytes(items) && (total.rest == Bytes(items) ==> s == Transmission(items))
  {
    var counts := Word(|items|) + Word(TotalSize(PlainRecords(items)));
    CutIn(counts, Bytes(items), s);
    if |s| >= 16 {
      var t := s[16..];
      WordThenRest(|items|, Word(TotalSize(PlainRecords(items))) + t);
      WordThenRest(TotalSize(PlainRecords(items)), t);
      assert s == Word(|items|) + (Word(TotalSize(PlainRecords(items))) + t);
    } else if |s| >= 8 {
      var t := s[8..];
      CutIn(Word(|items|), Word(TotalSize(PlainRecords(items))), s);
      WordThenRest(|items|, t);
    }
  }

  /** What the destination is like when the first `n` bytes of a transmission have arrived: the items that have arrived
      whole are as wanted. Of the next one, if it is a regular file, there are the whole blocks that have arrived. All
      other paths are as before. */
  ghost predicate StoppedAt(src: seq<Entry>, names: seq<Name>, dir: Path, fs: Files, n: nat, fs': Files) {
    var items := Listed(src, names);
    var listed := if n < 16 then 0 else n - 16;
    var w := Whole(items, listed);
    && (forall j | 0 <= j < w ::
          At(fs', dir + items[j].path) == Wanted(fs, dir, src, names, dir + items[j].path))
    && (w < |items| ==> At(fs', dir + items[w].path) == LeftOf(items[w], CutAt(items, listed)))
    && (forall j | w < j < |items| :: At(fs', dir + items[j].path) == None)
    && (forall p | forall j | 0 <= j < |items| :: p != dir + items[j].path :: At(fs', p) == At(fs, p))
  }

  lemma {:induction false} MemberNode(items: seq<Item>, j: nat)
    requires j < |items|
    ensures items[j].node in NodesAt(items, items[j].path)
  {
    if j > 0 {
      MemberNode(items[1..], j - 1);
    }
  }

  lemma WantedOfListed(src: seq<Entry>, names: seq<Name>, fs: Files, dir: Path, j: nat)
    requires Valid(src, names) && j < |Listed(src, names)|
    ensures var item := Listed(src, names)[j];
      Wanted(fs, dir, src, names, dir + item.path) == Image(item.node)
  {
    var item := Listed(src, names)[j];
    var p := dir + item.path;
    ListedIsRooted(src, names);
    ListsEachNodeOnce(src, names, item.path);
    MemberNode(Listed(src, names), j);
    assert p[..|dir|] == dir && p[|dir|..] == item.path && p[|dir|] == item.path[0];
    assert Lookup(src, item.path) == Some(item.node);
  }

  lemma CutGives(src: seq<Entry>, names: seq<Name>, base: Base, dir: Path, fs: Files, n: nat, listed: nat, fs': Files)
    requires Valid(src, names) && Ready(fs, base, dir, names)
    requires listed == (if n < 16 then 0 else n - 16) && fs' == AfterCut(fs, dir, Listed(src, names), listed)
    ensures StoppedAt(src, names, dir, fs, n, fs')
  {
    var items := Listed(src, names);
    var w := Whole(items, listed);
    ListIsReady(src, names, base, dir, fs);
    forall j | 0 <= j < |items|
      ensures At(fs', dir + items[j].path)
           == if j < w then Image(items[j].node) else if j == w then LeftOf(items[j], CutAt(items, listed)) else None
      ensures Wanted(fs, dir, src, names, dir + items[j].path) == Image(items[j].node)
    {
      AfterCutGives(fs, dir, items, listed, dir + items[j].path);
      WantedOfListed(src, names, fs, dir, j);
    }
    forall p | forall j | 0 <= j < |items| :: p != dir + items[j].path ensures At(fs', p) == At(fs, p) {
      AfterCutGives(fs, dir, items, listed, p);
    }
  }

  lemma NothingListed(fs: Files, dir: Path, items: seq<Item>)
    ensures AfterCut(fs, dir, items, 0) == fs
  {
  }

  /** A transmission that is cut at any byte leaves a file tree in which nothing differs but what was selected, and of
      that exactly what has arrived is there. The receiver finishes only if it got all of it. */
  lemma BrokenTransmission(src: seq<Entry>, names: seq<Name>, base: Base, dir: Path, fs: Files, s: bytes)
    requires Valid(src, names) && Ready(fs, base, dir, names)
    requires s <= Transmission(Listed(src, names))
    ensures IsTree(Receive(base, fs, s).fs)
    ensures OnlyUnder(dir, names, fs, Receive(base, fs, s).fs)
    ensures Receive(base, fs, s).Done? ==> s == Transmission(Listed(src, names))
    ensures StoppedAt(src, names, dir, fs, |s|, Receive(base, fs, s).fs)
  {
    var items := Listed(src, names);
    ListedIsRooted(src, names);
    CutTransmission(items, s);
    if |s| < 16 {
      NothingListed(fs, dir, items);
      CutGives(src, names, base, dir, fs, |s|, 0, fs);
    } else {
      var rest := TakeWord(TakeWord(s).value.rest).value.rest;
      CutGives(src, names, base, dir, fs, |s|, |rest|, AfterCut(fs, dir, items, |rest|));
      ReceiveKeepsTree(|items|, base, fs, rest);
      ListIsReady(src, names, base, dir, fs);
      ListIsCut(base, dir, names, {[]}, items, |items|, fs, rest);
    }
  }

  lemma ListedIsGood(src: seq<Entry>, names: seq<Name>)
    requires Valid(src, names)
    ensures FlattenRoots(src, names).Some?
    ensures forall i | 0 <= i < |Listed(src, names)| :: GoodItem(Listed(src, names)[i]) && Stable(Listed(src, names)[i])
  {
    CollectsExactly(src, names);
    ListedAreGood(src, names);
  }

  ghost predicate TellsAll(reports: seq<Report>, items: seq<Item>) {
    && reports != [] && reports[|reports| - 1].Some?
    && reports[|reports| - 1].value.totalProgress == reports[|reports| - 1].value.totalSize == Sum(Heads(items))
  }

  /** The report that shows completion tells the whole size. */
  lemma CompletionTellsAll(reports: seq<Report>, now: WatcherInfo, items: seq<Item>)
    requires |items| < U64_LIMIT && Sum(Heads(items)) < U64_LIMIT
    requires GoodReports(reports, now, |items|, TotalSize(PlainRecords(items)), Heads(items))
    requires reports != [] && Shown(reports) == Completed
    ensures TellsAll(reports, items)
  {
    TotalFits(items);
    ProgressIsBounded(reports[|reports| - 1].value, |items|, TotalSize(PlainRecords(items)), Heads(items));
  }

  /** No report tells more progress than there is to make. */
  ghost predicate NeverTooMuch(reports: seq<Report>) {
    forall k | 0 <= k < |reports| && reports[k].Some? :: reports[k].value.totalProgress <= reports[k].value.totalSize
  }

  lemma ReportsAreBounded(reports: seq<Report>, now: WatcherInfo, n: u64, total: u64, heads: seq<Head>)
    requires GoodReports(reports, now, n, total, heads) && |heads| <= n && Sum(heads) <= total
    ensures NeverTooMuch(reports)
  {
    ReportsTellProgress(reports, now, n, total, heads);
    forall k | 0 <= k < |reports| ensures reports[k].value.totalProgress <= reports[k].value.totalSize {
      ProgressIsBounded(reports[k].value, n, total, heads);
    }
  }

  /** The numbers and files the server knows of when it has got some of a transmission. */
  ghost predicate Known(items: seq<Item>, n: u64, total: u64, heads: seq<Head>) {
    && heads <= Heads(items)
    && ((n == |items| && total == TotalSize(PlainRecords(items))) || (n == 0 && heads == []))
  }

  lemma KnownIsBounded(items: seq<Item>, n: u64, total: u64, heads: seq<Head>)
    requires Sum(Heads(items)) < U64_LIMIT && Known(items, n, total, heads)
    ensures |heads| <= n && Sum(heads) <= total
  {
    if heads != [] {
      TotalFits(items);
      SumGrows(Heads(items), |heads|);
      assert heads == Heads(items)[..|heads|];
    }
  }

  /** What the server writes is a piece of the transmission, wherever that was cut before. */
  lemma RelayedIsCut(items: seq<Item>, s: bytes, out: bytes, relayed: bool)
    requires |items| < U64_LIMIT && s <= Transmission(items)
    requires Forwarded([], Relay(s).out, Relay(s).ok, out, relayed)
    ensures out <= Transmission(items)
  {
    RelayIsIdentity(s);
    assert [] + Relay(s).out == Relay(s).out;
    assert out == Relay(s).out[..|out|] == s[..|out|] == Transmission(items)[..|out|];
  }

  lemma SentIsCut(all: bytes, wire: bytes, sent: bool, k: nat)
    requires Forwarded([], all, true, wire, sent) && k <= |wire|
    ensures wire[..k] <= all && (wire[..k] == all ==> sent)
  {
    assert [] + all == all;
    assert wire[..k] == all[..k];
  }

  lemma SenderIsReady(src: seq<Entry>, names: seq<Name>, base: bytes)
    requires Valid(src, names)
    ensures FlattenRoots(src, names).Some? && FlattenRoots(src, names).value == Listed(src, names)
    ensures var rs := Records(StripSlashes(base), Listed(src, names));
      Stream(rs) == Transmission(Listed(src, names)) && AllEnd(rs)
  {
    ListedIsGood(src, names);
    StreamIsTransmission(base, Listed(src, names));
  }

  /** What the watching client is told of a copy. */
  ghost predicate Told(reports: seq<Report>, items: seq<Item>, relayed: bool) {
    && reports != [] && Shown(reports) == (if relayed then Completed else CopyFailed)
    && (Sum(Heads(items)) < U64_LIMIT ==> NeverTooMuch(reports) && (relayed ==> TellsAll(reports, items)))
  }

  lemma ToldOfCopy(reports: seq<Report>, now: WatcherInfo, items: seq<Item>, n: u64, total: u64, heads: seq<Head>,
                   relayed: bool)
    requires reports != [] && Shown(reports) == if relayed then Completed else CopyFailed
    requires GoodReports(if relayed then reports else reports[..|reports| - 1], now, n, total, heads)
    requires Known(items, n, total, heads)
    requires relayed ==> n == |items| && total == TotalSize(PlainRecords(items)) && heads == Heads(items)
    ensures Told(reports, items, relayed)
  {
    if Sum(Heads(items)) < U64_LIMIT {
      KnownIsBounded(items, n, total, heads);
      ReportsAreBounded(if relayed then reports else reports[..|reports| - 1], now, n, total, heads);
      if relayed {
        CompletionTellsAll(reports, now, items);
      }
    }
  }

  /** What sender and server make of a transmission: `s` is what the server got of it, and `out` what it wrote. */
  lemma Transmitted(src: seq<Entry>, names: seq<Name>, sentAll: bytes, sent: bool, s: bytes, out: bytes, relayed: bool)
    requires Valid(src, names) && s <= sentAll
    requires Forwarded([], Transmission(Listed(src, names)), true, sentAll, sent)
    requires Forwarded([], Relay(s).out, Relay(s).ok, out, relayed)
    ensures var items := Listed(src, names);
      && Known(items, Announced(s).0, Announced(s).1, Relay(s).heads)
      && (relayed ==> sent && Announced(s).0 == |items| && Announced(s).1 == TotalSize(PlainRecords(items))
                      && Relay(s).heads == Heads(items) && out == Transmission(items))
      && out <= Transmission(items) && (out == Transmission(items) ==> sent)
  {
    var items := Listed(src, names);
    var all := Transmission(items);
    ListedIsGood(src, names);
    SentIsCut(all, sentAll, sent, |s|);
    CutTransmissionIsRelayed(items, s);
    RelayedIsCut(items, s, out, relayed);
    assert s == sentAll[..|s|];
    if relayed {
      WholeIsRelayed(items);
      assert [] + all == all;
    }
    if out == all {
      RelayIsIdentity(s);
      assert [] + Relay(s).out == Relay(s).out;
      SentIsCut(all, sentAll, sent, |sentAll|);
      assert sentAll[..|sentAll|] == sentAll;
    }
  }

  lemma WholeIsRelayed(items: seq<Item>)
    requires |items| < U64_LIMIT
    requires forall i | 0 <= i < |items| :: GoodItem(items[i]) && Stable(items[i])
    ensures Complete(Relay(Transmission(items)), Heads(items), Transmission(items), [])
    ensures Announced(Transmission(items)) == (|items|, TotalSize(PlainRecords(items)))
  {
    TransmissionIsRelayed(items, []);
    CountsAreRead(items, []);
    assert Transmission(items) + [] == Transmission(items);
  }

  /** What the receiver makes of a piece of a transmission. */
  ghost predicate Rebuilt(src: seq<Entry>, names: seq<Name>, dir: Path, fs: Files, s: bytes, fs': Files, ok: bool)
    requires |Listed(src, names)| < U64_LIMIT
  {
    && IsTree(fs') && OnlyUnder(dir, names, fs, fs') && StoppedAt(src, names, dir, fs, |s|, fs')
    && (ok <==> s == Transmission(Listed(src, names)))
    && (ok ==> forall p :: At(fs', p) == Wanted(fs, dir, src, names, p))
  }

  lemma ReceivedOfCopy(src: seq<Entry>, names: seq<Name>, base: Base, dir: Path, fs: Files, s: bytes)
    requires Valid(src, names) && Ready(fs, base, dir, names)
    requires |Listed(src, names)| < U64_LIMIT && s <= Transmission(Listed(src, names))
    ensures Rebuilt(src, names, dir, fs, s, Receive(base, fs, s).fs, Receive(base, fs, s).Done?)
  {
    BrokenTransmission(src, names, base, dir, fs, s);
    if s == Transmission(Listed(src, names)) {
      TransmissionIsReceived(src, names, base, dir, fs, []);
      assert s + [] == s;
    }
  }

  lemma NothingBreaks(src: seq<Entry>, names: seq<Name>, sentAll: bytes, j: nat)
    requires Valid(src, names) && sentAll == [] + Transmission(Listed(src, names)) && j == |sentAll|
    ensures Relay(sentAll[..j]).ok
  {
    ListedIsGood(src, names);
    WholeIsRelayed(Listed(src, names));
    assert sentAll[..j] == Transmission(Listed(src, names));
  }

  /** Sender and server, with every possible splitting of the reads on the way, and both connections breaking anywhere, or
      not. The watching client sees completion if and only if the server has forwarded everything, which it does only if
      everything was sent; total progress never exceeds the total size, and has then reached it. If nothing breaks, that is
      so. */
  method SendAndRelay(sender: Sender, senderSock: Socket, op: CopyOperation, src: seq<Entry>)
    returns (sent: bool, passed: bool, relayed: bool)
    requires op.src != op.dst && op.src != senderSock && op.dst != senderSock
    requires sender.dentries == [] && senderSock.output == [] && op.dst.output == []
    requires op.info == WatcherInfo(0, 0, 0, 0, 0, 0, [], 0) && op.reports == []
    requires Valid(src, sender.inputNames)
    modifies sender, senderSock`output, op`info, op`reports, op`lastSend, op.src`input, op.dst`output
    ensures Told(op.reports, Listed(src, sender.inputNames), relayed)
    ensures op.dst.output <= Transmission(Listed(src, sender.inputNames))
    ensures relayed ==> op.dst.output == Transmission(Listed(src, sender.inputNames))
    ensures op.dst.output == Transmission(Listed(src, sender.inputNames)) ==> sent
    ensures senderSock.lasts && passed && op.dst.lasts ==> sent && relayed
  {
    ghost var names := sender.inputNames;
    SenderIsReady(src, names, sender.basePath);
    sent := sender.Process(senderSock, src);
    var j: nat :| j <= |senderSock.output|;
    op.src.input := senderSock.output[..j];
    passed := j == |senderSock.output|;
    ghost var wire := op.src.input;
    relayed := op.ProcessCopy(true);
    if senderSock.lasts && passed && op.dst.lasts {
      NothingBreaks(src, names, senderSock.output, j);
    }
    Transmitted(src, names, senderSock.output, sent, wire, op.dst.output, relayed);
    ToldOfCopy(op.reports, op.info, Listed(src, names), Announced(wire).0, Announced(wire).1, Relay(wire).heads, relayed);
  }

  /** The whole copy: sender, server and receiver, and all connections breaking anywhere, or not. If nothing breaks, it
      succeeds: the sockets that are written to last, and what was written on a link is what was read. If the server has
      forwarded everything, which the watching client then sees, and it arrives, the receiver finishes. If the receiver
      finishes, everything was sent, and the destination has the selected subtrees and is otherwise as before. In any case
      the destination is a file tree in which nothing but what was selected differs, and of that there is exactly what has
      arrived. */
  method Copy(sender: Sender, senderSock: Socket, op: CopyOperation, receiver: Receiver, receiverSock: Socket,
              src: seq<Entry>, ghost dir: Path)
    returns (sent: bool, passed: bool, relayed: bool, arrived: nat, delivered: bool, received: bool)
    requires op.src != op.dst && op.src != senderSock && op.dst != senderSock
    requires receiverSock != op.src && receiverSock != op.dst && receiverSock != senderSock
    requires sender.dentries == [] && senderSock.output == [] && op.dst.output == []
    requires op.info == WatcherInfo(0, 0, 0, 0, 0, 0, [], 0) && op.reports == []
    requires Valid(src, sender.inputNames) && Ready(receiver.fs, receiver.base, dir, sender.inputNames)
    modifies sender, senderSock`output, op`info, op`reports, op`lastSend, op.src`input, op.dst`output
    modifies receiver`fs, receiverSock`input
    ensures Told(op.reports, Listed(src, sender.inputNames), relayed)
    ensures senderSock.lasts && passed && op.dst.lasts && delivered ==> sent && relayed && received
    ensures relayed ==> sent
    ensures received ==> sent
    ensures relayed && delivered ==> received
    ensures received ==>
              forall p :: At(receiver.fs, p) == Wanted(old(receiver.fs), dir, src, sender.inputNames, p)
    ensures delivered <==> arrived == |op.dst.output|
    ensures IsTree(receiver.fs) && OnlyUnder(dir, sender.inputNames, old(receiver.fs), receiver.fs)
    ensures StoppedAt(src, sender.inputNames, dir, old(receiver.fs), arrived, receiver.fs)
  {
    ghost var names := sender.inputNames;
    ghost var fs := receiver.fs;
    sent, passed, relayed := SendAndRelay(sender, senderSock, op, src);
    var out := op.dst.output;
    var k: nat :| k <= |out|;
    receiverSock.input := out[..k];
    arrived, delivered := k, k == |out|;
    assert delivered ==> out[..k] == out;
    assert out[..k] == Transmission(Listed(src, names)) ==> k == |out| && out[..k] == out;
    ReceivedOfCopy(src, names, receiver.base, dir, fs, out[..k]);
    received := receiver.Process(receiverSock);
  }
}
