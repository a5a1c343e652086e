/** Progress of a copy: what the server counts and reports while it relays, and what the watching client shows. */
module CopyProgress {
  import opened Wire
  import opened Serde
  import opened Sockets
  import Messages
  import opened Tree
  import opened CopyRelay

  datatype WatcherInfo = WatcherInfo(
    filesAll: u64,
    filesCompleted: u64,
    totalSize: u64,
    totalProgress: u64,
    curSize: u64,
    curProgress: u64,
    curFile: bytes,
    speed: u64)

  /** The sum of the sizes of regular files. */
  function Sum(heads: seq<Head>): nat {
    if heads == [] then 0 else RegularSize(heads[0].meta) + Sum(heads[1..])
  }

  lemma {:induction false} SumUpTo(heads: seq<Head>, i: nat)
    requires i < |heads|
    ensures Sum(heads[..i + 1]) == Sum(heads[..i]) + RegularSize(heads[i].meta)
  {
    if i == 0 {
      assert heads[..1][1..] == [];
    } else {
      SumUpTo(heads[1..], i - 1);
      assert heads[..i + 1][1..] == heads[1..][..i] && heads[..i][1..] == heads[1..][..i - 1];
    }
  }

  lemma {:induction false} SumGrows(heads: seq<Head>, i: nat)
    requires i <= |heads|
    ensures Sum(heads[..i]) <= Sum(heads)
    decreases |heads| - i
  {
    if i == |heads| {
      assert heads[..i] == heads;
    } else {
      SumUpTo(heads, i);
      SumGrows(heads, i + 1);
    }
  }

  // ---- What a report says ----

  ghost predicate AboutFile(info: WatcherInfo, h: Head) {
    info.curFile == h.path && info.curSize == SizeOf(h.meta)
  }

  /** Some way into the file after the completed ones: the total is the sum of the completed regular files and of the
      progress in the current one. */
  ghost predicate During(info: WatcherInfo, heads: seq<Head>) {
    var i := info.filesCompleted;
    && i < |heads| && AboutFile(info, heads[i])
    && info.curProgress <= info.curSize
    && (!IsReg(heads[i].meta) ==> info.curProgress == 0)
    && info.totalProgress == (Sum(heads[..i]) + info.curProgress) % U64_LIMIT
  }

  /** The types of files whose progress is told. */
  predicate Progresses(m: Metainfo) {
    IsReg(m) || IsLnk(m) || IsDir(m)
  }

  /** Right after a file was completed. */
  ghost predicate Finished(info: WatcherInfo, heads: seq<Head>) {
    var i := info.filesCompleted;
    && 0 < i <= |heads| && AboutFile(info, heads[i - 1])
    && (Progresses(heads[i - 1].meta) ==> info.curProgress == info.curSize)
    && info.curProgress <= info.curSize
    && info.totalProgress == Sum(heads[..i]) % U64_LIMIT
  }

  /** Between two files. */
  ghost predicate Between(info: WatcherInfo, heads: seq<Head>) {
    NotStarted(info) || Finished(info, heads)
  }

  ghost predicate NotStarted(info: WatcherInfo) {
    info.filesCompleted == 0 && info.totalProgress == 0 && info.curSize == 0 && info.curProgress == 0
  }

  /** `n` and `total` are the numbers the sender announced, `heads` the files of the copy. */
  ghost predicate Truthful(info: WatcherInfo, n: u64, total: u64, heads: seq<Head>) {
    && info.filesAll == n && info.totalSize == total
    && info.filesCompleted <= n
    && (NotStarted(info) || During(info, heads) || Finished(info, heads))
  }

  /** Progress never goes back; the byte count is meant as long as it does not overflow. */
  ghost predicate NotAfter(a: WatcherInfo, b: WatcherInfo, heads: seq<Head>) {
    a.filesCompleted <= b.filesCompleted && (Sum(heads) < U64_LIMIT ==> a.totalProgress <= b.totalProgress)
  }

  lemma AdvanceIsLater(a: WatcherInfo, b: WatcherInfo, heads: seq<Head>, size: nat)
    requires During(a, heads) && IsReg(heads[a.filesCompleted].meta)
    requires b.curProgress == a.curProgress + size && b.curProgress <= a.curSize
    requires b.totalProgress == (a.totalProgress + size) % U64_LIMIT
    requires b.filesCompleted == a.filesCompleted && b.curSize == a.curSize && b.curFile == a.curFile
    ensures During(b, heads) && NotAfter(a, b, heads)
  {
    var i: nat := a.filesCompleted;
    CountsOn(Sum(heads[..i]) + a.curProgress, size);
    SumUpTo(heads, i);
    SumGrows(heads, i + 1);
  }

  lemma CountsOn(a: nat, b: nat)
    ensures (a % U64_LIMIT + b) % U64_LIMIT == (a + b) % U64_LIMIT
    ensures a + b < U64_LIMIT ==> a % U64_LIMIT <= (a + b) % U64_LIMIT == a + b
  {
  }

  type Report = Option<WatcherInfo>

  /** Reports in order, none of them later than `now`. */
  ghost predicate GoodReports(reports: seq<Report>, now: WatcherInfo, n: u64, total: u64, heads: seq<Head>)
    decreases |reports|
  {
    reports == [] ||
    var last := reports[|reports| - 1];
    && last.Some?
    && Truthful(last.value, n, total, heads)
    && NotAfter(last.value, now, heads)
    && GoodReports(reports[..|reports| - 1], last.value, n, total, heads)
  }

  lemma LaterKeepsReports(reports: seq<Report>, a: WatcherInfo, b: WatcherInfo, n: u64, total: u64, heads: seq<Head>)
    requires GoodReports(reports, a, n, total, heads) && NotAfter(a, b, heads)
    ensures GoodReports(reports, b, n, total, heads)
  {
  }

  lemma OneMoreReport(reports: seq<Report>, now: WatcherInfo, n: u64, total: u64, heads: seq<Head>)
    requires GoodReports(reports, now, n, total, heads) && Truthful(now, n, total, heads)
    ensures GoodReports(reports + [Some(now)], now, n, total, heads)
  {
    assert (reports + [Some(now)])[..|reports|] == reports;
  }

  /** Every report tells the truth, and of two reports the later one tells no less progress. */
  lemma {:induction false} ReportsTellProgress(reports: seq<Report>, now: WatcherInfo, n: u64, total: u64,
                                               heads: seq<Head>)
    requires GoodReports(reports, now, n, total, heads)
    ensures forall k | 0 <= k < |reports| ::
              reports[k].Some? && Truthful(reports[k].value, n, total, heads) && NotAfter(reports[k].value, now, heads)
    ensures forall j, k | 0 <= j < k < |reports| :: NotAfter(reports[j].value, reports[k].value, heads)
    decreases |reports|
  {
    if reports != [] {
      var last := |reports| - 1;
      ReportsTellProgress(reports[..last], reports[last].value, n, total, heads);
      assert forall k | 0 <= k < last :: reports[k] == reports[..last][k];
    }
  }

  // ---- What the watching client shows ----

  datatype View = InProgress | Completed | CopyFailed

  /** The client's reaction to a report: it shows the newest one. */
  function UpdateWatcherInfo(r: Report): View {
    match r
    case None => CopyFailed
    case Some(info) => if info.filesCompleted != info.filesAll then InProgress else Completed
  }

  /** Once completion was shown, it stays. */
  ghost predicate CompletionIsFinal(reports: seq<Report>) {
    forall j, k | 0 <= j < k < |reports| ::
      UpdateWatcherInfo(reports[j]) == Completed ==> UpdateWatcherInfo(reports[k]) == Completed
  }

  lemma GoodReportsComplete(reports: seq<Report>, now: WatcherInfo, n: u64, total: u64, heads: seq<Head>)
    requires GoodReports(reports, now, n, total, heads)
    ensures CompletionIsFinal(reports)
  {
    ReportsTellProgress(reports, now, n, total, heads);
    forall j, k | 0 <= j < k < |reports| && UpdateWatcherInfo(reports[j]) == Completed
      ensures UpdateWatcherInfo(reports[k]) == Completed
    {
      assert NotAfter(reports[j].value, reports[k].value, heads);
    }
  }

  function WatcherInfoVal(info: WatcherInfo): (v: Val)
    requires |info.curFile| < U64_LIMIT
    ensures HasType(v, Messages.WATCHER_INFO_TY)
  {
    Pair(U64(info.filesAll), Pair(U64(info.filesCompleted), Pair(U64(info.totalSize), Pair(U64(info.totalProgress),
      Pair(U64(info.curSize), Pair(U64(info.curProgress), Pair(Str(info.curFile), U64(info.speed))))))))
  }

  /** A report as a message of the watching client's control connection. */
  function ReportMessage(r: Report): (m: Messages.Message)
    requires r.Some? ==> |r.value.curFile| < U64_LIMIT
    ensures Messages.WellFormed(Messages.ServerToClient, m)
  {
    Messages.Message(6, if r.Some? then Just(WatcherInfoVal(r.value)) else Nothing, None)
  }

  // ---- The relaying coroutine ----

  /** What is told as soon as the numbers at the beginning of the stream were forwarded. */
  function FirstReport(s: bytes): WatcherInfo {
    WatcherInfo(Announced(s).0, 0, Announced(s).1, 0, 0, 0, [], 0)
  }

  lemma CountsLength(s: bytes)
    ensures RelayCounts(s).ok ==> |RelayCounts(s).out| == 16
    ensures !RelayCounts(s).ok ==> |RelayCounts(s).out| <= 8
  {
  }

  /** Reports that are not forced are at least this far apart. */
  const PAUSE := 250_000_000

  class CopyOperation {
    const src: Socket
    const dst: Socket
    var info: WatcherInfo
    /** What the watching client was sent so far. */
    var reports: seq<Report>
    /** When the last report was sent, in nanoseconds of a clock that shows any time. */
    var lastSend: nat

    constructor (src: Socket, dst: Socket)
      requires src != dst
      ensures this.src == src && this.dst == dst
      ensures info == WatcherInfo(0, 0, 0, 0, 0, 0, [], 0) && reports == [] && lastSend == 0
    {
      this.src, this.dst := src, dst;
      info, reports, lastSend := WatcherInfo(0, 0, 0, 0, 0, 0, [], 0), [], 0;
    }

    /** A report, if it is `force`d or the last one is too long ago. */
    method ProgressSend(force: bool) returns (now: nat)
      modifies this`reports, this`lastSend
      ensures if force || now > old(lastSend) + PAUSE
              then reports == old(reports) + [Some(info)] && lastSend == now
              else reports == old(reports) && lastSend == old(lastSend)
    {
      now := *;
      if force || now > lastSend + PAUSE {
        reports := reports + [Some(info)];
        lastSend := now;
      }
    }

    /** The same in the middle of a copy: the report is true, and not before the earlier ones. */
    method Report(force: bool, ghost n: u64, ghost total: u64, ghost heads: seq<Head>)
      requires GoodReports(reports, info, n, total, heads) && Truthful(info, n, total, heads)
      modifies this`reports, this`lastSend
      ensures old(reports) <= reports
      ensures GoodReports(reports, info, n, total, heads)
      ensures force ==> reports == old(reports) + [Some(info)]
    {
      OneMoreReport(reports, info, n, total, heads);
      var now := ProgressSend(force);
    }

    /** Receives a text and sends it again. */
    method TextProxy() returns (text: Option<bytes>)
      requires src != dst
      modifies src`input, dst`output
      ensures Forwarded(old(dst.output), RelayText(old(src.input)).out, RelayText(old(src.input)).ok,
                        dst.output, text.Some?)
      ensures dst.lasts ==> dst.output == old(dst.output) + RelayText(old(src.input)).out
      ensures text.Some? ==> TakeText(old(src.input)) == Some(Parsed(text.value, src.input))
    {
      text := RecvText(src);
      if text.Some? {
        var ok := Send(dst, Str(text.value));
        if !ok {
          text := None;
        }
      }
    }

    /** Counts one more block of a regular file. */
    method Advance(progress: u64, size: nat, ghost n: u64, ghost total: u64, ghost heads: seq<Head>)
      requires GoodReports(reports, info, n, total, heads)
      requires Truthful(info, n, total, heads) && During(info, heads)
      requires IsReg(heads[info.filesCompleted].meta)
      requires progress == info.curProgress + size && progress <= info.curSize
      modifies this`info, this`reports, this`lastSend
      ensures old(reports) <= reports
      ensures GoodReports(reports, info, n, total, heads)
      ensures Truthful(info, n, total, heads) && During(info, heads)
      ensures info.filesCompleted == old(info.filesCompleted) && info.curSize == old(info.curSize)
      ensures info.curProgress == progress
    {
      var speed: u64 := *;
      ghost var was := info;
      info := info.(curProgress := progress,
                    totalProgress := (info.totalProgress + size) % U64_LIMIT,
                    speed := speed);
      AdvanceIsLater(was, info, heads, size);
      LaterKeepsReports(reports, was, info, n, total, heads);
      Report(false, n, total, heads);
    }

    /** The loop over the contents of a regular file. */
    method ContentProxy(size: u64, ghost n: u64, ghost total: u64, ghost heads: seq<Head>) returns (ok: bool)
      requires src != dst
      requires GoodReports(reports, info, n, total, heads)
      requires Truthful(info, n, total, heads) && During(info, heads) && info.curProgress == 0
      requires IsReg(heads[info.filesCompleted].meta) && info.curSize == size
      modifies this`info, this`reports, this`lastSend, src`input, dst`output
      ensures old(reports) <= reports
      ensures Forwarded(old(dst.output), RelayContent(size, old(src.input)).out, RelayContent(size, old(src.input)).ok,
                        dst.output, ok)
      ensures dst.lasts ==> dst.output == old(dst.output) + RelayContent(size, old(src.input)).out
      ensures ok ==> src.input == RelayContent(size, old(src.input)).rest
      ensures GoodReports(reports, info, n, total, heads) && Truthful(info, n, total, heads) && During(info, heads)
      ensures info.filesCompleted == old(info.filesCompleted)
      ensures ok ==> info.curProgress == size
    {
      ghost var s := src.input;
      ghost var before := dst.output;
      ghost var i := info.filesCompleted;
      var progress: u64 := 0;
      while progress < size
        invariant progress <= size && progress <= |s|
        invariant old(reports) <= reports
        invariant src.input == s[progress..]
        invariant dst.output == before + s[..progress]
        invariant info.filesCompleted == i && info.curSize == size && info.curProgress == progress
        invariant GoodReports(reports, info, n, total, heads) && Truthful(info, n, total, heads) && During(info, heads)
      {
        var block := src.ReadSome(Min(CHUNK, size - progress));
        if block == None {
          ContentEnds(before, s, progress, size);
          return false;
        }
        ghost var mid := dst.output;
        ok := dst.Write(block.value);
        ghost var next: nat := progress + |block.value|;
        BlockRead(s, progress, block.value, src.input);
        if !ok {
          SentThen(before, s[..progress], mid, block.value, dst.output, false);
          ContentStops(before, s, next, size, dst.output);
          return;
        }
        Regroup(before, s[..progress], block.value);
        progress := progress + |block.value|;
        Advance(progress, |block.value|, n, total, heads);
      }
      ContentEnds(before, s, progress, size);
      ok := true;
    }

    /** Metadata and path of the next file. */
    method HeaderProxy() returns (head: Option<Head>)
      requires src != dst
      modifies src`input, dst`output
      ensures Forwarded(old(dst.output), RelayHeader(old(src.input)).out, RelayHeader(old(src.input)).ok,
                        dst.output, head.Some?)
      ensures dst.lasts ==> dst.output == old(dst.output) + RelayHeader(old(src.input)).out
      ensures head.Some? ==> RelayHeader(old(src.input)).heads == [head.value]
      ensures head.Some? ==> src.input == RelayHeader(old(src.input)).rest
    {
      ghost var before := dst.output;
      ghost var r := RelayHeader(src.input);
      var meta := src.ReadExact(METAINFO_SIZE);
      if meta == None {
        return None;
      }
      ghost var text := RelayText(src.input);
      var ok := dst.Write(meta.value);
      if !ok {
        ForwardedTooLittle(before, meta.value, dst.output, text.out, r.ok, r.out);
        return None;
      }
      ghost var mid := dst.output;
      var path := TextProxy();
      ForwardedThen(before, meta.value, mid, text.out, text.ok, dst.output, path.Some?, r.out);
      head := if path.Some? then Some(Head(meta.value, path.value)) else None;
    }

    /** What the type of the file adds. */
    method BodyProxy(m: Metainfo, ghost n: u64, ghost total: u64, ghost heads: seq<Head>) returns (ok: bool)
      requires src != dst
      requires GoodReports(reports, info, n, total, heads)
      requires Truthful(info, n, total, heads) && During(info, heads) && info.curProgress == 0
      requires heads[info.filesCompleted].meta == m
      modifies this`info, this`reports, this`lastSend, src`input, dst`output
      ensures old(reports) <= reports
      ensures Forwarded(old(dst.output), RelayBody(m, old(src.input)).out, RelayBody(m, old(src.input)).ok,
                        dst.output, ok)
      ensures dst.lasts ==> dst.output == old(dst.output) + RelayBody(m, old(src.input)).out
      ensures ok ==> src.input == RelayBody(m, old(src.input)).rest
      ensures GoodReports(reports, info, n, total, heads)
      ensures info.filesCompleted == old(info.filesCompleted)
      ensures ok ==> BodyCounted(info, m, n, total, heads)
    {
      ghost var was := info;
      if IsReg(m) {
        ok := ContentProxy(SizeOf(m), n, total, heads);
        if ok {
          RegularIsCounted(info, m, n, total, heads);
        }
      } else if IsLnk(m) {
        var target := TextProxy();
        ok := target.Some?;
        if ok {
          info := info.(curProgress := SizeOf(m));
          OtherIsCounted(was, info, m, n, total, heads);
          LaterKeepsReports(reports, was, info, n, total, heads);
        }
      } else if IsDir(m) {
        info := info.(curProgress := SizeOf(m));
        OtherIsCounted(was, info, m, n, total, heads);
        LaterKeepsReports(reports, was, info, n, total, heads);
        ok := true;
      } else {
        OtherIsCounted(was, info, m, n, total, heads);
        ok := true;
      }
    }

    /** One round of the main loop: header, contents, and the count of completed files. */
    method FileProxy(ghost n: u64, ghost total: u64, ghost heads: seq<Head>) returns (ok: bool)
      requires src != dst
      requires GoodReports(reports, info, n, total, heads)
      requires Truthful(info, n, total, heads) && Between(info, heads)
      requires info.filesCompleted < n && info.filesCompleted <= |heads|
      requires RelayFile(src.input).heads <= heads[info.filesCompleted..]
      modifies this`info, this`reports, this`lastSend, src`input, dst`output
      ensures old(reports) <= reports
      ensures Forwarded(old(dst.output), RelayFile(old(src.input)).out, RelayFile(old(src.input)).ok, dst.output, ok)
      ensures dst.lasts ==> dst.output == old(dst.output) + RelayFile(old(src.input)).out
      ensures ok ==> src.input == RelayFile(old(src.input)).rest
      ensures GoodReports(reports, info, n, total, heads)
      ensures info.filesCompleted == if ok then old(info.filesCompleted) + 1 else old(info.filesCompleted)
      ensures ok ==> Truthful(info, n, total, heads) && Finished(info, heads)
    {
      ghost var before := dst.output;
      ghost var header := RelayHeader(src.input);
      ghost var r := RelayFile(src.input);
      ghost var i := info.filesCompleted;
      var head := HeaderProxy();
      if head == None {
        if header.ok {
          ForwardedTooLittle(before, header.out, dst.output,
                             RelayBody(header.heads[0].meta, header.rest).out, r.ok, r.out);
        }
        return false;
      }
      assert heads[i] == heads[i..][0] == head.value;
      BeginFile(head.value, n, total, heads);
      ghost var mid := dst.output;
      ghost var body := RelayBody(head.value.meta, header.rest);
      ok := BodyProxy(head.value.meta, n, total, heads);
      ForwardedThen(before, header.out, mid, body.out, body.ok, dst.output, ok, r.out);
      if ok {
        EndFile(head.value.meta, n, total, heads);
      }
    }

    method BeginFile(h: Head, ghost n: u64, ghost total: u64, ghost heads: seq<Head>)
      requires GoodReports(reports, info, n, total, heads)
      requires Truthful(info, n, total, heads) && Between(info, heads)
      requires info.filesCompleted < n && info.filesCompleted < |heads| && heads[info.filesCompleted] == h
      modifies this`info, this`reports, this`lastSend
      ensures old(reports) <= reports
      ensures GoodReports(reports, info, n, total, heads)
      ensures Truthful(info, n, total, heads) && During(info, heads) && info.curProgress == 0
      ensures info.filesCompleted == old(info.filesCompleted)
    {
      ghost var was := info;
      info := info.(curFile := h.path, curSize := SizeOf(h.meta), curProgress := 0);
      FileBegins(was, info, h, n, total, heads);
      LaterKeepsReports(reports, was, info, n, total, heads);
      Report(false, n, total, heads);
    }

    method EndFile(ghost m: Metainfo, ghost n: u64, ghost total: u64, ghost heads: seq<Head>)
      requires GoodReports(reports, info, n, total, heads)
      requires BodyCounted(info, m, n, total, heads) && info.filesCompleted < n
      modifies this`info, this`reports, this`lastSend
      ensures old(reports) <= reports
      ensures GoodReports(reports, info, n, total, heads)
      ensures Truthful(info, n, total, heads) && Finished(info, heads)
      ensures info.filesCompleted == old(info.filesCompleted) + 1
    {
      ghost var was := info;
      info := info.(filesCompleted := info.filesCompleted + 1);
      FileEnds(was, info, m, n, total, heads);
      LaterKeepsReports(reports, was, info, n, total, heads);
      Report(false, n, total, heads);
    }

    /** One round, seen as part of the whole copy. */
    method NextFile(i: u64, n: u64, ghost total: u64, ghost before: bytes, ghost done: Relayed, ghost all: Relayed)
      returns (ok: bool)
      requires src != dst
      requires GoodReports(reports, info, n, total, all.heads)
      requires Truthful(info, n, total, all.heads) && Between(info, all.heads)
      requires info.filesCompleted == i < n
      requires SoFar(done, i, n, src.input, all) && dst.output == before + done.out
      modifies this`info, this`reports, this`lastSend, src`input, dst`output
      ensures old(reports) <= reports
      ensures GoodReports(reports, info, n, total, all.heads)
      ensures !ok ==> info.filesCompleted == i && Forwarded(before, all.out, all.ok, dst.output, false)
      ensures !ok && dst.lasts ==> dst.output == before + all.out
      ensures ok ==> Truthful(info, n, total, all.heads) && Between(info, all.heads) && info.filesCompleted == i + 1
      ensures ok ==> SoFar(Chain(done, RelayFile(old(src.input))), i + 1, n, src.input, all)
      ensures ok ==> dst.output == before + Chain(done, RelayFile(old(src.input))).out
    {
      ghost var s := src.input;
      ghost var mid := dst.output;
      ghost var one := RelayFile(s);
      OneMoreFile(done, i, n, s, all);
      HeadsFrom(done.heads, one.heads, all.heads);
      ok := FileProxy(n, total, all.heads);
      if ok {
        ForwardedMore(before, done, mid, one, dst.output);
      } else {
        ForwardedPart(before, done.out, mid, one.out, one.ok, dst.output, all.out, all.ok);
      }
    }

    /** The loop over the files. */
    method FilesProxy(n: u64, ghost total: u64) returns (ok: bool)
      requires src != dst
      requires GoodReports(reports, info, n, total, RelayFiles(n, src.input).heads)
      requires Truthful(info, n, total, RelayFiles(n, src.input).heads) && NotStarted(info)
      modifies this`info, this`reports, this`lastSend, src`input, dst`output
      ensures old(reports) <= reports
      ensures Forwarded(old(dst.output), RelayFiles(n, old(src.input)).out, RelayFiles(n, old(src.input)).ok,
                        dst.output, ok)
      ensures dst.lasts ==> dst.output == old(dst.output) + RelayFiles(n, old(src.input)).out
      ensures ok ==> src.input == RelayFiles(n, old(src.input)).rest
      ensures GoodReports(reports, info, n, total, RelayFiles(n, old(src.input)).heads)
      ensures ok ==> Truthful(info, n, total, RelayFiles(n, old(src.input)).heads)
      ensures info.filesCompleted <= n && (ok <==> info.filesCompleted == n)
    {
      ghost var before := dst.output;
      ghost var all := RelayFiles(n, src.input);
      ghost var done := Relayed([], 0, [], src.input, true);
      NothingSoFar(n, src.input);
      var i: u64 := 0;
      while i < n
        invariant i <= n && info.filesCompleted == i
        invariant old(reports) <= reports
        invariant GoodReports(reports, info, n, total, all.heads)
        invariant Truthful(info, n, total, all.heads) && Between(info, all.heads)
        invariant SoFar(done, i, n, src.input, all) && dst.output == before + done.out
      {
        ghost var one := RelayFile(src.input);
        ok := NextFile(i, n, total, before, done, all);
        if !ok {
          return;
        }
        done := Chain(done, one);
        i := i + 1;
      }
      AllDone(done, n, src.input, all);
      ok := true;
    }

    /** The whole copy, once the handshake has given both sockets or has failed. */
    method ProcessCopy(paired: bool) returns (ok: bool)
      requires src != dst
      requires info == WatcherInfo(0, 0, 0, 0, 0, 0, [], 0) && reports == []
      modifies this`info, this`reports, this`lastSend, src`input, dst`output
      ensures !paired ==> !ok && src.input == old(src.input) && dst.output == old(dst.output)
      ensures paired ==> Forwarded(old(dst.output), Relay(old(src.input)).out, Relay(old(src.input)).ok, dst.output, ok)
      ensures paired && dst.lasts ==> dst.output == old(dst.output) + Relay(old(src.input)).out
      ensures ok ==> src.input == Relay(old(src.input)).rest
      ensures reports != [] && Shown(reports) == (if ok then Completed else CopyFailed)
      ensures CompletionIsFinal(reports)
      ensures GoodReports(if ok then reports else reports[..|reports| - 1], info,
                          Announced(old(src.input)).0, Announced(old(src.input)).1, Relay(old(src.input)).heads)
      ensures reports[0] == if |dst.output| < |old(dst.output)| + 16 then None else Some(FirstReport(old(src.input)))
    {
      ok := false;
      if paired {
        ok := RelayAll();
      }
      if ok {
        GoodReportsComplete(reports, info, info.filesAll, info.totalSize, Relay(old(src.input)).heads);
      } else {
        ghost var sofar := reports;
        reports := reports + [None];
        assert reports[..|reports| - 1] == sofar;
        FailureIsFinal(sofar, info, Announced(old(src.input)).0, Announced(old(src.input)).1,
                       Relay(old(src.input)).heads);
      }
    }

    method WordProxy() returns (n: Option<u64>)
      requires src != dst
      modifies src`input, dst`output
      ensures Forwarded(old(dst.output), RelayWord(old(src.input)).out, RelayWord(old(src.input)).ok,
                        dst.output, n.Some?)
      ensures dst.lasts ==> dst.output == old(dst.output) + RelayWord(old(src.input)).out
      ensures n.Some? ==> TakeWord(old(src.input)) == Some(Parsed(n.value, src.input))
    {
      n := RecvWord(src);
      if n.Some? {
        var ok := dst.Write(Word(n.value));
        if !ok {
          n := None;
        }
      }
    }

    method CountsProxy() returns (ok: bool)
      requires src != dst
      modifies this`info, src`input, dst`output
      ensures Forwarded(old(dst.output), RelayCounts(old(src.input)).out, RelayCounts(old(src.input)).ok,
                        dst.output, ok)
      ensures ok <==> |dst.output| == |old(dst.output)| + 16
      ensures |dst.output| <= |old(dst.output)| + 16
      ensures dst.lasts ==> dst.output == old(dst.output) + RelayCounts(old(src.input)).out
      ensures ok ==> src.input == RelayCounts(old(src.input)).rest
      ensures ok ==> info == old(info).(filesAll := Announced(old(src.input)).0,
                                        totalSize := Announced(old(src.input)).1)
    {
      CountsLength(src.input);
      ghost var before := dst.output;
      ghost var s := src.input;
      ghost var first := RelayWord(s);
      var count := WordProxy();
      if count == None {
        if first.ok {
          ForwardedTooLittle(before, first.out, dst.output, RelayWord(first.rest).out, RelayCounts(s).ok,
                             RelayCounts(s).out);
        }
        return false;
      }
      info := info.(filesAll := count.value);
      ghost var mid := dst.output;
      ghost var second := RelayWord(src.input);
      var total := WordProxy();
      ok := total.Some?;
      ForwardedThen(before, first.out, mid, second.out, second.ok, dst.output, ok, RelayCounts(s).out);
      if ok {
        info := info.(totalSize := total.value);
      }
    }

    method RelayAll() returns (ok: bool)
      requires src != dst
      requires info == WatcherInfo(0, 0, 0, 0, 0, 0, [], 0) && reports == []
      modifies this`info, this`reports, this`lastSend, src`input, dst`output
      ensures Forwarded(old(dst.output), Relay(old(src.input)).out, Relay(old(src.input)).ok, dst.output, ok)
      ensures dst.lasts ==> dst.output == old(dst.output) + Relay(old(src.input)).out
      ensures ok ==> src.input == Relay(old(src.input)).rest
      ensures GoodReports(reports, info, Announced(old(src.input)).0, Announced(old(src.input)).1,
                          Relay(old(src.input)).heads)
      ensures if |dst.output| < |old(dst.output)| + 16 then reports == []
              else reports != [] && reports[0] == Some(FirstReport(old(src.input)))
      ensures ok ==> reports != [] && reports[|reports| - 1] == Some(info)
      ensures ok ==> info.filesCompleted == info.filesAll == Announced(old(src.input)).0
      ensures ok ==> info.totalSize == Announced(old(src.input)).1
      ensures !ok ==> reports == [] || info.filesCompleted < Announced(old(src.input)).0
    {
      ghost var before := dst.output;
      ghost var s := src.input;
      ghost var counts := RelayCounts(s);
      ghost var files := RelayFiles(Announced(s).0, counts.rest);
      ok := CountsProxy();
      if !ok {
        if counts.ok {
          ForwardedTooLittle(before, counts.out, dst.output, files.out, Relay(s).ok, Relay(s).out);
        }
        return;
      }
      Report(true, info.filesAll, info.totalSize, files.heads);
      assert reports == [Some(FirstReport(s))];
      ghost var mid := dst.output;
      ok := FilesProxy(info.filesAll, info.totalSize);
      ForwardedThen(before, counts.out, mid, files.out, files.ok, dst.output, ok, Relay(s).out);
      assert |dst.output| >= |mid| == |before| + 16;
      assert reports != [] && reports[0] == Some(FirstReport(s));
      if ok {
        Report(true, info.filesAll, info.totalSize, files.heads);
      }
    }
  }

  /** The view after all reports were received. */
  function Shown(reports: seq<Report>): View
    requires reports != []
  {
    UpdateWatcherInfo(reports[|reports| - 1])
  }

  /** If the copy fails, completion was never shown. */
  lemma FailureIsFinal(reports: seq<Report>, now: WatcherInfo, n: u64, total: u64, heads: seq<Head>)
    requires GoodReports(reports, now, n, total, heads)
    requires reports == [] || now.filesCompleted < n
    ensures CompletionIsFinal(reports + [None])
    ensures forall j | 0 <= j <= |reports| :: UpdateWatcherInfo((reports + [None])[j]) != Completed
  {
    ReportsTellProgress(reports, now, n, total, heads);
    var all := reports + [None];
    forall j | 0 <= j < |reports| ensures UpdateWatcherInfo(all[j]) != Completed {
      assert all[j] == reports[j];
    }
    assert all[|reports|] == None;
  }

  // ---- What the numbers mean for the watching client ----

  /** If the sender announced the sum of the sizes, the total progress never exceeds it; and it reaches it with the
      report that shows completion. */
  lemma ProgressIsBounded(info: WatcherInfo, n: u64, total: u64, heads: seq<Head>)
    requires Truthful(info, n, total, heads) && |heads| <= n && Sum(heads) <= total
    ensures info.totalProgress <= total == info.totalSize
    ensures UpdateWatcherInfo(Some(info)) == Completed && |heads| == n && Sum(heads) == total ==>
              info.totalProgress == info.totalSize
  {
    var i: nat := info.filesCompleted;
    if During(info, heads) {
      DuringIsBounded(info, total, heads);
    } else if Finished(info, heads) {
      FinishedIsBounded(info, total, heads);
    }
  }

  lemma SumWithin(heads: seq<Head>, i: nat)
    requires i < |heads|
    ensures Sum(heads[..i]) + RegularSize(heads[i].meta) <= Sum(heads)
  {
    SumUpTo(heads, i);
    SumGrows(heads, i + 1);
  }

  lemma DuringIsBounded(info: WatcherInfo, total: u64, heads: seq<Head>)
    requires During(info, heads) && Sum(heads) <= total
    ensures info.totalProgress == Sum(heads[..info.filesCompleted]) + info.curProgress <= total
  {
    var i: nat := info.filesCompleted;
    SumWithin(heads, i);
    NotWrapped(info.totalProgress, Sum(heads[..i]) + info.curProgress, total);
  }

  lemma FinishedIsBounded(info: WatcherInfo, total: u64, heads: seq<Head>)
    requires Finished(info, heads) && Sum(heads) <= total
    ensures info.totalProgress == Sum(heads[..info.filesCompleted]) <= total
    ensures info.filesCompleted == |heads| ==> info.totalProgress == Sum(heads)
  {
    var i: nat := info.filesCompleted;
    SumGrows(heads, i);
    NotWrapped(info.totalProgress, Sum(heads[..i]), total);
    if i == |heads| {
      assert heads[..i] == heads;
    }
  }

  lemma NotWrapped(progress: u64, n: nat, total: u64)
    requires progress == n % U64_LIMIT && n <= total
    ensures progress == n
  {
  }

  lemma AllDone(done: Relayed, n: nat, s: bytes, all: Relayed)
    requires SoFar(done, n, n, s, all)
    ensures all.out == done.out && all.rest == s && all.ok
  {
  }

  lemma HeadsFrom(done: seq<Head>, one: seq<Head>, heads: seq<Head>)
    requires done + one <= heads
    ensures one <= heads[|done|..]
  {
    assert one == (done + one)[|done|..];
  }

  lemma ForwardedMore(before: bytes, done: Relayed, mid: bytes, one: Relayed, after: bytes)
    requires mid == before + done.out && Forwarded(mid, one.out, one.ok, after, true)
    ensures one.ok && after == before + Chain(done, one).out
  {
    assert before + (done.out + one.out) == mid + one.out;
  }

  /** A file that was forwarded, or one that stops because there is nothing more to read. */
  lemma ContentEnds(before: bytes, s: bytes, progress: nat, size: u64)
    requires progress <= size && progress <= |s| && (progress < size ==> s[progress..] == [])
    ensures Forwarded(before, RelayContent(size, s).out, RelayContent(size, s).ok, before + s[..progress],
                      progress == size)
    ensures progress == size ==> s[progress..] == RelayContent(size, s).rest
  {
    if progress < size {
      assert s[..progress] == s;
    }
  }

  lemma BlockRead(s: bytes, progress: nat, block: bytes, rest: bytes)
    requires progress <= |s| && s[progress..] == block + rest
    ensures progress + |block| <= |s|
    ensures s[..progress + |block|] == s[..progress] + block && s[progress + |block|..] == rest
  {
    assert s == s[..progress] + s[progress..];
    assert s == (s[..progress] + block) + rest;
  }

  /** A file that stops after a block was read but not written. */
  lemma ContentStops(before: bytes, s: bytes, next: nat, size: u64, after: bytes)
    requires next <= |s| && next <= size && Sent(before, s[..next], after, false)
    ensures Forwarded(before, RelayContent(size, s).out, RelayContent(size, s).ok, after, false)
  {
    var out := RelayContent(size, s).out;
    assert out == s[..next] + out[next..];
    ForwardedTooLittle(before, s[..next], after, out[next..], RelayContent(size, s).ok, out);
  }

  /** Everything of the current file was counted; only the number of completed files is still to be raised. */
  ghost predicate BodyCounted(info: WatcherInfo, m: Metainfo, n: u64, total: u64, heads: seq<Head>) {
    var i := info.filesCompleted;
    && info.filesAll == n && info.totalSize == total
    && i < |heads| && heads[i].meta == m && AboutFile(info, heads[i])
    && (Progresses(m) ==> info.curProgress == info.curSize)
    && info.curProgress <= info.curSize
    && info.totalProgress == Sum(heads[..i + 1]) % U64_LIMIT
  }

  /** A file begins after those that were completed. */
  lemma FileBegins(was: WatcherInfo, now: WatcherInfo, h: Head, n: u64, total: u64, heads: seq<Head>)
    requires Truthful(was, n, total, heads) && Between(was, heads)
    requires was.filesCompleted < n && was.filesCompleted < |heads| && heads[was.filesCompleted] == h
    requires now == was.(curFile := h.path, curSize := SizeOf(h.meta), curProgress := 0)
    ensures Truthful(now, n, total, heads) && During(now, heads) && NotAfter(was, now, heads)
  {
    assert Sum(heads[..0]) == 0;
  }

  lemma RegularIsCounted(info: WatcherInfo, m: Metainfo, n: u64, total: u64, heads: seq<Head>)
    requires Truthful(info, n, total, heads) && During(info, heads)
    requires heads[info.filesCompleted].meta == m && IsReg(m) && info.curProgress == SizeOf(m)
    ensures BodyCounted(info, m, n, total, heads)
  {
    SumUpTo(heads, info.filesCompleted);
  }

  /** The size of anything but a regular file does not count. */
  lemma OtherIsCounted(was: WatcherInfo, now: WatcherInfo, m: Metainfo, n: u64, total: u64, heads: seq<Head>)
    requires Truthful(was, n, total, heads) && During(was, heads)
    requires heads[was.filesCompleted].meta == m && !IsReg(m)
    requires now == was.(curProgress := now.curProgress)
    requires now.curProgress <= SizeOf(m) && (Progresses(m) ==> now.curProgress == SizeOf(m))
    ensures BodyCounted(now, m, n, total, heads) && NotAfter(was, now, heads)
  {
    SumUpTo(heads, was.filesCompleted);
  }

  lemma FileEnds(was: WatcherInfo, now: WatcherInfo, m: Metainfo, n: u64, total: u64, heads: seq<Head>)
    requires BodyCounted(was, m, n, total, heads) && was.filesCompleted < n
    requires now == was.(filesCompleted := was.filesCompleted + 1)
    ensures Truthful(now, n, total, heads) && Finished(now, heads) && NotAfter(was, now, heads)
  {
  }
}
