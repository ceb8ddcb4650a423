/**
 * Reading the end of the audit log: files newest first, each read through a bounded
 * window, stopping as soon as enough records are collected. Parsing a line, and
 * matching the device asked for, is one partial function over lines.
 */
module AuditReader {
  import opened Wrappers
  import opened AuditText
  import opened AuditSink
  import opened TailBlocks

  type Parser<!R> = string -> Option<R>

  /** The records among some lines: what parses and matches, in order. */
  function Records<R>(parse: Parser<R>, ls: seq<string>): seq<R> {
    if ls == [] then []
    else
      var n := |ls| - 1;
      Records(parse, ls[..n]) + match parse(ls[n]) case Some(r) => [r] case None => []
  }

  lemma {:induction false} RecordsConcat<R>(parse: Parser<R>, a: seq<string>, b: seq<string>)
    ensures Records(parse, a + b) == Records(parse, a) + Records(parse, b)
  {
    if b == [] {
      assert a + b == a;
    } else {
      var n := |b| - 1;
      assert (a + b)[..|a + b| - 1] == a + b[..n];
      RecordsConcat(parse, a, b[..n]);
    }
  }

  /** `slice(-limit)`: a limit of zero is no limit, and a negative one drops from the front. */
  function SliceFrom<R>(s: seq<R>, limit: int): seq<R> {
    if limit > 0 then LastN(s, limit) else if -limit <= |s| then s[-limit..] else []
  }

  // -- File order ----------------------------------------------------------------------

  function InsertByTime(n: Name, sorted: seq<Name>, rotated: map<Name, File>): seq<Name>
    requires n in rotated && forall i | 0 <= i < |sorted| :: sorted[i] in rotated
  {
    if sorted == [] || rotated[sorted[0]].mtime <= rotated[n].mtime then [n] + sorted
    else [sorted[0]] + InsertByTime(n, sorted[1..], rotated)
  }

  predicate TimesFall(ns: seq<Name>, rotated: map<Name, File>)
    requires forall i | 0 <= i < |ns| :: ns[i] in rotated
  {
    forall i, j | 0 <= i < j < |ns| :: rotated[ns[i]].mtime >= rotated[ns[j]].mtime
  }

  lemma {:induction false} InsertAddsOne(n: Name, sorted: seq<Name>, rotated: map<Name, File>)
    requires n in rotated && forall i | 0 <= i < |sorted| :: sorted[i] in rotated
    ensures multiset(InsertByTime(n, sorted, rotated)) == multiset(sorted) + multiset{n}
  {
    if sorted != [] && rotated[sorted[0]].mtime > rotated[n].mtime {
      InsertAddsOne(n, sorted[1..], rotated);
      assert sorted == [sorted[0]] + sorted[1..];
    }
  }

  lemma OnlyOldOrNew(n: Name, sorted: seq<Name>, out: seq<Name>)
    requires multiset(out) == multiset(sorted) + multiset{n}
    ensures forall i | 0 <= i < |out| :: out[i] == n || out[i] in sorted
  {
    forall i | 0 <= i < |out| ensures out[i] == n || out[i] in sorted {
      assert out[i] in multiset(out);
    }
  }

  lemma {:induction false} InsertKeepsOrder(n: Name, sorted: seq<Name>, rotated: map<Name, File>)
    requires n in rotated && (forall i | 0 <= i < |sorted| :: sorted[i] in rotated) && TimesFall(sorted, rotated)
    ensures var out := InsertByTime(n, sorted, rotated);
            (forall i | 0 <= i < |out| :: out[i] in rotated) && TimesFall(out, rotated)
  {
    if sorted != [] && rotated[sorted[0]].mtime > rotated[n].mtime {
      var tail := sorted[1..];
      assert forall i | 0 <= i < |tail| :: tail[i] == sorted[i + 1];
      InsertKeepsOrder(n, tail, rotated);
      var rest := InsertByTime(n, tail, rotated);
      InsertAddsOne(n, tail, rotated);
      OnlyOldOrNew(n, tail, rest);
      PrependKeepsOrder(sorted[0], rest, rotated);
    }
  }

  lemma PrependKeepsOrder(n: Name, rest: seq<Name>, rotated: map<Name, File>)
    requires n in rotated && (forall i | 0 <= i < |rest| :: rest[i] in rotated) && TimesFall(rest, rotated)
    requires forall i | 0 <= i < |rest| :: rotated[n].mtime >= rotated[rest[i]].mtime
    ensures (forall i | 0 <= i < |[n] + rest| :: ([n] + rest)[i] in rotated) && TimesFall([n] + rest, rotated)
  {
  }

  /** Rotated files newest first, from a directory listing in any order. */
  method SortNewestFirst(listing: seq<Name>, rotated: map<Name, File>) returns (out: seq<Name>)
    requires forall i | 0 <= i < |listing| :: listing[i] in rotated
    ensures multiset(out) == multiset(listing)
    ensures (forall i | 0 <= i < |out| :: out[i] in rotated) && TimesFall(out, rotated)
  {
    out := [];
    for i := 0 to |listing|
      invariant multiset(out) == multiset(listing[..i])
      invariant (forall k | 0 <= k < |out| :: out[k] in rotated) && TimesFall(out, rotated)
    {
      InsertAddsOne(listing[i], out, rotated);
      InsertKeepsOrder(listing[i], out, rotated);
      out := InsertByTime(listing[i], out, rotated);
      assert listing[..i + 1] == listing[..i] + [listing[i]];
    }
    assert listing[..|listing|] == listing;
  }

  function Reverse<R>(s: seq<R>): seq<R> {
    if s == [] then [] else Reverse(s[1..]) + [s[0]]
  }

  lemma {:induction false} ReverseAt<R>(s: seq<R>)
    ensures |Reverse(s)| == |s| && forall i | 0 <= i < |s| :: Reverse(s)[i] == s[|s| - 1 - i]
  {
    if s != [] {
      ReverseAt(s[1..]);
      forall i | 0 <= i < |s| ensures Reverse(s)[i] == s[|s| - 1 - i] {
        if i < |s| - 1 {
          assert Reverse(s)[i] == Reverse(s[1..])[i];
        }
      }
    }
  }

  predicate TimesFallStrictly(ns: seq<Name>, rotated: map<Name, File>)
    requires forall i | 0 <= i < |ns| :: ns[i] in rotated
  {
    forall i, j | 0 <= i < j < |ns| :: rotated[ns[i]].mtime > rotated[ns[j]].mtime
  }

  /** Two newest-first orders of the same files, with no two times equal, are the same order. */
  lemma {:induction false} SortedUnique(a: seq<Name>, b: seq<Name>, rotated: map<Name, File>)
    requires (forall i | 0 <= i < |a| :: a[i] in rotated) && (forall i | 0 <= i < |b| :: b[i] in rotated)
    requires TimesFall(a, rotated) && TimesFallStrictly(b, rotated) && multiset(a) == multiset(b)
    ensures a == b
  {
    if b == [] {
      assert |multiset(a)| == 0;
    } else {
      assert b[0] in multiset(a);
      SameHead(a, b, rotated);
      SameTailMultiset(a, b);
      TailsFall(a, b, rotated);
      SortedUnique(a[1..], b[1..], rotated);
      assert a == [a[0]] + a[1..] && b == [b[0]] + b[1..];
    }
  }

  lemma NewestFirst(a: seq<Name>, p: nat, rotated: map<Name, File>)
    requires (forall i | 0 <= i < |a| :: a[i] in rotated) && TimesFall(a, rotated) && p < |a|
    ensures rotated[a[0]].mtime >= rotated[a[p]].mtime
  {
  }

  lemma StrictlyNewestFirst(b: seq<Name>, q: nat, rotated: map<Name, File>)
    requires (forall i | 0 <= i < |b| :: b[i] in rotated) && TimesFallStrictly(b, rotated) && q < |b|
    ensures q == 0 || rotated[b[0]].mtime > rotated[b[q]].mtime
  {
  }

  lemma SameHead(a: seq<Name>, b: seq<Name>, rotated: map<Name, File>)
    requires (forall i | 0 <= i < |a| :: a[i] in rotated) && (forall i | 0 <= i < |b| :: b[i] in rotated)
    requires a != [] && b != []
    requires TimesFall(a, rotated) && TimesFallStrictly(b, rotated) && multiset(a) == multiset(b)
    ensures a[0] == b[0]
  {
    assert b[0] in multiset(a);
    var p :| 0 <= p < |a| && a[p] == b[0];
    assert a[0] in multiset(b);
    var q :| 0 <= q < |b| && b[q] == a[0];
    NewestFirst(a, p, rotated);
    StrictlyNewestFirst(b, q, rotated);
  }

  lemma SameTailMultiset(a: seq<Name>, b: seq<Name>)
    requires a != [] && b != [] && a[0] == b[0] && multiset(a) == multiset(b)
    ensures multiset(a[1..]) == multiset(b[1..])
  {
    assert a == [a[0]] + a[1..] && b == [b[0]] + b[1..];
    assert multiset(a[1..]) == multiset(a) - multiset{a[0]} && multiset(b[1..]) == multiset(b) - multiset{b[0]};
  }

  lemma TailsFall(a: seq<Name>, b: seq<Name>, rotated: map<Name, File>)
    requires a != [] && b != []
    requires (forall i | 0 <= i < |a| :: a[i] in rotated) && (forall i | 0 <= i < |b| :: b[i] in rotated)
    requires TimesFall(a, rotated) && TimesFallStrictly(b, rotated)
    ensures (forall i | 0 <= i < |a[1..]| :: a[1..][i] in rotated) && (forall i | 0 <= i < |b[1..]| :: b[1..][i] in rotated)
    ensures TimesFall(a[1..], rotated) && TimesFallStrictly(b[1..], rotated)
  {
    var x, y := a[1..], b[1..];
    forall i | 0 <= i < |x| ensures x[i] == a[i + 1] && x[i] in rotated {
    }
    forall i | 0 <= i < |y| ensures y[i] == b[i + 1] && y[i] in rotated {
    }
  }

  /** With rising rotation times, sorting any listing puts the files in the reverse of the order they were rotated in. */
  lemma SortingReversesRotation(s: Store, listing: seq<Name>, out: seq<Name>)
    requires OrderOk(s) && multiset(listing) == multiset(s.order) && multiset(out) == multiset(listing)
    requires (forall i | 0 <= i < |out| :: out[i] in s.rotated) && TimesFall(out, s.rotated)
    ensures out == Reverse(s.order)
  {
    var back := Reverse(s.order);
    ReverseAt(s.order);
    ReverseMultiset(s.order);
    forall i | 0 <= i < |back| ensures back[i] in s.rotated {
      assert back[i] == s.order[|back| - 1 - i];
    }
    assert TimesFallStrictly(back, s.rotated) by {
      forall i, j | 0 <= i < j < |back| ensures s.rotated[back[i]].mtime > s.rotated[back[j]].mtime {
        assert back[i] == s.order[|back| - 1 - i] && back[j] == s.order[|back| - 1 - j];
      }
    }
    SortedUnique(out, back, s.rotated);
  }

  lemma {:induction false} ReverseMultiset<R>(s: seq<R>)
    ensures multiset(Reverse(s)) == multiset(s)
  {
    if s != [] {
      ReverseMultiset(s[1..]);
      assert s == [s[0]] + s[1..];
    }
  }

  // -- Tail ----------------------------------------------------------------------------

  /** All records of some files given newest first, oldest record first. */
  function AllRecords<R>(parse: Parser<R>, texts: seq<string>, window: nat): seq<R> {
    if texts == [] then []
    else
      var n := |texts| - 1;
      Records(parse, TailLines(texts[n], window)) + AllRecords(parse, texts[..n], window)
  }

  lemma {:induction false} MoreFilesPrepend<R>(parse: Parser<R>, texts: seq<string>, window: nat, i: nat) returns (older: seq<R>)
    requires i <= |texts|
    ensures AllRecords(parse, texts, window) == older + AllRecords(parse, texts[..i], window)
  {
    hide Records, TailLines;
    if i == |texts| {
      older := [];
      assert texts[..i] == texts;
    } else {
      var n := |texts| - 1;
      var before := MoreFilesPrepend(parse, texts[..n], window, i);
      assert texts[..n][..i] == texts[..i];
      older := Records(parse, TailLines(texts[n], window)) + before;
    }
  }

  function Limit(requested: int, maxLimit: int): int {
    var atLeastOne := if requested < 1 then 1 else requested;
    if atLeastOne <= maxLimit then atLeastOne else maxLimit
  }

  /** What a query returns; without a positive maximum that is some of the newest file. */
  function TailResult<R>(parse: Parser<R>, texts: seq<string>, window: nat, requested: int, maxLimit: int): seq<R> {
    if maxLimit >= 1 then LastN(AllRecords(parse, texts, window), Limit(requested, maxLimit))
    else if texts == [] then []
    else SliceFrom(Records(parse, TailLines(texts[0], window)), maxLimit)
  }

  /** The last of what was read: as many records as were asked for, at least one, but no more than the maximum or there are. */
  ghost predicate LastAsked<R>(all: seq<R>, requested: int, maxLimit: int, out: seq<R>) {
    var asked := if requested >= 1 then requested else 1;
    && |out| <= |all| && out == all[|all| - |out|..]
    && |out| <= maxLimit && |out| <= asked && (|out| == |all| || |out| == maxLimit || |out| == asked)
  }

  /** With a positive maximum a query returns the last records read: exactly as many as asked for when there are that many. */
  lemma TailSize<R>(parse: Parser<R>, texts: seq<string>, window: nat, requested: int, maxLimit: int)
    requires maxLimit >= 1
    ensures LastAsked(AllRecords(parse, texts, window), requested, maxLimit,
                      TailResult(parse, texts, window, requested, maxLimit))
    ensures 1 <= requested <= maxLimit && requested <= |AllRecords(parse, texts, window)| ==>
              |TailResult(parse, texts, window, requested, maxLimit)| == requested
  {
    hide AllRecords;
  }

  /** Collect files newest first until there are enough records, then cut to the limit. */
  method Tail<R>(parse: Parser<R>, texts: seq<string>, window: nat, requested: int, maxLimit: int) returns (out: seq<R>)
    ensures out == TailResult(parse, texts, window, requested, maxLimit)
    ensures maxLimit >= 1 ==> LastAsked(AllRecords(parse, texts, window), requested, maxLimit, out)
  {
    hide LastAsked, Records, TailLines;
    if maxLimit >= 1 {
      TailSize(parse, texts, window, requested, maxLimit);
    }
    var limit := Limit(requested, maxLimit);
    var collected: seq<R> := [];
    for i := 0 to |texts|
      invariant collected == AllRecords(parse, texts[..i], window)
      invariant limit <= 0 ==> i == 0
    {
      var block := Records(parse, TailLines(texts[i], window));
      collected := block + collected;
      assert texts[..i + 1][..i] == texts[..i];
      if |collected| >= limit {
        ghost var older := MoreFilesPrepend(parse, texts, window, i + 1);
        if limit > 0 {
          EnoughIsEnough(older, collected, limit);
        } else {
          assert collected == block;
        }
        return SliceFrom(collected, limit);
      }
    }
    assert texts[..|texts|] == texts;
    out := SliceFrom(collected, limit);
  }

  /** Lines of each file, oldest file first. */
  function LinesOldestFirst(texts: seq<string>): seq<string> {
    if texts == [] then []
    else LinesOldestFirst(texts[1..]) + Pieces(texts[0])
  }

  lemma {:induction false} LinesPrepend(texts: seq<string>)
    requires texts != []
    ensures LinesOldestFirst(texts) == Pieces(texts[|texts| - 1]) + LinesOldestFirst(texts[..|texts| - 1])
  {
    hide Pieces;
    var n := |texts| - 1;
    if n == 0 {
      assert texts[1..] == [] && texts[..0] == [];
      assert LinesOldestFirst([]) == [];
    } else {
      LinesPrepend(texts[1..]);
      assert texts[1..][..n - 1] == texts[..n][1..];
    }
  }

  /** When every file fits the window, the records read are the records of every line. */
  lemma {:induction false} NothingOutsideWindows<R>(parse: Parser<R>, texts: seq<string>, window: nat)
    requires forall i | 0 <= i < |texts| :: WellFormed(texts[i]) && |texts[i]| <= window
    ensures AllRecords(parse, texts, window) == Records(parse, LinesOldestFirst(texts))
  {
    if texts != [] {
      var n := |texts| - 1;
      NothingOutsideWindows(parse, texts[..n], window);
      LinesPrepend(texts);
      assert WellFormed(texts[n]);
      SmallFileReadWhole(Pieces(texts[n]), window);
      RecordsConcat(parse, Pieces(texts[n]), LinesOldestFirst(texts[..n]));
    }
  }

  // -- What the windows lose -------------------------------------------------------------

  /** A file's records as its window divides them. */
  function BlockOf<R>(parse: Parser<R>, text: string, window: nat): Block<R> {
    var all, read := Records(parse, Pieces(text)), Records(parse, TailLines(text, window));
    Block(if |read| <= |all| then all[..|all| - |read|] else [], read)
  }

  /** A window reads the last records of its file, and all of a file that fits it. */
  lemma LostRecords<R>(parse: Parser<R>, text: string, window: nat)
    requires WellFormed(text)
    ensures var b := BlockOf(parse, text, window);
            && b.lost + b.read == Records(parse, Pieces(text)) && b.read == Records(parse, TailLines(text, window))
            && (|text| <= window ==> b.lost == [])
  {
    hide Pieces, TailLines, WellFormed, Records;
    var k := KeptLines(text, window);
    RecordsSplit(parse, Pieces(text), k);
  }

  lemma RecordsSplit<R>(parse: Parser<R>, ls: seq<string>, k: nat)
    requires k <= |ls|
    ensures Records(parse, ls) == Records(parse, ls[..k]) + Records(parse, ls[k..])
    ensures k == 0 ==> Records(parse, ls[..k]) == []
  {
    assert ls == ls[..k] + ls[k..];
    RecordsConcat(parse, ls[..k], ls[k..]);
    NoLines(parse);
    hide Records;
  }

  lemma KeptLines(text: string, window: nat) returns (k: nat)
    requires WellFormed(text)
    ensures k <= |Pieces(text)| && TailLines(text, window) == Pieces(text)[k..]
    ensures |text| <= window ==> k == 0
  {
    var ls := Pieces(text);
    k := |ls|;
    if |text| <= window {
      SmallFileReadWhole(ls, window);
      k := 0;
    } else if window > 0 {
      k := LargeFileReadsTail(ls, window);
    } else {
      EmptyFile();
    }
  }

  lemma NoLines<R>(parse: Parser<R>)
    ensures Records(parse, []) == []
  {
  }

  function Blocks<R>(parse: Parser<R>, texts: seq<string>, window: nat): seq<Block<R>> {
    seq(|texts|, i requires 0 <= i < |texts| => BlockOf(parse, texts[i], window))
  }

  ghost predicate AllWellFormed(texts: seq<string>) {
    forall i | 0 <= i < |texts| :: WellFormed(texts[i])
  }

  function LogRecords<R>(parse: Parser<R>, texts: seq<string>): seq<R> {
    Records(parse, LinesOldestFirst(texts))
  }

  lemma LogRecordsPrepend<R>(parse: Parser<R>, texts: seq<string>)
    requires texts != []
    ensures var m := |texts| - 1;
            LogRecords(parse, texts) == Records(parse, Pieces(texts[m])) + LogRecords(parse, texts[..m])
  {
    LinesPrepend(texts);
    hide Records, LinesOldestFirst, Pieces;
    RecordsConcat(parse, Pieces(texts[|texts| - 1]), LinesOldestFirst(texts[..|texts| - 1]));
  }

  /** The blocks hold what is read and what the log holds. */
  lemma {:induction false} BlocksAre<R>(parse: Parser<R>, texts: seq<string>, window: nat)
    requires AllWellFormed(texts)
    ensures ReadOf(Blocks(parse, texts, window)) == AllRecords(parse, texts, window)
    ensures AllOf(Blocks(parse, texts, window)) == LogRecords(parse, texts)
  {
    hide Pieces, TailLines, WellFormed, Records, BlockOf;
    if texts == [] {
      NoLines(parse);
    } else {
      var m := |texts| - 1;
      BlocksAre(parse, texts[..m], window);
      assert Blocks(parse, texts, window)[..m] == Blocks(parse, texts[..m], window);
      LogRecordsPrepend(parse, texts);
      LostRecords(parse, texts[m], window);
    }
  }

  /** It is enough that the files up to the first one larger than the window yield `n` records. */
  lemma EnoughByFirstLargeFile<R>(parse: Parser<R>, texts: seq<string>, window: nat, f: nat, n: nat)
    requires AllWellFormed(texts) && f <= |texts| && forall i | 0 <= i < f :: |texts[i]| <= window
    requires f < |texts| ==> |AllRecords(parse, texts[..f + 1], window)| >= n
    ensures EnoughBeforeLoss(Blocks(parse, texts, window), n)
  {
    var bs := Blocks(parse, texts, window);
    hide AllRecords, Pieces, WellFormed, Records, TailLines, BlockOf, ReadOf, AllOf;
    forall i | 0 <= i < f ensures bs[i].lost == [] {
      LostRecords(parse, texts[i], window);
    }
    if f < |texts| {
      BlocksAre(parse, texts[..f + 1], window);
      assert bs[..f + 1] == Blocks(parse, texts[..f + 1], window);
      forall i | 0 <= i < |bs| && bs[i].lost != [] ensures |ReadOf(bs[..i + 1])| >= n {
        var read, all := OlderInFront(bs[..i + 1], f + 1);
        assert bs[..i + 1][..f + 1] == bs[..f + 1];
      }
    }
  }

  /** The files as the reader takes them: the active one, then the rotated ones newest first. */
  function SourceTexts(s: Store, sorted: seq<Name>): seq<string>
    requires forall i | 0 <= i < |sorted| :: sorted[i] in s.rotated
  {
    [s.active.text] + seq(|sorted|, i requires 0 <= i < |sorted| => s.rotated[sorted[i]].text)
  }

  lemma {:induction false} RotatedLines(order: seq<Name>, rotated: map<Name, File>, texts: seq<string>)
    requires (forall i | 0 <= i < |order| :: order[i] in rotated) && |texts| == |order|
    requires forall i | 0 <= i < |order| :: texts[i] == rotated[order[|order| - 1 - i]].text
    ensures LinesOldestFirst(texts) == LinesOf(order, rotated)
  {
    hide Pieces;
    if order != [] {
      var n := |order| - 1;
      RotatedLines(order[..n], rotated, texts[1..]);
    }
  }

  lemma SourcesHoldTheLog(s: Store)
    requires OrderOk(s)
    ensures (forall i | 0 <= i < |Reverse(s.order)| :: Reverse(s.order)[i] in s.rotated)
    ensures LinesOldestFirst(SourceTexts(s, Reverse(s.order))) == LogOf(s)
  {
    ReverseAt(s.order);
    var back := Reverse(s.order);
    forall i | 0 <= i < |back| ensures back[i] in s.rotated {
      assert back[i] == s.order[|back| - 1 - i];
    }
    var texts := SourceTexts(s, back);
    assert texts[1..] == seq(|back|, i requires 0 <= i < |back| => s.rotated[back[i]].text);
    RotatedLines(s.order, s.rotated, texts[1..]);
  }

  /**
   * Reading the log of a regular run, whatever order the directory is listed in, and
   * although reading stops early and each file is read through a window: the result is
   * exactly the last matching records of the log when enough of them were read before
   * any was lost; and only then, when no two records are the same.
   */
  method TailOfLog<R>(parse: Parser<R>, o: Options, ghost events: seq<AuditEvent>, s: Store, listing: seq<Name>, window: nat,
                      requested: int, maxLimit: int) returns (out: seq<R>)
    requires RegularRun(o, events) && s == Run(o, events) && multiset(listing) == multiset(s.order)
    ensures out == TailResult(parse, Sources(s), window, requested, maxLimit)
    ensures 1 <= requested <= maxLimit ==> TailIsTrue(parse, s, window, requested, out)
    ensures requested < 1 <= maxLimit ==> TailIsTrue(parse, s, window, 1, out)
    ensures 1 <= maxLimit < requested ==> TailIsTrue(parse, s, window, maxLimit, out)
    ensures IsSuffix(LogOf(s), LinesAppended(events))
    ensures NothingAges(o, events) ==> LogOf(s) == LinesAppended(events)
  {
    RunKeepsInv(o, events);
    DiskHoldsTheLastLines(o, events);
    if NothingAges(o, events) {
      DiskHoldsEveryLine(o, events);
    }
    hide Run, RegularRun, NothingAges, LogOf, IsSuffix, TimesRise, AllWellFormed, Sources, SourceTexts, FilesOk;
    hide Records, AllRecords, LinesOldestFirst, LastN, TimesFall, TailIsTrue, LastAsked, TailResult;
    ListingOnDisk(s, listing);
    var sorted := SortNewestFirst(listing, s.rotated);
    SortedAreSources(o, s, listing, sorted);
    if maxLimit >= 1 {
      AskedIsTrue(parse, s, window, requested, maxLimit);
    }
    out := Tail(parse, SourceTexts(s, sorted), window, requested, maxLimit);
  }

  lemma AskedIsTrue<R>(parse: Parser<R>, s: Store, window: nat, requested: int, maxLimit: int)
    requires AllWellFormed(Sources(s)) && LinesOldestFirst(Sources(s)) == LogOf(s) && maxLimit >= 1
    ensures var out := TailResult(parse, Sources(s), window, requested, maxLimit);
            && (1 <= requested <= maxLimit ==> TailIsTrue(parse, s, window, requested, out))
            && (requested < 1 ==> TailIsTrue(parse, s, window, 1, out))
            && (maxLimit < requested ==> TailIsTrue(parse, s, window, maxLimit, out))
  {
    hide AllWellFormed, Sources, LinesOldestFirst, LogOf, LastN, AllRecords, TailIsTrue;
    TailIs(parse, s, window, Limit(requested, maxLimit));
  }

  lemma SortedAreSources(o: Options, s: Store, listing: seq<Name>, sorted: seq<Name>)
    requires SinkInv(o, s) && multiset(listing) == multiset(s.order) && multiset(sorted) == multiset(listing)
    requires (forall i | 0 <= i < |sorted| :: sorted[i] in s.rotated) && TimesFall(sorted, s.rotated)
    ensures SourceTexts(s, sorted) == Sources(s) && AllWellFormed(Sources(s)) && LinesOldestFirst(Sources(s)) == LogOf(s)
  {
    SortingReversesRotation(s, listing, sorted);
    SourcesHoldTheLog(s);
    SourcesWellFormed(o, s, sorted);
    hide SinkInv, TimesFall, Sources, SourceTexts, AllWellFormed, LinesOldestFirst, LogOf, Reverse;
  }

  function TextOf(s: Store, n: Name): string {
    if n in s.rotated then s.rotated[n].text else ""
  }

  /** The files of a store in the order they are read: the active one, then the rotated ones, last rotated first. */
  function Sources(s: Store): seq<string> {
    [s.active.text] + seq(|s.order|, i requires 0 <= i < |s.order| => TextOf(s, s.order[|s.order| - 1 - i]))
  }

  /**
   * What a tail of `n` is worth: place by place it is the end of the log exactly when
   * enough was read before any loss; then its records are the last of the log, and when
   * no two records are the same, only then.
   */
  ghost predicate TailIsTrue<R>(parse: Parser<R>, s: Store, window: nat, n: nat, out: seq<R>) {
    var bs, log := Blocks(parse, Sources(s), window), Records(parse, LogOf(s));
    && Forget(LastN(ReadOf(Spots(bs)), n)) == out && Forget(LastN(AllOf(Spots(bs)), n)) == LastN(log, n)
    && (LastN(ReadOf(Spots(bs)), n) == LastN(AllOf(Spots(bs)), n) <==> EnoughBeforeLoss(bs, n))
    && (EnoughBeforeLoss(bs, n) ==> out == LastN(log, n))
    && (NoRepeats(log) ==> (out == LastN(log, n) <==> EnoughBeforeLoss(bs, n)))
  }

  lemma TailIs<R>(parse: Parser<R>, s: Store, window: nat, n: nat)
    requires AllWellFormed(Sources(s)) && LinesOldestFirst(Sources(s)) == LogOf(s)
    ensures TailIsTrue(parse, s, window, n, LastN(AllRecords(parse, Sources(s), window), n))
  {
    var bs := Blocks(parse, Sources(s), window);
    BlocksAre(parse, Sources(s), window);
    SameByPlace(bs, n);
    LastReadAreLastExactly(bs, n);
    LastRecordsAreLast(bs, n);
    hide Records, AllRecords, Blocks, Sources, ReadOf, AllOf, Spots, LastN, Forget, EnoughBeforeLoss, NoRepeats;
  }

  lemma ListingOnDisk(s: Store, listing: seq<Name>)
    requires OrderOk(s) && multiset(listing) == multiset(s.order)
    ensures forall i | 0 <= i < |listing| :: listing[i] in s.rotated
  {
    forall i | 0 <= i < |listing| ensures listing[i] in s.rotated {
      assert listing[i] in multiset(s.order);
    }
  }

  lemma SourcesWellFormed(o: Options, s: Store, sorted: seq<Name>)
    requires SinkInv(o, s) && sorted == Reverse(s.order) && forall i | 0 <= i < |sorted| :: sorted[i] in s.rotated
    ensures AllWellFormed(Sources(s)) && SourceTexts(s, sorted) == Sources(s)
  {
    SourcesAre(s, sorted);
    FilesWellFormed(o, s);
    hide Reverse, Sources, SourceTexts, AllWellFormed, SinkInv;
  }

  lemma FilesWellFormed(o: Options, s: Store)
    requires SinkInv(o, s)
    ensures AllWellFormed(Sources(s))
  {
    hide WellFormed, LogOf, IsSuffix, TextOf, TimesRise;
    forall i | 0 <= i < |s.order| ensures WellFormed(TextOf(s, s.order[i])) {
      assert s.order[i] in s.rotated && TextOf(s, s.order[i]) == s.rotated[s.order[i]].text by { TextIs(s, s.order[i]); }
    }
  }

  lemma TextIs(s: Store, n: Name)
    ensures n in s.rotated ==> TextOf(s, n) == s.rotated[n].text
  {
  }

  lemma SourcesAre(s: Store, sorted: seq<Name>)
    requires sorted == Reverse(s.order) && forall i | 0 <= i < |sorted| :: sorted[i] in s.rotated
    ensures SourceTexts(s, sorted) == Sources(s)
  {
    ReverseAt(s.order);
    hide Reverse;
    var a, b := SourceTexts(s, sorted), Sources(s);
    forall i | 0 <= i < |a| ensures a[i] == b[i] {
      if i > 0 {
        assert a[i] == s.rotated[sorted[i - 1]].text && sorted[i - 1] == s.order[|s.order| - i];
        assert b[i] == TextOf(s, s.order[|s.order| - i]);
      }
    }
  }

  // -- Exact conditions ------------------------------------------------------------------

  /** Every line is a record. */
  function Everything(): Parser<string> {
    l => Some(l)
  }

  lemma {:induction false} EverythingRecords(ls: seq<string>)
    ensures Records(Everything(), ls) == ls
  {
    if ls != [] {
      EverythingRecords(ls[..|ls| - 1]);
    }
  }

  lemma FileLoses(text: string, window: nat)
    requires WellFormed(text)
    ensures var kept := |Records(Everything(), TailLines(text, window))|;
            kept <= |Pieces(text)| && (|text| > window ==> kept < |Pieces(text)|)
  {
    ReadsAllExactlyWhenItFits(Pieces(text), window);
    EverythingRecords(TailLines(text, window));
  }

  predicate SomeTooLarge(texts: seq<string>, window: nat) {
    exists i :: 0 <= i < |texts| && |texts[i]| > window
  }

  lemma {:induction false} WindowsLose(texts: seq<string>, window: nat)
    requires forall i | 0 <= i < |texts| :: WellFormed(texts[i])
    ensures |AllRecords(Everything(), texts, window)| <= |LinesOldestFirst(texts)|
    ensures SomeTooLarge(texts, window) ==>
              |AllRecords(Everything(), texts, window)| < |LinesOldestFirst(texts)|
  {
    hide Pieces, TailLines, WellFormed, Records, LinesOldestFirst, Everything;
    if texts == [] {
      assert !SomeTooLarge(texts, window);
    } else {
      var n := |texts| - 1;
      WindowsLose(texts[..n], window);
      LinesPrepend(texts);
      FileLoses(texts[n], window);
      assert SomeTooLarge(texts, window) ==> |texts[n]| > window || SomeTooLarge(texts[..n], window) by {
        if SomeTooLarge(texts, window) && |texts[n]| <= window {
          var i :| 0 <= i < |texts| && |texts[i]| > window;
          assert texts[..n][i] == texts[i];
        }
      }
    }
  }

  /** Every query, with whatever maximum, gets the true tail exactly when every file fits the window. */
  lemma TailIsTrueExactlyWhenFilesFit(texts: seq<string>, window: nat)
    requires AllWellFormed(texts)
    ensures (forall parse: Parser<string>, n: int, maxLimit: int | 1 <= n <= maxLimit ::
               TailResult(parse, texts, window, n, maxLimit) == LastN(LogRecords(parse, texts), n))
            <==> forall i | 0 <= i < |texts| :: |texts[i]| <= window
  {
    hide LastN, TailResult, LogRecords, LinesOldestFirst, Everything;
    if forall i | 0 <= i < |texts| :: |texts[i]| <= window {
      forall parse: Parser<string>, n: int, maxLimit: int | 1 <= n <= maxLimit
        ensures TailResult(parse, texts, window, n, maxLimit) == LastN(LogRecords(parse, texts), n)
      {
        NothingLost(parse, texts, window, n, maxLimit);
      }
    } else {
      assert SomeTooLarge(texts, window);
      var n := SomethingLost(texts, window);
    }
  }

  lemma NothingLost(parse: Parser<string>, texts: seq<string>, window: nat, n: int, maxLimit: int)
    requires AllWellFormed(texts) && (forall i | 0 <= i < |texts| :: |texts[i]| <= window) && 1 <= n <= maxLimit
    ensures TailResult(parse, texts, window, n, maxLimit) == LastN(LogRecords(parse, texts), n)
  {
    NothingOutsideWindows(parse, texts, window);
  }

  lemma SomethingLost(texts: seq<string>, window: nat) returns (n: int)
    requires AllWellFormed(texts) && SomeTooLarge(texts, window)
    ensures n >= 1 && TailResult(Everything(), texts, window, n, n) != LastN(LogRecords(Everything(), texts), n)
  {
    WindowsLose(texts, window);
    EverythingRecords(LinesOldestFirst(texts));
    hide LinesOldestFirst, AllRecords, Records, Everything;
    n := |LinesOldestFirst(texts)|;
  }

  /** A maximum of zero returns every record of a newest file that fits the window. */
  lemma ZeroReturnsWholeFile<R>(parse: Parser<R>, texts: seq<string>, window: nat, requested: int)
    requires texts != [] && WellFormed(texts[0]) && |texts[0]| <= window
    ensures TailResult(parse, texts, window, requested, 0) == Records(parse, Pieces(texts[0]))
  {
    SmallFileReadWhole(Pieces(texts[0]), window);
  }

  /** Any other maximum that is not positive drops that many records from the front of the newest file instead. */
  lemma NonPositiveDropsFromFront<R>(parse: Parser<R>, texts: seq<string>, window: nat, requested: int, maxLimit: int)
    requires texts != [] && WellFormed(texts[0]) && |texts[0]| <= window && maxLimit <= 0
    ensures var all, out := Records(parse, Pieces(texts[0])), TailResult(parse, texts, window, requested, maxLimit);
            && |out| == (if |all| >= -maxLimit then |all| + maxLimit else 0)
            && out == all[|all| - |out|..]
  {
    hide *;
    FileReadWhole(texts[0], window);
    NewestOnly(parse, texts, window, requested, maxLimit);
    SliceDropsFront(Records(parse, Pieces(texts[0])), maxLimit);
  }

  lemma FileReadWhole(text: string, window: nat)
    requires WellFormed(text) && |text| <= window
    ensures TailLines(text, window) == Pieces(text)
  {
    hide Pieces, TailLines;
    SmallFileReadWhole(Pieces(text), window);
  }

  lemma NewestOnly<R>(parse: Parser<R>, texts: seq<string>, window: nat, requested: int, maxLimit: int)
    requires texts != [] && maxLimit <= 0
    ensures TailResult(parse, texts, window, requested, maxLimit)
            == SliceFrom(Records(parse, TailLines(texts[0], window)), maxLimit)
  {
  }

  lemma SliceDropsFront<R>(s: seq<R>, limit: int)
    requires limit <= 0
    ensures |SliceFrom(s, limit)| == (if |s| >= -limit then |s| + limit else 0)
    ensures SliceFrom(s, limit) == s[|s| - |SliceFrom(s, limit)|..]
  {
  }

  /** No query returns more than the configured maximum, exactly when that is positive. */
  lemma MaxLimitRespectedExactly(maxLimit: int)
    ensures (forall parse: Parser<string>, texts, window: nat, requested: int ::
               |TailResult(parse, texts, window, requested, maxLimit)| <= if maxLimit < 0 then 0 else maxLimit)
            <==> maxLimit >= 1
  {
    if maxLimit < 1 {
      var many := seq(1 - maxLimit, i => "x");
      assert AllOk(many);
      SmallFileReadWhole(many, |Text(many)|);
      EverythingRecords(many);
      assert |TailResult(Everything(), [Text(many)], |Text(many)|, 1, maxLimit)| == 1;
    }
  }
}
