/**
 * The append-only audit writer: one active file, rotated by size to files named after
 * the time and a per-session counter, and pruned by age. A run may restart the writer
 * at any point.
 */
module AuditSink {
  import opened AuditText

  /** The stamp is the clock in milliseconds; the counter starts over with each session. */
  datatype Name = Name(stamp: int, counter: nat)

  datatype File = File(text: string, mtime: int)

  datatype Options = Options(maxBytes: int, retention: int)

  /**
   * `order` lists the rotated files on disk by when they were rotated, and `appended`
   * every line ever appended; neither is consulted by the writer.
   */
  datatype Store = Store(
    active: File,
    rotated: map<Name, File>,
    bytes: nat,
    counter: nat,
    order: seq<Name>,
    appended: seq<string>)

  datatype AuditEvent =
    | Append(line: string, now: int, later: int, mtime: int)
    | Restart(now: int)

  // -- Steps -------------------------------------------------------------------------

  predicate Old(o: Options, f: File, now: int) {
    f.mtime < now - o.retention
  }

  function Remaining(order: seq<Name>, rotated: map<Name, File>): seq<Name> {
    if order == [] then []
    else
      var rest := Remaining(order[1..], rotated);
      if order[0] in rotated then [order[0]] + rest else rest
  }

  function Prune(o: Options, s: Store, now: int): Store {
    s.(rotated := Kept(o, s.rotated, now), order := Remaining(s.order, Kept(o, s.rotated, now)))
  }

  /** Renaming onto a name that exists replaces that file. */
  function Renamed(s: Store, now: int): Store {
    var name := Name(now, s.counter);
    s.(rotated := s.rotated[name := s.active], order := Remaining(s.order, s.rotated - {name}) + [name],
       active := File("", now), bytes := 0, counter := s.counter + 1)
  }

  /** The clock is read for the new name and again for pruning. */
  function Rotate(o: Options, s: Store, now: int, later: int): Store {
    Prune(o, Renamed(s, now), later)
  }

  function Written(s: Store, line: string, mtime: int): Store {
    s.(active := File(s.active.text + line + [NL], mtime), bytes := s.bytes + |line| + 1,
       appended := s.appended + [line])
  }

  function SinkStep(o: Options, s: Store, e: AuditEvent): Store {
    match e
    case Append(line, now, later, mtime) =>
      var w := Written(s, line, mtime);
      if w.bytes >= o.maxBytes then Rotate(o, w, now, later) else w
    case Restart(now) => Prune(o, s.(bytes := |s.active.text|, counter := 0), now)
  }

  const EMPTY: Store := Store(File("", 0), map[], 0, 0, [], [])

  function Run(o: Options, events: seq<AuditEvent>): Store {
    if events == [] then EMPTY else SinkStep(o, Run(o, events[..|events| - 1]), events[|events| - 1])
  }

  // -- What is on disk ---------------------------------------------------------------

  function LinesOf(order: seq<Name>, rotated: map<Name, File>): seq<string> {
    if order == [] then []
    else
      var n := |order| - 1;
      LinesOf(order[..n], rotated) + if order[n] in rotated then Pieces(rotated[order[n]].text) else []
  }

  /** The lines on disk, files oldest first. */
  function LogOf(s: Store): seq<string> {
    LinesOf(s.order, s.rotated) + Pieces(s.active.text)
  }

  predicate IsSuffix(a: seq<string>, b: seq<string>) {
    |a| <= |b| && a == b[|b| - |a|..]
  }

  /** The line is one line; files are touched later than they are rotated away; a rotation picks an unused name. */
  predicate Regular(o: Options, s: Store, e: AuditEvent) {
    match e
    case Append(line, now, later, mtime) =>
      && LineOk(line)
      && (forall n | n in s.rotated :: s.rotated[n].mtime < mtime)
      && (s.bytes + |line| + 1 >= o.maxBytes ==> Name(now, s.counter) !in s.rotated)
    case Restart(_) => true
  }

  ghost predicate RegularRun(o: Options, events: seq<AuditEvent>) {
    forall k | 0 <= k < |events| :: Regular(o, Run(o, events[..k]), events[k])
  }

  predicate Listed(order: seq<Name>, rotated: map<Name, File>) {
    && (forall i | 0 <= i < |order| :: order[i] in rotated)
    && (forall n | n in rotated :: n in order)
  }

  predicate TimesRise(order: seq<Name>, rotated: map<Name, File>)
    requires forall i | 0 <= i < |order| :: order[i] in rotated
  {
    forall i, j | 0 <= i < j < |order| :: rotated[order[i]].mtime < rotated[order[j]].mtime
  }

  ghost predicate OrderOk(s: Store) {
    Listed(s.order, s.rotated) && TimesRise(s.order, s.rotated)
  }

  ghost predicate FilesOk(o: Options, s: Store) {
    && WellFormed(s.active.text) && s.bytes == |s.active.text| && (o.maxBytes > 0 ==> s.bytes < o.maxBytes)
    && (s.active.text != "" ==> forall n | n in s.rotated :: s.rotated[n].mtime < s.active.mtime)
    && (forall n | n in s.rotated :: WellFormed(s.rotated[n].text) && |s.rotated[n].text| >= o.maxBytes)
  }

  ghost predicate SinkInv(o: Options, s: Store) {
    OrderOk(s) && FilesOk(o, s) && IsSuffix(LogOf(s), s.appended)
  }

  lemma {:induction false} RemainingIs(order: seq<Name>, kept: map<Name, File>)
    ensures forall n :: n in Remaining(order, kept) <==> n in order && n in kept
    ensures (forall n | n in order :: n in kept) ==> Remaining(order, kept) == order
  {
    if order != [] {
      RemainingIs(order[1..], kept);
      assert order == [order[0]] + order[1..];
    }
  }

  function Kept(o: Options, rotated: map<Name, File>, now: int): map<Name, File> {
    map n | n in rotated && !Old(o, rotated[n], now) :: rotated[n]
  }

  /** Pruning keeps exactly the rotated files last written within the retention window, and touches nothing else. */
  lemma PruneExactly(o: Options, s: Store, now: int)
    ensures var p := Prune(o, s, now);
            && (forall n :: n in p.rotated <==> n in s.rotated && s.rotated[n].mtime >= now - o.retention)
            && (forall n | n in p.rotated :: p.rotated[n] == s.rotated[n])
            && (forall n :: n in p.order <==> n in s.order && n in p.rotated)
            && p == s.(rotated := p.rotated, order := p.order)
  {
    RemainingIs(s.order, Kept(o, s.rotated, now));
  }

  /** Pruning a list whose times rise removes a prefix of it. */
  lemma {:induction false} PruneIsPrefix(o: Options, order: seq<Name>, rotated: map<Name, File>, now: int) returns (k: nat)
    requires forall i | 0 <= i < |order| :: order[i] in rotated
    requires TimesRise(order, rotated)
    ensures k <= |order| && Remaining(order, Kept(o, rotated, now)) == order[k..]
    ensures forall i | k <= i < |order| :: order[i] in Kept(o, rotated, now)
  {
    if order == [] {
      k := 0;
    } else if Old(o, rotated[order[0]], now) {
      var tail := order[1..];
      forall i | 0 <= i < |tail| ensures tail[i] in rotated {
        assert tail[i] == order[i + 1];
      }
      assert TimesRise(tail, rotated) by {
        forall i, j | 0 <= i < j < |tail| ensures rotated[tail[i]].mtime < rotated[tail[j]].mtime {
          assert tail[i] == order[i + 1] && tail[j] == order[j + 1];
        }
      }
      var j := PruneIsPrefix(o, tail, rotated, now);
      k := j + 1;
      forall i | k <= i < |order| ensures order[i] in Kept(o, rotated, now) {
        assert tail[i - 1] in Kept(o, rotated, now);
      }
    } else {
      k := 0;
      forall i | 0 <= i < |order| ensures order[i] in Kept(o, rotated, now) {
        assert i > 0 ==> rotated[order[0]].mtime < rotated[order[i]].mtime;
      }
      RemainingIs(order, Kept(o, rotated, now));
    }
  }

  lemma {:induction false} LinesSplit(order: seq<Name>, rotated: map<Name, File>, k: nat)
    requires k <= |order|
    ensures LinesOf(order, rotated) == LinesOf(order[..k], rotated) + LinesOf(order[k..], rotated)
  {
    hide Pieces;
    if k == |order| {
      assert order[..k] == order;
    } else {
      var n := |order| - 1;
      LinesSplit(order[..n], rotated, k);
      assert order[..n][..k] == order[..k];
      LinesLast(order, rotated);
      LinesLast(order[k..], rotated);
      assert order[k..][..n - k] == order[..n][k..] && order[k..][n - k] == order[n];
      hide LinesOf;
    }
  }

  lemma LinesLast(order: seq<Name>, rotated: map<Name, File>)
    requires order != []
    ensures var n := |order| - 1;
            LinesOf(order, rotated) == LinesOf(order[..n], rotated) + LinesOf([order[n]], rotated)
  {
    hide Pieces;
    var n := |order| - 1;
    assert [order[n]][..0] == [];
    assert LinesOf([], rotated) == [];
  }

  lemma {:induction false} LinesSame(order: seq<Name>, a: map<Name, File>, b: map<Name, File>)
    requires forall i | 0 <= i < |order| :: order[i] in a && order[i] in b && a[order[i]] == b[order[i]]
    ensures LinesOf(order, a) == LinesOf(order, b)
  {
    if order != [] {
      LinesSame(order[..|order| - 1], a, b);
    }
  }

  /** Pruning only ever forgets the oldest lines. */
  lemma PruneKeeps(o: Options, s: Store, now: int)
    requires SinkInv(o, s)
    ensures SinkInv(o, Prune(o, s, now))
  {
    PruneOrder(o, s, now);
    PruneLog(o, s, now);
    hide WellFormed, OrderOk, LogOf, IsSuffix, Remaining;
  }

  lemma KeptIs(o: Options, rotated: map<Name, File>, now: int)
    ensures forall n | n in Kept(o, rotated, now) :: n in rotated && Kept(o, rotated, now)[n] == rotated[n]
  {
  }

  lemma PruneOrder(o: Options, s: Store, now: int)
    requires OrderOk(s)
    ensures OrderOk(Prune(o, s, now))
  {
    var k := PruneIsPrefix(o, s.order, s.rotated, now);
    RemainingIs(s.order, Kept(o, s.rotated, now));
    KeptIs(o, s.rotated, now);
    hide Remaining, Kept;
    NewestOrder(s.order, s.rotated, Kept(o, s.rotated, now), k);
  }

  lemma NewestOrder(order: seq<Name>, rotated: map<Name, File>, kept: map<Name, File>, k: nat)
    requires Listed(order, rotated) && TimesRise(order, rotated) && k <= |order|
    requires forall n | n in kept :: n in rotated && kept[n] == rotated[n]
    requires forall i | k <= i < |order| :: order[i] in kept
    requires forall n | n in kept :: n in order[k..]
    ensures Listed(order[k..], kept) && TimesRise(order[k..], kept)
  {
    var tail := order[k..];
    forall i | 0 <= i < |tail| ensures tail[i] == order[k + i] && tail[i] in kept {
    }
  }

  lemma PruneLog(o: Options, s: Store, now: int)
    requires OrderOk(s) && IsSuffix(LogOf(s), s.appended)
    ensures IsSuffix(LogOf(Prune(o, s, now)), s.appended)
  {
    var k := PruneIsPrefix(o, s.order, s.rotated, now);
    KeptIs(o, s.rotated, now);
    hide Remaining, Pieces, Kept, OrderOk;
    var kept := Kept(o, s.rotated, now);
    PruneLines(s.order, s.rotated, kept, k);
    var gone, rest := LinesOf(s.order[..k], s.rotated), LinesOf(s.order[k..], kept);
    hide LinesOf;
    Associate(gone, rest, Pieces(s.active.text));
    SuffixOfSuffix(gone, LogOf(Prune(o, s, now)), s.appended);
  }

  lemma Associate(a: seq<string>, b: seq<string>, c: seq<string>)
    ensures (a + b) + c == a + (b + c)
  {
  }

  lemma PruneLines(order: seq<Name>, rotated: map<Name, File>, kept: map<Name, File>, k: nat)
    requires k <= |order| && forall i | k <= i < |order| :: order[i] in kept
    requires forall n | n in kept :: n in rotated && kept[n] == rotated[n]
    ensures LinesOf(order, rotated) == LinesOf(order[..k], rotated) + LinesOf(order[k..], kept)
  {
    LinesSplit(order, rotated, k);
    var tail := order[k..];
    forall i | 0 <= i < |tail| ensures tail[i] in kept {
      assert tail[i] == order[k + i];
    }
    LinesSame(tail, rotated, kept);
  }

  lemma SuffixOfSuffix(a: seq<string>, b: seq<string>, all: seq<string>)
    requires IsSuffix(a + b, all)
    ensures IsSuffix(b, all)
  {
    assert b == (a + b)[|a|..];
  }

  lemma SuffixAppend(a: seq<string>, all: seq<string>, x: string)
    requires IsSuffix(a, all)
    ensures IsSuffix(a + [x], all + [x])
  {
  }

  lemma WriteKeeps(o: Options, s: Store, line: string, mtime: int)
    requires SinkInv(o, s) && LineOk(line)
    ensures var w := Written(s, line, mtime);
            && OrderOk(w) && IsSuffix(LogOf(w), w.appended) && WellFormed(w.active.text) && w.bytes == |w.active.text|
            && LogOf(w) == LogOf(s) + [line]
  {
    hide WellFormed, Pieces;
    AppendLine(s.active.text, line);
    SuffixAppend(LogOf(s), s.appended, line);
    assert LogOf(Written(s, line, mtime)) == LogOf(s) + [line];
  }

  /** Rotating a file onto an unused name moves its lines without touching any. */
  lemma RenameKeepsLog(w: Store, now: int)
    requires OrderOk(w) && Name(now, w.counter) !in w.rotated
    ensures Renamed(w, now).order == w.order + [Name(now, w.counter)] && LogOf(Renamed(w, now)) == LogOf(w)
  {
    hide Pieces, TimesRise, Remaining, LinesOf;
    var name := Name(now, w.counter);
    RemainingIs(w.order, w.rotated - {name});
    forall n | n in w.order ensures n in w.rotated - {name} {
      var i :| 0 <= i < |w.order| && w.order[i] == n;
    }
    LinesAddFile(w.order, w.rotated, name, w.active);
    EmptyFile();
  }

  lemma LinesAddFile(order: seq<Name>, rotated: map<Name, File>, name: Name, f: File)
    requires (forall i | 0 <= i < |order| :: order[i] in rotated) && name !in rotated
    ensures LinesOf(order + [name], rotated[name := f]) == LinesOf(order, rotated) + Pieces(f.text)
  {
    hide Pieces;
    assert (order + [name])[..|order|] == order;
    LinesSame(order, rotated, rotated[name := f]);
  }

  lemma RenameOrder(w: Store, now: int)
    requires OrderOk(w) && Name(now, w.counter) !in w.rotated
    requires forall n | n in w.rotated :: w.rotated[n].mtime < w.active.mtime
    ensures OrderOk(Renamed(w, now))
  {
    RenameKeepsLog(w, now);
    hide LogOf, Remaining, Listed, TimesRise;
    AddNewest(w.order, w.rotated, Name(now, w.counter), w.active);
  }

  lemma AddNewest(order: seq<Name>, rotated: map<Name, File>, name: Name, f: File)
    requires Listed(order, rotated) && TimesRise(order, rotated) && name !in rotated
    requires forall n | n in rotated :: rotated[n].mtime < f.mtime
    ensures Listed(order + [name], rotated[name := f]) && TimesRise(order + [name], rotated[name := f])
  {
    var order', rotated' := order + [name], rotated[name := f];
    assert order'[|order|] == name;
    forall n | n in rotated' ensures n in order' {
    }
    forall i, j | 0 <= i < j < |order'| ensures rotated'[order'[i]].mtime < rotated'[order'[j]].mtime {
      assert order'[i] == order[i] && order[i] in rotated;
    }
  }

  lemma RotateKeeps(o: Options, w: Store, now: int, later: int)
    requires OrderOk(w) && IsSuffix(LogOf(w), w.appended) && WellFormed(w.active.text) && |w.active.text| >= o.maxBytes
    requires Name(now, w.counter) !in w.rotated
    requires forall n | n in w.rotated ::
               w.rotated[n].mtime < w.active.mtime && WellFormed(w.rotated[n].text) && |w.rotated[n].text| >= o.maxBytes
    ensures SinkInv(o, Rotate(o, w, now, later))
  {
    RenameKeepsLog(w, now);
    RenameOrder(w, now);
    RenameFiles(o, w, now);
    hide WellFormed, Pieces, OrderOk, LogOf, IsSuffix, Remaining, Prune, LinesOf, FilesOk;
    assert Renamed(w, now).appended == w.appended;
    PruneKeeps(o, Renamed(w, now), later);
  }

  lemma RenameFiles(o: Options, w: Store, now: int)
    requires WellFormed(w.active.text) && |w.active.text| >= o.maxBytes
    requires forall n | n in w.rotated :: WellFormed(w.rotated[n].text) && |w.rotated[n].text| >= o.maxBytes
    ensures FilesOk(o, Renamed(w, now))
  {
    EmptyFile();
    hide WellFormed, Remaining;
  }

  lemma SinkStepKeeps(o: Options, s: Store, e: AuditEvent)
    requires SinkInv(o, s) && Regular(o, s, e)
    ensures SinkInv(o, SinkStep(o, s, e))
  {
    hide WellFormed, Pieces, OrderOk, LogOf, IsSuffix, Prune, LinesOf, LineOk, Rotate;
    match e
    case Append(line, now, later, mtime) =>
      WriteKeeps(o, s, line, mtime);
      var w := Written(s, line, mtime);
      if w.bytes >= o.maxBytes {
        RotateKeeps(o, w, now, later);
      }
    case Restart(now) => RestartKeeps(o, s, now);
  }

  lemma RestartKeeps(o: Options, s: Store, now: int)
    requires SinkInv(o, s)
    ensures SinkInv(o, Prune(o, s.(bytes := |s.active.text|, counter := 0), now))
  {
    assert s.(bytes := |s.active.text|, counter := 0) == s.(counter := 0);
    PruneKeeps(o, s.(counter := 0), now);
  }

  lemma RegularPrefix(o: Options, events: seq<AuditEvent>)
    requires events != [] && RegularRun(o, events)
    ensures var n := |events| - 1; RegularRun(o, events[..n]) && Regular(o, Run(o, events[..n]), events[n])
  {
    var n := |events| - 1;
    forall k | 0 <= k < n ensures Regular(o, Run(o, events[..n][..k]), events[..n][k]) {
      assert events[..n][..k] == events[..k];
    }
  }

  lemma {:induction false} RunKeepsInv(o: Options, events: seq<AuditEvent>)
    requires RegularRun(o, events)
    ensures SinkInv(o, Run(o, events))
  {
    if events == [] {
      EmptyFile();
    } else {
      RegularPrefix(o, events);
      RunKeepsInv(o, events[..|events| - 1]);
      SinkStepKeeps(o, Run(o, events[..|events| - 1]), events[|events| - 1]);
    }
  }

  // -- Main results ------------------------------------------------------------------

  function LinesAppended(events: seq<AuditEvent>): seq<string> {
    if events == [] then []
    else
      var n := |events| - 1;
      LinesAppended(events[..n]) + if events[n].Append? then [events[n].line] else []
  }

  lemma {:induction false} AppendedAre(o: Options, events: seq<AuditEvent>)
    ensures Run(o, events).appended == LinesAppended(events)
  {
    if events != [] {
      AppendedAre(o, events[..|events| - 1]);
    }
  }

  /** Through any rotations, restarts and pruning, the files oldest to newest hold the last lines appended, in order. */
  lemma DiskHoldsTheLastLines(o: Options, events: seq<AuditEvent>)
    requires RegularRun(o, events)
    ensures IsSuffix(LogOf(Run(o, events)), LinesAppended(events))
  {
    RunKeepsInv(o, events);
    AppendedAre(o, events);
  }

  /** No file has aged out at any point of the run. */
  ghost predicate NothingAges(o: Options, events: seq<AuditEvent>) {
    forall k | 0 <= k < |events| :: NonePruned(o, Run(o, events[..k]), events[k])
  }

  predicate NonePruned(o: Options, s: Store, e: AuditEvent) {
    && (forall n | n in s.rotated :: s.rotated[n].mtime >= PrunedAt(e) - o.retention)
    && (e.Append? ==> e.mtime >= e.later - o.retention)
  }

  /** The clock as pruning reads it. */
  function PrunedAt(e: AuditEvent): int {
    if e.Append? then e.later else e.now
  }

  lemma NothingToPrune(o: Options, s: Store, now: int)
    requires OrderOk(s) && forall n | n in s.rotated :: !Old(o, s.rotated[n], now)
    ensures Prune(o, s, now) == s
  {
    assert Kept(o, s.rotated, now) == s.rotated;
    RemainingIs(s.order, s.rotated);
    forall n | n in s.order ensures n in s.rotated {
      var i :| 0 <= i < |s.order| && s.order[i] == n;
    }
  }

  lemma StepKeepsAll(o: Options, s: Store, e: AuditEvent)
    requires SinkInv(o, s) && Regular(o, s, e) && NonePruned(o, s, e)
    ensures LogOf(SinkStep(o, s, e)) == LogOf(s) + if e.Append? then [e.line] else []
  {
    match e
    case Append(line, now, later, mtime) =>
      WriteKeeps(o, s, line, mtime);
      var w := Written(s, line, mtime);
      if w.bytes >= o.maxBytes {
        assert forall n | n in w.rotated :: w.rotated[n].mtime < w.active.mtime && !Old(o, w.rotated[n], later);
        hide SinkInv, WellFormed, LogOf;
        RotateLosesNothing(o, w, now, later);
      }
    case Restart(now) =>
      hide WellFormed, LinesOf;
      NothingToPrune(o, s.(bytes := |s.active.text|, counter := 0), now);
      assert LogOf(s) + [] == LogOf(s);
  }

  lemma RotateLosesNothing(o: Options, w: Store, now: int, later: int)
    requires OrderOk(w) && Name(now, w.counter) !in w.rotated && !Old(o, w.active, later)
    requires forall n | n in w.rotated :: w.rotated[n].mtime < w.active.mtime && !Old(o, w.rotated[n], later)
    ensures LogOf(Rotate(o, w, now, later)) == LogOf(w)
  {
    RenameKeepsLog(w, now);
    RenameOrder(w, now);
    hide OrderOk, LogOf;
    NothingToPrune(o, Renamed(w, now), later);
  }

  /** With nothing aged out, the files oldest to newest hold exactly the appended lines, in order. */
  lemma {:induction false} DiskHoldsEveryLine(o: Options, events: seq<AuditEvent>)
    requires RegularRun(o, events) && NothingAges(o, events)
    ensures LogOf(Run(o, events)) == LinesAppended(events)
  {
    if events == [] {
      EmptyFile();
    } else {
      var n := |events| - 1;
      RegularPrefix(o, events);
      forall k | 0 <= k < n ensures NonePruned(o, Run(o, events[..n][..k]), events[..n][k]) {
        assert events[..n][..k] == events[..k];
      }
      DiskHoldsEveryLine(o, events[..n]);
      RunKeepsInv(o, events[..n]);
      StepKeepsAll(o, Run(o, events[..n]), events[n]);
    }
  }

  /**
   * The rotated files after a step: an append that fills the active file adds it under the
   * time and counter of that moment, replacing one of the same name; that append and a
   * restart drop exactly what is older than the retention window; other appends nothing.
   */
  lemma StepFilesExactly(o: Options, s: Store, e: AuditEvent)
    requires s.bytes == |s.active.text|
    ensures var s' := SinkStep(o, s, e);
            match e
            case Append(line, now, later, mtime) =>
              var f := File(s.active.text + line + [NL], mtime);
              var all := s.rotated[Name(now, s.counter) := f];
              if |f.text| < o.maxBytes then s'.active == f && s'.rotated == s.rotated
              else s'.active.text == ""
                   && s'.rotated == map n | n in all && all[n].mtime >= later - o.retention :: all[n]
            case Restart(now) =>
              && s'.active == s.active
              && s'.rotated == map n | n in s.rotated && s.rotated[n].mtime >= now - o.retention :: s.rotated[n]
  {
    hide Remaining;
  }

  /** Files are rotated when full and only then: the active one stays under the limit, rotated ones reached it. */
  lemma SizesBounded(o: Options, events: seq<AuditEvent>)
    requires RegularRun(o, events)
    ensures var s := Run(o, events);
            && (o.maxBytes > 0 ==> |s.active.text| < o.maxBytes)
            && forall n | n in s.rotated :: |s.rotated[n].text| >= o.maxBytes
  {
    RunKeepsInv(o, events);
  }

  /** Within one session rotation names never collide, whatever the clock does. */
  predicate NamesBelow(s: Store, olds: set<Name>) {
    forall n | n in s.rotated && n !in olds :: n.counter < s.counter
  }

  lemma SessionNamesFresh(o: Options, s: Store, e: AuditEvent, olds: set<Name>)
    requires NamesBelow(s, olds) && e.Append?
    ensures NamesBelow(SinkStep(o, s, e), olds)
    ensures Name(e.now, s.counter) in s.rotated ==> Name(e.now, s.counter) in olds
  {
  }

  lemma LinesFirst(first: Name, rest: seq<Name>, rotated: map<Name, File>)
    requires first in rotated
    ensures LinesOf([first] + rest, rotated) == Pieces(rotated[first].text) + LinesOf(rest, rotated)
  {
    LinesSplit([first] + rest, rotated, 1);
    assert ([first] + rest)[..1] == [first] && ([first] + rest)[1..] == rest;
    hide Pieces;
    assert [first][..0] == [];
    assert LinesOf([], rotated) == [];
    assert LinesOf([first], rotated) == LinesOf([], rotated) + Pieces(rotated[first].text);
  }

  predicate Distinct(order: seq<Name>) {
    forall i, j | 0 <= i < j < |order| :: order[i] != order[j]
  }

  lemma TailIsDistinct(order: seq<Name>)
    requires order != [] && Distinct(order)
    ensures Distinct(order[1..]) && order[0] !in order[1..]
  {
    var tail := order[1..];
    assert forall i | 0 <= i < |tail| :: tail[i] == order[i + 1];
  }

  /** Losing one listed file loses exactly its lines. */
  lemma {:induction false} DropOne(order: seq<Name>, rotated: map<Name, File>, name: Name)
    requires (forall n | n in order :: n in rotated) && name in order && Distinct(order)
    ensures |LinesOf(Remaining(order, rotated - {name}), rotated)| + |Pieces(rotated[name].text)|
            == |LinesOf(order, rotated)|
  {
    hide Pieces, LinesOf, Distinct;
    var tail := order[1..];
    TailIsDistinct(order);
    assert order == [order[0]] + tail;
    LinesFirst(order[0], tail, rotated);
    if order[0] == name {
      RemainingIs(tail, rotated - {name});
    } else {
      DropOne(tail, rotated, name);
      LinesFirst(order[0], Remaining(tail, rotated - {name}), rotated);
    }
  }

  /** A rotation keeps the log exactly when its name is not taken. */
  lemma RenameKeepsLogExactly(w: Store, now: int)
    requires OrderOk(w) && forall n | n in w.rotated :: Pieces(w.rotated[n].text) != []
    ensures LogOf(Renamed(w, now)) == LogOf(w) <==> Name(now, w.counter) !in w.rotated
  {
    var name := Name(now, w.counter);
    if name !in w.rotated {
      RenameKeepsLog(w, now);
    } else {
      hide Pieces;
      DistinctTimes(w.order, w.rotated);
      DropOne(w.order, w.rotated, name);
      RemainingIs(w.order, w.rotated - {name});
      var rest := Remaining(w.order, w.rotated - {name});
      hide Remaining;
      assert (rest + [name])[..|rest|] == rest;
      forall i | 0 <= i < |rest| ensures rest[i] in w.rotated - {name} {
        assert rest[i] in rest;
      }
      LinesSame(rest, w.rotated, w.rotated[name := w.active]);
      EmptyFile();
      assert |LogOf(Renamed(w, now))| < |LogOf(w)|;
    }
  }

  lemma DistinctTimes(order: seq<Name>, rotated: map<Name, File>)
    requires Listed(order, rotated) && TimesRise(order, rotated)
    ensures Distinct(order)
  {
    forall i, j | 0 <= i < j < |order| ensures order[i] != order[j] {
      assert rotated[order[i]].mtime < rotated[order[j]].mtime;
    }
  }

  /** Restarting starts the counter over, so a rotation in the same millisecond as one before overwrites that file. */
  lemma CollisionLosesLines(o: Options, a: string, b: string, now: int, mtime: int)
    requires |a| + 1 >= o.maxBytes && |b| + 1 >= o.maxBytes && o.retention >= 0 && mtime >= now && LineOk(a) && LineOk(b)
    ensures LogOf(Run(o, [Append(a, now, now, mtime), Restart(now), Append(b, now, now, mtime + 1)])) == [b]
  {
    var events := [Append(a, now, now, mtime), Restart(now), Append(b, now, now, mtime + 1)];
    var s1 := Rotate(o, Written(EMPTY, a, mtime), now, now);
    var s2 := Prune(o, s1.(bytes := |s1.active.text|, counter := 0), now);
    var s3 := Rotate(o, Written(s2, b, mtime + 1), now, now);
    OneFile(o, EMPTY, a, now, mtime);
    assert s2 == s1.(counter := 0) by { NothingToPrune(o, s1.(counter := 0), now); }
    OneFile(o, s2, b, now, mtime + 1);
    assert events[..2][..1][..0] == [];
    assert Run(o, events[..2][..1]) == s1 by { RunOne(o, events[..2][..1]); }
    assert events[..2][1] == Restart(now) && events[2] == Append(b, now, now, mtime + 1);
  }

  lemma RunOne(o: Options, events: seq<AuditEvent>)
    requires |events| == 1
    ensures Run(o, events) == SinkStep(o, EMPTY, events[0])
  {
    assert events[..0] == [];
  }

  /** Appending to an empty active file that is already full, over at most one file of the same name. */
  lemma OneFile(o: Options, s: Store, l: string, now: int, mtime: int)
    requires |l| + 1 >= o.maxBytes && o.retention >= 0 && mtime >= now && LineOk(l)
    requires s.active.text == "" && s.bytes == 0 && s.counter == 0
    requires s.order == [] || s.order == [Name(now, 0)]
    requires forall n | n in s.rotated :: n == Name(now, 0)
    ensures var s' := Rotate(o, Written(s, l, mtime), now, now);
            && SinkStep(o, s, Append(l, now, now, mtime)) == s' && s'.active == File("", now) && s'.bytes == 0
            && s'.rotated == map[Name(now, 0) := File(l + [NL], mtime)] && s'.order == [Name(now, 0)]
            && OrderOk(s') && !Old(o, s'.rotated[Name(now, 0)], now) && LogOf(s') == [l]
  {
    var name := Name(now, 0);
    var w := Written(s, l, mtime);
    assert "" + l + [NL] == l + [NL];
    hide Pieces, LinesOf, Remaining, Kept, LineOk;
    OneFileRenamed(s, w, l, now, mtime);
    var r := Renamed(w, now);
    OneFileOrder(name, r);
    hide OrderOk, Renamed, Prune;
    NothingToPrune(o, r, now);
    EmptyFile();
    OneFileLines(l, name, mtime);
    assert r.active == File("", now) && r.bytes == 0 by { ActiveAfterRename(w, now); }
    assert LogOf(r) == [l] + [];
    assert SinkStep(o, s, Append(l, now, now, mtime)) == r;
  }

  lemma OneFileOrder(name: Name, s: Store)
    requires s.order == [name] && s.rotated.Keys == {name}
    ensures OrderOk(s)
  {
  }

  lemma ActiveAfterRename(w: Store, now: int)
    ensures Renamed(w, now).active == File("", now) && Renamed(w, now).bytes == 0
  {
  }

  lemma OneFileRenamed(s: Store, w: Store, l: string, now: int, mtime: int)
    requires w.counter == 0 && w.active == File(l + [NL], mtime) && w.order == s.order && w.rotated == s.rotated
    requires s.order == [] || s.order == [Name(now, 0)]
    requires forall n | n in s.rotated :: n == Name(now, 0)
    ensures var r := Renamed(w, now);
            r.rotated == map[Name(now, 0) := File(l + [NL], mtime)] && r.order == [Name(now, 0)]
  {
    var name := Name(now, 0);
    RemainingIs(s.order, s.rotated - {name});
    var left := Remaining(s.order, s.rotated - {name});
    HasAFirst(left);
  }

  lemma HasAFirst(names: seq<Name>)
    ensures names == [] || exists n :: n in names
  {
    assert names == [] || names[0] in names;
  }

  lemma OneFileLines(l: string, name: Name, mtime: int)
    requires LineOk(l)
    ensures LinesOf([name], map[name := File(l + [NL], mtime)]) == [l]
  {
    EmptyFile();
    AppendLine("", l);
    assert "" + l + [NL] == l + [NL];
    assert [name][..0] == [];
    var rotated := map[name := File(l + [NL], mtime)];
    assert LinesOf([], rotated) == [];
    assert LinesOf([name], rotated) == LinesOf([name][..0], rotated) + Pieces(l + [NL]);
  }

  // -- The class ---------------------------------------------------------------------

  class FileAuditSink {
    const options: Options
    var active: File
    var rotated: map<Name, File>
    var bytesWritten: nat
    var rotationSeq: nat
    ghost var order: seq<Name>
    ghost var appended: seq<string>

    ghost function View(): Store
      reads this
    {
      Store(active, rotated, bytesWritten, rotationSeq, order, appended)
    }

    /** Opening reuses the active file that is there and seeds the byte count from its size. */
    constructor (o: Options, activeFile: File, others: map<Name, File>, ghost before: Store, now: int)
      requires before.active == activeFile && before.rotated == others
      ensures options == o && View() == SinkStep(o, before, Restart(now))
    {
      options := o;
      active := activeFile;
      rotated := others;
      bytesWritten := |activeFile.text|;
      rotationSeq := 0;
      order := before.order;
      appended := before.appended;
      new;
      PruneOld(now);
    }

    method AppendRecord(line: string, now: int, later: int, mtime: int)
      modifies this
      ensures View() == SinkStep(options, old(View()), Append(line, now, later, mtime))
      ensures old(SinkInv(options, View()) && Regular(options, View(), Append(line, now, later, mtime))) ==>
                SinkInv(options, View())
    {
      if SinkInv(options, View()) && Regular(options, View(), Append(line, now, later, mtime)) {
        SinkStepKeeps(options, View(), Append(line, now, later, mtime));
      }
      hide SinkInv, Regular, Prune;
      active := File(active.text + line + [NL], mtime);
      bytesWritten := bytesWritten + |line| + 1;
      appended := appended + [line];
      if bytesWritten >= options.maxBytes {
        RotateFile(now, later);
      }
    }

    method RotateFile(now: int, later: int)
      modifies this
      ensures View() == Rotate(options, old(View()), now, later)
    {
      var name := Name(now, rotationSeq);
      rotationSeq := rotationSeq + 1;
      order := Remaining(order, rotated - {name}) + [name];
      rotated := rotated[name := active];
      active := File("", now);
      bytesWritten := 0;
      PruneOld(later);
    }

    method PruneOld(now: int)
      modifies this`rotated, this`order
      ensures View() == Prune(options, old(View()), now)
      ensures forall n :: n in rotated <==> n in old(rotated) && old(rotated)[n].mtime >= now - options.retention
    {
      var cutoff := now - options.retention;
      var names := rotated.Keys;
      while names != {}
        invariant names <= old(rotated).Keys
        invariant forall n | n in rotated :: n in old(rotated) && rotated[n] == old(rotated)[n]
        invariant forall n | n in old(rotated) :: n in rotated <==> n in names || !Old(options, old(rotated)[n], now)
        invariant order == old(order)
        decreases names
      {
        var name :| name in names;
        names := names - {name};
        if rotated[name].mtime < cutoff {
          rotated := rotated - {name};
        }
      }
      assert rotated == Prune(options, old(View()), now).rotated;
      order := Remaining(order, rotated);
    }
  }
}
