/**
 * Reading the end of a log file by file, newest first, when each file only gives up its
 * last records: what is lost, and when the last records read are the last of the log.
 */
module TailBlocks {
  /** One file's records: those before the part that is read, and those in it. */
  datatype Block<R> = Block(lost: seq<R>, read: seq<R>)

  /** The last `n` of a sequence, or all of it. */
  function LastN<R>(s: seq<R>, n: nat): seq<R> {
    if |s| <= n then s else s[|s| - n..]
  }

  lemma EnoughIsEnough<R>(older: seq<R>, newer: seq<R>, n: nat)
    requires |newer| >= n
    ensures LastN(older + newer, n) == LastN(newer, n)
  {
  }

  /** Everything read from blocks given newest first, oldest record first. */
  function ReadOf<R>(bs: seq<Block<R>>): seq<R> {
    if bs == [] then []
    else
      var m := |bs| - 1;
      bs[m].read + ReadOf(bs[..m])
  }

  /** Everything in them. */
  function AllOf<R>(bs: seq<Block<R>>): seq<R> {
    if bs == [] then []
    else
      var m := |bs| - 1;
      bs[m].lost + bs[m].read + AllOf(bs[..m])
  }

  /** Wherever something was lost, the blocks up to and including that one had yielded `n`. */
  ghost predicate EnoughBeforeLoss<R>(bs: seq<Block<R>>, n: nat) {
    forall i | 0 <= i < |bs| && bs[i].lost != [] :: |ReadOf(bs[..i + 1])| >= n
  }

  lemma {:induction false} OlderInFront<R>(bs: seq<Block<R>>, i: nat) returns (read: seq<R>, all: seq<R>)
    requires i <= |bs|
    ensures ReadOf(bs) == read + ReadOf(bs[..i]) && AllOf(bs) == all + AllOf(bs[..i])
    ensures forall r | r in read :: r in all
  {
    if i == |bs| {
      read, all := [], [];
      assert bs[..i] == bs;
    } else {
      var m := |bs| - 1;
      var read', all' := OlderInFront(bs[..m], i);
      assert bs[..m][..i] == bs[..i];
      read, all := bs[m].read + read', bs[m].lost + bs[m].read + all';
    }
  }

  lemma EnoughPrefix<R>(bs: seq<Block<R>>, n: nat, k: nat)
    requires k <= |bs| && EnoughBeforeLoss(bs, n)
    ensures EnoughBeforeLoss(bs[..k], n)
  {
    hide ReadOf;
    forall i | 0 <= i < k && bs[..k][i].lost != [] ensures |ReadOf(bs[..k][..i + 1])| >= n {
      assert bs[..k][..i + 1] == bs[..i + 1] && bs[..k][i] == bs[i];
    }
  }

  /** Fewer records than wanted, and enough before every loss: then nothing was lost at all. */
  lemma {:induction false} NothingLostYet<R>(bs: seq<Block<R>>, n: nat)
    requires EnoughBeforeLoss(bs, n) && |ReadOf(bs)| < n
    ensures ReadOf(bs) == AllOf(bs)
  {
    if bs != [] {
      var m := |bs| - 1;
      EnoughPrefix(bs, n, m);
      NothingLostYet(bs[..m], n);
      assert bs[..m + 1] == bs;
      assert bs[m].lost == [];
    }
  }

  lemma {:induction false} ReadsNoMore<R>(bs: seq<Block<R>>)
    ensures |ReadOf(bs)| <= |AllOf(bs)|
  {
    if bs != [] {
      ReadsNoMore(bs[..|bs| - 1]);
    }
  }

  lemma {:induction false} EnoughIsTrue<R>(bs: seq<Block<R>>, n: nat)
    requires EnoughBeforeLoss(bs, n)
    ensures LastN(ReadOf(bs), n) == LastN(AllOf(bs), n)
  {
    if bs != [] {
      var m := |bs| - 1;
      var newer, b := ReadOf(bs[..m]), bs[m];
      EnoughPrefix(bs, n, m);
      EnoughIsTrue(bs[..m], n);
      ReadsNoMore(bs[..m]);
      assert bs[..m + 1] == bs;
      assert b.lost != [] ==> |b.read + newer| >= n;
      if |newer| >= n {
        EnoughIsEnough(b.read, newer, n);
        EnoughIsEnough(b.lost + b.read, AllOf(bs[..m]), n);
      } else {
        NothingLostYet(bs[..m], n);
        OlderDropped(b.lost, b.read, newer, n);
      }
    }
  }

  lemma OlderDropped<R>(lost: seq<R>, read: seq<R>, newer: seq<R>, n: nat)
    requires lost != [] ==> |read + newer| >= n
    ensures LastN(lost + read + newer, n) == LastN(read + newer, n)
  {
    assert lost + read + newer == lost + (read + newer);
    if lost == [] {
      assert lost + (read + newer) == read + newer;
    } else {
      EnoughIsEnough(lost, read + newer, n);
    }
  }

  ghost predicate NoRepeats<R>(rs: seq<R>) {
    forall i, j | 0 <= i < j < |rs| :: rs[i] != rs[j]
  }

  /** What stands in a lost record's place differs from it, when no two records are the same. */
  lemma LossShows<R>(read: seq<R>, all: seq<R>, lost: seq<R>, rest: seq<R>, n: nat)
    requires lost != [] && |rest| < n && NoRepeats(all + (lost + rest)) && forall r | r in read :: r in all
    ensures LastN(read + rest, n) != LastN(all + (lost + rest), n)
  {
    var a, b := read + rest, all + (lost + rest);
    var x, y := LastN(a, n), LastN(b, n);
    var p := |all| + |lost| - 1;
    assert b[p] == lost[|lost| - 1] && y[|y| - |rest| - 1] == b[p];
    if read != [] {
      var q := |read| - 1;
      assert a[q] == read[q] && read[q] in all;
      var k :| 0 <= k < |all| && all[k] == read[q];
      assert b[k] == all[k] && b[k] != b[p];
      assert |x| == |y| ==> x[|x| - |rest| - 1] == a[q];
    }
  }

  /** The first block in which something is lost too early, if there is one. */
  lemma {:induction false} FirstLoss<R>(bs: seq<Block<R>>, n: nat) returns (i: nat)
    ensures i <= |bs| && EnoughBeforeLoss(bs[..i], n)
    ensures !EnoughBeforeLoss(bs, n) ==> i < |bs| && bs[i].lost != [] && |ReadOf(bs[..i + 1])| < n
  {
    hide ReadOf;
    if EnoughBeforeLoss(bs, n) {
      assert bs[..|bs|] == bs;
      return |bs|;
    }
    var m := |bs| - 1;
    forall j | 0 <= j < m ensures bs[..m][j] == bs[j] && bs[..m][..j + 1] == bs[..j + 1] {
    }
    if EnoughBeforeLoss(bs[..m], n) {
      i := m;
    } else {
      i := FirstLoss(bs[..m], n);
      assert bs[..m][..i + 1] == bs[..i + 1] && bs[..m][..i] == bs[..i];
    }
  }

  lemma LossIsSeen<R>(bs: seq<Block<R>>, n: nat)
    requires NoRepeats(AllOf(bs)) && LastN(ReadOf(bs), n) == LastN(AllOf(bs), n)
    ensures EnoughBeforeLoss(bs, n)
  {
    hide EnoughBeforeLoss, NoRepeats, LastN;
    if !EnoughBeforeLoss(bs, n) {
      var i := FirstLoss(bs, n);
      var read, all := OlderInFront(bs, i + 1);
      assert bs[..i + 1][..i] == bs[..i];
      assert |ReadOf(bs[..i])| <= |ReadOf(bs[..i + 1])|;
      NothingLostYet(bs[..i], n);
      assert AllOf(bs[..i + 1]) == bs[i].lost + ReadOf(bs[..i + 1]);
      LossShows(read, all, bs[i].lost, ReadOf(bs[..i + 1]), n);
    }
  }

  // -- Records with their places -----------------------------------------------------------

  /** A record, the block it is in, and its place among that block's records. */
  datatype Spot<R> = Spot(block: nat, place: nat, record: R)

  function Placed<R>(rs: seq<R>, block: nat, from: nat): seq<Spot<R>> {
    seq(|rs|, i requires 0 <= i < |rs| => Spot(block, from + i, rs[i]))
  }

  function Spots<R>(bs: seq<Block<R>>): seq<Block<Spot<R>>> {
    seq(|bs|, i requires 0 <= i < |bs| => Block(Placed(bs[i].lost, i, 0), Placed(bs[i].read, i, |bs[i].lost|)))
  }

  /** Forgetting the places. */
  function Forget<R>(ss: seq<Spot<R>>): seq<R> {
    seq(|ss|, i requires 0 <= i < |ss| => ss[i].record)
  }

  lemma {:induction false} PlacesForgotten<R>(bs: seq<Block<R>>)
    ensures Forget(ReadOf(Spots(bs))) == ReadOf(bs) && Forget(AllOf(Spots(bs))) == AllOf(bs)
  {
    if bs != [] {
      var m := |bs| - 1;
      PlacesForgotten(bs[..m]);
      LastBlock(bs);
      LastBlock(Spots(bs));
      LastSpots(bs);
      hide ReadOf, AllOf, Spots, Forget;
      ForgetConcat(Spots(bs)[m].read, ReadOf(Spots(bs)[..m]));
      ForgetConcat(Spots(bs)[m].lost + Spots(bs)[m].read, AllOf(Spots(bs)[..m]));
      ForgetConcat(Spots(bs)[m].lost, Spots(bs)[m].read);
    }
  }

  lemma LastSpots<R>(bs: seq<Block<R>>)
    requires bs != []
    ensures var m := |bs| - 1;
            && |Spots(bs)| == |bs| && Spots(bs)[..m] == Spots(bs[..m])
            && Forget(Spots(bs)[m].lost) == bs[m].lost && Forget(Spots(bs)[m].read) == bs[m].read
  {
  }

  lemma LastBlock<R>(bs: seq<Block<R>>)
    requires bs != []
    ensures var m := |bs| - 1;
            ReadOf(bs) == bs[m].read + ReadOf(bs[..m]) && AllOf(bs) == bs[m].lost + bs[m].read + AllOf(bs[..m])
  {
  }

  lemma ForgetConcat<R>(a: seq<Spot<R>>, b: seq<Spot<R>>)
    ensures Forget(a + b) == Forget(a) + Forget(b)
  {
  }

  lemma ForgetLast<R>(ss: seq<Spot<R>>, n: nat)
    ensures Forget(LastN(ss, n)) == LastN(Forget(ss), n)
  {
  }

  lemma {:induction false} SpotsDiffer<R>(bs: seq<Block<R>>)
    ensures NoRepeats(AllOf(Spots(bs))) && forall s | s in AllOf(Spots(bs)) :: s.block < |bs|
  {
    if bs != [] {
      var m := |bs| - 1;
      SpotsDiffer(bs[..m]);
      assert Spots(bs)[..m] == Spots(bs[..m]);
      LastBlock(Spots(bs));
      var mine, rest := Spots(bs)[m].lost + Spots(bs)[m].read, AllOf(Spots(bs)[..m]);
      hide AllOf, Spots;
      assert forall i | 0 <= i < |mine| :: mine[i].block == m && mine[i].place == i by { PlacedInBlock(bs, m); }
      TwoPartsDiffer(mine, rest, m);
    }
  }

  lemma PlacedInBlock<R>(bs: seq<Block<R>>, m: nat)
    requires m < |bs|
    ensures var mine := Spots(bs)[m].lost + Spots(bs)[m].read;
            forall i | 0 <= i < |mine| :: mine[i].block == m && mine[i].place == i
  {
  }

  lemma TwoPartsDiffer<R>(mine: seq<Spot<R>>, rest: seq<Spot<R>>, m: nat)
    requires (forall i | 0 <= i < |mine| :: mine[i].block == m && mine[i].place == i)
    requires NoRepeats(rest) && forall s | s in rest :: s.block < m
    ensures NoRepeats(mine + rest) && forall s | s in mine + rest :: s.block < m + 1
  {
    var all := mine + rest;
    forall i, j | 0 <= i < j < |all| ensures all[i] != all[j] {
      if i < |mine| <= j {
        assert all[j] == rest[j - |mine|] && rest[j - |mine|] in rest;
      }
    }
  }

  lemma SameLosses<R>(bs: seq<Block<R>>, n: nat)
    ensures EnoughBeforeLoss(Spots(bs), n) <==> EnoughBeforeLoss(bs, n)
  {
    forall i | 0 <= i < |bs|
      ensures (Spots(bs)[i].lost != [] <==> bs[i].lost != []) && |ReadOf(Spots(bs)[..i + 1])| == |ReadOf(bs[..i + 1])|
    {
      assert Spots(bs)[..i + 1] == Spots(bs[..i + 1]);
      PlacesForgotten(bs[..i + 1]);
    }
    hide ReadOf, Spots;
    assert |Spots(bs)| == |bs| by { SpotsSize(bs); }
  }

  lemma SpotsSize<R>(bs: seq<Block<R>>)
    ensures |Spots(bs)| == |bs|
  {
  }

  /** The last `n` records read are the last `n` of the log, place by place, exactly when enough were read before any loss. */
  lemma LastReadAreLastExactly<R>(bs: seq<Block<R>>, n: nat)
    ensures LastN(ReadOf(Spots(bs)), n) == LastN(AllOf(Spots(bs)), n) <==> EnoughBeforeLoss(bs, n)
  {
    SameLosses(bs, n);
    SpotsDiffer(bs);
    hide ReadOf, AllOf, Spots, LastN, NoRepeats;
    if EnoughBeforeLoss(bs, n) {
      EnoughIsTrue(Spots(bs), n);
    }
    if LastN(ReadOf(Spots(bs)), n) == LastN(AllOf(Spots(bs)), n) {
      LossIsSeen(Spots(bs), n);
    }
  }

  /** Then the records are the same; and when no two records are the same, only then. */
  lemma LastRecordsAreLast<R>(bs: seq<Block<R>>, n: nat)
    ensures EnoughBeforeLoss(bs, n) ==> LastN(ReadOf(bs), n) == LastN(AllOf(bs), n)
    ensures NoRepeats(AllOf(bs)) ==> (LastN(ReadOf(bs), n) == LastN(AllOf(bs), n) <==> EnoughBeforeLoss(bs, n))
  {
    hide ReadOf, AllOf, LastN, NoRepeats;
    if EnoughBeforeLoss(bs, n) {
      EnoughIsTrue(bs, n);
    }
    if NoRepeats(AllOf(bs)) && LastN(ReadOf(bs), n) == LastN(AllOf(bs), n) {
      LossIsSeen(bs, n);
    }
  }

  /** The records at the places are the records, for what was read and for the log. */
  lemma SameByPlace<R>(bs: seq<Block<R>>, n: nat)
    ensures Forget(LastN(ReadOf(Spots(bs)), n)) == LastN(ReadOf(bs), n)
    ensures Forget(LastN(AllOf(Spots(bs)), n)) == LastN(AllOf(bs), n)
  {
    PlacesForgotten(bs);
    ForgetLast(ReadOf(Spots(bs)), n);
    ForgetLast(AllOf(Spots(bs)), n);
  }
}
