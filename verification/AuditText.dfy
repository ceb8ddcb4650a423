/**
 * The text of an audit file: lines, each ended by a newline, and the bounded read of
 * its end. One character stands for one byte.
 */
module AuditText {
  const NL: char := '\n'

  /** What the sink writes for a record: something, without a newline in it. */
  predicate LineOk(l: string) {
    l != "" && NL !in l
  }

  predicate AllOk(ls: seq<string>) {
    forall i | 0 <= i < |ls| :: LineOk(ls[i])
  }

  function Text(ls: seq<string>): string {
    if ls == [] then "" else ls[0] + [NL] + Text(ls[1..])
  }

  lemma {:induction false} TextConcat(a: seq<string>, b: seq<string>)
    ensures Text(a + b) == Text(a) + Text(b)
  {
    if a == [] {
      assert a + b == b;
    } else {
      assert (a + b)[1..] == a[1..] + b;
      TextConcat(a[1..], b);
    }
  }

  function IndexOfNewline(t: string): (p: nat)
    ensures p <= |t|
    ensures p < |t| ==> t[p] == NL
    ensures forall i | 0 <= i < p :: t[i] != NL
  {
    if t == "" || t[0] == NL then 0 else 1 + IndexOfNewline(t[1..])
  }

  /** The pieces between newlines, empty ones left out. */
  function Pieces(t: string): seq<string>
    decreases |t|
  {
    var p := IndexOfNewline(t);
    (if p == 0 then [] else [t[..p]]) + if p < |t| then Pieces(t[p + 1..]) else []
  }

  lemma FirstNewline(l: string, rest: string)
    requires NL !in l
    ensures IndexOfNewline(l + [NL] + rest) == |l|
  {
    var t := l + [NL] + rest;
    assert t[|l|] == NL;
    assert forall i | 0 <= i < |l| :: t[i] == l[i] && t[i] != NL;
  }

  /** Splitting the text of well-formed lines gives them back. */
  lemma {:induction false} SplitText(ls: seq<string>)
    requires AllOk(ls)
    ensures Pieces(Text(ls)) == ls
  {
    if ls == [] {
      assert IndexOfNewline("") == 0;
    } else {
      assert LineOk(ls[0]);
      assert AllOk(ls[1..]);
      SplitText(ls[1..]);
      hide Pieces, LineOk, IndexOfNewline;
      SplitLine(ls[0], Text(ls[1..]));
      assert ls == [ls[0]] + ls[1..];
    }
  }

  lemma SplitLine(l: string, rest: string)
    requires LineOk(l)
    ensures Pieces(l + [NL] + rest) == [l] + Pieces(rest)
  {
    hide IndexOfNewline;
    var t := l + [NL] + rest;
    FirstNewline(l, rest);
    assert t[..|l|] == l && t[|l| + 1..] == rest;
  }

  /** The complete lines in the last `window` characters; a fragment at the front is dropped. */
  function TailLines(t: string, window: nat): seq<string> {
    var start := if |t| <= window then 0 else |t| - window;
    var read := t[start..];
    if start == 0 then Pieces(read)
    else
      var p := IndexOfNewline(read);
      Pieces(if p < |read| then read[p + 1..] else "")
  }

  lemma SmallFileReadWhole(ls: seq<string>, window: nat)
    requires AllOk(ls) && |Text(ls)| <= window
    ensures TailLines(Text(ls), window) == ls
  {
    SplitText(ls);
    assert Text(ls)[0..] == Text(ls);
  }

  /** The lines that fit strictly within a window, as many as possible. */
  lemma {:induction false} LongestFit(ls: seq<string>, window: nat) returns (k: nat)
    requires window > 0
    ensures k <= |ls| && |Text(ls[k..])| < window
    ensures k > 0 ==> |Text(ls[k - 1..])| >= window
  {
    if |Text(ls)| < window {
      k := 0;
      assert ls[0..] == ls;
    } else {
      var j := LongestFit(ls[1..], window);
      k := j + 1;
      assert ls[1..][j..] == ls[k..];
      if j > 0 {
        assert ls[1..][j - 1..] == ls[k - 1..];
      } else {
        assert ls[0..] == ls;
      }
    }
  }

  /** A larger file yields exactly the longest run of last lines shorter than the window. */
  lemma LargeFileReadsTail(ls: seq<string>, window: nat) returns (k: nat)
    requires AllOk(ls) && 0 < window < |Text(ls)|
    ensures 0 < k <= |ls| && TailLines(Text(ls), window) == ls[k..]
    ensures |Text(ls[k..])| < window <= |Text(ls[k - 1..])|
  {
    assert ls[0..] == ls;
    k := LongestFit(ls, window);
    var tail, l := Text(ls[k..]), ls[k - 1];
    assert LineOk(l);
    assert ls[k - 1..] == [l] + ls[k..];
    assert Text(ls[k - 1..]) == l + [NL] + tail;
    TextConcat(ls[..k - 1], ls[k - 1..]);
    assert ls == ls[..k - 1] + ls[k - 1..];
    assert AllOk(ls[k..]);
    SplitText(ls[k..]);
    WindowDropsFragment(Text(ls[..k - 1]), l, tail, window);
  }

  /** A window that begins inside a line, or right at its start, reads what follows that line. */
  lemma WindowDropsFragment(head: string, l: string, tail: string, window: nat)
    requires NL !in l && |tail| < window <= |l| + 1 + |tail| && window < |head| + |l| + 1 + |tail|
    ensures TailLines(head + (l + [NL] + tail), window) == Pieces(tail)
  {
    hide Pieces;
    var cut := |l| + 1 + |tail| - window;
    var read := l[cut..] + [NL] + tail;
    Regroup(head, l, tail, cut);
    DropPrefix(head + l[..cut], read);
    FirstNewline(l[cut..], tail);
    DropPrefix(l[cut..] + [NL], tail);
  }

  lemma Regroup(head: string, l: string, tail: string, cut: nat)
    requires cut <= |l|
    ensures head + (l + [NL] + tail) == (head + l[..cut]) + (l[cut..] + [NL] + tail)
  {
    assert l == l[..cut] + l[cut..];
  }

  lemma DropPrefix(a: string, b: string)
    ensures (a + b)[|a|..] == b
  {
  }

  /** So a file is read completely exactly when it fits the window. */
  lemma ReadsAllExactlyWhenItFits(ls: seq<string>, window: nat)
    requires AllOk(ls)
    ensures TailLines(Text(ls), window) == ls <==> |Text(ls)| <= window
    ensures |Text(ls)| > window ==> |TailLines(Text(ls), window)| < |ls|
  {
    if |Text(ls)| <= window {
      SmallFileReadWhole(ls, window);
    } else if window > 0 {
      var k := LargeFileReadsTail(ls, window);
    } else {
      assert Text(ls)[|Text(ls)|..] == "";
      assert ls != [];
    }
  }

  /** A file the sink may have written, and the lines in it. */
  predicate WellFormed(t: string) {
    AllOk(Pieces(t)) && Text(Pieces(t)) == t
  }

  lemma AppendLine(t: string, l: string)
    requires WellFormed(t) && LineOk(l)
    ensures WellFormed(t + l + [NL]) && Pieces(t + l + [NL]) == Pieces(t) + [l]
  {
    var ls := Pieces(t) + [l];
    TextConcat(Pieces(t), [l]);
    assert Text([l]) == l + [NL] + Text([]);
    assert Text(ls) == t + l + [NL];
    SplitText(ls);
  }

  lemma EmptyFile()
    ensures WellFormed("") && Pieces("") == []
  {
  }
}
