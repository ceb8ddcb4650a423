/**
 * Attributing disks to USB devices in an IOKit registry dump. The dump is a list of
 * lines already told apart into node headers and other text; the property readers
 * are functions of a node's own text. A stack walk over depths is proved to give
 * every disk to the nearest enclosing device, and on an indented tree to agree with
 * the tree's own structure.
 */
module IoregTree {
  import opened Wrappers

  datatype Line = Header(depth: nat, cls: string) | Text(text: string)

  datatype RawNode = RawNode(depth: nat, cls: string, block: seq<string>)

  datatype Ids = Ids(vendor: int, product: int)

  datatype Reader = Reader(
    ids: seq<string> -> Option<Ids>,
    location: seq<string> -> Option<int>,
    productName: seq<string> -> Option<string>,
    names: seq<string> -> seq<string>)

  datatype UsbDevice = UsbDevice(ids: Ids, location: Option<int>, productName: Option<string>, bsdNames: seq<string>)

  const USB_DEVICE_CLASS := "IOUSBHostDevice"

  // -- Segmentation ------------------------------------------------------------------

  function TextLines(block: seq<string>): seq<Line> {
    seq(|block|, i requires 0 <= i < |block| => Text(block[i]))
  }

  /** The lines a list of nodes was cut from. */
  function Unsegment(nodes: seq<RawNode>): seq<Line> {
    if nodes == [] then []
    else
      var last := nodes[|nodes| - 1];
      Unsegment(nodes[..|nodes| - 1]) + [Header(last.depth, last.cls)] + TextLines(last.block)
  }

  lemma UnsegmentAppend(nodes: seq<RawNode>, n: RawNode)
    ensures Unsegment(nodes + [n]) == Unsegment(nodes) + [Header(n.depth, n.cls)] + TextLines(n.block)
  {
    assert (nodes + [n])[..|nodes|] == nodes;
  }

  /** The lines of the nodes cut so far, the open one included. */
  function Cut(nodes: seq<RawNode>, depth: nat, cls: string, block: seq<string>): seq<Line> {
    Unsegment(nodes) + [Header(depth, cls)] + TextLines(block)
  }

  lemma CutText(nodes: seq<RawNode>, depth: nat, cls: string, block: seq<string>, t: string)
    ensures Cut(nodes, depth, cls, block + [t]) == Cut(nodes, depth, cls, block) + [Text(t)]
  {
    hide Unsegment;
    assert TextLines(block + [t]) == TextLines(block) + [Text(t)];
  }

  /** Closing the open node, and opening another. */
  lemma CutHeader(nodes: seq<RawNode>, depth: nat, cls: string, block: seq<string>, d: nat, c: string)
    ensures var closed := nodes + [RawNode(depth, cls, block)];
            && Unsegment(closed) == Cut(nodes, depth, cls, block)
            && Cut(closed, d, c, []) == Cut(nodes, depth, cls, block) + [Header(d, c)]
    ensures Cut([], d, c, []) == [Header(d, c)] && Unsegment([]) == []
  {
    UnsegmentAppend(nodes, RawNode(depth, cls, block));
    assert TextLines([]) == [] && Unsegment([]) == [];
    hide Unsegment, TextLines;
  }

  function FirstHeader(lines: seq<Line>): (k: nat)
    ensures k <= |lines|
  {
    if lines == [] || lines[0].Header? then 0 else 1 + FirstHeader(lines[1..])
  }

  lemma {:induction false} FirstHeaderIs(lines: seq<Line>)
    ensures forall i | 0 <= i < FirstHeader(lines) :: lines[i].Text?
    ensures FirstHeader(lines) < |lines| ==> lines[FirstHeader(lines)].Header?
  {
    if lines != [] && lines[0].Text? {
      FirstHeaderIs(lines[1..]);
      forall i | 0 <= i < FirstHeader(lines) ensures lines[i].Text? {
        if i > 0 {
          assert lines[i] == lines[1..][i - 1];
        }
      }
    }
  }

  lemma SliceGrows(lines: seq<Line>, first: nat, i: nat)
    requires first <= i < |lines|
    ensures lines[first..i + 1] == lines[first..i] + [lines[i]]
    ensures i == first ==> lines[first..i + 1] == [lines[i]]
  {
  }

  lemma SliceEnds(lines: seq<Line>, first: nat)
    requires first <= |lines|
    ensures lines[first..|lines|] == lines[first..]
    ensures first == |lines| ==> lines[first..] == []
  {
  }

  /** Cutting a dump into nodes loses nothing after the first header, and nothing before it is kept. */
  method SegmentNodes(lines: seq<Line>) returns (nodes: seq<RawNode>)
    ensures Unsegment(nodes) == lines[FirstHeader(lines)..]
  {
    nodes := [];
    var depth: nat, cls, blockLines, open := 0, "", [], false;
    ghost var first := FirstHeader(lines);
    FirstHeaderIs(lines);
    hide Unsegment, Cut, FirstHeader;
    for i := 0 to |lines|
      invariant open <==> i > first
      invariant !open ==> nodes == []
      invariant open ==> Cut(nodes, depth, cls, blockLines) == lines[first..i]
    {
      match lines[i]
      case Header(d, c) =>
        CutHeader(nodes, depth, cls, blockLines, d, c);
        if open {
          nodes := nodes + [RawNode(depth, cls, blockLines)];
        }
        depth, cls, blockLines, open := d, c, [], true;
        SliceGrows(lines, first, i);
      case Text(t) =>
        if open {
          CutText(nodes, depth, cls, blockLines, t);
          SliceGrows(lines, first, i);
          blockLines := blockLines + [t];
        }
    }
    CutHeader(nodes, depth, cls, blockLines, 0, "");
    if open {
      nodes := nodes + [RawNode(depth, cls, blockLines)];
    }
    SliceEnds(lines, first);
  }

  // -- Enclosing devices, from depths alone --------------------------------------------

  predicate IsUsb(n: RawNode) {
    n.cls == USB_DEVICE_CLASS
  }

  /** A USB device node with both ids readable. */
  predicate IsDevice(rd: Reader, n: RawNode) {
    IsUsb(n) && rd.ids(n.block).Some?
  }

  /** Node `j` lies above node `i`: everything after `j` up to and including `i` is deeper. */
  predicate Encloses(ns: seq<RawNode>, j: nat, i: nat) {
    j < i < |ns| && forall k | j < k <= i :: ns[k].depth > ns[j].depth
  }

  ghost predicate NearestIs(ns: seq<RawNode>, rd: Reader, i: nat, o: Option<nat>) {
    && (o.None? ==> forall j: nat | Encloses(ns, j, i) :: !IsDevice(rd, ns[j]))
    && (o.Some? ==>
          && Encloses(ns, o.value, i) && IsDevice(rd, ns[o.value])
          && forall j: nat | o.value < j && Encloses(ns, j, i) :: !IsDevice(rd, ns[j]))
  }

  /** The last device among `ns` that a node of depth `d` coming next would lie under. */
  function Nearest(ns: seq<RawNode>, rd: Reader, d: nat): Option<nat> {
    if ns == [] then None
    else
      var n := |ns| - 1;
      if ns[n].depth >= d then Nearest(ns[..n], rd, d)
      else if IsDevice(rd, ns[n]) then Some(n)
      else Nearest(ns[..n], rd, ns[n].depth)
  }

  /** Scanning back with a falling depth bound finds exactly the nearest enclosing device. */
  lemma NearestCorrect(ns: seq<RawNode>, rd: Reader, i: nat)
    requires i < |ns|
    ensures NearestIs(ns, rd, i, Nearest(ns[..i], rd, ns[i].depth))
  {
    Scan(ns, rd, i, i, ns[i].depth);
  }

  lemma {:induction false} Scan(ns: seq<RawNode>, rd: Reader, i: nat, n: nat, d: nat)
    requires n <= i < |ns| && d <= ns[i].depth
    requires forall k | n <= k <= i :: d <= ns[k].depth
    requires forall j: nat | n <= j && Encloses(ns, j, i) :: !IsDevice(rd, ns[j])
    requires forall j: nat | j < n && Encloses(ns, j, i) :: ns[j].depth < d
    requires d == ns[i].depth || exists k :: n <= k <= i && ns[k].depth == d
    ensures NearestIs(ns, rd, i, Nearest(ns[..n], rd, d))
    decreases n
  {
    if n > 0 {
      var m := n - 1;
      assert ns[..n][..m] == ns[..m];
      if ns[m].depth >= d {
        Scan(ns, rd, i, m, d);
      } else {
        assert Encloses(ns, m, i);
        if !IsDevice(rd, ns[m]) {
          Scan(ns, rd, i, m, ns[m].depth);
        }
      }
    }
  }

  /**
   * The device that gets node `i`'s names: a device node keeps its own, any other
   * kind of node gives them to the nearest enclosing device, and a USB node without
   * readable ids drops them.
   */
  function Owner(ns: seq<RawNode>, rd: Reader, i: nat): Option<nat>
    requires i < |ns|
  {
    if IsDevice(rd, ns[i]) then Some(i)
    else if IsUsb(ns[i]) then None
    else Nearest(ns[..i], rd, ns[i].depth)
  }

  /** Nearest device counting the node itself. */
  ghost predicate OwnerIsNearest(ns: seq<RawNode>, rd: Reader, i: nat)
    requires i < |ns|
  {
    if IsDevice(rd, ns[i]) then Owner(ns, rd, i) == Some(i) else NearestIs(ns, rd, i, Owner(ns, rd, i))
  }

  /** Names go to the nearest device, self included, except under a USB node without ids that has one above it. */
  lemma OwnerIsNearestExactly(ns: seq<RawNode>, rd: Reader, i: nat)
    requires i < |ns|
    ensures OwnerIsNearest(ns, rd, i)
            <==> !(IsUsb(ns[i]) && rd.ids(ns[i].block).None?
                   && exists j: nat :: Encloses(ns, j, i) && IsDevice(rd, ns[j]))
  {
    NearestCorrect(ns, rd, i);
  }

  // -- The stack walk ----------------------------------------------------------------

  /** Positions of the device nodes among the first `n`, in order. */
  function DevicesIn(ns: seq<RawNode>, rd: Reader, n: nat): seq<nat>
    requires n <= |ns|
  {
    if n == 0 then [] else DevicesIn(ns, rd, n - 1) + if IsDevice(rd, ns[n - 1]) then [n - 1] else []
  }

  /** The names of the first `n` nodes that belong to device `j`, in order. */
  function NamesOf(ns: seq<RawNode>, rd: Reader, j: nat, n: nat): seq<string>
    requires n <= |ns|
  {
    if n == 0 then []
    else NamesOf(ns, rd, j, n - 1) + if Owner(ns, rd, n - 1) == Some(j) then rd.names(ns[n - 1].block) else []
  }

  lemma {:induction false} DevicesInAre(ns: seq<RawNode>, rd: Reader, n: nat)
    requires n <= |ns|
    ensures forall p | 0 <= p < |DevicesIn(ns, rd, n)| ::
              DevicesIn(ns, rd, n)[p] < n && IsDevice(rd, ns[DevicesIn(ns, rd, n)[p]])
    ensures forall p, q | 0 <= p < q < |DevicesIn(ns, rd, n)| :: DevicesIn(ns, rd, n)[p] < DevicesIn(ns, rd, n)[q]
    ensures forall j: nat | j < n && IsDevice(rd, ns[j]) :: j in DevicesIn(ns, rd, n)
  {
    if n > 0 {
      DevicesInAre(ns, rd, n - 1);
    }
  }

  lemma {:induction false} NoNamesBefore(ns: seq<RawNode>, rd: Reader, j: nat, n: nat)
    requires n <= j && n <= |ns|
    ensures NamesOf(ns, rd, j, n) == []
  {
    if n > 0 {
      NoNamesBefore(ns, rd, j, n - 1);
      NearestCorrect(ns, rd, n - 1);
    }
  }

  /** What the walk has built after `n` nodes: one record per device, with the names owned so far. */
  ghost predicate Built(ns: seq<RawNode>, rd: Reader, devices: seq<UsbDevice>, n: nat)
    requires n <= |ns|
  {
    var at := DevicesIn(ns, rd, n);
    |devices| == |at| && forall p | 0 <= p < |at| ::
      && at[p] < |ns| && rd.ids(ns[at[p]].block).Some?
      && devices[p] == UsbDevice(rd.ids(ns[at[p]].block).value, rd.location(ns[at[p]].block),
                                 rd.productName(ns[at[p]].block), NamesOf(ns, rd, at[p], n))
  }

  /** A stack entry: the depth of a device node and its place in the list of devices. */
  datatype Frame = Frame(depth: nat, place: nat)

  /**
   * The stack holds, outermost first, the devices the next node could lie under:
   * scanning it from the top for the first one above depth `d` is scanning the nodes.
   */
  ghost predicate StackOk(ns: seq<RawNode>, rd: Reader, n: nat, stack: seq<Frame>)
    requires n <= |ns|
  {
    && (forall p, q | 0 <= p < q < |stack| :: stack[p].depth < stack[q].depth)
    && (forall d: nat :: Nearest(ns[..n], rd, d) == TopBelow(ns, rd, n, stack, d))
    && (forall p | 0 <= p < |stack| ::
          && stack[p].place < |DevicesIn(ns, rd, n)|
          && DevicesIn(ns, rd, n)[stack[p].place] < n
          && stack[p].depth == ns[DevicesIn(ns, rd, n)[stack[p].place]].depth)
  }

  function TopBelow(ns: seq<RawNode>, rd: Reader, n: nat, stack: seq<Frame>, d: nat): Option<nat>
    requires n <= |ns|
  {
    if stack == [] then None
    else
      var top := stack[|stack| - 1];
      if top.depth >= d then TopBelow(ns, rd, n, stack[..|stack| - 1], d)
      else if top.place < |DevicesIn(ns, rd, n)| then Some(DevicesIn(ns, rd, n)[top.place])
      else None
  }

  /** Popping everything at depth `d` or deeper. */
  function Popped(stack: seq<Frame>, d: nat): seq<Frame> {
    if stack == [] || stack[|stack| - 1].depth < d then stack else Popped(stack[..|stack| - 1], d)
  }

  lemma {:induction false} PoppedIs(stack: seq<Frame>, d: nat)
    ensures Popped(stack, d) <= stack
    ensures Popped(stack, d) != [] ==> Popped(stack, d)[|Popped(stack, d)| - 1].depth < d
  {
    if stack != [] && stack[|stack| - 1].depth >= d {
      PoppedIs(stack[..|stack| - 1], d);
    }
  }

  /** Entries at depth `d` or deeper never matter to a bound of `d` or less. */
  lemma {:induction false} PoppedSame(ns: seq<RawNode>, rd: Reader, n: nat, stack: seq<Frame>, d: nat, b: nat)
    requires n <= |ns| && b <= d
    ensures TopBelow(ns, rd, n, Popped(stack, d), b) == TopBelow(ns, rd, n, stack, b)
  {
    if stack != [] && stack[|stack| - 1].depth >= d {
      PoppedSame(ns, rd, n, stack[..|stack| - 1], d, b);
    }
  }

  /** After popping for a node, the walk only ever asks about bounds that the node's own depth caps. */
  lemma {:induction false} TopCapped(ns: seq<RawNode>, rd: Reader, n: nat, stack: seq<Frame>, d: nat, b: nat)
    requires n <= |ns| && d < b && (stack != [] ==> stack[|stack| - 1].depth < d)
    ensures TopBelow(ns, rd, n, stack, b) == TopBelow(ns, rd, n, stack, d)
  {
  }

  /** Adding a node leaves the stack's places meaning the same devices. */
  lemma {:induction false} TopLater(ns: seq<RawNode>, rd: Reader, n: nat, stack: seq<Frame>, b: nat)
    requires n < |ns| && forall p | 0 <= p < |stack| :: stack[p].place < |DevicesIn(ns, rd, n)|
    ensures TopBelow(ns, rd, n + 1, stack, b) == TopBelow(ns, rd, n, stack, b)
  {
    if stack != [] {
      TopLater(ns, rd, n, stack[..|stack| - 1], b);
    }
  }

  /** The stack after the whole turn of node `n`. */
  lemma StackAfter(ns: seq<RawNode>, rd: Reader, n: nat, stack: seq<Frame>)
    requires n < |ns| && StackOk(ns, rd, n, stack)
    ensures var popped := Popped(stack, ns[n].depth);
            var at := |DevicesIn(ns, rd, n)|;
            StackOk(ns, rd, n + 1, if IsDevice(rd, ns[n]) then popped + [Frame(ns[n].depth, at)] else popped)
  {
    hide DevicesIn;
    var d := ns[n].depth;
    var popped := Popped(stack, d);
    var at := |DevicesIn(ns, rd, n)|;
    PoppedIs(stack, d);
    DevicesGrow(ns, rd, n);
    var stack' := if IsDevice(rd, ns[n]) then popped + [Frame(d, at)] else popped;
    var seen := ns[..n + 1];
    assert seen[..n] == ns[..n];
    forall b: nat ensures Nearest(seen, rd, b) == TopBelow(ns, rd, n + 1, stack', b) {
      NearestAfter(ns, rd, n, stack, b);
    }
    hide Nearest, TopBelow;
  }

  lemma NearestAfter(ns: seq<RawNode>, rd: Reader, n: nat, stack: seq<Frame>, b: nat)
    requires n < |ns| && StackOk(ns, rd, n, stack)
    ensures var popped := Popped(stack, ns[n].depth);
            var at := |DevicesIn(ns, rd, n)|;
            Nearest(ns[..n + 1], rd, b)
            == TopBelow(ns, rd, n + 1, if IsDevice(rd, ns[n]) then popped + [Frame(ns[n].depth, at)] else popped, b)
  {
    hide DevicesIn;
    var d := ns[n].depth;
    var popped := Popped(stack, d);
    PoppedIs(stack, d);
    DevicesGrow(ns, rd, n);
    assert ns[..n + 1][..n] == ns[..n];
    TopLater(ns, rd, n, popped, b);
    TopLater(ns, rd, n, popped, d);
    PoppedSame(ns, rd, n, stack, d, d);
    if b <= d {
      PoppedSame(ns, rd, n, stack, d, b);
    } else {
      TopCapped(ns, rd, n, popped, d, b);
    }
    assert (popped + [Frame(d, |DevicesIn(ns, rd, n)|)])[..|popped|] == popped;
  }

  lemma DevicesGrow(ns: seq<RawNode>, rd: Reader, n: nat)
    requires n < |ns|
    ensures DevicesIn(ns, rd, n) <= DevicesIn(ns, rd, n + 1)
    ensures IsDevice(rd, ns[n]) ==> DevicesIn(ns, rd, n + 1) == DevicesIn(ns, rd, n) + [n]
    ensures !IsDevice(rd, ns[n]) ==> DevicesIn(ns, rd, n + 1) == DevicesIn(ns, rd, n)
  {
  }

  lemma BuiltDevice(ns: seq<RawNode>, rd: Reader, devices: seq<UsbDevice>, n: nat)
    requires n < |ns| && Built(ns, rd, devices, n) && IsDevice(rd, ns[n])
    ensures var b := ns[n].block;
            Built(ns, rd, devices + [UsbDevice(rd.ids(b).value, rd.location(b), rd.productName(b), rd.names(b))], n + 1)
  {
    DevicesInAre(ns, rd, n);
    NoNamesBefore(ns, rd, n, n);
  }

  lemma BuiltDropped(ns: seq<RawNode>, rd: Reader, devices: seq<UsbDevice>, n: nat)
    requires n < |ns| && Built(ns, rd, devices, n) && !IsDevice(rd, ns[n]) && Owner(ns, rd, n).None?
    ensures Built(ns, rd, devices, n + 1)
  {
  }

  lemma BuiltGiven(ns: seq<RawNode>, rd: Reader, devices: seq<UsbDevice>, n: nat, p: nat)
    requires n < |ns| && Built(ns, rd, devices, n) && !IsDevice(rd, ns[n]) && p < |devices|
    requires Owner(ns, rd, n) == Some(DevicesIn(ns, rd, n)[p])
    ensures Built(ns, rd, devices[p := devices[p].(bsdNames := devices[p].bsdNames + rd.names(ns[n].block))], n + 1)
  {
    DevicesInAre(ns, rd, n);
  }

  /** One device record per readable USB node, in order, holding exactly the names it owns. */
  method AttributeDevices(nodes: seq<RawNode>, rd: Reader) returns (devices: seq<UsbDevice>)
    ensures Built(nodes, rd, devices, |nodes|)
  {
    hide Built, StackOk, DevicesIn, NamesOf, Nearest, TopBelow;
    devices := [];
    var stack: seq<Frame> := [];
    WalkStarts(nodes, rd);
    for i := 0 to |nodes|
      invariant Built(nodes, rd, devices, i) && |devices| == |DevicesIn(nodes, rd, i)|
      invariant StackOk(nodes, rd, i, stack)
    {
      var node := nodes[i];
      ghost var before := stack;
      while |stack| > 0
        invariant Popped(stack, node.depth) == Popped(before, node.depth)
        decreases |stack|
      {
        if stack[|stack| - 1].depth >= node.depth {
          stack := stack[..|stack| - 1];
        } else {
          break;
        }
      }
      StackAfter(nodes, rd, i, before);
      Sizes(nodes, rd, devices, i);
      if node.cls == USB_DEVICE_CLASS {
        var ids := rd.ids(node.block);
        if ids.None? {
          BuiltDropped(nodes, rd, devices, i);
          Sizes(nodes, rd, devices, i);
          continue;
        }
        BuiltDevice(nodes, rd, devices, i);
        stack := stack + [Frame(node.depth, |devices|)];
        devices := devices + [UsbDevice(ids.value, rd.location(node.block), rd.productName(node.block),
                                        rd.names(node.block))];
        Sizes(nodes, rd, devices, i);
        continue;
      }
      TopOwns(nodes, rd, i, before);
      if |stack| > 0 {
        var place := stack[|stack| - 1].place;
        BuiltGiven(nodes, rd, devices, i, place);
        devices := devices[place := devices[place].(bsdNames := devices[place].bsdNames + rd.names(node.block))];
      } else {
        BuiltDropped(nodes, rd, devices, i);
      }
      Sizes(nodes, rd, devices, i);
    }
  }

  lemma WalkStarts(ns: seq<RawNode>, rd: Reader)
    ensures Built(ns, rd, [], 0) && StackOk(ns, rd, 0, []) && DevicesIn(ns, rd, 0) == []
  {
    assert ns[..0] == [];
  }

  lemma Sizes(ns: seq<RawNode>, rd: Reader, devices: seq<UsbDevice>, n: nat)
    requires n < |ns|
    ensures Built(ns, rd, devices, n) ==> |devices| == |DevicesIn(ns, rd, n)|
    ensures Built(ns, rd, devices, n + 1) ==> |devices| == |DevicesIn(ns, rd, n + 1)|
  {
  }

  /** For a node that is not a USB device, the top of the popped stack is its owner. */
  lemma TopOwns(ns: seq<RawNode>, rd: Reader, n: nat, stack: seq<Frame>)
    requires n < |ns| && StackOk(ns, rd, n, stack) && !IsUsb(ns[n])
    ensures var popped := Popped(stack, ns[n].depth);
            if popped == [] then Owner(ns, rd, n).None?
            else
              var place := popped[|popped| - 1].place;
              place < |DevicesIn(ns, rd, n)| && Owner(ns, rd, n) == Some(DevicesIn(ns, rd, n)[place])
  {
    hide DevicesIn;
    PoppedIs(stack, ns[n].depth);
    PoppedSame(ns, rd, n, stack, ns[n].depth, ns[n].depth);
  }

  /**
   * Under a readable device, a USB node without readable ids: whatever the readers
   * make of the two blocks, the names in the second are in no record.
   */
  lemma UnreadableNodeLosesNames(rd: Reader, hub: seq<string>, disk: seq<string>, devices: seq<UsbDevice>)
    requires rd.ids(hub).Some? && rd.ids(disk).None?
    requires Built([RawNode(0, USB_DEVICE_CLASS, hub), RawNode(1, USB_DEVICE_CLASS, disk)], rd, devices, 2)
    ensures var nodes := [RawNode(0, USB_DEVICE_CLASS, hub), RawNode(1, USB_DEVICE_CLASS, disk)];
            IsDevice(rd, nodes[0]) && Encloses(nodes, 0, 1) && !OwnerIsNearest(nodes, rd, 1)
    ensures devices == [UsbDevice(rd.ids(hub).value, rd.location(hub), rd.productName(hub), rd.names(hub))]
  {
    var nodes := [RawNode(0, USB_DEVICE_CLASS, hub), RawNode(1, USB_DEVICE_CLASS, disk)];
    assert IsDevice(rd, nodes[0]) && Encloses(nodes, 0, 1);
    OwnerIsNearestExactly(nodes, rd, 1);
    assert DevicesIn(nodes, rd, 0) == [] && DevicesIn(nodes, rd, 1) == [0] && DevicesIn(nodes, rd, 2) == [0];
    assert Owner(nodes, rd, 0) == Some(0) && Owner(nodes, rd, 1) == None;
    assert NamesOf(nodes, rd, 0, 0) == [] && NamesOf(nodes, rd, 0, 1) == rd.names(hub);
    assert NamesOf(nodes, rd, 0, 2) == rd.names(hub) + [] == rd.names(hub);
    assert |devices| == 1 && devices[0].bsdNames == NamesOf(nodes, rd, 0, 2);
  }

  // -- Trees -------------------------------------------------------------------------

  datatype Tree = Tree(cls: string, block: seq<string>, children: seq<Tree>)

  /** A forest printed in order, each child one level deeper than its parent. */
  function Print(ts: seq<Tree>, depth: nat): seq<RawNode> {
    if ts == [] then []
    else [RawNode(depth, ts[0].cls, ts[0].block)] + Print(ts[0].children, depth + 1) + Print(ts[1..], depth)
  }

  /**
   * Owners read off the tree: `above` is the position of the nearest device on the
   * way from the root, `base` the position of the first node printed.
   */
  function TreeOwners(ts: seq<Tree>, rd: Reader, base: nat, above: Option<nat>): seq<Option<nat>> {
    if ts == [] then []
    else
      var n := RawNode(0, ts[0].cls, ts[0].block);
      var below := if IsDevice(rd, n) then Some(base) else above;
      var own := if IsUsb(n) && !IsDevice(rd, n) then None else below;
      var inside := TreeOwners(ts[0].children, rd, base + 1, below);
      [own] + inside + TreeOwners(ts[1..], rd, base + 1 + |inside|, above)
  }

  lemma {:induction false} PrintDepths(ts: seq<Tree>, depth: nat)
    ensures forall i | 0 <= i < |Print(ts, depth)| :: Print(ts, depth)[i].depth >= depth
  {
    if ts != [] {
      PrintDepths(ts[0].children, depth + 1);
      PrintDepths(ts[1..], depth);
    }
  }

  lemma {:induction false} SameCount(ts: seq<Tree>, rd: Reader, depth: nat, base: nat, above: Option<nat>)
    ensures |Print(ts, depth)| == |TreeOwners(ts, rd, base, above)|
  {
    if ts != [] {
      var n := RawNode(0, ts[0].cls, ts[0].block);
      var below := if IsDevice(rd, n) then Some(base) else above;
      var inside := TreeOwners(ts[0].children, rd, base + 1, below);
      SameCount(ts[0].children, rd, depth + 1, base + 1, below);
      SameCount(ts[1..], rd, depth, base + 1 + |inside|, above);
    }
  }

  /** Nodes at depth `d` or deeper are invisible to a bound of `d`. */
  lemma {:induction false} DeeperInvisible(pre: seq<RawNode>, more: seq<RawNode>, rd: Reader, d: nat)
    requires forall i | 0 <= i < |more| :: more[i].depth >= d
    ensures Nearest(pre + more, rd, d) == Nearest(pre, rd, d)
  {
    if more == [] {
      assert pre + more == pre;
    } else {
      var n := |more| - 1;
      assert (pre + more)[..|pre + more| - 1] == pre + more[..n];
      DeeperInvisible(pre, more[..n], rd, d);
    }
  }

  /** The two bounds a node hands on: to its children, and to what follows its subtree. */
  lemma BoundsPassedOn(pre: seq<RawNode>, root: RawNode, kids: seq<RawNode>, rd: Reader)
    requires forall i | 0 <= i < |kids| :: kids[i].depth > root.depth
    ensures Nearest(pre + [root], rd, root.depth + 1)
            == if IsDevice(rd, root) then Some(|pre|) else Nearest(pre, rd, root.depth)
    ensures Nearest(pre + [root] + kids, rd, root.depth) == Nearest(pre, rd, root.depth)
  {
    assert (pre + [root])[..|pre|] == pre;
    assert pre + [root] + kids == pre + ([root] + kids);
    DeeperInvisible(pre, [root] + kids, rd, root.depth);
  }

  lemma OwnerInPlace(pre: seq<RawNode>, root: RawNode, post: seq<RawNode>, rd: Reader)
    ensures Owner(pre + [root] + post, rd, |pre|)
            == if IsDevice(rd, root) then Some(|pre|) else if IsUsb(root) then None else Nearest(pre, rd, root.depth)
  {
    assert (pre + [root] + post)[..|pre|] == pre;
  }

  lemma Unfold(ts: seq<Tree>, rd: Reader, depth: nat, base: nat, above: Option<nat>)
    requires ts != []
    ensures var root := RawNode(depth, ts[0].cls, ts[0].block);
            var below := if IsDevice(rd, root) then Some(base) else above;
            var kids := Print(ts[0].children, depth + 1);
            var own := if IsUsb(root) && !IsDevice(rd, root) then None else below;
            && Print(ts, depth) == [root] + kids + Print(ts[1..], depth)
            && |TreeOwners(ts[0].children, rd, base + 1, below)| == |kids|
            && |TreeOwners(ts[1..], rd, base + 1 + |kids|, above)| == |Print(ts[1..], depth)|
            && TreeOwners(ts, rd, base, above)
               == [own] + TreeOwners(ts[0].children, rd, base + 1, below) + TreeOwners(ts[1..], rd, base + 1 + |kids|, above)
  {
    var root := RawNode(depth, ts[0].cls, ts[0].block);
    var below := if IsDevice(rd, root) then Some(base) else above;
    SameCount(ts[0].children, rd, depth + 1, base + 1, below);
    SameCount(ts[1..], rd, depth, base + 1 + |Print(ts[0].children, depth + 1)|, above);
    OwnersUnfold(ts, rd, depth, base, above);
    hide IsDevice, IsUsb, TreeOwners;
    PrintUnfold(ts, depth);
    hide Print;
  }

  lemma PrintUnfold(ts: seq<Tree>, depth: nat)
    requires ts != []
    ensures Print(ts, depth)
            == [RawNode(depth, ts[0].cls, ts[0].block)] + Print(ts[0].children, depth + 1) + Print(ts[1..], depth)
  {
  }

  lemma OwnersUnfold(ts: seq<Tree>, rd: Reader, depth: nat, base: nat, above: Option<nat>)
    requires ts != []
    ensures var root := RawNode(depth, ts[0].cls, ts[0].block);
            var below := if IsDevice(rd, root) then Some(base) else above;
            var own := if IsUsb(root) && !IsDevice(rd, root) then None else below;
            var inside := TreeOwners(ts[0].children, rd, base + 1, below);
            TreeOwners(ts, rd, base, above) == [own] + inside + TreeOwners(ts[1..], rd, base + 1 + |inside|, above)
  {
    KindIgnoresDepth(rd, RawNode(depth, ts[0].cls, ts[0].block), RawNode(0, ts[0].cls, ts[0].block));
    hide IsDevice, IsUsb;
  }

  lemma KindIgnoresDepth(rd: Reader, n: RawNode, n': RawNode)
    requires n'.cls == n.cls && n'.block == n.block
    ensures IsUsb(n') == IsUsb(n) && IsDevice(rd, n') == IsDevice(rd, n)
  {
  }

  lemma Regroup(pre: seq<RawNode>, root: RawNode, kids: seq<RawNode>, rest: seq<RawNode>, post: seq<RawNode>)
    ensures var all := pre + ([root] + kids + rest) + post;
            && all == pre + [root] + (kids + rest + post)
            && all == (pre + [root]) + kids + (rest + post)
            && all == (pre + [root] + kids) + rest + post
    ensures |pre + [root]| == |pre| + 1 && |pre + [root] + kids| == |pre| + 1 + |kids|
  {
  }

  /** Position `i` of a forest printed after `pre` and before `post` has the owner the tree gives it. */
  ghost predicate AgreesAt(pre: seq<RawNode>, ts: seq<Tree>, post: seq<RawNode>, rd: Reader, depth: nat, i: nat)
    requires i < |Print(ts, depth)|
  {
    var owners := TreeOwners(ts, rd, |pre|, Nearest(pre, rd, depth));
    |owners| == |Print(ts, depth)| && Owner(pre + Print(ts, depth) + post, rd, |pre| + i) == owners[i]
  }

  lemma {:induction false} OwnersInContext(pre: seq<RawNode>, ts: seq<Tree>, post: seq<RawNode>, rd: Reader, depth: nat,
                                           i: nat)
    requires i < |Print(ts, depth)|
    ensures AgreesAt(pre, ts, post, rd, depth, i)
    decreases ts
  {
    var root := RawNode(depth, ts[0].cls, ts[0].block);
    var kids := Print(ts[0].children, depth + 1);
    if i == 0 {
      AgreesAtRoot(pre, ts, post, rd, depth);
    } else if i < 1 + |kids| {
      OwnersInContext(pre + [root], ts[0].children, Print(ts[1..], depth) + post, rd, depth + 1, i - 1);
      AgreesBelow(pre, ts, post, rd, depth, i);
    } else {
      OwnersInContext(pre + [root] + kids, ts[1..], post, rd, depth, i - 1 - |kids|);
      AgreesAfter(pre, ts, post, rd, depth, i);
    }
  }

  lemma AgreesAtRoot(pre: seq<RawNode>, ts: seq<Tree>, post: seq<RawNode>, rd: Reader, depth: nat)
    requires ts != []
    ensures AgreesAt(pre, ts, post, rd, depth, 0)
  {
    Unfold(ts, rd, depth, |pre|, Nearest(pre, rd, depth));
    hide Owner, Nearest, Print, TreeOwners;
    var root := RawNode(depth, ts[0].cls, ts[0].block);
    var kids, rest := Print(ts[0].children, depth + 1), Print(ts[1..], depth);
    Regroup(pre, root, kids, rest, post);
    OwnerInPlace(pre, root, kids + rest + post, rd);
  }

  /** The same node seen from inside the first tree's children, or from the trees after it. */
  lemma SamePlace(pre: seq<RawNode>, ts: seq<Tree>, post: seq<RawNode>, rd: Reader, depth: nat, i: nat)
    requires ts != [] && 0 < i < |Print(ts, depth)|
    ensures var root := RawNode(depth, ts[0].cls, ts[0].block);
            var kids, rest := Print(ts[0].children, depth + 1), Print(ts[1..], depth);
            var owner := Owner(pre + Print(ts, depth) + post, rd, |pre| + i);
            && |Print(ts, depth)| == 1 + |kids| + |rest|
            && (i < 1 + |kids| ==> owner == Owner((pre + [root]) + kids + (rest + post), rd, |pre + [root]| + (i - 1)))
            && (i >= 1 + |kids| ==>
                  owner == Owner((pre + [root] + kids) + rest + post, rd, |pre + [root] + kids| + (i - 1 - |kids|)))
  {
    hide Owner;
    var root := RawNode(depth, ts[0].cls, ts[0].block);
    Regroup(pre, root, Print(ts[0].children, depth + 1), Print(ts[1..], depth), post);
  }

  lemma SameOwner(ts: seq<Tree>, rd: Reader, depth: nat, base: nat, above: Option<nat>, i: nat)
    requires ts != [] && 0 < i < |Print(ts, depth)|
    ensures var root := RawNode(depth, ts[0].cls, ts[0].block);
            var below := if IsDevice(rd, root) then Some(base) else above;
            var kids := Print(ts[0].children, depth + 1);
            var owners := TreeOwners(ts, rd, base, above);
            var inside := TreeOwners(ts[0].children, rd, base + 1, below);
            var after := TreeOwners(ts[1..], rd, base + 1 + |kids|, above);
            && |owners| == |Print(ts, depth)| && |inside| == |kids| && |owners| == 1 + |inside| + |after|
            && owners[i] == if i < 1 + |kids| then inside[i - 1] else after[i - 1 - |kids|]
  {
    Unfold(ts, rd, depth, base, above);
    hide Print, TreeOwners;
  }

  lemma AgreesBelow(pre: seq<RawNode>, ts: seq<Tree>, post: seq<RawNode>, rd: Reader, depth: nat, i: nat)
    requires ts != [] && 0 < i < 1 + |Print(ts[0].children, depth + 1)| && i < |Print(ts, depth)|
    requires AgreesAt(pre + [RawNode(depth, ts[0].cls, ts[0].block)], ts[0].children, Print(ts[1..], depth) + post, rd,
                      depth + 1, i - 1)
    ensures AgreesAt(pre, ts, post, rd, depth, i)
  {
    hide Owner, Nearest, Print, TreeOwners, IsDevice;
    SamePlace(pre, ts, post, rd, depth, i);
    SameOwner(ts, rd, depth, |pre|, Nearest(pre, rd, depth), i);
    PrintDepths(ts[0].children, depth + 1);
    BoundsPassedOn(pre, RawNode(depth, ts[0].cls, ts[0].block), Print(ts[0].children, depth + 1), rd);
  }

  lemma AgreesAfter(pre: seq<RawNode>, ts: seq<Tree>, post: seq<RawNode>, rd: Reader, depth: nat, i: nat)
    requires ts != [] && 1 + |Print(ts[0].children, depth + 1)| <= i < |Print(ts, depth)|
    requires |Print(ts, depth)| == 1 + |Print(ts[0].children, depth + 1)| + |Print(ts[1..], depth)|
    requires var kids := Print(ts[0].children, depth + 1);
             AgreesAt(pre + [RawNode(depth, ts[0].cls, ts[0].block)] + kids, ts[1..], post, rd, depth, i - 1 - |kids|)
    ensures AgreesAt(pre, ts, post, rd, depth, i)
  {
    hide Owner, Nearest, Print, TreeOwners, IsDevice;
    SamePlace(pre, ts, post, rd, depth, i);
    SameOwner(ts, rd, depth, |pre|, Nearest(pre, rd, depth), i);
    PrintDepths(ts[0].children, depth + 1);
    BoundsPassedOn(pre, RawNode(depth, ts[0].cls, ts[0].block), Print(ts[0].children, depth + 1), rd);
  }

  /** On a printed forest, the owners computed from depths are the ones the tree itself gives. */
  lemma TreesAgree(ts: seq<Tree>, rd: Reader, i: nat)
    requires i < |Print(ts, 0)|
    ensures |TreeOwners(ts, rd, 0, None)| == |Print(ts, 0)|
    ensures Owner(Print(ts, 0), rd, i) == TreeOwners(ts, rd, 0, None)[i]
  {
    OwnersInContext([], ts, [], rd, 0, i);
    assert [] + Print(ts, 0) + [] == Print(ts, 0);
  }
}
