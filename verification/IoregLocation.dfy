/**
 * Picking one USB device out of the parsed list, and the 32-bit location id that
 * tells identical devices apart: a bus byte and one nibble per port tier.
 */
module IoregLocation {
  import opened Wrappers
  import opened IoregTree

  // -- Location ids ------------------------------------------------------------------

  const MAX_PORT_DEPTH := 7

  /**
   * A nibble moved to its tier: left by 20, 16, 12, 8, 4 and 0. The seventh tier's
   * count is -4, and counts act modulo 32, so it moves by 28.
   */
  function AtTier(p: bv32, i: nat): bv32
    requires i < MAX_PORT_DEPTH
  {
    match i
    case 0 => p << 20
    case 1 => p << 16
    case 2 => p << 12
    case 3 => p << 8
    case 4 => p << 4
    case 5 => p
    case _ => p << 28
  }

  /** The numbers are already in the 32-bit form bitwise operators see. */
  function Location(bus: bv32, ports: seq<bv32>, n: nat): bv32
    requires n <= |ports| && n <= MAX_PORT_DEPTH
  {
    if n == 0 then BusByte(bus) else WithTier(Location(bus, ports, n - 1), ports[n - 1], n - 1)
  }

  function BusByte(bus: bv32): bv32 {
    (bus & 0xff) << 24
  }

  function WithTier(location: bv32, port: bv32, i: nat): bv32
    requires i < MAX_PORT_DEPTH
  {
    location | AtTier(port & 0xf, i)
  }

  function Tiers(ports: seq<bv32>): (n: nat)
    ensures n <= |ports| && n <= MAX_PORT_DEPTH
  {
    if |ports| < MAX_PORT_DEPTH then |ports| else MAX_PORT_DEPTH
  }

  method BusLocationToLocationId(busNumber: bv32, portNumbers: seq<bv32>) returns (location: bv32)
    ensures location == Location(busNumber, portNumbers, Tiers(portNumbers))
  {
    hide BusByte, WithTier;
    location := BusByte(busNumber);
    var tiers := Tiers(portNumbers);
    for i := 0 to tiers
      invariant location == Location(busNumber, portNumbers, i)
    {
      location := WithTier(location, portNumbers[i], i);
    }
  }

  /** Reading a location back the way libusb does. */
  function BusOf(location: bv32): bv32 {
    (location >> 24) & 0xff
  }

  function PortAt(location: bv32, i: nat): bv32
    requires i < 6
  {
    match i
    case 0 => (location >> 20) & 0xf
    case 1 => (location >> 16) & 0xf
    case 2 => (location >> 12) & 0xf
    case 3 => (location >> 8) & 0xf
    case 4 => (location >> 4) & 0xf
    case _ => location & 0xf
  }

  /** Successive nibbles, up to the first zero. */
  function PortsFrom(location: bv32, i: nat): seq<bv32>
    requires i <= 6
    decreases 6 - i
  {
    if i == 6 || PortAt(location, i) == 0 then [] else [PortAt(location, i)] + PortsFrom(location, i + 1)
  }

  predicate Nibble(p: bv32) {
    1 <= p <= 15
  }

  /** One location with all six tiers spelled out; an absent tier is zero. */
  function Pack(b: bv32, p: bv32, q: bv32, r: bv32, s: bv32, t: bv32, u: bv32): bv32 {
    (b << 24) | (p << 20) | (q << 16) | (r << 12) | (s << 8) | (t << 4) | u
  }

  lemma Unpack(b: bv32, p: bv32, q: bv32, r: bv32, s: bv32, t: bv32, u: bv32)
    requires b <= 0xff && p <= 0xf && q <= 0xf && r <= 0xf && s <= 0xf && t <= 0xf && u <= 0xf
    ensures var l := Pack(b, p, q, r, s, t, u);
            && (l >> 24) & 0xff == b && (l >> 20) & 0xf == p && (l >> 16) & 0xf == q && (l >> 12) & 0xf == r
            && (l >> 8) & 0xf == s && (l >> 4) & 0xf == t && l & 0xf == u
  {
  }

  function PortOr0(ports: seq<bv32>, i: nat): bv32 {
    if i < |ports| then ports[i] & 0xf else 0
  }

  function With(l: bv32, p: bv32, i: nat): bv32
    requires i < MAX_PORT_DEPTH
  {
    l | AtTier(p, i)
  }

  lemma WithNothing(l: bv32, i: nat)
    requires i < MAX_PORT_DEPTH
    ensures With(l, 0, i) == l
  {
  }

  function AtMost(i: nat, n: nat): nat {
    if i <= n then i else n
  }

  /** Tier `i` contributes its nibble, or nothing when it is absent. */
  lemma AddTier(bus: bv32, ports: seq<bv32>, i: nat)
    requires |ports| <= 6 && i < 6
    ensures Location(bus, ports, AtMost(i + 1, |ports|)) == With(Location(bus, ports, AtMost(i, |ports|)), PortOr0(ports, i), i)
  {
    hide With, WithTier, BusByte;
    if i < |ports| {
      TierIsWith(Location(bus, ports, i), ports[i], i);
    } else {
      WithNothing(Location(bus, ports, |ports|), i);
      hide Location;
    }
  }

  lemma TierIsWith(l: bv32, p: bv32, i: nat)
    requires i < MAX_PORT_DEPTH
    ensures WithTier(l, p, i) == With(l, p & 0xf, i)
  {
    hide AtTier;
  }

  /** The six tiers added one by one. */
  function Layered(l: bv32, p: bv32, q: bv32, r: bv32, s: bv32, t: bv32, u: bv32): bv32 {
    With(With(With(With(With(With(l, p, 0), q, 1), r, 2), s, 3), t, 4), u, 5)
  }

  lemma LayeredIsPacked(bus: bv32, p: bv32, q: bv32, r: bv32, s: bv32, t: bv32, u: bv32)
    ensures Layered(BusByte(bus), p, q, r, s, t, u) == Pack(bus & 0xff, p, q, r, s, t, u)
  {
  }

  lemma Packed(bus: bv32, ports: seq<bv32>)
    requires |ports| <= 6
    ensures Location(bus, ports, |ports|)
            == Pack(bus & 0xff, PortOr0(ports, 0), PortOr0(ports, 1), PortOr0(ports, 2), PortOr0(ports, 3),
                    PortOr0(ports, 4), PortOr0(ports, 5))
  {
    LocationIsLayered(bus, ports);
    hide Location, PortOr0, Layered, Pack, BusByte;
    LayeredIsPacked(bus, PortOr0(ports, 0), PortOr0(ports, 1), PortOr0(ports, 2), PortOr0(ports, 3), PortOr0(ports, 4),
                    PortOr0(ports, 5));
  }

  lemma LocationIsLayered(bus: bv32, ports: seq<bv32>)
    requires |ports| <= 6
    ensures Location(bus, ports, |ports|)
            == Layered(BusByte(bus), PortOr0(ports, 0), PortOr0(ports, 1), PortOr0(ports, 2), PortOr0(ports, 3),
                       PortOr0(ports, 4), PortOr0(ports, 5))
  {
    hide With, BusByte, PortOr0, Location, AtMost;
    AddTier(bus, ports, 0);
    AddTier(bus, ports, 1);
    AddTier(bus, ports, 2);
    AddTier(bus, ports, 3);
    AddTier(bus, ports, 4);
    AddTier(bus, ports, 5);
    Ends(bus, ports);
  }

  lemma Ends(bus: bv32, ports: seq<bv32>)
    requires |ports| <= 6
    ensures AtMost(0, |ports|) == 0 && AtMost(6, |ports|) == |ports| && Location(bus, ports, 0) == BusByte(bus)
  {
  }

  /** For a bus below 256 and up to six ports in 1..15, the bus byte and the nibbles read back the inputs. */
  lemma LocationReadsBack(bus: bv32, ports: seq<bv32>)
    requires bus <= 0xff && |ports| <= 6 && forall i | 0 <= i < |ports| :: Nibble(ports[i])
    ensures var l := Location(bus, ports, |ports|);
            BusOf(l) == bus && PortsFrom(l, 0) == ports
  {
    var l := Location(bus, ports, |ports|);
    Packed(bus, ports);
    Masked(bus, ports);
    hide Location, PortOr0, Pack;
    Unpack(bus & 0xff, PortOr0(ports, 0), PortOr0(ports, 1), PortOr0(ports, 2), PortOr0(ports, 3), PortOr0(ports, 4),
           PortOr0(ports, 5));
    assert PortAt(l, 0) == (l >> 20) & 0xf && PortAt(l, 1) == (l >> 16) & 0xf && PortAt(l, 2) == (l >> 12) & 0xf;
    assert PortAt(l, 3) == (l >> 8) & 0xf && PortAt(l, 4) == (l >> 4) & 0xf && PortAt(l, 5) == l & 0xf;
    hide PortAt;
    forall i: nat | i < 6 ensures PortAt(l, i) == if i < |ports| then ports[i] else 0 {
      assert i == 0 || i == 1 || i == 2 || i == 3 || i == 4 || i == 5;
    }
    NibblesAre(l, ports, 0);
    assert ports[0..] == ports;
  }

  lemma Masked(bus: bv32, ports: seq<bv32>)
    requires bus <= 0xff && forall i | 0 <= i < |ports| :: Nibble(ports[i])
    ensures bus & 0xff == bus && forall i: nat :: PortOr0(ports, i) == if i < |ports| then ports[i] else 0
    ensures forall i: nat :: PortOr0(ports, i) <= 0xf
  {
  }

  lemma {:induction false} NibblesAre(l: bv32, ports: seq<bv32>, i: nat)
    requires |ports| <= 6 && i <= |ports| && forall k | 0 <= k < |ports| :: ports[k] != 0
    requires forall k: nat | k < 6 :: PortAt(l, k) == if k < |ports| then ports[k] else 0
    ensures PortsFrom(l, i) == ports[i..]
    decreases |ports| - i
  {
    if i < |ports| {
      NibblesAre(l, ports, i + 1);
      assert ports[i..] == [ports[i]] + ports[i + 1..];
    }
  }

  /** Distinct places never share a location id. */
  lemma LocationsNeverCollide(bus: bv32, ports: seq<bv32>, bus': bv32, ports': seq<bv32>)
    requires bus <= 0xff && |ports| <= 6 && forall i | 0 <= i < |ports| :: Nibble(ports[i])
    requires bus' <= 0xff && |ports'| <= 6 && forall i | 0 <= i < |ports'| :: Nibble(ports'[i])
    requires Location(bus, ports, |ports|) == Location(bus', ports', |ports'|)
    ensures bus == bus' && ports == ports'
  {
    LocationReadsBack(bus, ports);
    LocationReadsBack(bus', ports');
  }

  /** A seventh tier lands on the bus byte's high nibble; the bus is still readable exactly when it adds no bit there. */
  lemma SeventhTierCorruptsBus(bus: bv32, ports: seq<bv32>)
    requires bus <= 0xff && |ports| >= 7
    ensures BusOf(Location(bus, ports, 7)) == bus <==> ((ports[6] & 0xf) << 4) & !bus == 0
  {
    hide BusByte, WithTier, Pack, AtTier;
    var six := ports[..6];
    Packed(bus, six);
    PrefixLocation(bus, ports, 6);
    assert Location(bus, ports, 7) == WithTier(Location(bus, six, 6), ports[6], 6);
    NibblesSmall(bus, six);
    NibblesSmall(bus, ports);
    hide Location, PortOr0;
    SeventhTier(Location(bus, six, 6), ports[6]);
    Seventh(bus & 0xff, PortOr0(six, 0), PortOr0(six, 1), PortOr0(six, 2), PortOr0(six, 3), PortOr0(six, 4),
            PortOr0(six, 5), PortOr0(ports, 6));
  }

  /** The bus a place with a seventh tier is taken to be on. */
  function Aliased(bus: bv32, port: bv32): bv32 {
    bus | ((port & 0xf) << 4)
  }

  /**
   * A place with a seventh tier always shares its id with another place: the same six
   * tiers on the aliased bus. When the bus is still readable, that is its own hub.
   */
  lemma SeventhTierAliases(bus: bv32, ports: seq<bv32>)
    requires bus <= 0xff && |ports| >= 7
    ensures Aliased(bus, ports[6]) <= 0xff
    ensures Location(bus, ports, 7) == Location(Aliased(bus, ports[6]), ports[..6], 6)
    ensures BusOf(Location(bus, ports, 7)) == bus ==> Location(bus, ports, 7) == Location(bus, ports[..6], 6)
  {
    SeventhTierCorruptsBus(bus, ports);
    hide BusByte, WithTier, AtTier, BusOf, Aliased, Top, Or;
    AliasedBus(bus, ports[6]);
    PrefixLocation(bus, ports, 6);
    assert Location(bus, ports, 7) == WithTier(Location(bus, ports[..6], 6), ports[6], 6);
    hide Location;
    SeventhIsTop(Location(bus, ports[..6], 6), ports[6]);
    AliasedLocation(bus, ports[..6], ports[6], 6);
  }

  function Or(l: bv32, x: bv32): bv32 {
    l | x
  }

  /** Where the seventh tier lands. */
  function Top(port: bv32): bv32 {
    AtTier(port & 0xf, 6)
  }

  lemma SeventhIsTop(l: bv32, port: bv32)
    ensures WithTier(l, port, 6) == Or(l, Top(port))
  {
    hide AtTier;
  }

  lemma TopOnBus(bus: bv32, port: bv32)
    ensures BusByte(Aliased(bus, port)) == Or(BusByte(bus), Top(port))
  {
  }

  lemma TierAndTop(l: bv32, x: bv32, port: bv32, i: nat)
    requires i < MAX_PORT_DEPTH
    ensures WithTier(Or(l, x), port, i) == Or(WithTier(l, port, i), x)
  {
    hide AtTier;
  }

  /** Bits added on top of a location might as well have been on the bus. */
  lemma {:induction false} AliasedLocation(bus: bv32, ports: seq<bv32>, port: bv32, n: nat)
    requires n <= |ports| && n <= 6
    ensures Or(Location(bus, ports, n), Top(port)) == Location(Aliased(bus, port), ports, n)
  {
    hide BusByte, WithTier, Or, Top, Aliased;
    if n == 0 {
      TopOnBus(bus, port);
    } else {
      AliasedLocation(bus, ports, port, n - 1);
      TierAndTop(Location(bus, ports, n - 1), Top(port), ports[n - 1], n - 1);
    }
  }

  lemma AliasedBus(bus: bv32, port: bv32)
    requires bus <= 0xff
    ensures Aliased(bus, port) <= 0xff
    ensures ((port & 0xf) << 4) & !bus == 0 ==> Aliased(bus, port) == bus
  {
  }

  /** A place: a bus below 256 and ports in 1..15. */
  predicate Place(bus: bv32, ports: seq<bv32>) {
    bus <= 0xff && forall i | 0 <= i < |ports| :: Nibble(ports[i])
  }

  function IdOf(bus: bv32, ports: seq<bv32>): bv32 {
    Location(bus, ports, Tiers(ports))
  }

  /** No other place of at most six tiers has the id. */
  ghost predicate HasOwnId(bus: bv32, ports: seq<bv32>) {
    forall bus', ports' | Place(bus', ports') && |ports'| <= 6 && IdOf(bus', ports') == IdOf(bus, ports) ::
      bus' == bus && ports' == ports
  }

  lemma {:induction false} SixNibbles(location: bv32, i: nat)
    requires i <= 6
    ensures |PortsFrom(location, i)| <= 6 - i
    decreases 6 - i
  {
    hide PortAt;
    if i < 6 {
      SixNibbles(location, i + 1);
    }
  }

  lemma SeventhTierIgnoresMore(bus: bv32, ports: seq<bv32>)
    requires Place(bus, ports) && |ports| >= 7
    ensures IdOf(bus, ports) == Location(bus, ports, 7)
    ensures Place(Aliased(bus, ports[6]), ports[..6]) && IdOf(Aliased(bus, ports[6]), ports[..6]) == IdOf(bus, ports)
  {
    SeventhTierAliases(bus, ports);
    hide Location, Aliased;
  }

  /** The id of a place reads back as that place, and is shared with no other, exactly when it has at most six tiers. */
  lemma OwnIdExactly(bus: bv32, ports: seq<bv32>)
    requires Place(bus, ports)
    ensures BusOf(IdOf(bus, ports)) == bus && PortsFrom(IdOf(bus, ports), 0) == ports <==> |ports| <= 6
    ensures HasOwnId(bus, ports) <==> |ports| <= 6
  {
    hide Location, BusOf, PortsFrom, PortAt, Aliased;
    if |ports| <= 6 {
      LocationReadsBack(bus, ports);
      forall bus', ports' | Place(bus', ports') && |ports'| <= 6 && IdOf(bus', ports') == IdOf(bus, ports)
        ensures bus' == bus && ports' == ports
      {
        LocationsNeverCollide(bus, ports, bus', ports');
      }
    } else {
      SixNibbles(IdOf(bus, ports), 0);
      SeventhTierIgnoresMore(bus, ports);
      assert |ports[..6]| != |ports|;
    }
  }

  /** Bus 16, seventh port 1: the bus reads back, and the id is that of the hub. */
  lemma SeventhPortCollides()
    ensures BusOf(IdOf(0x10, [1, 1, 1, 1, 1, 1, 1])) == 0x10
    ensures IdOf(0x10, [1, 1, 1, 1, 1, 1, 1]) == IdOf(0x10, [1, 1, 1, 1, 1, 1])
  {
    var ports: seq<bv32> := [1, 1, 1, 1, 1, 1, 1];
    assert ports[..6] == [1, 1, 1, 1, 1, 1];
    SeventhTierCorruptsBus(0x10, ports);
    SeventhTierAliases(0x10, ports);
    hide Location, BusOf;
  }

  lemma SeventhTier(location: bv32, port: bv32)
    ensures WithTier(location, port, 6) == location | ((port & 0xf) << 28)
  {
  }

  lemma NibblesSmall(bus: bv32, ports: seq<bv32>)
    ensures forall i: nat :: PortOr0(ports, i) <= 0xf
    ensures bus <= 0xff ==> bus & 0xff == bus
    ensures |ports| > 6 ==> PortOr0(ports, 6) == ports[6] & 0xf
  {
  }

  lemma Seventh(b: bv32, p: bv32, q: bv32, r: bv32, s: bv32, t: bv32, u: bv32, v: bv32)
    requires b <= 0xff && p <= 0xf && q <= 0xf && r <= 0xf && s <= 0xf && t <= 0xf && u <= 0xf && v <= 0xf
    ensures ((Pack(b, p, q, r, s, t, u) | (v << 28)) >> 24) & 0xff == b <==> (v << 4) & !b == 0
  {
  }

  lemma {:induction false} PrefixLocation(bus: bv32, ports: seq<bv32>, n: nat)
    requires n <= 6 <= |ports|
    ensures Location(bus, ports[..6], n) == Location(bus, ports, n)
  {
    if n > 0 {
      PrefixLocation(bus, ports, n - 1);
    }
  }

  // -- Selection ---------------------------------------------------------------------

  /** Positions of the devices with the given ids, and with the given location when one is asked for. */
  function Candidates(ds: seq<UsbDevice>, ids: Ids, at: Option<Option<int>>, n: nat): seq<nat>
    requires n <= |ds|
  {
    if n == 0 then []
    else
      Candidates(ds, ids, at, n - 1)
      + if ds[n - 1].ids == ids && (at.None? || ds[n - 1].location == at.value) then [n - 1] else []
  }

  function SelectIoregDevice(ds: seq<UsbDevice>, ids: Ids, expected: Option<int>): Option<nat> {
    var candidates := Candidates(ds, ids, None, |ds|);
    if |candidates| == 1 then Some(candidates[0])
    else if |candidates| == 0 || expected.None? then None
    else
      var located := Candidates(ds, ids, Some(expected), |ds|);
      if |located| == 1 then Some(located[0]) else None
  }

  predicate IsCandidate(ds: seq<UsbDevice>, ids: Ids, at: Option<Option<int>>, i: nat) {
    i < |ds| && ds[i].ids == ids && (at.None? || ds[i].location == at.value)
  }

  lemma {:induction false} CandidatesAre(ds: seq<UsbDevice>, ids: Ids, at: Option<Option<int>>, n: nat)
    requires n <= |ds|
    ensures forall i: nat :: i in Candidates(ds, ids, at, n) <==> i < n && IsCandidate(ds, ids, at, i)
    ensures forall p, q | 0 <= p < q < |Candidates(ds, ids, at, n)| ::
              Candidates(ds, ids, at, n)[p] < Candidates(ds, ids, at, n)[q]
  {
    if n > 0 {
      var before, c := Candidates(ds, ids, at, n - 1), Candidates(ds, ids, at, n);
      CandidatesAre(ds, ids, at, n - 1);
      forall p | 0 <= p < |before| ensures before[p] < n - 1 {
        assert before[p] in before;
      }
    }
  }

  ghost predicate OnlyCandidate(ds: seq<UsbDevice>, ids: Ids, at: Option<Option<int>>, i: nat) {
    IsCandidate(ds, ids, at, i) && forall j: nat | IsCandidate(ds, ids, at, j) :: j == i
  }

  lemma SingletonIsOnly(ds: seq<UsbDevice>, ids: Ids, at: Option<Option<int>>, i: nat)
    ensures Candidates(ds, ids, at, |ds|) == [i] <==> OnlyCandidate(ds, ids, at, i)
  {
    var c := Candidates(ds, ids, at, |ds|);
    CandidatesAre(ds, ids, at, |ds|);
    if OnlyCandidate(ds, ids, at, i) {
      assert i in c;
      forall p | 0 <= p < |c| ensures c[p] == i {
        assert c[p] in c;
      }
    }
    if c == [i] {
      assert c[0] in c;
      forall j: nat | IsCandidate(ds, ids, at, j) ensures j == i {
        assert j in c;
      }
    }
    if OnlyCandidate(ds, ids, at, i) {
      AllSame(c, i);
    }
  }

  /** Strictly rising positions that are all the same number: there is just one. */
  lemma AllSame(c: seq<nat>, i: nat)
    requires c != [] && forall p | 0 <= p < |c| :: c[p] == i
    requires forall p, q | 0 <= p < q < |c| :: c[p] < c[q]
    ensures c == [i]
  {
    assert c[0] == i && c[|c| - 1] == i;
  }

  /** Some other device has the ids. */
  ghost predicate HasOther(ds: seq<UsbDevice>, ids: Ids, i: nat) {
    exists j: nat :: j != i && IsCandidate(ds, ids, None, j)
  }

  /**
   * A device is chosen exactly when it is the only one with the ids, or, among
   * several, the only one at the expected location; anything ambiguous is refused.
   */
  lemma SelectsExactlyTheUnambiguous(ds: seq<UsbDevice>, ids: Ids, expected: Option<int>, i: nat)
    ensures SelectIoregDevice(ds, ids, expected) == Some(i)
            <==> || OnlyCandidate(ds, ids, None, i)
                 || (expected.Some? && OnlyCandidate(ds, ids, Some(expected), i) && HasOther(ds, ids, i))
  {
    var c, l := Candidates(ds, ids, None, |ds|), Candidates(ds, ids, Some(expected), |ds|);
    hide Candidates, OnlyCandidate, IsCandidate, HasOther;
    SingletonIsOnly(ds, ids, None, i);
    SingletonIsOnly(ds, ids, Some(expected), i);
    OnlyHasNoOther(ds, ids, i);
    SecondIsOther(ds, ids, i);
    FirstIsOther(ds, ids, i);
    OnlyIsCounted(ds, ids, Some(expected), i);
    assert |c| == 1 ==> c == [c[0]];
    assert |l| == 1 ==> l == [l[0]];
  }

  lemma OnlyHasNoOther(ds: seq<UsbDevice>, ids: Ids, i: nat)
    ensures OnlyCandidate(ds, ids, None, i) ==> !HasOther(ds, ids, i)
  {
    hide IsCandidate;
  }

  lemma SecondIsOther(ds: seq<UsbDevice>, ids: Ids, i: nat)
    ensures |Candidates(ds, ids, None, |ds|)| >= 2 ==> HasOther(ds, ids, i)
  {
    CandidatesAre(ds, ids, None, |ds|);
    var c := Candidates(ds, ids, None, |ds|);
    hide Candidates, IsCandidate;
    if |c| >= 2 {
      assert c[0] in c && c[1] in c && c[0] != c[1];
    }
  }

  lemma FirstIsOther(ds: seq<UsbDevice>, ids: Ids, i: nat)
    ensures var c := Candidates(ds, ids, None, |ds|); |c| == 1 && c != [i] ==> HasOther(ds, ids, i)
    ensures var c := Candidates(ds, ids, None, |ds|); |c| == 1 && HasOther(ds, ids, i) ==> c != [i]
  {
    CandidatesAre(ds, ids, None, |ds|);
    var c := Candidates(ds, ids, None, |ds|);
    hide Candidates, IsCandidate;
    if |c| == 1 {
      assert c[0] in c && c == [c[0]];
    }
  }

  /** The only one at a location has the ids, so it is counted among those with the ids. */
  lemma OnlyIsCounted(ds: seq<UsbDevice>, ids: Ids, at: Option<Option<int>>, i: nat)
    ensures OnlyCandidate(ds, ids, at, i) ==>
              var c := Candidates(ds, ids, None, |ds|); |c| > 0 && (|c| == 1 ==> c == [i])
  {
    CandidatesAre(ds, ids, None, |ds|);
    hide Candidates;
    if OnlyCandidate(ds, ids, at, i) {
      assert IsCandidate(ds, ids, None, i) && i in Candidates(ds, ids, None, |ds|);
    }
  }
}
