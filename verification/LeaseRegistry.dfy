/**
 * Exclusive device leases with lazy expiry, proved to answer exactly like a registry
 * that deletes every lease the instant it expires.
 */
module LeaseRegistry {
  import opened Wrappers

  type DeviceId = string
  type ClientId = string

  datatype Lease = Lease(client: ClientId, expiresAt: Option<int>)

  type Leases = map<DeviceId, Lease>

  datatype Answer =
    | Claimed(expiresAt: Option<int>)
    | Done
    | Holder(client: Option<ClientId>)
    | LeasedTo(heldBy: ClientId)

  /** `later` is the second reading of the clock a claim makes. */
  datatype Op =
    | Claim(device: DeviceId, client: ClientId, ttl: Option<int>, later: int)
    | Release(device: DeviceId, client: ClientId)
    | ReleaseAll(client: ClientId)
    | AssertHolder(device: DeviceId, client: ClientId)
    | AskHolder(device: DeviceId)

  // -- The registry as it is -----------------------------------------------------------

  predicate Expired(l: Lease, now: int) {
    l.expiresAt.Some? && l.expiresAt.value <= now
  }

  /** Looking a lease up deletes it when it has expired. */
  function Live(m: Leases, d: DeviceId, now: int): (Leases, Option<Lease>) {
    if d !in m then (m, None) else if Expired(m[d], now) then (m - {d}, None) else (m, Some(m[d]))
  }

  function LazyStep(m: Leases, now: int, op: Op): (Leases, Answer) {
    match op
    case Claim(d, c, ttl, later) =>
      var (m', existing) := Live(m, d, now);
      if existing.Some? && existing.value.client != c then (m', LeasedTo(existing.value.client))
      else
        var expiresAt := if ttl.Some? then Some(later + ttl.value) else None;
        (m'[d := Lease(c, expiresAt)], Claimed(expiresAt))
    case Release(d, c) =>
      var (m', existing) := Live(m, d, now);
      if existing.None? then (m', Done)
      else if existing.value.client != c then (m', LeasedTo(existing.value.client))
      else (m' - {d}, Done)
    case ReleaseAll(c) => (map d | d in m && m[d].client != c :: m[d], Done)
    case AssertHolder(d, c) =>
      var (m', existing) := Live(m, d, now);
      if existing.Some? && existing.value.client != c then (m', LeasedTo(existing.value.client)) else (m', Done)
    case AskHolder(d) =>
      var (m', existing) := Live(m, d, now);
      (m', Holder(if existing.Some? then Some(existing.value.client) else None))
  }

  // -- The registry as it is meant -------------------------------------------------------

  /** The leases that have not expired by `now`. */
  function Purge(m: Leases, now: int): Leases {
    map d | d in m && !Expired(m[d], now) :: m[d]
  }

  function HolderOf(m: Leases, d: DeviceId): Option<ClientId> {
    if d in m then Some(m[d].client) else None
  }

  /** No operation here looks at the clock: expired leases are gone before it begins. */
  function EagerStep(m0: Leases, now: int, op: Op): (Leases, Answer) {
    var m := Purge(m0, now);
    match op
    case Claim(d, c, ttl, later) =>
      if d in m && m[d].client != c then (m, LeasedTo(m[d].client))
      else
        var expiresAt := if ttl.Some? then Some(later + ttl.value) else None;
        (m[d := Lease(c, expiresAt)], Claimed(expiresAt))
    case Release(d, c) =>
      if d !in m then (m, Done) else if m[d].client != c then (m, LeasedTo(m[d].client)) else (m - {d}, Done)
    case ReleaseAll(c) => (map d | d in m && m[d].client != c :: m[d], Done)
    case AssertHolder(d, c) => if d in m && m[d].client != c then (m, LeasedTo(m[d].client)) else (m, Done)
    case AskHolder(d) => (m, Holder(HolderOf(m, d)))
  }

  datatype Call = Call(now: int, op: Op)

  /** Every reading of the clock is at least the one before it. */
  predicate ClockAdvances(calls: seq<Call>) {
    && (forall i, j | 0 <= i < j < |calls| :: Until(calls[i]) <= calls[j].now)
    && (forall i | 0 <= i < |calls| :: calls[i].now <= Until(calls[i]))
  }

  function Until(c: Call): int {
    if c.op.Claim? then c.op.later else c.now
  }

  function RunLazy(calls: seq<Call>): (Leases, seq<Answer>) {
    if calls == [] then (map[], [])
    else
      var n := |calls| - 1;
      var (m, answers) := RunLazy(calls[..n]);
      var (m', a) := LazyStep(m, calls[n].now, calls[n].op);
      (m', answers + [a])
  }

  function RunEager(calls: seq<Call>): (Leases, seq<Answer>) {
    if calls == [] then (map[], [])
    else
      var n := |calls| - 1;
      var (m, answers) := RunEager(calls[..n]);
      var (m', a) := EagerStep(m, calls[n].now, calls[n].op);
      (m', answers + [a])
  }

  /** The two registries hold the same unexpired leases, now and at any later time. */
  ghost predicate Agree(lazy': Leases, eager: Leases, now: int) {
    forall t | t >= now :: Purge(lazy', t) == Purge(eager, t)
  }

  lemma AgreeAt(m: Leases, e: Leases, d: DeviceId, now: int, t: int)
    requires Agree(m, e, now) && t >= now
    ensures (d in m && !Expired(m[d], t)) <==> (d in e && !Expired(e[d], t))
    ensures d in m && !Expired(m[d], t) ==> m[d] == e[d]
  {
    var a, b := Purge(m, t), Purge(e, t);
    assert a == b;
    assert d in a <==> d in m && !Expired(m[d], t);
    assert d in b <==> d in e && !Expired(e[d], t);
    assert d in a ==> a[d] == b[d];
  }

  lemma StepsAgree(m: Leases, e: Leases, now: int, op: Op)
    requires Agree(m, e, now)
    ensures LazyStep(m, now, op).1 == EagerStep(e, now, op).1
    ensures Agree(LazyStep(m, now, op).0, EagerStep(e, now, op).0, now)
  {
    var m', e' := LazyStep(m, now, op).0, EagerStep(e, now, op).0;
    if !op.ReleaseAll? {
      AgreeAt(m, e, op.device, now, now);
    }
    forall t | t >= now ensures Purge(m', t) == Purge(e', t) {
      forall d ensures (d in Purge(m', t) <==> d in Purge(e', t)) && (d in Purge(m', t) ==> m'[d] == e'[d]) {
        AgreeAt(m, e, d, now, t);
        AgreeAt(m, e, d, now, now);
      }
    }
  }

  lemma AgreeLater(m: Leases, e: Leases, now: int, later: int)
    requires Agree(m, e, now) && now <= later
    ensures Agree(m, e, later)
  {
  }

  /** Lazy expiry is invisible: with a clock that never goes back, every answer is the eager one. */
  lemma {:induction false} LazyAnswersLikeEager(calls: seq<Call>)
    requires ClockAdvances(calls)
    ensures RunLazy(calls).1 == RunEager(calls).1
    ensures Agree(RunLazy(calls).0, RunEager(calls).0, if calls == [] then 0 else calls[|calls| - 1].now)
  {
    if calls != [] {
      var n := |calls| - 1;
      LazyAnswersLikeEager(calls[..n]);
      var m, e := RunLazy(calls[..n]).0, RunEager(calls[..n]).0;
      if n > 0 {
        AgreeLater(m, e, calls[n - 1].now, calls[n].now);
      } else {
        assert Agree(m, e, calls[n].now);
      }
      StepsAgree(m, e, calls[n].now, calls[n].op);
    }
  }

  // -- Exclusivity -------------------------------------------------------------------

  function RunFrom(m: Leases, calls: seq<Call>): Leases {
    if calls == [] then m
    else
      var n := |calls| - 1;
      LazyStep(RunFrom(m, calls[..n]), calls[n].now, calls[n].op).0
  }

  /** The calls that end or replace the holder's own lease. */
  predicate EndsLease(op: Op, d: DeviceId, c: ClientId) {
    match op
    case Claim(d', c', _, _) => d' == d && c' == c
    case Release(d', c') => d' == d && c' == c
    case ReleaseAll(c') => c' == c
    case _ => false
  }

  /**
   * From a successful claim until its holder releases, reclaims or disconnects, or
   * the lease expires, nobody else can claim, release or operate the device.
   */
  lemma {:induction false} LeaseIsExclusive(m: Leases, now: int, d: DeviceId, c: ClientId, ttl: Option<int>, later: int,
                                            calls: seq<Call>, t: int, other: ClientId)
    requires LazyStep(m, now, Claim(d, c, ttl, later)).1.Claimed?
    requires ttl.Some? ==> t < later + ttl.value && forall i | 0 <= i < |calls| :: calls[i].now < later + ttl.value
    requires forall i | 0 <= i < |calls| :: !EndsLease(calls[i].op, d, c)
    requires other != c
    ensures var m' := RunFrom(LazyStep(m, now, Claim(d, c, ttl, later)).0, calls);
            && d in m' && m'[d] == Lease(c, if ttl.Some? then Some(later + ttl.value) else None)
            && LazyStep(m', t, AssertHolder(d, other)).1 == LeasedTo(c)
            && LazyStep(m', t, AssertHolder(d, c)).1 == Done
            && LazyStep(m', t, AskHolder(d)).1 == Holder(Some(c))
            && (forall ttl', later' :: LazyStep(m', t, Claim(d, other, ttl', later')).1 == LeasedTo(c))
            && LazyStep(m', t, Release(d, other)).1 == LeasedTo(c)
  {
    if calls != [] {
      var n := |calls| - 1;
      LeaseIsExclusive(m, now, d, c, ttl, later, calls[..n], calls[n].now, other);
    }
  }

  /** At its expiry a lease stops holding anyone off, whether or not it was looked up since. */
  lemma ExpiryFreesTheDevice(m: Leases, d: DeviceId, t: int, other: ClientId, ttl: Option<int>, later: int)
    requires d in m && m[d].expiresAt.Some?
    ensures LazyStep(m, t, Claim(d, other, ttl, later)).1.Claimed? <==> m[d].client == other || m[d].expiresAt.value <= t
  {
  }

  /** When its holder releases a device or disconnects, anybody may operate or claim it at once; other leases stay. */
  lemma ReleaseFreesTheDevice(m: Leases, now: int, op: Op, d: DeviceId, t: int, other: ClientId)
    requires d in m && !Expired(m[d], now)
    requires op == Release(d, m[d].client) || op == ReleaseAll(m[d].client)
    ensures var m' := LazyStep(m, now, op).0;
            && LazyStep(m, now, op).1 == Done
            && LazyStep(m', t, AskHolder(d)).1 == Holder(None) && LazyStep(m', t, AssertHolder(d, other)).1 == Done
            && (forall ttl, later :: LazyStep(m', t, Claim(d, other, ttl, later)).1
                                     == Claimed(if ttl.Some? then Some(later + ttl.value) else None))
            && forall x | x in m && x != d && (op.Release? || m[x].client != m[d].client) :: x in m' && m'[x] == m[x]
  {
  }

  /** What a claim grants lasts as long as was asked for, from the second reading of the clock; without a limit, for good. */
  lemma ClaimLasts(m: Leases, now: int, d: DeviceId, c: ClientId, ttl: Option<int>, later: int, t: int)
    requires LazyStep(m, now, Claim(d, c, ttl, later)).1.Claimed?
    ensures var m' := LazyStep(m, now, Claim(d, c, ttl, later)).0;
            LazyStep(m', t, AskHolder(d)).1 == Holder(if ttl.Some? && t >= later + ttl.value then None else Some(c))
  {
  }

  // -- The class ---------------------------------------------------------------------

  class Registry {
    var leases: map<DeviceId, Lease>

    constructor ()
      ensures leases == map[]
    {
      leases := map[];
    }

    method LookUp(d: DeviceId, now: int) returns (lease: Option<Lease>)
      modifies this
      ensures (leases, lease) == Live(old(leases), d, now)
    {
      if d !in leases {
        return None;
      }
      lease := Some(leases[d]);
      if lease.value.expiresAt.Some? && lease.value.expiresAt.value <= now {
        leases := leases - {d};
        return None;
      }
    }

    method DoClaim(d: DeviceId, c: ClientId, ttl: Option<int>, now: int, later: int) returns (a: Answer)
      modifies this
      ensures (leases, a) == LazyStep(old(leases), now, Claim(d, c, ttl, later))
    {
      var existing := LookUp(d, now);
      if existing.Some? && existing.value.client != c {
        return LeasedTo(existing.value.client);
      }
      var expiresAt := if ttl.Some? then Some(later + ttl.value) else None;
      leases := leases[d := Lease(c, expiresAt)];
      return Claimed(expiresAt);
    }

    method DoRelease(d: DeviceId, c: ClientId, now: int) returns (a: Answer)
      modifies this
      ensures (leases, a) == LazyStep(old(leases), now, Release(d, c))
    {
      var existing := LookUp(d, now);
      if existing.None? {
        return Done;
      }
      if existing.value.client != c {
        return LeasedTo(existing.value.client);
      }
      leases := leases - {d};
      return Done;
    }

    /** Deletes while iterating over the map's keys. */
    method DoReleaseAll(c: ClientId, now: int) returns (a: Answer)
      modifies this
      ensures (leases, a) == LazyStep(old(leases), now, ReleaseAll(c))
    {
      var todo := leases.Keys;
      while todo != {}
        invariant todo <= old(leases).Keys
        invariant forall d | d in leases :: d in old(leases) && leases[d] == old(leases)[d]
        invariant forall d | d in old(leases) :: d in leases <==> d in todo || old(leases)[d].client != c
        decreases todo
      {
        var d :| d in todo;
        todo := todo - {d};
        if d in leases && leases[d].client == c {
          leases := leases - {d};
        }
      }
      ghost var kept := LazyStep(old(leases), now, ReleaseAll(c)).0;
      assert forall d :: d in leases <==> d in kept;
      assert leases == kept;
      return Done;
    }

    method DoAssertHolder(d: DeviceId, c: ClientId, now: int) returns (a: Answer)
      modifies this
      ensures (leases, a) == LazyStep(old(leases), now, AssertHolder(d, c))
    {
      var existing := LookUp(d, now);
      if existing.Some? && existing.value.client != c {
        return LeasedTo(existing.value.client);
      }
      return Done;
    }

    method DoAskHolder(d: DeviceId, now: int) returns (a: Answer)
      modifies this
      ensures (leases, a) == LazyStep(old(leases), now, AskHolder(d))
    {
      var existing := LookUp(d, now);
      return Holder(if existing.Some? then Some(existing.value.client) else None);
    }
  }
}
