/** The signing lock as a state machine: one lease, cached in the service worker's memory and kept in session
    storage, against the leases that wallet contexts believe they hold. */
module LockProtocol {
  import opened Wrappers

  type Owner = string

  const MAX_TTL_MS: nat := 300000
  const MIN_TTL_MS: int := 30000

  datatype Lease = Lease(owner: Owner, expiresAt: int)

  /** `durable` says whether the browser has session storage at all. */
  datatype Store = Store(durable: bool, memory: Option<Lease>, stored: Option<Lease>, now: nat)

  predicate Live(lease: Option<Lease>, now: nat) {
    lease.Some? && lease.value.expiresAt > now
  }

  /** The lifetime a request is given; `None` stands for a value that is not a finite number. */
  function Ttl(requested: Option<int>): (r: int)
    ensures MIN_TTL_MS <= r <= MAX_TTL_MS
    ensures requested.Some? && MIN_TTL_MS <= requested.value <= MAX_TTL_MS ==> r == requested.value
    ensures requested.None? || requested.value <= 0 ==> r == MAX_TTL_MS
  {
    if requested.None? || requested.value <= 0 then MAX_TTL_MS
    else
      var raised := if requested.value < MIN_TTL_MS then MIN_TTL_MS else requested.value;
      if raised > MAX_TTL_MS then MAX_TTL_MS else raised
  }

  /** How often a holder renews a lease it asked for with this lifetime. */
  function RenewEvery(ttl: int): int {
    var third := ttl / 3;
    var capped := if third < 60000 then third else 60000;
    if capped > 10000 then capped else 10000
  }

  /** Whatever lifetime was asked for, two renewals may be missed before the lease runs out; and they come no more
      often than that takes, every ten seconds at most and every minute at least. */
  lemma RenewalsComeInTime(ttl: int)
    ensures 0 < 3 * RenewEvery(ttl) <= Ttl(Some(ttl))
    ensures 10000 <= RenewEvery(ttl) <= 60000
    ensures 30000 <= ttl <= 180000 ==> ttl < 3 * (RenewEvery(ttl) + 1)
    ensures ttl >= 180000 ==> RenewEvery(ttl) == 60000
  {
  }

  /** Look the lease up: the cached one while it lives, else the stored one, dropping what has expired. */
  function Lookup(s: Store): Store {
    if Live(s.memory, s.now) then s
    else if !s.durable then s.(memory := None)
    else if Live(s.stored, s.now) then s.(memory := s.stored)
    else s.(memory := None, stored := None)
  }

  function Write(s: Store, lease: Option<Lease>): Store {
    s.(memory := lease, stored := if s.durable then lease else s.stored)
  }

  function Acquire(s: Store, owner: Owner, ttl: Option<int>): (Store, bool) {
    var at := Lookup(s);
    if at.memory.Some? then (at, false)
    else (Write(at, Some(Lease(owner, at.now + Ttl(ttl)))), true)
  }

  function Renew(s: Store, owner: Owner, ttl: Option<int>): (Store, bool) {
    var at := Lookup(s);
    if at.memory.None? || at.memory.value.owner != owner then (at, false)
    else (Write(at, Some(Lease(owner, at.now + Ttl(ttl)))), true)
  }

  function Release(s: Store, owner: Owner): (Store, bool) {
    var at := Lookup(s);
    if at.memory.None? || at.memory.value.owner != owner then (at, false)
    else (Write(at, None), true)
  }

  // ---------------------------------------------------------------- runs

  /** The store, and until when each context that was granted the lock relies on it. Only its own release, or
      the clock, takes that belief from a context: when the lease is wiped elsewhere it works on, and a refused
      renewal merely sets a flag that not every step looks at. */
  datatype World = World(store: Store, held: map<Owner, int>)

  datatype Event =
    | Acquires(owner: Owner, ttl: Option<int>)
    | Renews(owner: Owner, ttl: Option<int>)
    | Releases(owner: Owner)
    | LockSession                     // the wallet is locked: the lease is wiped in memory and in storage
    | Restart                         // the service worker is torn down: memory is lost, storage is not
    | Wait(ms: nat)

  function Next(w: World, e: Event): World {
    match e
    case Acquires(owner, ttl) =>
      var (s, ok) := Acquire(w.store, owner, ttl);
      World(s, if ok then w.held[owner := s.now + Ttl(ttl)] else w.held)
    case Renews(owner, ttl) =>
      var (s, ok) := Renew(w.store, owner, ttl);
      World(s, if ok then w.held[owner := s.now + Ttl(ttl)] else w.held)
    case Releases(owner) => World(Release(w.store, owner).0, w.held - {owner})
    case LockSession => World(Write(w.store, None), w.held)
    case Restart => World(w.store.(memory := None), w.held)
    case Wait(ms) => World(w.store.(now := w.store.now + ms), w.held)
  }

  function Run(w: World, events: seq<Event>): World {
    if |events| == 0 then w else Next(Run(w, events[..|events| - 1]), events[|events| - 1])
  }

  function Fresh(durable: bool, now: nat): World {
    World(Store(durable, None, None, now), map[])
  }

  predicate Holds(w: World, owner: Owner) {
    owner in w.held && w.held[owner] > w.store.now
  }

  ghost predicate NobodyHolds(w: World) {
    forall owner :: !Holds(w, owner)
  }

  /** The events that lose a lease do so only while nobody relies on one. */
  ghost predicate Harmless(w: World, e: Event) {
    && (e == LockSession ==> NobodyHolds(w))
    && (e == Restart ==> w.store.durable || NobodyHolds(w))
  }

  ghost predicate HarmlessRun(w: World, events: seq<Event>) {
    if |events| == 0 then true
    else
      var before := events[..|events| - 1];
      HarmlessRun(w, before) && Harmless(Run(w, before), events[|events| - 1])
  }

  /** The cache agrees with storage. */
  predicate Coherent(s: Store) {
    && (s.durable && Live(s.memory, s.now) ==> s.stored == s.memory)
    && (!s.durable ==> s.stored.None?)
  }

  /** Besides, every unexpired grant is the lease that a lookup finds. */
  ghost predicate Invariant(w: World) {
    && Coherent(w.store)
    && forall owner :: Holds(w, owner) ==> Lookup(w.store).memory == Some(Lease(owner, w.held[owner]))
  }

  lemma StepKeepsInvariant(w: World, e: Event)
    requires Invariant(w) && Harmless(w, e)
    ensures Invariant(Next(w, e))
  {
    var w' := Next(w, e);
    forall owner | Holds(w', owner) ensures Lookup(w'.store).memory == Some(Lease(owner, w'.held[owner])) {
      if !Holds(w, owner) {
        assert e.Acquires? || e.Renews?;
      }
    }
  }

  /** Locking the session keeps every holder's lease exactly when there is no holder. */
  lemma SessionLockIsSafeWhen(w: World)
    requires Invariant(w)
    ensures Invariant(Next(w, LockSession)) <==> NobodyHolds(w)
  {
    var w' := Next(w, LockSession);
    assert Lookup(w'.store).memory.None?;
    assert forall owner :: Holds(w, owner) <==> Holds(w', owner);
  }

  /** Restarting the service worker does so exactly when there is session storage, or no holder. */
  lemma RestartIsSafeWhen(w: World)
    requires Invariant(w)
    ensures Invariant(Next(w, Restart)) <==> w.store.durable || NobodyHolds(w)
  {
    var w' := Next(w, Restart);
    assert !w.store.durable ==> Lookup(w'.store).memory.None?;
    assert forall owner :: Holds(w, owner) <==> Holds(w', owner);
  }

  lemma {:induction false} EveryRunKeepsInvariant(durable: bool, now: nat, events: seq<Event>)
    requires HarmlessRun(Fresh(durable, now), events)
    ensures Invariant(Run(Fresh(durable, now), events))
  {
    hide Lookup, Next, Harmless;
    if |events| == 0 {
      NothingHeldInitially(durable, now);
    } else {
      EveryRunKeepsInvariant(durable, now, events[..|events| - 1]);
      StepKeepsInvariant(Run(Fresh(durable, now), events[..|events| - 1]), events[|events| - 1]);
    }
  }

  lemma NothingHeldInitially(durable: bool, now: nat)
    ensures Invariant(Fresh(durable, now))
  {
  }

  /** Two contexts never rely on the lock at the same time, through any expiry and renewal, as long as no lease
      is wiped from under its holder. */
  lemma LeasesNeverOverlap(durable: bool, now: nat, events: seq<Event>, a: Owner, b: Owner)
    requires HarmlessRun(Fresh(durable, now), events)
    requires var w := Run(Fresh(durable, now), events); Holds(w, a) && Holds(w, b)
    ensures a == b
  {
    EveryRunKeepsInvariant(durable, now, events);
    HoldersAreOne(Run(Fresh(durable, now), events), a, b);
  }

  lemma HoldersAreOne(w: World, a: Owner, b: Owner)
    requires Invariant(w) && Holds(w, a) && Holds(w, b)
    ensures a == b
  {
    hide Lookup;
    assert Lookup(w.store).memory == Some(Lease(a, w.held[a])) && Lookup(w.store).memory == Some(Lease(b, w.held[b]));
  }

  /** A context that holds the lock is never refused a renewal; meanwhile nobody else is granted the lock and
      nobody else's release takes it away. */
  lemma HolderIsServed(durable: bool, now: nat, events: seq<Event>, holder: Owner, other: Owner, ttl: Option<int>)
    requires HarmlessRun(Fresh(durable, now), events)
    requires Holds(Run(Fresh(durable, now), events), holder)
    ensures var s := Run(Fresh(durable, now), events).store;
            Renew(s, holder, ttl).1 && !Acquire(s, other, ttl).1 && (other != holder ==> !Release(s, other).1)
  {
    EveryRunKeepsInvariant(durable, now, events);
    ServedNow(Run(Fresh(durable, now), events), holder, other, ttl);
  }

  lemma ServedNow(w: World, holder: Owner, other: Owner, ttl: Option<int>)
    requires Invariant(w) && Holds(w, holder)
    ensures Renew(w.store, holder, ttl).1 && !Acquire(w.store, other, ttl).1
    ensures other != holder ==> !Release(w.store, other).1
  {
  }

  /** A grant outlives no more than its lifetime: whatever happened, `MAX_TTL_MS` of silence frees the lock. */
  lemma {:induction false} SilenceFreesTheLock(durable: bool, now: nat, events: seq<Event>, owner: Owner,
      ttl: Option<int>)
    ensures Acquire(Run(Fresh(durable, now), events + [Wait(MAX_TTL_MS)]).store, owner, ttl).1
  {
    LeasesAreBounded(durable, now, events);
    assert (events + [Wait(MAX_TTL_MS)])[..|events|] == events;
  }

  predicate Bounded(s: Store) {
    && (s.memory.Some? ==> s.memory.value.expiresAt <= s.now + MAX_TTL_MS)
    && (s.stored.Some? ==> s.stored.value.expiresAt <= s.now + MAX_TTL_MS)
  }

  lemma {:induction false} LeasesAreBounded(durable: bool, now: nat, events: seq<Event>)
    ensures Bounded(Run(Fresh(durable, now), events).store)
  {
    hide Next, Bounded;
    if |events| > 0 {
      LeasesAreBounded(durable, now, events[..|events| - 1]);
      StepKeepsBound(Run(Fresh(durable, now), events[..|events| - 1]), events[|events| - 1]);
    } else {
      NoLeaseInitially(durable, now);
    }
  }

  lemma NoLeaseInitially(durable: bool, now: nat)
    ensures Bounded(Fresh(durable, now).store)
  {
  }

  lemma StepKeepsBound(w: World, e: Event)
    requires Bounded(w.store)
    ensures Bounded(Next(w, e).store)
  {
  }

  // ---------------------------------------------------------------- who is let in

  /** A lease that a lookup finds is one that its owner was granted and has not given back. */
  ghost predicate LeaseIsGrant(w: World) {
    && Coherent(w.store)
    && var found := Lookup(w.store).memory;
       found.Some? ==> Holds(w, found.value.owner) && w.held[found.value.owner] == found.value.expiresAt
  }

  lemma StepKeepsGrant(w: World, e: Event)
    requires LeaseIsGrant(w)
    ensures LeaseIsGrant(Next(w, e))
  {
  }

  lemma {:induction false} EveryLeaseIsGrant(durable: bool, now: nat, events: seq<Event>)
    ensures LeaseIsGrant(Run(Fresh(durable, now), events))
  {
    hide Next, Lookup, Coherent;
    if |events| == 0 {
      NoGrantInitially(durable, now);
    } else {
      EveryLeaseIsGrant(durable, now, events[..|events| - 1]);
      StepKeepsGrant(Run(Fresh(durable, now), events[..|events| - 1]), events[|events| - 1]);
    }
  }

  lemma NoGrantInitially(durable: bool, now: nat)
    ensures LeaseIsGrant(Fresh(durable, now))
  {
  }

  /** The lock is granted exactly when nobody relies on it: a released or expired lease stands in nobody's way. Even
      after a lease was wiped, whoever asks while nobody relies on the lock gets it. */
  lemma GrantedExactlyWhen(durable: bool, now: nat, events: seq<Event>, owner: Owner, ttl: Option<int>)
    ensures var w := Run(Fresh(durable, now), events);
            NobodyHolds(w) ==> Acquire(w.store, owner, ttl).1
    ensures var w := Run(Fresh(durable, now), events);
            HarmlessRun(Fresh(durable, now), events) ==> (Acquire(w.store, owner, ttl).1 <==> NobodyHolds(w))
  {
    var w := Run(Fresh(durable, now), events);
    EveryLeaseIsGrant(durable, now, events);
    if NobodyHolds(w) { GrantedWhenFree(w, owner, ttl); }
    if HarmlessRun(Fresh(durable, now), events) {
      EveryRunKeepsInvariant(durable, now, events);
      hide Run, HarmlessRun, Acquire;
      if holder :| Holds(w, holder) { ServedNow(w, holder, owner, ttl); }
    }
  }

  lemma GrantedWhenFree(w: World, owner: Owner, ttl: Option<int>)
    requires LeaseIsGrant(w) && NobodyHolds(w)
    ensures Acquire(w.store, owner, ttl).1
  {
    hide Live;
  }

  /** In particular a lock that its holder gave back goes to whoever asks next. */
  lemma ReleasedIsGranted(durable: bool, now: nat, events: seq<Event>, holder: Owner, owner: Owner, ttl: Option<int>)
    requires HarmlessRun(Fresh(durable, now), events) && Holds(Run(Fresh(durable, now), events), holder)
    ensures var w := Run(Fresh(durable, now), events);
            Release(w.store, holder).1 && Acquire(Next(w, Releases(holder)).store, owner, ttl).1
  {
    EveryRunKeepsInvariant(durable, now, events);
    var w := Run(Fresh(durable, now), events);
    hide Run, HarmlessRun;
    assert Lookup(w.store).memory == Some(Lease(holder, w.held[holder]));
  }

  // ---------------------------------------------------------------- how a lease is lost

  /** Whatever wipes the lease from under its holder, the next context is granted the lock at once, and both
      rely on it. */
  lemma WipedLeaseIsGrantedAgain(w: World, e: Event, holder: Owner, other: Owner)
    requires Invariant(w) && Holds(w, holder) && other != holder
    requires e == LockSession || (e == Restart && !w.store.durable)
    ensures var w' := Next(Next(w, e), Acquires(other, None)); Holds(w', holder) && Holds(w', other)
  {
  }

  lemma RunOfThree(durable: bool, a: Event, b: Event, c: Event)
    ensures Run(Fresh(durable, 0), [a, b, c]) == Next(Next(Next(Fresh(durable, 0), a), b), c)
  {
    var e := [a, b, c];
    assert e[..2] == [a, b] && [a, b][..1] == [a] && [a][..0] == [];
    assert Run(Fresh(durable, 0), [a]) == Next(Fresh(durable, 0), a);
    assert Run(Fresh(durable, 0), [a, b]) == Next(Run(Fresh(durable, 0), [a]), b);
  }

  /** With session storage: the auto-lock timer fires while a context is inside the lock. */
  lemma SessionLockBreaksIt()
    ensures var w := Run(Fresh(true, 0), [Acquires("a", None), LockSession, Acquires("b", None)]);
            Holds(w, "a") && Holds(w, "b")
  {
    RunOfThree(true, Acquires("a", None), LockSession, Acquires("b", None));
  }

  /** Without session storage a restart forgets the lease. */
  lemma RestartWithoutStorageBreaksIt()
    ensures var w := Run(Fresh(false, 0), [Acquires("a", None), Restart, Acquires("b", None)]);
            Holds(w, "a") && Holds(w, "b")
  {
    RunOfThree(false, Acquires("a", None), Restart, Acquires("b", None));
  }
}
