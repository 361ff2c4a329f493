/** The signing lock as the background script keeps it: every operation is the step of module LockProtocol of the
    same name. As long as no lease has been wiped from under its holder (`Valid`) it also says what its caller may
    rely on. */
module SigningLock {
  import opened Wrappers
  import Protocol = LockProtocol

  class SigningLock {
    const durable: bool
    var memory: Option<Protocol.Lease>
    var stored: Option<Protocol.Lease>
    var clock: nat
    /** Until when each context that was granted the lock relies on it. */
    ghost var held: map<Protocol.Owner, int>

    function View(): Protocol.Store
      reads this
    {
      Protocol.Store(durable, memory, stored, clock)
    }

    ghost function World(): Protocol.World
      reads this
    {
      Protocol.World(View(), held)
    }

    ghost predicate Valid()
      reads this
    {
      Protocol.Invariant(World())
    }

    ghost predicate Holds(owner: Protocol.Owner)
      reads this
    {
      Protocol.Holds(World(), owner)
    }

    constructor (durable: bool, now: nat)
      ensures Valid() && World() == Protocol.Fresh(durable, now)
    {
      this.durable := durable;
      memory, stored, clock, held := None, None, now, map[];
    }

    method Get() returns (active: Option<Protocol.Lease>)
      modifies this`memory, this`stored
      ensures View() == Protocol.Lookup(old(View())) && active == memory
    {
      if memory.Some? && memory.value.expiresAt > clock {
        return memory;
      }
      memory := None;
      if !durable {
        return None;
      }
      if stored.None? || stored.value.expiresAt <= clock {
        stored := None;
        return None;
      }
      memory := stored;
      active := memory;
    }

    /** A grant means that nobody else holds the lock; while somebody does, nobody is granted it. */
    method Acquire(owner: Protocol.Owner, ttl: Option<int>) returns (ok: bool)
      modifies this`memory, this`stored, this`held
      ensures World() == Protocol.Next(old(World()), Protocol.Acquires(owner, ttl)) && (old(Valid()) ==> Valid())
      ensures ok ==> Holds(owner) && (old(Valid()) ==> forall other :: Holds(other) ==> other == owner)
      ensures old(Valid()) ==> forall holder :: old(Holds(holder)) ==> !ok && Holds(holder)
    {
      if Valid() { Protocol.StepKeepsInvariant(World(), Protocol.Acquires(owner, ttl)); }
      var active := Get();
      if active.Some? {
        return false;
      }
      memory := Some(Protocol.Lease(owner, clock + Protocol.Ttl(ttl)));
      if durable {
        stored := memory;
      }
      held := held[owner := clock + Protocol.Ttl(ttl)];
      ok := true;
    }

    /** A holder is never refused, and keeps the lock for its new lifetime. */
    method Renew(owner: Protocol.Owner, ttl: Option<int>) returns (ok: bool)
      modifies this`memory, this`stored, this`held
      ensures World() == Protocol.Next(old(World()), Protocol.Renews(owner, ttl)) && (old(Valid()) ==> Valid())
      ensures old(Valid()) && old(Holds(owner)) ==> ok
      ensures ok ==> Holds(owner) && held[owner] == clock + Protocol.Ttl(ttl)
    {
      if Valid() { Protocol.StepKeepsInvariant(World(), Protocol.Renews(owner, ttl)); }
      var active := Get();
      if active.None? || active.value.owner != owner {
        return false;
      }
      memory := Some(active.value.(expiresAt := clock + Protocol.Ttl(ttl)));
      if durable {
        stored := memory;
      }
      held := held[owner := clock + Protocol.Ttl(ttl)];
      ok := true;
    }

    /** Afterwards the owner does not hold the lock; whoever else held it still does. */
    method Release(owner: Protocol.Owner) returns (ok: bool)
      modifies this`memory, this`stored, this`held
      ensures World() == Protocol.Next(old(World()), Protocol.Releases(owner)) && (old(Valid()) ==> Valid())
      ensures !Holds(owner) && (old(Valid()) && old(Holds(owner)) ==> ok)
      ensures forall other :: other != owner && old(Holds(other)) ==> Holds(other)
    {
      if Valid() { Protocol.StepKeepsInvariant(World(), Protocol.Releases(owner)); }
      held := held - {owner};
      var active := Get();
      if active.None? || active.value.owner != owner {
        return false;
      }
      memory := None;
      if durable {
        stored := None;
      }
      ok := true;
    }

    /** The lease is gone, but its holder is not told: what the lock promises survives exactly when there was no
        holder. */
    method LockSession()
      modifies this`memory, this`stored
      ensures World() == Protocol.Next(old(World()), Protocol.LockSession)
      ensures old(Valid()) ==> (Valid() <==> Protocol.NobodyHolds(old(World())))
    {
      if Valid() { Protocol.SessionLockIsSafeWhen(World()); }
      memory := None;
      if durable {
        stored := None;
      }
    }

    /** The service worker starts anew with empty memory. */
    method Restart()
      modifies this`memory
      ensures World() == Protocol.Next(old(World()), Protocol.Restart)
      ensures old(Valid()) ==> (Valid() <==> durable || Protocol.NobodyHolds(old(World())))
    {
      if Valid() { Protocol.RestartIsSafeWhen(World()); }
      memory := None;
    }
  }
}
