// internal/ratelimit/ratelimit.go: the per-client limiter whose idle buckets
// are evicted by a periodic sweep. The class keeps the source's heap shape (a
// map to client objects, each owning a bucket object); the functions above it
// give the value-level meaning of each operation.
module RateLimiter {
  import opened TokenBucket

  // What the map holds for one client key.
  datatype Client = Client(bucket: Bucket, lastSeen: real)

  type Clients = map<string, Client>

  // The locked half of Allow: find or create the client, stamp it.
  function Stamp(p: Params, cs: Clients, key: string, now: real): Clients {
    cs[key := Client(if key in cs then cs[key].bucket else Full(p, now), now)]
  }

  // Both halves of Allow at one instant.
  function Request(p: Params, cs: Clients, key: string, now: real): (Clients, bool) {
    var stamped := Stamp(p, cs, key, now);
    var (bucket, ok) := Take(p, stamped[key].bucket, now);
    (stamped[key := Client(bucket, now)], ok)
  }

  // One pass of the cleanup loop with a given cutoff.
  function Evict(cs: Clients, cutoff: real): Clients {
    map key | key in cs && cs[key].lastSeen >= cutoff :: cs[key]
  }

  // A rate.Limiter object. The ghost `key` says whose it is.
  class BucketObject {
    const p: Params
    ghost const key: string
    var tokens: real
    var last: real

    constructor (p: Params, now: real, ghost key: string)
      ensures this.p == p && this.key == key && Value() == Full(p, now)
    {
      this.p, this.key := p, key;
      tokens, last := p.burst as real, now;
    }

    function Value(): Bucket
      reads this
    {
      Bucket(tokens, last)
    }

    method Allow(now: real) returns (ok: bool)
      modifies this
      ensures (Value(), ok) == Take(p, old(Value()), now)
    {
      var gained := if now < last then 0.0 else p.rps * (now - last);
      var level := tokens + gained;
      if level > p.burst as real {
        level := p.burst as real;
      }
      assert level == Level(p, old(Value()), now);
      ok := level >= 1.0;
      if ok {
        tokens, last := level - 1.0, now;
      }
    }
  }

  // The source's client record: a bucket and the time it was last asked for.
  class ClientObject {
    const limiter: BucketObject
    var lastSeen: real
    ghost const key: string

    constructor (limiter: BucketObject, now: real, ghost key: string)
      ensures this.limiter == limiter && this.key == key && lastSeen == now
    {
      this.limiter, this.key := limiter, key;
      lastSeen := now;
    }

    function Value(): Client
      reads this, limiter
    {
      Client(limiter.Value(), lastSeen)
    }
  }

  method NewClient(p: Params, ghost key: string, now: real) returns (c: ClientObject)
    ensures fresh(c) && fresh(c.limiter) && c.key == key && c.limiter.key == key && c.limiter.p == p
    ensures c.Value() == Client(Full(p, now), now)
  {
    var bucket := new BucketObject(p, now, key);
    c := new ClientObject(bucket, now, key);
  }

  class Limiter {
    const p: Params
    var clients: map<string, ClientObject>

    ghost var Repr: set<object>

    // Every key has its own client and its own bucket, with these settings.
    ghost predicate Valid()
      reads this, Repr
    {
      && this !in Repr
      && forall key <- clients ::
           var c := clients[key];
           && c in Repr && c.key == key
           && c.limiter in Repr && c.limiter.key == key && c.limiter.p == p
    }

    ghost function View(): Clients
      requires Valid()
      reads this, Repr
    {
      map key | key in clients :: clients[key].Value()
    }

    constructor (p: Params)
      ensures Valid() && this.p == p && View() == map[] && Repr == {}
    {
      this.p := p;
      clients := map[];
      Repr := {};
    }

    // A key seen for the first time gets a client with a full bucket.
    method AddClient(key: string, now: real)
      requires Valid() && key !in clients
      modifies this
      ensures Valid() && Repr >= old(Repr) && fresh(Repr - old(Repr))
      ensures clients.Keys == old(clients.Keys) + {key}
      ensures View() == old(View())[key := Client(Full(p, now), now)]
    {
      var client := NewClient(p, key, now);
      clients := clients[key := client];
      Repr := Repr + {client.limiter, client};
    }

    // The critical section of Allow. It hands out the bucket, which the caller
    // then uses without holding the lock.
    method LockedLookup(key: string, now: real) returns (lim: BucketObject)
      requires Valid()
      modifies this, Repr
      ensures Valid() && fresh(Repr - old(Repr))
      ensures View() == Stamp(p, old(View()), key, now)
      ensures key in clients && clients[key].limiter == lim
    {
      if key !in clients {
        AddClient(key, now);
      }
      var c := clients[key];
      StampClient(key, c, now);
      lim := c.limiter;
    }

    method StampClient(ghost key: string, c: ClientObject, now: real)
      requires Valid() && key in clients && clients[key] == c
      modifies c`lastSeen
      ensures Valid()
      ensures View() == old(View())[key := Client(old(View())[key].bucket, now)]
    {
      c.lastSeen := now;
      assert forall other <- clients :: other != key ==> clients[other].Value() == old(clients[other].Value());
    }

    // The half of Allow after the critical section, on the bucket handed out.
    method TakeToken(ghost key: string, lim: BucketObject, now: real) returns (ok: bool)
      requires Valid() && key in clients && clients[key].limiter == lim
      modifies lim
      ensures Valid()
      ensures var (bucket, taken) := Take(p, old(View())[key].bucket, now);
              ok == taken && View() == old(View())[key := Client(bucket, old(View())[key].lastSeen)]
    {
      ok := lim.Allow(now);
      assert forall other <- clients :: other != key ==> clients[other].Value() == old(clients[other].Value());
    }

    method Allow(key: string, now: real) returns (ok: bool)
      requires Valid()
      modifies this, Repr
      ensures Valid() && fresh(Repr - old(Repr))
      ensures (View(), ok) == Request(p, old(View()), key, now)
    {
      var lim := LockedLookup(key, now);
      ok := TakeToken(key, lim, now);
    }

    // The body of one tick: it walks the map in some order and deletes in place.
    method CleanupTick(cutoff: real)
      requires Valid()
      modifies this`clients
      ensures Valid()
      ensures View() == Evict(old(View()), cutoff)
      ensures forall key :: key in clients <==> key in old(clients) && old(clients[key].lastSeen) >= cutoff
    {
      var todo := clients.Keys;
      while todo != {}
        invariant todo <= clients.Keys <= old(clients).Keys
        invariant forall key <- clients :: clients[key] == old(clients)[key]
        invariant forall key <- old(clients) :: key !in todo ==> (key in clients <==> old(clients)[key].lastSeen >= cutoff)
        decreases todo
      {
        var key :| key in todo;
        todo := todo - {key};
        if clients[key].lastSeen < cutoff {
          clients := clients - {key};
        }
      }
    }
  }
}
