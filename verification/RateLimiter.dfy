/** The rate limiter of the VPC client, a channel used as a counting semaphore, and a client call
    that takes one slot, one goroutine at a time. */
module RateLimiter {
  import opened Text

  datatype Outcome = Acquired | Cancelled | Blocked

  /** `held` is the number of elements in the channel buffer of size `capacity`. */
  class Limiter {
    const capacity: nat
    var held: nat

    ghost predicate Valid()
      reads this
    {
      held <= capacity
    }

    constructor (maxConcurrent: nat)
      ensures Valid() && capacity == maxConcurrent && held == 0
    {
      capacity, held := maxConcurrent, 0;
    }

    /** The select of `Acquire`. When both a slot is free and the context is done either branch
        may run; `preferCancel` is that choice. Blocked means neither branch is ready. */
    method Acquire(done: bool, preferCancel: bool) returns (r: Outcome)
      requires Valid()
      modifies this
      ensures Valid()
      ensures r.Acquired? <==> old(held) < capacity && !(done && preferCancel)
      ensures r.Blocked? <==> old(held) == capacity && !done
      ensures held == if r.Acquired? then old(held) + 1 else old(held)
    {
      if held < capacity && !(done && preferCancel) {
        held := held + 1;
        return Acquired;
      }
      return if done then Cancelled else Blocked;
    }

    /** Receives from the channel; it would block on an empty one. */
    method Release() returns (blocked: bool)
      requires Valid()
      modifies this
      ensures Valid()
      ensures blocked <==> old(held) == 0
      ensures held == if blocked then 0 else old(held) - 1
    {
      blocked := held == 0;
      if !blocked {
        held := held - 1;
      }
    }
  }

  datatype ClientConfig = ClientConfig(apiKey: string, region: string, maxConcurrent: int)

  datatype ClientError = ApiKeyRequired | RegionRequired | ServiceFailed

  class Client {
    const limiter: Limiter

    constructor (limiter: Limiter)
      ensures this.limiter == limiter
    {
      this.limiter := limiter;
    }

    /** The shape of every plain API method: acquire or return, and release on every path out.
        `apiFails` is what the SDK call answers. */
    method Call(done: bool, preferCancel: bool, apiFails: bool) returns (r: Outcome, ok: bool)
      requires limiter.Valid()
      modifies limiter
      ensures limiter.Valid() && limiter.held == old(limiter.held)
      ensures ok <==> r.Acquired? && !apiFails
      ensures r.Acquired? <==> old(limiter.held) < limiter.capacity && !(done && preferCancel)
      ensures r.Blocked? <==> old(limiter.held) == limiter.capacity && !done
    {
      r := limiter.Acquire(done, preferCancel);
      if !r.Acquired? {
        return r, false;
      }
      ok := !apiFails;
      var blocked := limiter.Release();
    }
  }

  /** A client is built only with a key, a region and a working SDK service, and then its
      limiter always has room for at least one call: the configured one, or 10. */
  method NewClient(cfg: ClientConfig, serviceFails: bool) returns (client: Option<Client>, error: Option<ClientError>)
    ensures client.Some? <==> cfg.apiKey != "" && cfg.region != "" && !serviceFails
    ensures client.Some? <==> error.None?
    ensures client.Some? ==>
              var l := client.value.limiter;
              && fresh(client.value) && fresh(l) && l.Valid() && l.held == 0
              && l.capacity >= 1 && (cfg.maxConcurrent >= 1 ==> l.capacity == cfg.maxConcurrent)
              && (cfg.maxConcurrent < 1 ==> l.capacity == 10)
  {
    if cfg.apiKey == "" { return None, Some(ApiKeyRequired); }
    if cfg.region == "" { return None, Some(RegionRequired); }
    var maxConcurrent := cfg.maxConcurrent;
    if maxConcurrent <= 0 {
      maxConcurrent := 10;
    }
    if serviceFails { return None, Some(ServiceFailed); }
    var limiter := new Limiter(maxConcurrent);
    var c := new Client(limiter);
    return Some(c), None;
  }
}
