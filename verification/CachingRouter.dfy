/**
 * The router in front of the providers: a call asks the cache, waits for a peer that holds the lock,
 * calls a provider, and offers its answer to the cache. It is suspended between these steps, where
 * other calls and the passing of time act on the same stores.
 */
module CachingRouter {
  import opened Options
  import opened ResponseCache

  datatype Provider = Answers(response: Response) | Fails

  datatype Outcome = FromCache(payload: Payload) | FromProvider(payload: Payload) | ProviderFailed

  /** Where one call of `generate` stands between two suspensions. */
  datatype Phase = Asked | Waiting(l: Lookup) | Calling(l: Lookup) | Ended(outcome: Outcome) | Cancelled

  /** The outside of one step: lock token, search result, whether cache code raises or polling ends, the provider's answer. */
  datatype Choice =
    | Cancel
    | Proceed(token: string, nearest: Option<Neighbour>, lookupRaises: bool, lastPoll: bool,
        provider: Provider, ttl: nat, admissionRaises: bool)

  function OutcomeOf(provider: Provider): Outcome {
    match provider case Fails => ProviderFailed case Answers(response) => FromProvider(response.payload)
  }

  /** What follows a lookup. */
  function Decided(l: Lookup): Phase {
    match l.decision
    case Hit(_, payload) => Ended(FromCache(payload))
    case AwaitPeer => Waiting(l)
    case _ => Calling(l)
  }

  /** The end of a call that had no hit: a failing provider or a raising admission only releases the lock. */
  function Concluded(s: State, l: Lookup, now: int, provider: Provider, ttl: nat, admissionRaises: bool): State {
    match provider
    case Fails => Aborted(s, l, now)
    case Answers(response) => if admissionRaises then Aborted(s, l, now) else AdmittedOrNot(s, l, response, ttl, now)
  }

  /** The next step of one call; a lookup that raises does so before it touches the stores, and counts as none. */
  function Move(c: Settings, s: State, r: Request, phase: Phase, now: int, w: Choice): (State, Phase) {
    if phase.Ended? || phase.Cancelled? then (s, phase)
    else if w.Cancel? then (s, Cancelled)
    else match phase
      case Asked =>
        if w.lookupRaises then (s, Calling(Bypassed()))
        else
          var (s', l) := LookedUp(c, s, r, now, w.nearest, w.token);
          (s', Decided(l))
      case Waiting(l) =>
        var peer := if l.key.Some? then LiveCopy(s.copies, l.key.value, now) else None;
        (s, if peer == None && !w.lastPoll then Waiting(l) else Decided(Awaited(l, peer)))
      case Calling(l) => (Concluded(s, l, now, w.provider, w.ttl, w.admissionRaises), Ended(OutcomeOf(w.provider)))
  }

  /** One call of `generate`, resumed by `Advance`. */
  class Generation {
    const cache: CacheOrchestrator
    const request: Request
    var phase: Phase

    constructor (cache: CacheOrchestrator, request: Request)
      ensures this.cache == cache && this.request == request && phase == Asked
    {
      this.cache, this.request, phase := cache, request, Asked;
    }

    method Advance(now: int, w: Choice)
      modifies this, cache.redis, cache.repository
      ensures (cache.View(), phase) == Move(cache.settings, old(cache.View()), request, old(phase), now, w)
    {
      if phase.Ended? || phase.Cancelled? {
        return;
      }
      if w.Cancel? {
        phase := Cancelled;
        return;
      }
      match phase
      case Asked =>
        var l := Bypassed();
        if !w.lookupRaises {
          l := cache.Find(request, now, w.nearest, w.token);
        }
        phase := if l.decision.Hit? then Ended(FromCache(l.decision.payload))
          else if l.decision == AwaitPeer then Waiting(l)
          else Calling(l);
      case Waiting(l) =>
        var peer: Option<Payload> := None;
        if l.key.Some? {
          peer := cache.redis.GetExact(l.key.value, now);
        }
        if peer.Some? || w.lastPoll {
          phase := Decided(Awaited(l, peer));
        }
      case Calling(l) =>
        match w.provider {
          case Fails =>
            cache.Abort(l, now);
            phase := Ended(ProviderFailed);
          case Answers(response) =>
            if w.admissionRaises {
              cache.Abort(l, now);
            } else {
              cache.Admit(l, response, w.ttl, now);
            }
            phase := Ended(FromProvider(response.payload));
        }
    }
  }

  /**
   * A call that waits is answered by the first live copy it polls; without one it goes on waiting,
   * and after the last poll it asks its provider, without a lock.
   */
  lemma PollsUntilTheLast(c: Settings, s: State, r: Request, l: Lookup, now: int, w: Choice)
    requires w.Proceed? && l.decision == AwaitPeer && l.key.Some?
    ensures var (s', phase) := Move(c, s, r, Waiting(l), now, w);
      var key := l.key.value;
      && s' == s
      && if key in s.copies && now < s.copies[key].expires then phase == Ended(FromCache(s.copies[key].payload))
         else if w.lastPoll then phase.Calling? && phase.l == l.(decision := Miss)
         else phase == Waiting(l)
  {
  }

  /** A lookup that raises leaves the stores alone, and the call goes on without the cache. */
  lemma FailedLookupGoesOn(c: Settings, s: State, r: Request, now: int, w: Choice)
    requires w.Proceed? && w.lookupRaises
    ensures Move(c, s, r, Asked, now, w) == (s, Calling(Lookup(Bypass, None, None, None)))
  {
  }

  /** The lock a lookup took is exactly its own token, taken only when the key was free. */
  lemma TakenLock(c: Settings, s: State, r: Request, now: int, nearest: Option<Neighbour>, token: string)
    ensures var (s1, l) := LookedUp(c, s, r, now, nearest, token);
      match l.lock
      case None => s1.locks == s.locks
      case Some(taken) =>
        && taken == token && l.key.Some? && l.context.Some? && l.decision == Miss
        && Free(s.locks, l.key.value, now) && s1.locks == Acquired(s.locks, l.key.value, c.lockSeconds, token, now)
  {
  }

  function LocksAfter(s: State, l: Lookup, now: int): map<Key, Lease> {
    if l.key == None || l.lock == None then s.locks else Released(s.locks, l.key.value, l.lock.value, now)
  }

  /** Whatever others did to the stores in the meantime, a call that ends does to the locks exactly what releasing its own does. */
  lemma EveryEndReleases(s: State, l: Lookup, now: int, provider: Provider, ttl: nat, admissionRaises: bool)
    requires l.lock.Some? ==> l.decision != Bypass && l.key.Some? && l.context.Some?
    ensures Concluded(s, l, now, provider, ttl, admissionRaises).locks == LocksAfter(s, l, now)
  {
  }
}
