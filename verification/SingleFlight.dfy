/**
 * The token lock that keeps concurrent misses on one key from all calling the provider: leases
 * that expire, holders that may outlive their lease, a release that compares tokens, and a Redis
 * that may lose its locks.
 */
module SingleFlight {
  import opened ResponseCache

  /** One successful acquisition; `lost` once Redis has lost the lock, which its owner does not learn. */
  datatype Holder = Holder(key: Key, token: string, until: int, released: bool, lost: bool)

  datatype Flight = Flight(now: int, locks: map<Key, Lease>, holders: seq<Holder>)

  datatype Move =
    | Tick(elapsed: nat)
    | Acquire(key: Key, ttl: int, token: string)
    | Release(holder: nat)
    | Lose(keys: set<Key>)

  predicate FreshToken(f: Flight, token: string) {
    forall i :: 0 <= i < |f.holders| ==> f.holders[i].token != token
  }

  function Bereft(h: Holder, keys: set<Key>): Holder {
    h.(lost := h.lost || h.key in keys)
  }

  /** Tokens are drawn at random and never drawn twice: an acquisition with a used token does not happen. */
  function Next(f: Flight, m: Move): Flight {
    match m
    case Tick(elapsed) => f.(now := f.now + elapsed)
    case Acquire(key, ttl, token) =>
      if !FreshToken(f, token) || !Free(f.locks, key, f.now) then f
      else
        f.(locks := Acquired(f.locks, key, ttl, token, f.now),
           holders := f.holders + [Holder(key, token, f.now + Seconds(ttl), false, false)])
    case Release(i) =>
      if i >= |f.holders| then f
      else
        var h := f.holders[i];
        f.(locks := Released(f.locks, h.key, h.token, f.now), holders := f.holders[i := h.(released := true)])
    case Lose(keys) =>
      f.(locks := f.locks - keys,
         holders := seq(|f.holders|, i requires 0 <= i < |f.holders| => Bereft(f.holders[i], keys)))
  }

  function Run(f: Flight, moves: seq<Move>): Flight
    decreases |moves|
  {
    if moves == [] then f else Run(Next(f, moves[0]), moves[1..])
  }

  function Start(now: int): Flight {
    Flight(now, map[], [])
  }

  /** The holder has not released and its lease has not run out: its owner believes to hold the lock. */
  predicate Believes(h: Holder, now: int) {
    !h.released && now < h.until
  }

  /** The owner is right. */
  predicate Live(h: Holder, now: int) {
    Believes(h, now) && !h.lost
  }

  /** The stored lock of a key is that of holder `i`. */
  predicate Owns(f: Flight, i: nat, key: Key) {
    && i < |f.holders| && Live(f.holders[i], f.now) && f.holders[i].key == key
    && key in f.locks && f.locks[key] == Lease(f.holders[i].token, f.holders[i].until)
  }

  /** Tokens differ, every live holder owns its lock, and every unexpired lock is owned. */
  ghost predicate Inv(f: Flight) {
    && (forall i, j :: 0 <= i < j < |f.holders| ==> f.holders[i].token != f.holders[j].token)
    && (forall i :: 0 <= i < |f.holders| && Live(f.holders[i], f.now) ==> Owns(f, i, f.holders[i].key))
    && (forall key :: !Free(f.locks, key, f.now) ==> exists i: nat :: Owns(f, i, key))
  }

  lemma TickKeeps(f: Flight, elapsed: nat)
    requires Inv(f)
    ensures Inv(Next(f, Tick(elapsed)))
  {
    var f' := Next(f, Tick(elapsed));
    forall i | 0 <= i < |f'.holders| && Live(f'.holders[i], f'.now) ensures Owns(f', i, f'.holders[i].key) {
      assert Owns(f, i, f.holders[i].key);
    }
    forall key | !Free(f'.locks, key, f'.now) ensures exists i: nat :: Owns(f', i, key) {
      assert !Free(f.locks, key, f.now);
      var i: nat :| Owns(f, i, key);
      assert Owns(f', i, key);
    }
  }

  lemma AcquireKeeps(f: Flight, key: Key, ttl: int, token: string)
    requires Inv(f)
    ensures Inv(Next(f, Acquire(key, ttl, token)))
  {
    var f' := Next(f, Acquire(key, ttl, token));
    if FreshToken(f, token) && Free(f.locks, key, f.now) {
      var n := |f.holders|;
      assert Owns(f', n, key);
      forall i | 0 <= i < n && Live(f'.holders[i], f'.now) ensures Owns(f', i, f'.holders[i].key) {
        assert Owns(f, i, f.holders[i].key) && f.holders[i].key != key;
      }
      forall other | !Free(f'.locks, other, f'.now) && other != key ensures exists i: nat :: Owns(f', i, other) {
        assert !Free(f.locks, other, f.now);
        var i: nat :| Owns(f, i, other);
        assert Owns(f', i, other);
      }
    }
  }

  lemma ReleaseKeeps(f: Flight, r: nat)
    requires Inv(f)
    ensures Inv(Next(f, Release(r)))
  {
    var f' := Next(f, Release(r));
    if r < |f.holders| {
      forall i | 0 <= i < |f'.holders| && Live(f'.holders[i], f'.now) ensures Owns(f', i, f'.holders[i].key) {
        assert i != r && f'.holders[i] == f.holders[i] && Owns(f, i, f.holders[i].key);
        assert f.holders[i].token != f.holders[r].token;
      }
      forall key | !Free(f'.locks, key, f'.now) ensures exists i: nat :: Owns(f', i, key) {
        assert !Free(f.locks, key, f.now);
        var i: nat :| Owns(f, i, key);
        assert i != r;
        assert Owns(f', i, key);
      }
    }
  }

  lemma LoseKeeps(f: Flight, keys: set<Key>)
    requires Inv(f)
    ensures Inv(Next(f, Lose(keys)))
  {
    var f' := Next(f, Lose(keys));
    forall i | 0 <= i < |f'.holders| && Live(f'.holders[i], f'.now) ensures Owns(f', i, f'.holders[i].key) {
      assert Owns(f, i, f.holders[i].key);
    }
    forall key | !Free(f'.locks, key, f'.now) ensures exists i: nat :: Owns(f', i, key) {
      assert !Free(f.locks, key, f.now);
      var i: nat :| Owns(f, i, key);
      assert Owns(f', i, key);
    }
  }

  lemma NextKeeps(f: Flight, m: Move)
    requires Inv(f)
    ensures Inv(Next(f, m))
  {
    match m
    case Tick(elapsed) => TickKeeps(f, elapsed);
    case Acquire(key, ttl, token) => AcquireKeeps(f, key, ttl, token);
    case Release(i) => ReleaseKeeps(f, i);
    case Lose(keys) => LoseKeeps(f, keys);
  }

  lemma {:induction false} RunKeeps(f: Flight, moves: seq<Move>)
    requires Inv(f)
    ensures Inv(Run(f, moves))
    decreases |moves|
  {
    if moves != [] {
      NextKeeps(f, moves[0]);
      RunKeeps(Next(f, moves[0]), moves[1..]);
    }
  }

  /** At any moment of any run a key has at most one live holder, and the lock stored for it is that holder's. */
  lemma AtMostOneLiveHolder(now: int, moves: seq<Move>, i: nat, j: nat)
    requires var f := Run(Start(now), moves);
      i < |f.holders| && j < |f.holders| && Live(f.holders[i], f.now) && Live(f.holders[j], f.now)
    ensures var f := Run(Start(now), moves);
      Owns(f, i, f.holders[i].key) && (f.holders[i].key == f.holders[j].key ==> i == j)
  {
    RunKeeps(Start(now), moves);
    OneOwner(Run(Start(now), moves), i, j);
  }

  lemma OneOwner(f: Flight, i: nat, j: nat)
    requires Inv(f) && i < |f.holders| && j < |f.holders| && Live(f.holders[i], f.now) && Live(f.holders[j], f.now)
    ensures f.holders[i].key == f.holders[j].key ==> i == j
  {
    assert Owns(f, i, f.holders[i].key) && Owns(f, j, f.holders[j].key);
    assert i < j ==> f.holders[i].token != f.holders[j].token;
    assert j < i ==> f.holders[j].token != f.holders[i].token;
  }

  /**
   * A key can be locked anew exactly when everyone who believes to hold it has had the lock lost by
   * Redis; so without such a loss nobody else calls the provider while a lease runs.
   */
  lemma FreeExactlyWhenLost(now: int, moves: seq<Move>, key: Key)
    ensures var f := Run(Start(now), moves);
      var allLost :=
        forall i :: 0 <= i < |f.holders| && f.holders[i].key == key && Believes(f.holders[i], f.now) ==> f.holders[i].lost;
      Free(f.locks, key, f.now) <==> allLost
  {
    RunKeeps(Start(now), moves);
    var f := Run(Start(now), moves);
    if !Free(f.locks, key, f.now) {
      var i: nat :| Owns(f, i, key);
    }
    if i :| 0 <= i < |f.holders| && f.holders[i].key == key && Believes(f.holders[i], f.now) && !f.holders[i].lost {
      assert Owns(f, i, key);
    }
  }

  /** Only a loss makes a holder lose its lock. */
  lemma {:induction false} NothingLostWithoutLoss(f: Flight, moves: seq<Move>)
    requires forall k :: 0 <= k < |moves| ==> !moves[k].Lose?
    requires forall i :: 0 <= i < |f.holders| ==> !f.holders[i].lost
    ensures var f' := Run(f, moves); forall i :: 0 <= i < |f'.holders| ==> !f'.holders[i].lost
    decreases |moves|
  {
    if moves != [] {
      var f1 := Next(f, moves[0]);
      assert !moves[0].Lose?;
      assert forall i :: 0 <= i < |f1.holders| ==> !f1.holders[i].lost;
      NothingLostWithoutLoss(f1, moves[1..]);
      assert Run(f, moves) == Run(f1, moves[1..]);
    }
  }

  /** A holder whose lease ran out never deletes its successor's lock, and a live holder's own release frees the key. */
  lemma ReleaseSparesOthers(now: int, moves: seq<Move>, late: nat, other: nat)
    requires var f := Run(Start(now), moves);
      late < |f.holders| && other < |f.holders| && late != other && Live(f.holders[other], f.now)
    ensures var f := Run(Start(now), moves);
      var f' := Next(f, Release(late));
      && f.holders[other].key in f'.locks && f'.locks[f.holders[other].key] == f.locks[f.holders[other].key]
      && (Live(f.holders[late], f.now) ==> Free(f'.locks, f.holders[late].key, f'.now))
  {
    var f := Run(Start(now), moves);
    RunKeeps(Start(now), moves);
    ReleaseKeeps(f, late);
    assert Live(Next(f, Release(late)).holders[other], f.now);
    assert Owns(f, other, f.holders[other].key) && Owns(Next(f, Release(late)), other, f.holders[other].key);
    assert Live(f.holders[late], f.now) ==> Owns(f, late, f.holders[late].key);
  }
}
