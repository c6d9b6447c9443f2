/**
 * Refreshing a shared credential file from many processes: an unlocked read, a lock, a second read,
 * and at most one refresh request under the lock. Refresh tokens rotate as section 6 of RFC 6749
 * allows: a new one replaces the old one in the file.
 */
module Credentials {
  import opened Options

  datatype Credential = Credential(clientId: string, access: string, refresh: string, planScope: bool, expiresAt: int)

  /** The file: absent, not JSON, without its tokens after they became unusable, or a record. */
  datatype File = Missing | Unreadable | Cleared(clientId: string) | Stored(credential: Credential)

  datatype Failure = FileFailure | ScopeFailure | TerminalFailure | Misconfigured | Rejected | ProviderUnavailable

  datatype ReadResult = Readable(credential: Credential) | ReadFailed(failure: Failure)

  function Read(file: File): ReadResult {
    match file
    case Stored(c) =>
      if c.clientId == "" || c.access == "" || c.refresh == "" then ReadFailed(FileFailure)
      else if !c.planScope then ReadFailed(ScopeFailure)
      else Readable(c)
    case _ => ReadFailed(FileFailure)
  }

  predicate NeedsRefresh(c: Credential, skew: int, now: int) {
    c.expiresAt - now <= skew
  }

  /** The token endpoint's answer; a payload without an access token, or not an object, is invalid. */
  datatype Response =
    | NetworkError
    | TerminalError
    | UnknownClient
    | ClientError
    | ServerError
    | InvalidPayload
    | Tokens(access: string, refresh: string, lifetime: int, keepsScope: bool)

  /** The record a successful refresh writes: an empty refresh token in the payload keeps the previous one. */
  function Refreshed(c: Credential, r: Response, now: int): Credential
    requires r.Tokens?
  {
    Credential(c.clientId, r.access, if r.refresh == "" then c.refresh else r.refresh, true, now + r.lifetime)
  }

  datatype Verdict = Token(access: string) | Raised(failure: Failure)

  /** What a refresh leaves in the file, and what its caller gets. */
  function Refresh(file: File, c: Credential, r: Response, now: int): (File, Verdict) {
    match r
    case NetworkError => (file, Raised(ProviderUnavailable))
    case TerminalError => (Cleared(c.clientId), Raised(TerminalFailure))
    case UnknownClient => (file, Raised(Misconfigured))
    case ClientError => (file, Raised(Rejected))
    case ServerError => (file, Raised(ProviderUnavailable))
    case InvalidPayload => (file, Raised(ProviderUnavailable))
    case Tokens(access, _, _, keepsScope) =>
      if access == "" then (file, Raised(ProviderUnavailable))
      else if !keepsScope then (file, Raised(ScopeFailure))
      else (Stored(Refreshed(c, r, now)), Token(access))
  }

  // ---------------------------------------------------------------- one caller

  /** Where a call of `access_token` stands between two suspensions. */
  datatype Phase =
    | Begin
    | Queued
    | Locked
    | Requesting(credential: Credential)
    | Done(verdict: Verdict)
    | Dead

  datatype Choice = Crash | Proceed(now: int, response: Response)

  /** Requests for a token refresh, and replacements of one refresh token by another, in the order they happen. */
  datatype Event = Submitted(token: string) | Replaced(token: string)

  datatype Moved = Moved(file: File, lock: Option<nat>, phase: Phase, events: seq<Event>)

  function Unlocked(lock: Option<nat>, me: nat): Option<nat> {
    if lock == Some(me) then None else lock
  }

  /** Resumes call `me`; a crash drops the lock, as the operating system does. */
  function Move(file: File, lock: Option<nat>, me: nat, phase: Phase, skew: int, c: Choice): Moved {
    if phase.Done? || phase.Dead? then Moved(file, lock, phase, [])
    else if c.Crash? then Moved(file, Unlocked(lock, me), Dead, [])
    else match phase
      case Begin =>
        (match Read(file)
         case ReadFailed(failure) => Moved(file, lock, Done(Raised(failure)), [])
         case Readable(credential) =>
           if NeedsRefresh(credential, skew, c.now) then Moved(file, lock, Queued, [])
           else Moved(file, lock, Done(Token(credential.access)), []))
      case Queued => if lock == None then Moved(file, Some(me), Locked, []) else Moved(file, lock, Queued, [])
      case Locked =>
        (match Read(file)
         case ReadFailed(failure) => Moved(file, Unlocked(lock, me), Done(Raised(failure)), [])
         case Readable(credential) =>
           if NeedsRefresh(credential, skew, c.now) then
             Moved(file, lock, Requesting(credential), [Submitted(credential.refresh)])
           else Moved(file, Unlocked(lock, me), Done(Token(credential.access)), []))
      case Requesting(credential) =>
        var (file', verdict) := Refresh(file, credential, c.response, c.now);
        Moved(file', Unlocked(lock, me), Done(verdict),
          if file'.Stored? && verdict.Token? && file'.credential.refresh != credential.refresh
          then [Replaced(credential.refresh)] else [])
  }

  /** The shared file and its host lock. */
  class CredentialStore {
    const skew: int
    var file: File
    var lock: Option<nat>

    constructor (skew: int, file: File)
      ensures this.skew == skew && this.file == file && lock == None
    {
      this.skew, this.file, lock := skew, file, None;
    }

    method ReadFile() returns (r: ReadResult)
      ensures r == Read(file)
    {
      match file
      case Missing => r := ReadFailed(FileFailure);
      case Unreadable => r := ReadFailed(FileFailure);
      case Cleared(_) => r := ReadFailed(FileFailure);
      case Stored(c) =>
        if c.clientId == "" || c.access == "" || c.refresh == "" {
          return ReadFailed(FileFailure);
        }
        if !c.planScope {
          return ReadFailed(ScopeFailure);
        }
        r := Readable(c);
    }

    method RefreshFile(c: Credential, response: Response, now: int) returns (v: Verdict)
      modifies this`file
      ensures (file, v) == Refresh(old(file), c, response, now)
    {
      match response
      case NetworkError => v := Raised(ProviderUnavailable);
      case TerminalError =>
        file := Cleared(c.clientId);
        v := Raised(TerminalFailure);
      case UnknownClient => v := Raised(Misconfigured);
      case ClientError => v := Raised(Rejected);
      case ServerError => v := Raised(ProviderUnavailable);
      case InvalidPayload => v := Raised(ProviderUnavailable);
      case Tokens(access, refresh, lifetime, keepsScope) =>
        if access == "" {
          return Raised(ProviderUnavailable);
        }
        if !keepsScope {
          return Raised(ScopeFailure);
        }
        var kept := if refresh == "" then c.refresh else refresh;
        file := Stored(Credential(c.clientId, access, kept, true, now + lifetime));
        v := Token(access);
    }
  }

  /** One call of `access_token` in flight. */
  class Caller {
    const me: nat
    const store: CredentialStore
    var phase: Phase

    constructor (me: nat, store: CredentialStore)
      ensures this.me == me && this.store == store && phase == Begin
    {
      this.me, this.store, phase := me, store, Begin;
    }

    method Advance(c: Choice) returns (events: seq<Event>)
      modifies this, store
      ensures Moved(store.file, store.lock, phase, events)
        == Move(old(store.file), old(store.lock), me, old(phase), store.skew, c)
    {
      events := [];
      if phase.Done? || phase.Dead? {
        return;
      }
      if c.Crash? {
        Unlock();
        phase := Dead;
        return;
      }
      match phase
      case Begin =>
        var r := store.ReadFile();
        phase := match r
          case ReadFailed(failure) => Done(Raised(failure))
          case Readable(credential) =>
            if NeedsRefresh(credential, store.skew, c.now) then Queued else Done(Token(credential.access));
      case Queued =>
        if store.lock == None {
          store.lock := Some(me);
          phase := Locked;
        }
      case Locked =>
        var r := store.ReadFile();
        match r {
          case ReadFailed(failure) =>
            Unlock();
            phase := Done(Raised(failure));
          case Readable(credential) =>
            if NeedsRefresh(credential, store.skew, c.now) {
              events := [Submitted(credential.refresh)];
              phase := Requesting(credential);
            } else {
              Unlock();
              phase := Done(Token(credential.access));
            }
        }
      case Requesting(credential) =>
        var verdict := store.RefreshFile(credential, c.response, c.now);
        if store.file.Stored? && verdict.Token? && store.file.credential.refresh != credential.refresh {
          events := [Replaced(credential.refresh)];
        }
        Unlock();
        phase := Done(verdict);
    }

    method Unlock()
      modifies store`lock
      ensures store.lock == Unlocked(old(store.lock), me)
    {
      if store.lock == Some(me) {
        store.lock := None;
      }
    }
  }

  // ---------------------------------------------------------------- many callers

  datatype World = World(file: File, lock: Option<nat>, calls: seq<Phase>, events: seq<Event>)

  datatype Turn = Turn(call: nat, choice: Choice)

  function TokensIn(file: File): set<string> {
    if file.Stored? then {file.credential.refresh} else {}
  }

  /** Any response may come at any time, whatever refresh token it carries. */
  function Next(skew: int, w: World, t: Turn): World {
    if t.call >= |w.calls| then w
    else
      var m := Move(w.file, w.lock, t.call, w.calls[t.call], skew, t.choice);
      World(m.file, m.lock, w.calls[t.call := m.phase], w.events + m.events)
  }

  function Run(skew: int, w: World, turns: seq<Turn>): World
    decreases |turns|
  {
    if turns == [] then w else Run(skew, Next(skew, w, turns[0]), turns[1..])
  }

  function Started(file: File, calls: nat): World {
    World(file, None, seq(calls, _ => Begin), [])
  }

  predicate Critical(phase: Phase) {
    phase.Locked? || phase.Requesting?
  }

  /** One call at most is past the lock, and it requests with what the file holds. */
  ghost predicate Inv(w: World) {
    && (forall p :: 0 <= p < |w.calls| && Critical(w.calls[p]) ==> w.lock == Some(p))
    && (forall p :: 0 <= p < |w.calls| && w.calls[p].Requesting? ==> Read(w.file) == Readable(w.calls[p].credential))
  }

  lemma NextKeeps(skew: int, w: World, t: Turn)
    requires Inv(w)
    ensures Inv(Next(skew, w, t))
  {
    var w' := Next(skew, w, t);
    if t.call < |w.calls| {
      forall p | 0 <= p < |w.calls| && p != t.call && Critical(w.calls[p])
        ensures w'.lock == Some(p) && w'.file == w.file
      {
        assert w.lock == Some(p);
      }
    }
  }

  lemma {:induction false} RunKeeps(skew: int, w: World, turns: seq<Turn>)
    requires Inv(w)
    ensures Inv(Run(skew, w, turns))
    decreases |turns|
  {
    if turns != [] {
      NextKeeps(skew, w, turns[0]);
      RunKeeps(skew, Next(skew, w, turns[0]), turns[1..]);
    }
  }

  // ---------------------------------------------------------------- what is read and answered

  /** A complete record with the required scope is usable, and nothing else is. */
  predicate Usable(file: File) {
    && file.Stored? && file.credential.clientId != "" && file.credential.access != "" && file.credential.refresh != ""
    && file.credential.planScope
  }

  lemma ReadExactly(file: File)
    ensures Read(file).Readable? <==> Usable(file)
    ensures Usable(file) ==> Read(file).credential == file.credential
    ensures Read(file) == ReadFailed(ScopeFailure) <==>
      file.Stored? && Usable(Stored(file.credential.(planScope := true))) && !file.credential.planScope
  {
  }

  /** What each response tells the caller, and when the file changes: it is rewritten by an accepted response, and emptied of its tokens by a terminal one. */
  lemma RefreshTells(file: File, c: Credential, r: Response, now: int)
    ensures var (file', verdict) := Refresh(file, c, r, now);
      && (verdict.Token? <==> Accepted(r)) && (verdict.Token? ==> verdict.access == r.access)
      && (verdict == Raised(TerminalFailure) <==> r == TerminalError)
      && (verdict == Raised(ScopeFailure) <==> r.Tokens? && r.access != "" && !r.keepsScope)
      && (verdict == Raised(Misconfigured) <==> r == UnknownClient)
      && (verdict == Raised(Rejected) <==> r == ClientError)
      && (verdict == Raised(ProviderUnavailable) <==>
            r in {NetworkError, ServerError, InvalidPayload} || (r.Tokens? && r.access == ""))
      && (Accepted(r) ==>
            && file'.Stored? && file'.credential.clientId == c.clientId && file'.credential.access == r.access
            && file'.credential.refresh == (if r.refresh == "" then c.refresh else r.refresh)
            && file'.credential.planScope && file'.credential.expiresAt == now + r.lifetime)
      && (r == TerminalError ==> file' == Cleared(c.clientId))
      && (!Accepted(r) && r != TerminalError ==> file' == file)
  {
  }

  /** Nothing has happened to a file nobody can use, and every call that ended was told of a failure. */
  ghost predicate Barren(w: World, file: File) {
    && w.file == file && w.events == []
    && forall p :: 0 <= p < |w.calls| ==>
      match w.calls[p]
      case Begin => true
      case Dead => true
      case Done(verdict) => verdict in {Raised(FileFailure), Raised(ScopeFailure)}
      case _ => false
  }

  lemma BarrenStays(skew: int, w: World, t: Turn, file: File)
    requires Barren(w, file) && !Usable(file)
    ensures Barren(Next(skew, w, t), file)
  {
    ReadExactly(file);
  }

  lemma {:induction false} BarrenRuns(skew: int, w: World, turns: seq<Turn>, file: File)
    requires Barren(w, file) && !Usable(file)
    ensures Barren(Run(skew, w, turns), file)
    decreases |turns|
  {
    if turns != [] {
      BarrenStays(skew, w, turns[0], file);
      BarrenRuns(skew, Next(skew, w, turns[0]), turns[1..], file);
    }
  }

  /** In every interleaving a file that lacks a token or the required scope is never used: nobody gets a token, submits one, or changes it. */
  lemma UnusableFileIsNeverUsed(skew: int, file: File, calls: nat, turns: seq<Turn>)
    requires !Usable(file)
    ensures Barren(Run(skew, Started(file, calls), turns), file)
  {
    BarrenRuns(skew, Started(file, calls), turns, file);
  }

  // ---------------------------------------------------------------- replaced tokens

  /** A replaced token is never submitted afterwards. */
  ghost predicate NeverAfter(events: seq<Event>) {
    forall i, j, token :: 0 <= i < j < |events| && events[i] == Replaced(token) ==> events[j] != Submitted(token)
  }

  /** The file holds no token that was replaced. */
  predicate Clean(w: World) {
    w.file.Stored? ==> Replaced(w.file.credential.refresh) !in w.events
  }

  /** A response the record is rewritten from. */
  predicate Accepted(r: Response) {
    r.Tokens? && r.access != "" && r.keepsScope
  }

  /** The server issues a token once more that was replaced before. */
  predicate Reissues(w: World, t: Turn) {
    && t.call < |w.calls| && w.calls[t.call].Requesting? && t.choice.Proceed? && Accepted(t.choice.response)
    && t.choice.response.refresh != "" && Replaced(t.choice.response.refresh) in w.events
  }

  lemma EventsGrow(events: seq<Event>, more: Event)
    requires NeverAfter(events)
    requires more.Submitted? ==> Replaced(more.token) !in events
    ensures NeverAfter(events + [more])
  {
    var longer := events + [more];
    forall i, j, token | 0 <= i < j < |longer| && longer[i] == Replaced(token) ensures longer[j] != Submitted(token) {
      if j == |events| {
        assert events[i] == Replaced(token);
      }
    }
  }

  lemma MovedEvents(skew: int, w: World, t: Turn)
    requires Inv(w) && t.call < |w.calls|
    ensures var m := Move(w.file, w.lock, t.call, w.calls[t.call], skew, t.choice);
      && |m.events| <= 1 && (m.events == [] ==> w.events + m.events == w.events)
      && (m.events != [] ==> w.events + m.events == w.events + [m.events[0]])
      && (m.events != [] && m.events[0].Submitted? ==> w.file.Stored? && m.events[0].token == w.file.credential.refresh)
  {
  }

  /** From a clean file no replaced token is submitted. */
  lemma NextKeepsOrder(skew: int, w: World, t: Turn)
    requires Inv(w) && Clean(w) && NeverAfter(w.events)
    ensures NeverAfter(Next(skew, w, t).events)
  {
    if t.call < |w.calls| {
      var m := Move(w.file, w.lock, t.call, w.calls[t.call], skew, t.choice);
      MovedEvents(skew, w, t);
      if m.events != [] {
        EventsGrow(w.events, m.events[0]);
      }
    }
  }

  /** One step keeps the file clean exactly if it does not issue a replaced token once more. */
  lemma CleanExactly(skew: int, w: World, t: Turn)
    requires Inv(w) && Clean(w)
    ensures Clean(Next(skew, w, t)) <==> !Reissues(w, t)
  {
    if t.call < |w.calls| {
      MovedEvents(skew, w, t);
      if w.calls[t.call].Requesting? {
        assert w.file.Stored? && w.file.credential == w.calls[t.call].credential;
      }
    }
  }

  /** The file is clean at first and after every turn. */
  predicate StaysClean(skew: int, w: World, turns: seq<Turn>)
    decreases |turns|
  {
    Clean(w) && (turns != [] ==> StaysClean(skew, Next(skew, w, turns[0]), turns[1..]))
  }

  /** No response of these turns issues a token that was replaced before. */
  predicate NeverReissues(skew: int, w: World, turns: seq<Turn>)
    decreases |turns|
  {
    turns != [] ==> !Reissues(w, turns[0]) && NeverReissues(skew, Next(skew, w, turns[0]), turns[1..])
  }

  lemma {:induction false} StaysCleanExactly(skew: int, w: World, turns: seq<Turn>)
    requires Inv(w) && Clean(w)
    ensures StaysClean(skew, w, turns) <==> NeverReissues(skew, w, turns)
    decreases |turns|
  {
    if turns != [] {
      NextKeeps(skew, w, turns[0]);
      CleanExactly(skew, w, turns[0]);
      if Clean(Next(skew, w, turns[0])) {
        StaysCleanExactly(skew, Next(skew, w, turns[0]), turns[1..]);
      } else {
        assert !StaysClean(skew, Next(skew, w, turns[0]), turns[1..]);
      }
    }
  }

  lemma {:induction false} CleanRunsKeepOrder(skew: int, w: World, turns: seq<Turn>)
    requires Inv(w) && StaysClean(skew, w, turns) && NeverAfter(w.events)
    ensures NeverAfter(Run(skew, w, turns).events)
    decreases |turns|
  {
    if turns != [] {
      NextKeeps(skew, w, turns[0]);
      NextKeepsOrder(skew, w, turns[0]);
      CleanRunsKeepOrder(skew, Next(skew, w, turns[0]), turns[1..]);
    }
  }

  // ---------------------------------------------------------------- the guarantees

  /**
   * In every interleaving, with crashes anywhere and servers that rotate or repeat refresh tokens, a
   * replaced token stays out of the file exactly if no response issues one again.
   */
  lemma ReplacedTokensStayOutExactly(skew: int, file: File, calls: nat, turns: seq<Turn>)
    ensures StaysClean(skew, Started(file, calls), turns) <==> NeverReissues(skew, Started(file, calls), turns)
  {
    StaysCleanExactly(skew, Started(file, calls), turns);
  }

  /** A refresh token replaced by a completed refresh is then never submitted again. */
  lemma ReplacedTokensAreNeverSubmitted(skew: int, file: File, calls: nat, turns: seq<Turn>)
    requires NeverReissues(skew, Started(file, calls), turns)
    ensures NeverAfter(Run(skew, Started(file, calls), turns).events)
  {
    StaysCleanExactly(skew, Started(file, calls), turns);
    CleanRunsKeepOrder(skew, Started(file, calls), turns);
  }

  /** At most one call at a time is between taking the lock and finishing, and its request carries the file's own token. */
  lemma OneRequestAtATime(skew: int, file: File, calls: nat, turns: seq<Turn>, p: nat, q: nat)
    requires var w := Run(skew, Started(file, calls), turns);
      p < |w.calls| && q < |w.calls| && Critical(w.calls[p]) && Critical(w.calls[q])
    ensures p == q
    ensures var w := Run(skew, Started(file, calls), turns);
      w.calls[p].Requesting? ==> Read(w.file) == Readable(w.calls[p].credential)
  {
    RunKeeps(skew, Started(file, calls), turns);
  }

  /** The credential in the file is usable and stays out of the skew at every time of these turns. */
  predicate FreshThroughout(skew: int, file: File, turns: seq<Turn>) {
    && Read(file).Readable?
    && forall i :: 0 <= i < |turns| && turns[i].choice.Proceed? ==>
      !NeedsRefresh(Read(file).credential, skew, turns[i].choice.now)
  }

  lemma FreshTurn(skew: int, w: World, t: Turn)
    requires Inv(w) && FreshThroughout(skew, w.file, [t])
    requires forall p :: 0 <= p < |w.calls| ==> !w.calls[p].Requesting?
    ensures var w' := Next(skew, w, t);
      && w'.file == w.file && w'.events == w.events && |w'.calls| == |w.calls|
      && (forall p :: 0 <= p < |w.calls| ==> !w'.calls[p].Requesting?)
      && (forall p :: 0 <= p < |w.calls| && !w.calls[p].Done? && w'.calls[p].Done? ==>
            w'.calls[p] == Done(Token(Read(w.file).credential.access)))
  {
    assert t == [t][0];
    assert w.events + [] == w.events;
  }

  /**
   * Behind a completed refresh whose lifetime exceeds the skew, every queued or new call gets that
   * access token and no second request is made, for as long as the token stays fresh.
   */
  lemma {:induction false} QueuedCallsReuseTheToken(skew: int, w: World, turns: seq<Turn>)
    requires Inv(w) && FreshThroughout(skew, w.file, turns)
    requires forall p :: 0 <= p < |w.calls| ==> !w.calls[p].Requesting?
    ensures var w' := Run(skew, w, turns);
      && w'.file == w.file && w'.events == w.events && |w'.calls| == |w.calls|
      && (forall p :: 0 <= p < |w.calls| && !w.calls[p].Done? && w'.calls[p].Done? ==>
            w'.calls[p] == Done(Token(Read(w.file).credential.access)))
      && (forall p :: 0 <= p < |w.calls| && w.calls[p].Done? ==> w'.calls[p] == w.calls[p])
    decreases |turns|
  {
    if turns != [] {
      assert turns[0].choice == [turns[0]][0].choice;
      FreshTurn(skew, w, turns[0]);
      NextKeeps(skew, w, turns[0]);
      QueuedCallsReuseTheToken(skew, Next(skew, w, turns[0]), turns[1..]);
    }
  }

  /** A completed refresh leaves the file in that state: its own access token, fresh if it lives longer than the skew. */
  lemma CompletedRefreshIsFresh(skew: int, w: World, t: Turn)
    requires Inv(w) && t.call < |w.calls| && w.calls[t.call].Requesting? && t.choice.Proceed?
    requires Next(skew, w, t).calls[t.call].verdict.Token?
    ensures var w' := Next(skew, w, t);
      && Read(w'.file).Readable? && w'.lock == None
      && w'.calls[t.call] == Done(Token(Read(w'.file).credential.access))
      && (forall p :: 0 <= p < |w'.calls| ==> !w'.calls[p].Requesting?)
      && (t.choice.response.lifetime > skew ==> !NeedsRefresh(Read(w'.file).credential, skew, t.choice.now))
  {
    forall p | 0 <= p < |w.calls| && w.calls[p].Requesting? ensures p == t.call {
      assert w.lock == Some(p);
    }
  }

  function Thrice(skew: int, w: World, t: Turn): World {
    Next(skew, Next(skew, Next(skew, w, t), t), t)
  }

  lemma ThreeTurnsSubmit(skew: int, w: World, p: nat, c: Credential, now: int)
    requires p < |w.calls| && w.calls[p] == Begin && w.lock == None
    requires Read(w.file) == Readable(c) && NeedsRefresh(c, skew, now)
    ensures var w' := Thrice(skew, w, Turn(p, Proceed(now, NetworkError)));
      w' == w.(lock := Some(p), calls := w.calls[p := Requesting(c)], events := w.events + [Submitted(c.refresh)])
  {
    var t := Turn(p, Proceed(now, NetworkError));
    assert w.events + [] == w.events;
    var w1 := Next(skew, w, t);
    assert w1 == w.(calls := w.calls[p := Queued]);
    var w2 := Next(skew, w1, t);
    assert w2.calls == w.calls[p := Locked];
    var w3 := Next(skew, w2, t);
    assert w3.calls == w.calls[p := Requesting(c)];
  }

  // ---------------------------------------------------------------- when a token is submitted again

  /** A response that takes the old refresh token out of the file: it brings another one, or declares it unusable. */
  predicate Retires(c: Credential, r: Response) {
    r.TerminalError? || (Accepted(r) && r.refresh != "" && r.refresh != c.refresh)
  }

  /**
   * A request leaves its refresh token in the file exactly when the process dies before the write,
   * or the response neither brings another token nor declares it unusable.
   */
  lemma TokenStaysExactly(skew: int, w: World, t: Turn)
    requires Inv(w) && t.call < |w.calls| && w.calls[t.call].Requesting?
    ensures var token := w.calls[t.call].credential.refresh;
      token in TokensIn(Next(skew, w, t).file) <==> t.choice.Crash? || !Retires(w.calls[t.call].credential, t.choice.response)
  {
    assert w.calls[t.call].credential.refresh in TokensIn(w.file);
  }

  /** What the file holds after a request, as the next call reads it. */
  lemma AfterRequest(skew: int, w: World, t: Turn)
    requires Inv(w) && t.call < |w.calls| && w.calls[t.call].Requesting?
    ensures var c, w' := w.calls[t.call].credential, Next(skew, w, t);
      && w'.lock == None
      && (t.choice.Crash? || !(t.choice.response.TerminalError? || Accepted(t.choice.response)) ==> Read(w'.file) == Readable(c))
      && (t.choice.Proceed? && Accepted(t.choice.response) ==>
            Read(w'.file) == Readable(Refreshed(c, t.choice.response, t.choice.now)))
      && (t.choice.Proceed? && t.choice.response.TerminalError? ==> Read(w'.file).ReadFailed?)
  {
  }

  lemma ThreeTurnsReturn(skew: int, w: World, p: nat, now: int)
    requires p < |w.calls| && w.calls[p] == Begin
    requires Read(w.file).Readable? ==> !NeedsRefresh(Read(w.file).credential, skew, now)
    ensures Thrice(skew, w, Turn(p, Proceed(now, NetworkError))).events == w.events
  {
    var t := Turn(p, Proceed(now, NetworkError));
    assert w.events + [] == w.events;
    var w1 := Next(skew, w, t);
    assert w1.calls[p].Done? && w1.events == w.events;
    var w2 := Next(skew, w1, t);
    assert w2.calls[p].Done? && w2.events == w.events;
  }

  /**
   * After any request, the next call submits the same refresh token once more exactly when the token
   * stayed in the file and what the file holds needs a refresh.
   */
  lemma ResubmittedExactly(skew: int, w: World, t: Turn, q: nat, now: int)
    requires Inv(w) && t.call < |w.calls| && w.calls[t.call].Requesting?
    requires q < |w.calls| && w.calls[q] == Begin
    ensures var c, w1 := w.calls[t.call].credential, Next(skew, w, t);
      var submitsAgain := Thrice(skew, w1, Turn(q, Proceed(now, NetworkError))).events == w1.events + [Submitted(c.refresh)];
      submitsAgain <==>
        && (t.choice.Crash? || !Retires(c, t.choice.response))
        && Read(w1.file).Readable? && NeedsRefresh(Read(w1.file).credential, skew, now)
  {
    var c, w1 := w.calls[t.call].credential, Next(skew, w, t);
    TokenStaysExactly(skew, w, t);
    AfterRequest(skew, w, t);
    assert w1.calls[q] == Begin;
    if Read(w1.file).Readable? && NeedsRefresh(Read(w1.file).credential, skew, now) {
      var held := Read(w1.file).credential;
      ThreeTurnsSubmit(skew, w1, q, held, now);
      assert (w1.events + [Submitted(held.refresh)])[|w1.events|] == Submitted(held.refresh);
      assert (w1.events + [Submitted(c.refresh)])[|w1.events|] == Submitted(c.refresh);
    } else {
      ThreeTurnsReturn(skew, w1, q, now);
      assert |w1.events + [Submitted(c.refresh)]| == |w1.events| + 1;
    }
  }

  /**
   * A request that leaves the file as it was makes the next call, while the credential is stale, submit
   * the old token once more: so does a crash before the write, and so does a response that lost the scope.
   */
  lemma UnwrittenRefreshResubmits(skew: int, w: World, p: nat, q: nat, c: Credential, now: int, choice: Choice)
    requires p != q && p < |w.calls| && q < |w.calls| && w.calls[p] == Begin == w.calls[q] && w.lock == None
    requires Inv(w) && Read(w.file) == Readable(c) && NeedsRefresh(c, skew, now)
    requires choice.Proceed? ==> !choice.response.TerminalError? && !Accepted(choice.response)
    ensures var go := Proceed(now, NetworkError);
      Thrice(skew, Next(skew, Thrice(skew, w, Turn(p, go)), Turn(p, choice)), Turn(q, go)).events
        == w.events + [Submitted(c.refresh)] + [Submitted(c.refresh)]
  {
    var go := Proceed(now, NetworkError);
    ThreeTurnsSubmit(skew, w, p, c, now);
    var asked := Thrice(skew, w, Turn(p, go));
    ThriceKeeps(skew, w, Turn(p, go));
    AfterRequest(skew, asked, Turn(p, choice));
    ResubmittedExactly(skew, asked, Turn(p, choice), q, now);
    assert asked.events + [] == asked.events;
    assert Next(skew, asked, Turn(p, choice)).events == asked.events;
  }

  lemma ThriceKeeps(skew: int, w: World, t: Turn)
    requires Inv(w)
    ensures Inv(Thrice(skew, w, t))
  {
    NextKeeps(skew, w, t);
    NextKeeps(skew, Next(skew, w, t), t);
    NextKeeps(skew, Next(skew, Next(skew, w, t), t), t);
  }

  /**
   * An accepted response without a refresh token, or with the submitted one, keeps that token, and it
   * is submitted again exactly once the new access token is stale.
   */
  lemma UnrotatedTokenResubmits(skew: int, w: World, t: Turn, q: nat, now: int)
    requires Inv(w) && t.call < |w.calls| && w.calls[t.call].Requesting?
    requires t.choice.Proceed? && Accepted(t.choice.response)
    requires t.choice.response.refresh in {"", w.calls[t.call].credential.refresh}
    requires q < |w.calls| && w.calls[q] == Begin
    ensures var w1 := Next(skew, w, t);
      var submitsAgain :=
        Thrice(skew, w1, Turn(q, Proceed(now, NetworkError))).events == w1.events + [Submitted(w.calls[t.call].credential.refresh)];
      submitsAgain <==> t.choice.now + t.choice.response.lifetime - now <= skew
  {
    ResubmittedExactly(skew, w, t, q, now);
    AfterRequest(skew, w, t);
  }

  /** A token that the server issues once more is submitted once more, when the new access token is stale. */
  lemma ReissuedTokenIsSubmitted(skew: int, w: World, t: Turn, q: nat, now: int)
    requires Inv(w) && Reissues(w, t) && q < |w.calls| && w.calls[q] == Begin
    requires t.choice.now + t.choice.response.lifetime - now <= skew
    ensures !NeverAfter(Thrice(skew, Next(skew, w, t), Turn(q, Proceed(now, NetworkError))).events)
  {
    var w1, token := Next(skew, w, t), t.choice.response.refresh;
    AfterRequest(skew, w, t);
    ThreeTurnsSubmit(skew, w1, q, Read(w1.file).credential, now);
    MovedEvents(skew, w, t);
    var all := w1.events + [Submitted(token)];
    var i :| 0 <= i < |w.events| && w.events[i] == Replaced(token);
    assert all[i] == Replaced(token) && all[|w1.events|] == Submitted(token);
  }
}
