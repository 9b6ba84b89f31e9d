/** The in-memory idempotency store: two maps kept in step, a time to live, and promises that
    concurrent requests wait on. */
module IdempotencyStore {
  import opened Wrappers

  datatype Response = Response(statusCode: int, body: string)

  datatype Entry = Entry(keyHash: string, scope: string, principalHash: string, requestHash: string)

  datatype Record =
    | Pending(token: string, requestHash: string, expiresAt: int)
    | Completed(token: string, requestHash: string, expiresAt: int, response: Response)

  datatype Promise = Unsettled | Resolved(response: Response) | Rejected

  datatype Answer = Started(token: string) | Replay(response: Response) | Waiting(token: string) | Conflict

  /** What has happened so far, one observation per effective step. */
  datatype Happening =
    | Began(key: string, requestHash: string, owner: string, at: int)
    | Done(owner: string, response: Response, at: int)
    | GaveUp(owner: string)
    | Expired(gone: set<string>, at: int)

  /** The object's maps, the promises handed out by token, and the history. */
  datatype Store = Store(
    records: map<string, Record>, tokens: map<string, string>,
    promises: map<string, Promise>, history: seq<Happening>)

  function CacheKey(e: Entry): string { e.keyHash + ":" + e.scope + ":" + e.principalHash }

  // ---------------------------------------------------------------------------------------
  // Steps
  // ---------------------------------------------------------------------------------------

  function Stale(s: Store, now: int): set<string> {
    set k | k in s.records && s.records[k].expiresAt <= now
  }

  function StaleTokens(s: Store, now: int): set<string> {
    set k | k in s.records && s.records[k].expiresAt <= now :: s.records[k].token
  }

  function Prune(s: Store, now: int): Store {
    s.(records := s.records - Stale(s, now),
       tokens := s.tokens - StaleTokens(s, now),
       history := s.history + [Expired(StaleTokens(s, now), now)])
  }

  /** `token` is the random token drawn if a new attempt starts; the clock is read once for
      pruning and once for the new record. */
  function BeginStep(s0: Store, e: Entry, token: string, prunedAt: int, now: int, ttlMs: int): (Store, Answer) {
    var s := Prune(s0, prunedAt);
    var key := CacheKey(e);
    if key in s.records then
      var r := s.records[key];
      if r.requestHash != e.requestHash then (s, Conflict)
      else if r.Completed? then (s, Replay(r.response))
      else (s, Waiting(r.token))
    else
      (s.(records := s.records[key := Pending(token, e.requestHash, now + ttlMs)],
          tokens := s.tokens[token := key],
          promises := s.promises[token := Unsettled],
          history := s.history + [Began(key, e.requestHash, token, now)]), Started(token))
  }

  function CompleteStep(s: Store, token: string, response: Response, now: int, ttlMs: int): Store {
    if token !in s.tokens then s
    else
      var key := s.tokens[token];
      if key !in s.records || !s.records[key].Pending? then s
      else
        s.(records := s.records[key := Completed(token, s.records[key].requestHash, now + ttlMs, response)],
           promises := s.promises[s.records[key].token := Resolved(response)],
           history := s.history + [Done(token, response, now)])
  }

  function FailStep(s: Store, token: string): Store {
    if token !in s.tokens then s
    else
      var key := s.tokens[token];
      var gone := s.(records := s.records - {key}, tokens := s.tokens - {token},
                     history := s.history + [GaveUp(token)]);
      if key in s.records && s.records[key].Pending?
      then gone.(promises := s.promises[s.records[key].token := Rejected])
      else gone
  }

  class InMemoryIdempotencyStore {
    const ttlMs: int
    var records: map<string, Record>
    var tokens: map<string, string>
    var promises: map<string, Promise>
    var history: seq<Happening>

    function State(): Store
      reads this
    {
      Store(records, tokens, promises, history)
    }

    constructor (ttlMs: int)
      ensures this.ttlMs == ttlMs && State() == Store(map[], map[], map[], [])
    {
      this.ttlMs := ttlMs;
      records, tokens, promises, history := map[], map[], map[], [];
    }

    method PruneExpired(now: int)
      modifies this
      ensures State() == Prune(old(State()), now)
    {
      var keys := records.Keys;
      var gone: set<string> := {};
      while keys != {}
        invariant keys <= old(records).Keys
        invariant promises == old(promises) && history == old(history)
        invariant gone == set k | k in old(records) && k !in keys && old(records)[k].expiresAt <= now
                              :: old(records)[k].token
        invariant records == old(records)
                             - (set k | k in old(records) && k !in keys && old(records)[k].expiresAt <= now)
        invariant tokens == old(tokens) - gone
        decreases keys
      {
        var k :| k in keys;
        var record := records[k];
        if record.expiresAt <= now {
          records := records - {k};
          tokens := tokens - {record.token};
          gone := gone + {record.token};
        }
        keys := keys - {k};
      }
      assert gone == StaleTokens(old(State()), now);
      history := history + [Expired(gone, now)];
    }

    method Begin(entry: Entry, token: string, prunedAt: int, now: int) returns (answer: Answer)
      modifies this
      ensures (State(), answer) == BeginStep(old(State()), entry, token, prunedAt, now, ttlMs)
    {
      PruneExpired(prunedAt);
      var key := CacheKey(entry);
      if key in records {
        var existing := records[key];
        if existing.requestHash != entry.requestHash {
          return Conflict;
        }
        if existing.Completed? {
          return Replay(existing.response);
        }
        return Waiting(existing.token);
      }
      records := records[key := Pending(token, entry.requestHash, now + ttlMs)];
      tokens := tokens[token := key];
      promises := promises[token := Unsettled];
      history := history + [Began(key, entry.requestHash, token, now)];
      return Started(token);
    }

    method Complete(token: string, response: Response, now: int)
      modifies this
      ensures State() == CompleteStep(old(State()), token, response, now, ttlMs)
    {
      if token !in tokens { return; }
      var key := tokens[token];
      if key !in records || !records[key].Pending? { return; }
      var record := records[key];
      records := records[key := Completed(token, record.requestHash, now + ttlMs, response)];
      promises := promises[record.token := Resolved(response)];
      history := history + [Done(token, response, now)];
    }

    method Fail(token: string)
      modifies this
      ensures State() == FailStep(old(State()), token)
    {
      if token !in tokens { return; }
      var key := tokens[token];
      var record := if key in records then Some(records[key]) else None;
      records := records - {key};
      tokens := tokens - {token};
      history := history + [GaveUp(token)];
      if record.Some? && record.value.Pending? {
        promises := promises[record.value.token := Rejected];
      }
    }
  }

  // ---------------------------------------------------------------------------------------
  // Runs
  // ---------------------------------------------------------------------------------------

  datatype Call =
    | CallBegin(entry: Entry, token: string, prunedAt: int, now: int)
    | CallComplete(token: string, response: Response, now: int)
    | CallFail(token: string)

  /** A drawn token has never been drawn before. */
  predicate Fresh(s: Store, c: Call) { c.CallBegin? ==> c.token !in s.promises }

  function Apply(s: Store, c: Call, ttlMs: int): Store {
    match c
    case CallBegin(e, token, prunedAt, now) => BeginStep(s, e, token, prunedAt, now, ttlMs).0
    case CallComplete(token, response, now) => CompleteStep(s, token, response, now, ttlMs)
    case CallFail(token) => FailStep(s, token)
  }

  ghost predicate Run(s: Store, calls: seq<Call>, ttlMs: int, s': Store)
    decreases |calls|
  {
    if calls == [] then s' == s
    else Fresh(s, calls[0]) && Run(Apply(s, calls[0], ttlMs), calls[1..], ttlMs, s')
  }

  // ---------------------------------------------------------------------------------------
  // Invariants
  // ---------------------------------------------------------------------------------------

  /** The token map and the record map are inverse to each other. */
  ghost predicate Bijection(s: Store) {
    && (forall k :: k in s.records ==> s.records[k].token in s.tokens && s.tokens[s.records[k].token] == k)
    && (forall t :: t in s.tokens ==> s.tokens[t] in s.records && s.records[s.tokens[t]].token == t)
  }

  ghost predicate PromisesFit(s: Store) {
    && (forall t :: t in s.tokens ==> t in s.promises)
    && (forall k :: k in s.records && s.records[k].token in s.promises ==>
          s.promises[s.records[k].token]
          == if s.records[k].Pending? then Unsettled else Resolved(s.records[k].response))
  }

  predicate Ends(h: Happening, token: string) {
    match h
    case GaveUp(t) => t == token
    case Expired(gone, _) => token in gone
    case _ => false
  }

  ghost predicate EndedIn(history: seq<Happening>, from: nat, to: nat, token: string)
    requires to <= |history|
  {
    exists m :: from <= m < to && Ends(history[m], token)
  }

  /** Every attempt begun is either ended since or still owns its key's record. */
  ghost predicate AttemptsTracked(s: Store) {
    forall i :: 0 <= i < |s.history| && s.history[i].Began? ==>
      var b := s.history[i];
      && b.owner in s.promises
      && (EndedIn(s.history, i + 1, |s.history|, b.owner)
          || (b.key in s.records && s.records[b.key].token == b.owner && s.records[b.key].requestHash == b.requestHash))
  }

  ghost predicate BegunFor(history: seq<Happening>, key: string, requestHash: string, token: string) {
    exists i :: 0 <= i < |history| && history[i].Began? && history[i] == Began(key, requestHash, token, history[i].at)
  }

  ghost predicate DoneWith(history: seq<Happening>, token: string, response: Response) {
    exists i :: 0 <= i < |history| && history[i].Done? && history[i] == Done(token, response, history[i].at)
  }

  ghost predicate RecordsBegun(s: Store) {
    forall k :: k in s.records ==> BegunFor(s.history, k, s.records[k].requestHash, s.records[k].token)
  }

  ghost predicate ResponsesDone(s: Store) {
    forall k :: k in s.records && s.records[k].Completed? ==>
      DoneWith(s.history, s.records[k].token, s.records[k].response)
  }

  ghost predicate DoneMatches(s: Store, h: Happening)
    requires h.Done?
  {
    && h.owner in s.promises
    && (forall k :: k in s.records && s.records[k].token == h.owner ==>
          s.records[k].Completed? && s.records[k].response == h.response)
  }

  /** Every record was begun with its hash; a completed one holds the one response its attempt
      was completed with; a pending one has not been completed. */
  ghost predicate RecordsExplained(s: Store) {
    && RecordsBegun(s)
    && ResponsesDone(s)
    && (forall i :: 0 <= i < |s.history| && s.history[i].Done? ==> DoneMatches(s, s.history[i]))
  }

  /** Between two attempts on one key, the first was given up or expired. */
  ghost predicate AttemptsDoNotOverlap(history: seq<Happening>) {
    forall i, j ::
      0 <= i < j < |history| && history[i].Began? && history[j].Began? && history[i].key == history[j].key ==>
        EndedIn(history, i + 1, j, history[i].owner)
  }

  ghost predicate DoneOnce(history: seq<Happening>) {
    forall i, j :: 0 <= i < j < |history| && history[i].Done? && history[j].Done? ==>
      history[i].owner != history[j].owner
  }

  ghost predicate Inv(s: Store) {
    && Bijection(s) && PromisesFit(s) && AttemptsTracked(s) && RecordsExplained(s)
    && AttemptsDoNotOverlap(s.history) && DoneOnce(s.history)
  }

  // ---------------------------------------------------------------------------------------
  // Steps keep the invariants
  // ---------------------------------------------------------------------------------------

  lemma EndedStays(history: seq<Happening>, h: Happening, from: nat, to: nat, token: string)
    requires to <= |history| && EndedIn(history, from, to, token)
    ensures EndedIn(history + [h], from, to, token) && EndedIn(history + [h], from, |history| + 1, token)
  {
    var m :| from <= m < to && Ends(history[m], token);
    assert Ends((history + [h])[m], token);
  }

  /** A happening that begins and completes nothing keeps the history's own invariants. */
  lemma QuietHistory(history: seq<Happening>, h: Happening)
    requires AttemptsDoNotOverlap(history) && DoneOnce(history) && !h.Began? && !h.Done?
    ensures AttemptsDoNotOverlap(history + [h]) && DoneOnce(history + [h])
  {
    forall i, j | 0 <= i < j < |history| && history[i].Began? && history[j].Began? && history[i].key == history[j].key
      ensures EndedIn(history + [h], i + 1, j, history[i].owner)
    {
      EndedStays(history, h, i + 1, j, history[i].owner);
    }
  }

  lemma BegunStays(history: seq<Happening>, h: Happening, key: string, requestHash: string, token: string)
    requires BegunFor(history, key, requestHash, token)
    ensures BegunFor(history + [h], key, requestHash, token)
  {
    var i :| 0 <= i < |history| && history[i].Began? && history[i] == Began(key, requestHash, token, history[i].at);
    assert (history + [h])[i] == history[i];
  }

  lemma DoneStays(history: seq<Happening>, h: Happening, token: string, response: Response)
    requires DoneWith(history, token, response)
    ensures DoneWith(history + [h], token, response)
  {
    var i :| 0 <= i < |history| && history[i].Done? && history[i] == Done(token, response, history[i].at);
    assert (history + [h])[i] == history[i];
  }

  /** Removing records, with an ending of exactly their tokens on record. */
  lemma RemovalKeeps(s: Store, s': Store, h: Happening)
    requires Inv(s) && s'.history == s.history + [h] && !h.Began? && !h.Done?
    requires s'.records.Keys <= s.records.Keys && s'.promises.Keys == s.promises.Keys
    requires forall k :: k in s'.records ==> s'.records[k] == s.records[k]
    requires forall k :: k in s.records && k !in s'.records ==> Ends(h, s.records[k].token)
    ensures AttemptsTracked(s') && RecordsExplained(s') && AttemptsDoNotOverlap(s'.history) && DoneOnce(s'.history)
  {
    hide Bijection, PromisesFit;
    QuietHistory(s.history, h);
    forall i | 0 <= i < |s'.history| && s'.history[i].Began?
      ensures var b := s'.history[i];
              && b.owner in s'.promises
              && (EndedIn(s'.history, i + 1, |s'.history|, b.owner)
                  || (b.key in s'.records && s'.records[b.key].token == b.owner
                      && s'.records[b.key].requestHash == b.requestHash))
    {
      var b := s.history[i];
      if EndedIn(s.history, i + 1, |s.history|, b.owner) {
        EndedStays(s.history, h, i + 1, |s.history|, b.owner);
      } else if b.key !in s'.records {
        assert Ends(s'.history[|s.history|], b.owner);
      }
    }
    forall k | k in s'.records ensures BegunFor(s'.history, k, s'.records[k].requestHash, s'.records[k].token) {
      BegunStays(s.history, h, k, s.records[k].requestHash, s.records[k].token);
    }
    forall k | k in s'.records && s'.records[k].Completed?
      ensures DoneWith(s'.history, s'.records[k].token, s'.records[k].response)
    {
      DoneStays(s.history, h, s.records[k].token, s.records[k].response);
    }
    forall i | 0 <= i < |s'.history| && s'.history[i].Done? ensures DoneMatches(s', s'.history[i]) {
      assert DoneMatches(s, s.history[i]);
    }
  }

  lemma PruneKeeps(s: Store, now: int)
    requires Inv(s)
    ensures Inv(Prune(s, now))
  {
    hide AttemptsTracked, RecordsExplained, AttemptsDoNotOverlap, DoneOnce;
    var s' := Prune(s, now);
    PruneBijection(s, now);
    assert forall k :: k in s.records && k !in s'.records ==> s.records[k].token in StaleTokens(s, now);
    RemovalKeeps(s, s', Expired(StaleTokens(s, now), now));
  }

  lemma PruneBijection(s: Store, now: int)
    requires Bijection(s) && PromisesFit(s)
    ensures Bijection(Prune(s, now)) && PromisesFit(Prune(s, now))
  {
  }

  lemma FailKeeps(s: Store, token: string)
    requires Inv(s)
    ensures Inv(FailStep(s, token))
  {
    hide AttemptsTracked, RecordsExplained, AttemptsDoNotOverlap, DoneOnce;
    if token in s.tokens {
      RemovalKeeps(s, FailStep(s, token), GaveUp(token));
    }
  }

  lemma StartKeeps(s: Store, key: string, requestHash: string, token: string, at: int, expiresAt: int)
    requires Inv(s) && key !in s.records && token !in s.promises
    ensures Inv(s.(records := s.records[key := Pending(token, requestHash, expiresAt)],
                   tokens := s.tokens[token := key],
                   promises := s.promises[token := Unsettled],
                   history := s.history + [Began(key, requestHash, token, at)]))
  {
    hide AttemptsTracked, RecordsExplained, AttemptsDoNotOverlap, DoneOnce;
    var h := Began(key, requestHash, token, at);
    var s' := s.(records := s.records[key := Pending(token, requestHash, expiresAt)],
                 tokens := s.tokens[token := key],
                 promises := s.promises[token := Unsettled],
                 history := s.history + [h]);
    StartTracked(s, s', h);
    StartExplained(s, s', h);
    StartDoesNotOverlap(s, h);
  }

  lemma StartTracked(s: Store, s': Store, h: Happening)
    requires AttemptsTracked(s) && h.Began? && h.key !in s.records && s'.history == s.history + [h]
    requires s'.promises.Keys == s.promises.Keys + {h.owner}
    requires s'.records.Keys == s.records.Keys + {h.key}
    requires forall k :: k in s.records ==> s'.records[k] == s.records[k]
    requires s'.records[h.key].token == h.owner && s'.records[h.key].requestHash == h.requestHash
    ensures AttemptsTracked(s')
  {
    forall i | 0 <= i < |s.history| && s.history[i].Began? && EndedIn(s.history, i + 1, |s.history|, s.history[i].owner)
      ensures EndedIn(s'.history, i + 1, |s'.history|, s.history[i].owner)
    {
      EndedStays(s.history, h, i + 1, |s.history|, s.history[i].owner);
    }
  }

  lemma StartExplained(s: Store, s': Store, h: Happening)
    requires RecordsExplained(s) && h.Began? && h.owner !in s.promises && s'.history == s.history + [h]
    requires s'.promises.Keys == s.promises.Keys + {h.owner}
    requires s'.records.Keys == s.records.Keys + {h.key}
    requires forall k :: k in s.records && k != h.key ==> s'.records[k] == s.records[k]
    requires h.key !in s.records && s'.records[h.key].Pending?
    requires s'.records[h.key].token == h.owner && s'.records[h.key].requestHash == h.requestHash
    ensures RecordsExplained(s')
  {
    assert s'.history[|s.history|] == h;
    forall k | k in s'.records ensures BegunFor(s'.history, k, s'.records[k].requestHash, s'.records[k].token) {
      if k != h.key {
        BegunStays(s.history, h, k, s.records[k].requestHash, s.records[k].token);
      }
    }
    forall k | k in s'.records && s'.records[k].Completed?
      ensures DoneWith(s'.history, s'.records[k].token, s'.records[k].response)
    {
      DoneStays(s.history, h, s.records[k].token, s.records[k].response);
    }
    forall i | 0 <= i < |s'.history| && s'.history[i].Done? ensures DoneMatches(s', s'.history[i]) {
      assert DoneMatches(s, s.history[i]);
    }
  }

  lemma StartDoesNotOverlap(s: Store, h: Happening)
    requires AttemptsTracked(s) && AttemptsDoNotOverlap(s.history) && DoneOnce(s.history)
    requires h.Began? && h.key !in s.records
    ensures AttemptsDoNotOverlap(s.history + [h]) && DoneOnce(s.history + [h])
  {
    var history := s.history + [h];
    forall i, j | 0 <= i < j < |history| && history[i].Began? && history[j].Began? && history[i].key == history[j].key
      ensures EndedIn(history, i + 1, j, history[i].owner)
    {
      EndedStays(s.history, h, i + 1, j, s.history[i].owner);
    }
  }

  lemma CompleteKeeps(s: Store, token: string, response: Response, now: int, ttlMs: int)
    requires Inv(s)
    ensures Inv(CompleteStep(s, token, response, now, ttlMs))
  {
    hide AttemptsTracked, RecordsExplained, AttemptsDoNotOverlap, DoneOnce;
    if token in s.tokens && s.records[s.tokens[token]].Pending? {
      var s' := CompleteStep(s, token, response, now, ttlMs);
      var h := Done(token, response, now);
      CompleteTracked(s, s', h);
      CompleteExplained(s, s', h, now + ttlMs);
      CompleteHistory(s, h);
    }
  }

  /** A pending attempt has not been completed before. */
  lemma CompleteHistory(s: Store, h: Happening)
    requires Bijection(s) && RecordsExplained(s) && AttemptsDoNotOverlap(s.history) && DoneOnce(s.history)
    requires h.Done? && h.owner in s.tokens && s.records[s.tokens[h.owner]].Pending?
    ensures AttemptsDoNotOverlap(s.history + [h]) && DoneOnce(s.history + [h])
  {
    assert forall i :: 0 <= i < |s.history| && s.history[i].Done? ==> DoneMatches(s, s.history[i]);
    forall i, j | 0 <= i < j < |s.history| && s.history[i].Began? && s.history[j].Began?
                  && s.history[i].key == s.history[j].key
      ensures EndedIn(s.history + [h], i + 1, j, s.history[i].owner)
    {
      EndedStays(s.history, h, i + 1, j, s.history[i].owner);
    }
  }

  lemma CompleteTracked(s: Store, s': Store, h: Happening)
    requires AttemptsTracked(s) && h.Done? && s'.history == s.history + [h]
    requires s'.promises.Keys == s.promises.Keys && s'.records.Keys == s.records.Keys
    requires forall k :: k in s.records ==>
               s'.records[k].token == s.records[k].token && s'.records[k].requestHash == s.records[k].requestHash
    ensures AttemptsTracked(s')
  {
    forall i | 0 <= i < |s.history| && s.history[i].Began? && EndedIn(s.history, i + 1, |s.history|, s.history[i].owner)
      ensures EndedIn(s'.history, i + 1, |s'.history|, s.history[i].owner)
    {
      EndedStays(s.history, h, i + 1, |s.history|, s.history[i].owner);
    }
  }

  lemma CompleteExplained(s: Store, s': Store, h: Happening, expiresAt: int)
    requires Bijection(s) && PromisesFit(s) && RecordsExplained(s) && h.Done? && h.owner in s.tokens
    requires s.records[s.tokens[h.owner]].Pending?
    requires s'.history == s.history + [h] && s'.promises.Keys == s.promises.Keys
    requires s'.records == s.records[s.tokens[h.owner] :=
               Completed(h.owner, s.records[s.tokens[h.owner]].requestHash, expiresAt, h.response)]
    ensures RecordsExplained(s')
  {
    var key := s.tokens[h.owner];
    assert RecordsBegun(s') by {
      forall k | k in s'.records ensures BegunFor(s'.history, k, s'.records[k].requestHash, s'.records[k].token) {
        BegunStays(s.history, h, k, s.records[k].requestHash, s.records[k].token);
      }
    }
    forall k | k in s'.records && s'.records[k].Completed?
      ensures DoneWith(s'.history, s'.records[k].token, s'.records[k].response)
    {
      if k == key {
        assert s'.history[|s.history|] == h;
      } else {
        DoneStays(s.history, h, s.records[k].token, s.records[k].response);
      }
    }
    forall i | 0 <= i < |s'.history| && s'.history[i].Done? ensures DoneMatches(s', s'.history[i]) {
      if i < |s.history| {
        assert DoneMatches(s, s.history[i]);
        assert s.history[i].owner != h.owner;
      }
    }
  }

  lemma ApplyKeeps(s: Store, c: Call, ttlMs: int)
    requires Inv(s) && Fresh(s, c)
    ensures Inv(Apply(s, c, ttlMs))
  {
    hide Inv;
    match c
    case CallBegin(e, token, prunedAt, now) =>
      PruneKeeps(s, prunedAt);
      var p := Prune(s, prunedAt);
      if CacheKey(e) !in p.records {
        StartKeeps(p, CacheKey(e), e.requestHash, token, now, now + ttlMs);
      }
    case CallComplete(token, response, now) => CompleteKeeps(s, token, response, now, ttlMs);
    case CallFail(token) => FailKeeps(s, token);
  }

  lemma {:induction false} RunKeeps(s: Store, calls: seq<Call>, ttlMs: int, s': Store)
    requires Inv(s) && Run(s, calls, ttlMs, s')
    ensures Inv(s')
    decreases |calls|
  {
    hide Inv;
    if calls != [] {
      ApplyKeeps(s, calls[0], ttlMs);
      RunKeeps(Apply(s, calls[0], ttlMs), calls[1..], ttlMs, s');
    }
  }

  const NEW_STORE := Store(map[], map[], map[], [])

  // ---------------------------------------------------------------------------------------
  // Theorems
  // ---------------------------------------------------------------------------------------

  /** In every run the two maps are inverse to each other, and between two attempts started for
      one cache key the first was given up or its record expired. */
  lemma AttemptsAreExclusive(calls: seq<Call>, ttlMs: int, s: Store)
    requires Run(NEW_STORE, calls, ttlMs, s)
    ensures Bijection(s)
    ensures AttemptsDoNotOverlap(s.history)
  {
    RunKeeps(NEW_STORE, calls, ttlMs, s);
  }

  /** Completing or failing with a token touches only the record that token owns. */
  lemma StaleTokensAreHarmless(
    calls: seq<Call>, ttlMs: int, s: Store, token: string, response: Response, now: int, key: string)
    requires Run(NEW_STORE, calls, ttlMs, s)
    requires key in s.records && s.records[key].token != token
    ensures var c := CompleteStep(s, token, response, now, ttlMs).records;
            var f := FailStep(s, token).records;
            key in c && key in f && c[key] == s.records[key] == f[key]
  {
    RunKeeps(NEW_STORE, calls, ttlMs, s);
  }

  /** A replay returns the response of the one effective completion of the attempt that began
      with the same key and request hash, and that attempt still owns the key. */
  lemma ReplayIsFaithful(calls: seq<Call>, ttlMs: int, s: Store, e: Entry, token: string, prunedAt: int, now: int)
    returns (owner: string)
    requires Run(NEW_STORE, calls, ttlMs, s)
    requires BeginStep(s, e, token, prunedAt, now, ttlMs).1.Replay?
    ensures var response := BeginStep(s, e, token, prunedAt, now, ttlMs).1.response;
            && BegunFor(s.history, CacheKey(e), e.requestHash, owner)
            && owner in s.tokens && s.tokens[owner] == CacheKey(e)
            && DoneWith(s.history, owner, response)
            && (forall i :: 0 <= i < |s.history| && s.history[i].Done? && s.history[i].owner == owner ==>
                  s.history[i].response == response)
            && (forall i, j :: 0 <= i < j < |s.history| && s.history[i].Done? && s.history[j].Done? ==>
                  s.history[i].owner != s.history[j].owner)
  {
    RunKeeps(NEW_STORE, calls, ttlMs, s);
    owner := s.records[CacheKey(e)].token;
    assert forall i :: 0 <= i < |s.history| && s.history[i].Done? ==> DoneMatches(s, s.history[i]);
  }

  // ---------------------------------------------------------------------------------------
  // What the history tells of a token
  // ---------------------------------------------------------------------------------------

  /** The promise of a token, from the history alone. */
  function Told(history: seq<Happening>, token: string): Promise {
    if history == [] then Unsettled
    else
      var before, h := Told(history[..|history| - 1], token), history[|history| - 1];
      if h.Done? && h.owner == token then Resolved(h.response)
      else if h.GaveUp? && h.owner == token && before == Unsettled then Rejected
      else before
  }

  predicate Stamps(h: Happening, token: string) { (h.Began? || h.Done?) && h.owner == token }

  /** When a token's record was last given a new time to live. */
  function LastStamp(history: seq<Happening>, token: string): Option<int> {
    if history == [] then None
    else if Stamps(history[|history| - 1], token) then Some(history[|history| - 1].at)
    else LastStamp(history[..|history| - 1], token)
  }

  lemma Snoc(history: seq<Happening>, h: Happening, token: string)
    ensures LastStamp(history + [h], token) == if Stamps(h, token) then Some(h.at) else LastStamp(history, token)
    ensures Told(history + [h], token)
            == if h.Done? && h.owner == token then Resolved(h.response)
               else if h.GaveUp? && h.owner == token && Told(history, token) == Unsettled then Rejected
               else Told(history, token)
  {
    assert (history + [h])[..|history|] == history;
  }

  /** Promises are as told; tokens never handed out have left no trace. */
  ghost predicate PromisesTold(s: Store) {
    forall t: string ::
      && Told(s.history, t) == (if t in s.promises then s.promises[t] else Unsettled)
      && (t !in s.promises ==> LastStamp(s.history, t) == None)
  }

  /** A record lives on from the last stamp of its token; a completion is its last stamp. */
  ghost predicate StampsTold(s: Store, ttlMs: int) {
    && (forall k :: k in s.records ==> LastStamp(s.history, s.records[k].token) == Some(s.records[k].expiresAt - ttlMs))
    && (forall i :: 0 <= i < |s.history| && s.history[i].Done? ==>
          LastStamp(s.history, s.history[i].owner) == Some(s.history[i].at))
  }

  ghost predicate BegunBy(history: seq<Happening>, token: string) {
    exists i :: 0 <= i < |history| && history[i].Began? && history[i].owner == token
  }

  predicate Mentions(h: Happening, token: string) { Ends(h, token) || Stamps(h, token) }

  /** Every token handed out was begun; once ended it is dead and nothing happens to it. */
  ghost predicate EndsAreFinal(s: Store) {
    && (forall t :: t in s.promises ==> BegunBy(s.history, t))
    && (forall m, t: string :: 0 <= m < |s.history| && Ends(s.history[m], t) ==> t in s.promises && t !in s.tokens)
    && (forall m, n, t: string :: 0 <= m < n < |s.history| && Ends(s.history[m], t) ==> !Mentions(s.history[n], t))
  }

  /** Every token pruned had its last stamp at least the time to live before. */
  ghost predicate OutlivedTtl(history: seq<Happening>, m: nat, ttlMs: int)
    requires m < |history| && history[m].Expired?
  {
    forall t :: t in history[m].gone ==>
      var stamp := LastStamp(history[..m], t);
      stamp.Some? && stamp.value + ttlMs <= history[m].at
  }

  ghost predicate AllOutlivedTtl(s: Store, ttlMs: int) {
    forall m :: 0 <= m < |s.history| && s.history[m].Expired? ==> OutlivedTtl(s.history, m, ttlMs)
  }

  ghost predicate Chronicled(s: Store, ttlMs: int) {
    PromisesTold(s) && StampsTold(s, ttlMs) && EndsAreFinal(s) && AllOutlivedTtl(s, ttlMs)
  }

  /** The tokens a happening can be about: live ones, and a new one when an attempt begins. */
  ghost predicate AboutLive(s: Store, s': Store, h: Happening) {
    && s'.history == s.history + [h]
    && (forall t :: t in s.promises ==> t in s'.promises)
    && (forall t :: t in s'.promises && t !in s.promises ==> h.Began? && h.owner == t)
    && (forall t :: t in s'.tokens && t !in s.tokens ==> h.Began? && h.owner == t)
    && (if h.Began? then h.owner !in s.promises && h.owner in s'.promises
        else forall t: string :: Mentions(h, t) ==> t in s.tokens)
    && (forall t: string :: Ends(h, t) ==> t !in s'.tokens)
  }

  lemma AppendEnds(s: Store, s': Store, h: Happening)
    requires PromisesFit(s) && EndsAreFinal(s) && AboutLive(s, s', h)
    ensures EndsAreFinal(s')
  {
    var n := |s.history|;
    forall t | t in s'.promises ensures BegunBy(s'.history, t) {
      if t in s.promises {
        var i :| 0 <= i < |s.history| && s.history[i].Began? && s.history[i].owner == t;
        assert s'.history[i] == s.history[i];
      } else {
        assert s'.history[n] == h;
      }
    }
    forall m, t: string | 0 <= m < |s'.history| && Ends(s'.history[m], t)
      ensures t in s'.promises && t !in s'.tokens
    {
      if m < n { assert Ends(s.history[m], t); } else { assert Mentions(h, t); }
    }
    forall m, k, t: string | 0 <= m < k < |s'.history| && Ends(s'.history[m], t)
      ensures !Mentions(s'.history[k], t)
    {
      assert Ends(s.history[m], t);
      if k < n { assert !Mentions(s.history[k], t); }
    }
  }

  lemma AppendOutlived(s: Store, s': Store, h: Happening, ttlMs: int)
    requires StampsTold(s, ttlMs) && AllOutlivedTtl(s, ttlMs) && s'.history == s.history + [h]
    requires h.Expired? ==> h.gone == StaleTokens(s, h.at)
    ensures AllOutlivedTtl(s', ttlMs)
  {
    forall m | 0 <= m < |s'.history| && s'.history[m].Expired? ensures OutlivedTtl(s'.history, m, ttlMs) {
      assert s'.history[..m] == s.history[..m];
      if m == |s.history| {
        assert s.history[..m] == s.history;
      } else {
        assert OutlivedTtl(s.history, m, ttlMs);
      }
    }
  }

  /** A happening that stamps nothing, and leaves only records as they were. */
  lemma QuietStamps(s: Store, s': Store, h: Happening, ttlMs: int)
    requires StampsTold(s, ttlMs) && s'.history == s.history + [h] && !h.Began? && !h.Done?
    requires forall k :: k in s'.records ==> k in s.records && s'.records[k] == s.records[k]
    ensures StampsTold(s', ttlMs)
  {
    forall k | k in s'.records
      ensures LastStamp(s'.history, s'.records[k].token) == Some(s'.records[k].expiresAt - ttlMs)
    {
      Snoc(s.history, h, s.records[k].token);
    }
    forall i | 0 <= i < |s'.history| && s'.history[i].Done?
      ensures LastStamp(s'.history, s'.history[i].owner) == Some(s'.history[i].at)
    {
      Snoc(s.history, h, s.history[i].owner);
    }
  }

  lemma PruneChronicled(s: Store, now: int, ttlMs: int)
    requires Inv(s) && Chronicled(s, ttlMs)
    ensures Chronicled(Prune(s, now), ttlMs)
  {
    hide AttemptsTracked, RecordsExplained, AttemptsDoNotOverlap, DoneOnce;
    hide EndsAreFinal, AllOutlivedTtl, Told, LastStamp;
    var s', h := Prune(s, now), Expired(StaleTokens(s, now), now);
    forall t: string
      ensures Told(s'.history, t) == Told(s.history, t) && LastStamp(s'.history, t) == LastStamp(s.history, t)
    {
      Snoc(s.history, h, t);
    }
    AppendEnds(s, s', h);
    AppendOutlived(s, s', h, ttlMs);
    QuietStamps(s, s', h, ttlMs);
  }

  lemma FailChronicled(s: Store, token: string, ttlMs: int)
    requires Inv(s) && Chronicled(s, ttlMs)
    ensures Chronicled(FailStep(s, token), ttlMs)
  {
    hide AttemptsTracked, RecordsExplained, AttemptsDoNotOverlap, DoneOnce;
    hide EndsAreFinal, AllOutlivedTtl, Told, LastStamp;
    if token in s.tokens {
      var s', h := FailStep(s, token), GaveUp(token);
      forall t: string
        ensures LastStamp(s'.history, t) == LastStamp(s.history, t)
        ensures Told(s'.history, t)
                == if t == token && Told(s.history, t) == Unsettled then Rejected else Told(s.history, t)
      {
        Snoc(s.history, h, t);
      }
      AppendEnds(s, s', h);
      AppendOutlived(s, s', h, ttlMs);
      QuietStamps(s, s', h, ttlMs);
    }
  }

  lemma CompleteChronicled(s: Store, token: string, response: Response, now: int, ttlMs: int)
    requires Inv(s) && Chronicled(s, ttlMs)
    ensures Chronicled(CompleteStep(s, token, response, now, ttlMs), ttlMs)
  {
    hide AttemptsTracked, AttemptsDoNotOverlap, DoneOnce;
    hide EndsAreFinal, AllOutlivedTtl, Told, LastStamp, RecordsBegun, ResponsesDone;
    if token in s.tokens && s.records[s.tokens[token]].Pending? {
      var s', h := CompleteStep(s, token, response, now, ttlMs), Done(token, response, now);
      forall t: string
        ensures LastStamp(s'.history, t) == if t == token then Some(now) else LastStamp(s.history, t)
        ensures Told(s'.history, t) == if t == token then Resolved(response) else Told(s.history, t)
      {
        Snoc(s.history, h, t);
      }
      AppendEnds(s, s', h);
      AppendOutlived(s, s', h, ttlMs);
      forall i | 0 <= i < |s'.history| && s'.history[i].Done?
        ensures LastStamp(s'.history, s'.history[i].owner) == Some(s'.history[i].at)
      {
        if i < |s.history| { assert DoneMatches(s, s.history[i]); }
      }
    }
  }

  lemma StartChronicled(s: Store, key: string, requestHash: string, token: string, at: int, ttlMs: int)
    requires Inv(s) && Chronicled(s, ttlMs) && key !in s.records && token !in s.promises
    ensures Chronicled(s.(records := s.records[key := Pending(token, requestHash, at + ttlMs)],
                          tokens := s.tokens[token := key],
                          promises := s.promises[token := Unsettled],
                          history := s.history + [Began(key, requestHash, token, at)]), ttlMs)
  {
    hide AttemptsTracked, AttemptsDoNotOverlap, DoneOnce;
    hide EndsAreFinal, AllOutlivedTtl, Told, LastStamp, RecordsBegun, ResponsesDone;
    var h := Began(key, requestHash, token, at);
    var s' := s.(records := s.records[key := Pending(token, requestHash, at + ttlMs)],
                 tokens := s.tokens[token := key],
                 promises := s.promises[token := Unsettled],
                 history := s.history + [h]);
    forall t: string
      ensures LastStamp(s'.history, t) == if t == token then Some(at) else LastStamp(s.history, t)
      ensures Told(s'.history, t) == Told(s.history, t)
    {
      Snoc(s.history, h, t);
    }
    AppendEnds(s, s', h);
    AppendOutlived(s, s', h, ttlMs);
    forall i | 0 <= i < |s'.history| && s'.history[i].Done?
      ensures LastStamp(s'.history, s'.history[i].owner) == Some(s'.history[i].at)
    {
      assert DoneMatches(s, s.history[i]);
    }
  }

  lemma ApplyChronicled(s: Store, c: Call, ttlMs: int)
    requires Inv(s) && Fresh(s, c) && Chronicled(s, ttlMs)
    ensures Chronicled(Apply(s, c, ttlMs), ttlMs)
  {
    hide Inv, Chronicled;
    match c
    case CallBegin(e, token, prunedAt, now) =>
      PruneKeeps(s, prunedAt);
      PruneChronicled(s, prunedAt, ttlMs);
      var p := Prune(s, prunedAt);
      if CacheKey(e) !in p.records {
        StartChronicled(p, CacheKey(e), e.requestHash, token, now, ttlMs);
      }
    case CallComplete(token, response, now) => CompleteChronicled(s, token, response, now, ttlMs);
    case CallFail(token) => FailChronicled(s, token, ttlMs);
  }

  lemma {:induction false} RunChronicled(s: Store, calls: seq<Call>, ttlMs: int, s': Store)
    requires Inv(s) && Chronicled(s, ttlMs) && Run(s, calls, ttlMs, s')
    ensures Inv(s') && Chronicled(s', ttlMs)
    decreases |calls|
  {
    hide Inv, Chronicled;
    if calls != [] {
      ApplyKeeps(s, calls[0], ttlMs);
      ApplyChronicled(s, calls[0], ttlMs);
      RunChronicled(Apply(s, calls[0], ttlMs), calls[1..], ttlMs, s');
    }
  }

  lemma NewRunChronicled(calls: seq<Call>, ttlMs: int, s: Store)
    requires Run(NEW_STORE, calls, ttlMs, s)
    ensures Inv(s) && Chronicled(s, ttlMs)
  {
    hide Run;
    RunChronicled(NEW_STORE, calls, ttlMs, s);
  }

  /** The promise of a token that is no longer live never changes. */
  lemma {:induction false} DeadPromisesStay(s: Store, calls: seq<Call>, ttlMs: int, s': Store, token: string)
    requires Inv(s) && Run(s, calls, ttlMs, s') && token in s.promises && token !in s.tokens
    ensures token in s'.promises && s'.promises[token] == s.promises[token] && token !in s'.tokens
    decreases |calls|
  {
    hide AttemptsTracked, RecordsExplained, AttemptsDoNotOverlap, DoneOnce;
    if calls != [] {
      ApplyKeeps(s, calls[0], ttlMs);
      DeadPromisesStay(Apply(s, calls[0], ttlMs), calls[1..], ttlMs, s', token);
    }
  }

  /** A promise once settled stays as it is in every continuation. */
  lemma {:induction false} SettledPromisesStay(s: Store, calls: seq<Call>, ttlMs: int, s': Store, token: string)
    requires Inv(s) && Run(s, calls, ttlMs, s') && token in s.promises && s.promises[token] != Unsettled
    ensures token in s'.promises && s'.promises[token] == s.promises[token]
    decreases |calls|
  {
    hide AttemptsTracked, RecordsExplained, AttemptsDoNotOverlap, DoneOnce;
    if calls != [] {
      ApplyKeeps(s, calls[0], ttlMs);
      SettledPromisesStay(Apply(s, calls[0], ttlMs), calls[1..], ttlMs, s', token);
    }
  }

  // ---------------------------------------------------------------------------------------
  // Which waiters are answered
  // ---------------------------------------------------------------------------------------

  ghost predicate WasCompleted(history: seq<Happening>, token: string) {
    exists i :: 0 <= i < |history| && history[i].Done? && history[i].owner == token
  }

  /** The token's record was pruned before the attempt was completed. */
  ghost predicate ExpiredWhilePending(history: seq<Happening>, token: string) {
    exists m :: 0 <= m < |history| && history[m].Expired? && token in history[m].gone
                && !WasCompleted(history[..m], token)
  }

  lemma {:induction false} ToldIff(history: seq<Happening>, token: string)
    requires DoneOnce(history)
    ensures forall r :: Told(history, token) == Resolved(r) <==> DoneWith(history, token, r)
    ensures Told(history, token) == Rejected <==> GaveUp(token) in history && !WasCompleted(history, token)
    ensures Told(history, token) == Unsettled <==> GaveUp(token) !in history && !WasCompleted(history, token)
  {
    if history != [] {
      var front, h := history[..|history| - 1], history[|history| - 1];
      assert history == front + [h];
      ToldIff(front, token);
    }
  }

  /** In every run, the promise of every token handed out is resolved exactly with the response
      its attempt was completed with, rejected exactly if it was given up and never completed,
      and unsettled exactly if neither has happened. */
  lemma PromisesAreSettledIff(calls: seq<Call>, ttlMs: int, s: Store, token: string)
    requires Run(NEW_STORE, calls, ttlMs, s) && token in s.promises
    ensures forall r :: s.promises[token] == Resolved(r) <==> DoneWith(s.history, token, r)
    ensures s.promises[token] == Rejected <==> GaveUp(token) in s.history && !WasCompleted(s.history, token)
    ensures s.promises[token] == Unsettled <==> GaveUp(token) !in s.history && !WasCompleted(s.history, token)
  {
    NewRunChronicled(calls, ttlMs, s);
    assert Told(s.history, token) == s.promises[token];
    ToldIff(s.history, token);
  }

  /** An attempt that is no longer live ended with its token given up or pruned. */
  lemma DeadTokensEnded(s: Store, ttlMs: int, token: string)
    requires Inv(s) && Chronicled(s, ttlMs) && token in s.promises && token !in s.tokens
    ensures EndedIn(s.history, 0, |s.history|, token)
  {
    hide PromisesTold, StampsTold, AllOutlivedTtl, RecordsExplained, AttemptsDoNotOverlap, DoneOnce;
    assert BegunBy(s.history, token);
    var i :| 0 <= i < |s.history| && s.history[i].Began? && s.history[i].owner == token;
    assert EndedIn(s.history, i + 1, |s.history|, s.history[i].owner);
  }

  /** Nothing happens to a token once its record was pruned, nor was it given up before. */
  lemma PrunedWhilePending(s: Store, ttlMs: int, token: string)
    requires EndsAreFinal(s) && ExpiredWhilePending(s.history, token)
    ensures GaveUp(token) !in s.history && !WasCompleted(s.history, token)
  {
    var m :| 0 <= m < |s.history| && s.history[m].Expired? && token in s.history[m].gone
             && !WasCompleted(s.history[..m], token);
    assert Ends(s.history[m], token);
    forall i | 0 <= i < |s.history| && s.history[i].Done? ensures s.history[i].owner != token {
      if i > m {
        assert !Mentions(s.history[i], token);
      } else if i < m {
        assert s.history[..m][i] == s.history[i];
      }
    }
    forall i | 0 <= i < |s.history| && s.history[i].GaveUp? ensures s.history[i].owner != token {
      if i > m {
        assert !Mentions(s.history[i], token);
      } else if i < m {
        assert Mentions(s.history[m], token);
        assert !Ends(s.history[i], token);
      }
    }
  }

  /** In every run, the waiters of a token that is no longer live are left without an answer
      exactly when its record expired while pending; and they stay so in every continuation. */
  lemma WaitersHangIff(calls: seq<Call>, ttlMs: int, s: Store, token: string, more: seq<Call>, s': Store)
    requires Run(NEW_STORE, calls, ttlMs, s) && token in s.promises && token !in s.tokens
    requires Run(s, more, ttlMs, s')
    ensures s.promises[token] == Unsettled <==> ExpiredWhilePending(s.history, token)
    ensures token in s'.promises && s'.promises[token] == s.promises[token]
  {
    hide Run, AttemptsTracked, RecordsExplained, AttemptsDoNotOverlap, PromisesTold, StampsTold, AllOutlivedTtl;
    NewRunChronicled(calls, ttlMs, s);
    DeadPromisesStay(s, more, ttlMs, s', token);
    PromisesAreSettledIff(calls, ttlMs, s, token);
    if s.promises[token] == Unsettled {
      DeadTokensEnded(s, ttlMs, token);
      var m :| 0 <= m < |s.history| && Ends(s.history[m], token);
      assert s.history[m] != GaveUp(token);
      NoneBefore(s.history, m, token);
    } else if ExpiredWhilePending(s.history, token) {
      PrunedWhilePending(s, ttlMs, token);
    }
  }

  lemma NoneBefore(history: seq<Happening>, m: nat, token: string)
    requires m <= |history| && !WasCompleted(history, token)
    ensures !WasCompleted(history[..m], token)
  {
  }

  // ---------------------------------------------------------------------------------------
  // What `begin` answers, from the history alone
  // ---------------------------------------------------------------------------------------

  /** The attempt has been neither given up nor pruned, and its record outlives the sweep. */
  ghost predicate StillLive(history: seq<Happening>, token: string, prunedAt: int, ttlMs: int) {
    && !EndedIn(history, 0, |history|, token)
    && LastStamp(history, token).Some?
    && prunedAt < LastStamp(history, token).value + ttlMs
  }

  ghost predicate BegunAt(history: seq<Happening>, i: nat, key: string) {
    i < |history| && history[i].Began? && history[i].key == key
  }

  lemma LiveAttemptOwns(s: Store, ttlMs: int, i: nat, key: string, prunedAt: int)
    requires Inv(s) && Chronicled(s, ttlMs) && BegunAt(s.history, i, key)
    requires StillLive(s.history, s.history[i].owner, prunedAt, ttlMs)
    ensures var p := Prune(s, prunedAt);
            && key in p.records && p.records[key] == s.records[key]
            && p.records[key].token == s.history[i].owner && p.records[key].requestHash == s.history[i].requestHash
  {
    hide PromisesTold, AllOutlivedTtl, RecordsExplained, AttemptsDoNotOverlap, DoneOnce, LastStamp;
    var b := s.history[i];
    assert b.key in s.records && s.records[b.key].token == b.owner;
  }

  lemma RecordWasBegun(s: Store, key: string) returns (i: nat)
    requires RecordsBegun(s) && key in s.records
    ensures BegunAt(s.history, i, key) && s.history[i].owner == s.records[key].token
  {
    var r := s.records[key];
    assert BegunFor(s.history, key, r.requestHash, r.token);
    i :| 0 <= i < |s.history| && s.history[i].Began?
         && s.history[i] == Began(key, r.requestHash, r.token, s.history[i].at);
  }

  lemma LiveNotEnded(s: Store, token: string)
    requires EndsAreFinal(s) && token in s.tokens
    ensures !EndedIn(s.history, 0, |s.history|, token)
  {
  }

  lemma OwnerIsLive(s: Store, ttlMs: int, key: string, prunedAt: int) returns (i: nat)
    requires Inv(s) && Chronicled(s, ttlMs) && key in Prune(s, prunedAt).records
    ensures BegunAt(s.history, i, key) && s.history[i].owner == s.records[key].token
    ensures StillLive(s.history, s.history[i].owner, prunedAt, ttlMs)
  {
    hide PromisesTold, AllOutlivedTtl, AttemptsTracked, AttemptsDoNotOverlap, DoneOnce, LastStamp;
    hide EndsAreFinal, EndedIn, RecordsBegun, ResponsesDone, BegunAt;
    i := RecordWasBegun(s, key);
    LiveNotEnded(s, s.records[key].token);
  }

  /** In every run, `begin` starts a new attempt exactly when every attempt ever begun for the
      key has been given up, pruned, or is older than the time to live since its last stamp. */
  lemma StartsIff(calls: seq<Call>, ttlMs: int, s: Store, e: Entry, token: string, prunedAt: int, now: int)
    requires Run(NEW_STORE, calls, ttlMs, s)
    ensures BeginStep(s, e, token, prunedAt, now, ttlMs).1 == Started(token)
            <==> forall i: nat :: BegunAt(s.history, i, CacheKey(e)) ==>
                   !StillLive(s.history, s.history[i].owner, prunedAt, ttlMs)
  {
    hide Run, Inv, Chronicled, StillLive;
    NewRunChronicled(calls, ttlMs, s);
    if CacheKey(e) in Prune(s, prunedAt).records {
      var i := OwnerIsLive(s, ttlMs, CacheKey(e), prunedAt);
    } else {
      forall i: nat | BegunAt(s.history, i, CacheKey(e))
        ensures !StillLive(s.history, s.history[i].owner, prunedAt, ttlMs)
      {
        if StillLive(s.history, s.history[i].owner, prunedAt, ttlMs) {
          LiveAttemptOwns(s, ttlMs, i, CacheKey(e), prunedAt);
        }
      }
    }
  }

  /** In every run, while an attempt for a key is live another request conflicts with it, and
      the same request replays its response if it was completed and waits for it if not. */
  lemma LiveAttemptsAnswer(
    calls: seq<Call>, ttlMs: int, s: Store, e: Entry, token: string, prunedAt: int, now: int, i: nat)
    requires Run(NEW_STORE, calls, ttlMs, s) && BegunAt(s.history, i, CacheKey(e))
    requires StillLive(s.history, s.history[i].owner, prunedAt, ttlMs)
    ensures var b, answer := s.history[i], BeginStep(s, e, token, prunedAt, now, ttlMs).1;
            && (answer == Conflict <==> b.requestHash != e.requestHash)
            && (forall r :: answer == Replay(r) <==> b.requestHash == e.requestHash && DoneWith(s.history, b.owner, r))
            && (answer == Waiting(b.owner)
                <==> b.requestHash == e.requestHash && !WasCompleted(s.history, b.owner))
  {
    hide Run, Chronicled, StillLive, AttemptsTracked, AttemptsDoNotOverlap;
    NewRunChronicled(calls, ttlMs, s);
    LiveAttemptOwns(s, ttlMs, i, CacheKey(e), prunedAt);
    var r, owner := s.records[CacheKey(e)], s.history[i].owner;
    assert forall k :: 0 <= k < |s.history| && s.history[k].Done? ==> DoneMatches(s, s.history[k]);
    if r.Completed? {
      assert DoneWith(s.history, owner, r.response);
    }
  }

  /** The attempt whose record a `begin` answers from, if it finds one. */
  function AnsweredBy(s: Store, e: Entry, prunedAt: int): Option<string> {
    var records := Prune(s, prunedAt).records;
    if CacheKey(e) in records then Some(records[CacheKey(e)].token) else None
  }

  /** In every run, after an attempt was completed, a repeat of its request is answered from it,
      with its response, exactly when it has not been failed or pruned and the sweep comes
      before the time to live has passed since the completion. */
  lemma ReplaysIff(
    calls: seq<Call>, ttlMs: int, s: Store, e: Entry, token: string, prunedAt: int, now: int, i: nat, d: nat)
    requires Run(NEW_STORE, calls, ttlMs, s)
    requires BegunAt(s.history, i, CacheKey(e)) && s.history[i].requestHash == e.requestHash
    requires d < |s.history| && s.history[d].Done? && s.history[d].owner == s.history[i].owner
    ensures AnsweredBy(s, e, prunedAt) == Some(s.history[i].owner)
            && BeginStep(s, e, token, prunedAt, now, ttlMs).1 == Replay(s.history[d].response)
            <==> !EndedIn(s.history, 0, |s.history|, s.history[i].owner) && prunedAt < s.history[d].at + ttlMs
  {
    hide Run, AttemptsTracked, AttemptsDoNotOverlap, LastStamp, PromisesTold, AllOutlivedTtl;
    NewRunChronicled(calls, ttlMs, s);
    var owner, key := s.history[i].owner, CacheKey(e);
    assert LastStamp(s.history, owner) == Some(s.history[d].at);
    assert DoneWith(s.history, owner, s.history[d].response);
    if StillLive(s.history, owner, prunedAt, ttlMs) {
      LiveAttemptOwns(s, ttlMs, i, key, prunedAt);
      LiveAttemptsAnswer(calls, ttlMs, s, e, token, prunedAt, now, i);
    } else if AnsweredBy(s, e, prunedAt) == Some(owner) {
      var k := OwnerIsLive(s, ttlMs, key, prunedAt);
    }
  }

  /** A response completed and well within its time to live is not replayed after a `fail` of
      its token: the same request starts anew. */
  lemma ForgottenAfterFail(e: Entry, r: Response, ttlMs: int) returns (s: Store)
    requires ttlMs > 0
    ensures Run(NEW_STORE, [CallBegin(e, "t", 0, 0), CallComplete("t", r, 0), CallFail("t")], ttlMs, s)
    ensures DoneWith(s.history, "t", r) && BeginStep(s, e, "u", 0, 0, ttlMs).1 == Started("u")
  {
    var b, c, f := CallBegin(e, "t", 0, 0), CallComplete("t", r, 0), CallFail("t");
    var s1 := Apply(NEW_STORE, b, ttlMs);
    var s2 := Apply(s1, c, ttlMs);
    s := Apply(s2, f, ttlMs);
    assert s.history[2] == Done("t", r, 0);
    RunOfThree(NEW_STORE, b, c, f, ttlMs, s);
  }

  /** A request that waits on an attempt whose record then expires is left waiting. */
  lemma LeftWaiting(e: Entry, other: Entry, ttlMs: int) returns (s: Store)
    requires CacheKey(e) != CacheKey(other) && ttlMs > 0
    ensures Run(NEW_STORE,
                [CallBegin(e, "t", 0, 0), CallBegin(e, "u", 0, 0), CallBegin(other, "v", ttlMs, ttlMs)], ttlMs, s)
    ensures BeginStep(Apply(NEW_STORE, CallBegin(e, "t", 0, 0), ttlMs), e, "u", 0, 0, ttlMs).1 == Waiting("t")
    ensures "t" in s.promises && s.promises["t"] == Unsettled && "t" !in s.tokens
  {
    var b, c, d := CallBegin(e, "t", 0, 0), CallBegin(e, "u", 0, 0), CallBegin(other, "v", ttlMs, ttlMs);
    var s1 := Apply(NEW_STORE, b, ttlMs);
    var s2 := Apply(s1, c, ttlMs);
    s := Apply(s2, d, ttlMs);
    assert s2.records[CacheKey(e)] == Pending("t", e.requestHash, ttlMs);
    RunOfThree(NEW_STORE, b, c, d, ttlMs, s);
  }

  lemma RunOfThree(s: Store, a: Call, b: Call, c: Call, ttlMs: int, s': Store)
    requires var s1 := Apply(s, a, ttlMs);
             var s2 := Apply(s1, b, ttlMs);
             Fresh(s, a) && Fresh(s1, b) && Fresh(s2, c) && s' == Apply(s2, c, ttlMs)
    ensures Run(s, [a, b, c], ttlMs, s')
  {
    hide Apply, Fresh;
    assert [a, b, c][1..] == [b, c] && [b, c][1..] == [c] && [c][1..] == [];
    assert Run(Apply(Apply(s, a, ttlMs), b, ttlMs), [c], ttlMs, s');
    assert Run(Apply(s, a, ttlMs), [b, c], ttlMs, s');
  }

  /** In every run, an attempt expires only once the time to live has passed since its last
      stamp, and the completion of an attempt is its last stamp. */
  lemma ExpiryHonoursTtl(calls: seq<Call>, ttlMs: int, s: Store, m: nat)
    requires Run(NEW_STORE, calls, ttlMs, s) && m < |s.history|
    ensures s.history[m].Expired? ==> OutlivedTtl(s.history, m, ttlMs)
    ensures s.history[m].Done? ==> LastStamp(s.history, s.history[m].owner) == Some(s.history[m].at)
  {
    hide Run;
    NewRunChronicled(calls, ttlMs, s);
  }

  // ---------------------------------------------------------------------------------------
  // The store does what a log alone would
  // ---------------------------------------------------------------------------------------

  ghost predicate LiveIn(history: seq<Happening>, token: string) {
    BegunBy(history, token) && !EndedIn(history, 0, |history|, token)
  }

  /** The tokens whose time to live since their last stamp is over. */
  ghost function ExpiredBy(history: seq<Happening>, at: int, ttlMs: int): set<string> {
    set i | 0 <= i < |history| && history[i].Began? && Overdue(history, history[i].owner, at, ttlMs)
      :: history[i].owner
  }

  ghost predicate Overdue(history: seq<Happening>, token: string, at: int, ttlMs: int) {
    && LiveIn(history, token)
    && LastStamp(history, token).Some? && LastStamp(history, token).value + ttlMs <= at
  }

  ghost predicate KeyIsTaken(history: seq<Happening>, key: string) {
    exists i: nat :: BegunAt(history, i, key) && LiveIn(history, history[i].owner)
  }

  /** What a call adds to the log, told from the log alone: a begin prunes the overdue attempts and
      starts one if the key has none; a complete takes effect on a live attempt not completed
      before; a fail on any live attempt. */
  ghost function Logged(history: seq<Happening>, c: Call, ttlMs: int): seq<Happening> {
    match c
    case CallBegin(e, token, prunedAt, now) =>
      var pruned := history + [Expired(ExpiredBy(history, prunedAt, ttlMs), prunedAt)];
      if KeyIsTaken(pruned, CacheKey(e)) then pruned
      else pruned + [Began(CacheKey(e), e.requestHash, token, now)]
    case CallComplete(token, response, now) =>
      if LiveIn(history, token) && !WasCompleted(history, token) then history + [Done(token, response, now)]
      else history
    case CallFail(token) => if LiveIn(history, token) then history + [GaveUp(token)] else history
  }

  ghost function LogOf(history: seq<Happening>, calls: seq<Call>, ttlMs: int): seq<Happening>
    decreases |calls|
  {
    if calls == [] then history else LogOf(Logged(history, calls[0], ttlMs), calls[1..], ttlMs)
  }

  /** The token map holds exactly the attempts begun and not ended. */
  lemma TokensAreLive(s: Store, ttlMs: int, token: string)
    requires Inv(s) && Chronicled(s, ttlMs)
    ensures token in s.tokens <==> LiveIn(s.history, token)
  {
    hide PromisesTold, StampsTold, AllOutlivedTtl, AttemptsDoNotOverlap, DoneOnce, ResponsesDone;
    if token in s.tokens {
      var i := RecordWasBegun(s, s.tokens[token]);
      LiveNotEnded(s, token);
    } else if token in s.promises {
      DeadTokensEnded(s, ttlMs, token);
    } else {
      NeverBegun(s, token);
    }
  }

  lemma NeverBegun(s: Store, token: string)
    requires AttemptsTracked(s) && token !in s.promises
    ensures !BegunBy(s.history, token)
  {
  }

  lemma PendingIsNotCompleted(s: Store, token: string)
    requires Inv(s) && token in s.tokens
    ensures s.records[s.tokens[token]].Pending? <==> !WasCompleted(s.history, token)
  {
    hide PromisesFit, AttemptsTracked, AttemptsDoNotOverlap, DoneOnce, RecordsBegun;
    var k := s.tokens[token];
    if s.records[k].Completed? {
      assert DoneWith(s.history, token, s.records[k].response);
    } else {
      forall i | 0 <= i < |s.history| && s.history[i].Done? ensures s.history[i].owner != token {
        assert DoneMatches(s, s.history[i]);
      }
    }
  }

  lemma StaleAreOverdue(s: Store, at: int, ttlMs: int)
    requires Inv(s) && Chronicled(s, ttlMs)
    ensures StaleTokens(s, at) == ExpiredBy(s.history, at, ttlMs)
  {
    hide PromisesTold, EndsAreFinal, AllOutlivedTtl, PromisesFit, AttemptsTracked, AttemptsDoNotOverlap, DoneOnce;
    hide LastStamp, RecordsBegun, ResponsesDone, LiveIn;
    forall token ensures token in StaleTokens(s, at) <==> token in ExpiredBy(s.history, at, ttlMs) {
      TokensAreLive(s, ttlMs, token);
      if token in StaleTokens(s, at) {
        var k :| k in s.records && s.records[k].expiresAt <= at && s.records[k].token == token;
        var i := RecordWasBegun(s, k);
        assert Overdue(s.history, s.history[i].owner, at, ttlMs);
      }
      if token in ExpiredBy(s.history, at, ttlMs) {
        assert Overdue(s.history, token, at, ttlMs);
        assert s.tokens[token] in s.records;
      }
    }
  }

  lemma TakenIff(s: Store, ttlMs: int, key: string)
    requires Inv(s) && Chronicled(s, ttlMs)
    ensures key in s.records <==> KeyIsTaken(s.history, key)
  {
    hide PromisesTold, StampsTold, AllOutlivedTtl, PromisesFit, AttemptsDoNotOverlap, DoneOnce, ResponsesDone;
    if key in s.records {
      var i := RecordWasBegun(s, key);
      TokensAreLive(s, ttlMs, s.records[key].token);
      assert BegunAt(s.history, i, key) && LiveIn(s.history, s.history[i].owner);
    }
    if i: nat :| BegunAt(s.history, i, key) && LiveIn(s.history, s.history[i].owner) {
      LiveAttemptHasRecord(s, i);
    }
  }

  lemma LiveAttemptHasRecord(s: Store, i: nat)
    requires AttemptsTracked(s) && i < |s.history| && s.history[i].Began? && LiveIn(s.history, s.history[i].owner)
    ensures s.history[i].key in s.records
  {
    assert !EndedIn(s.history, i + 1, |s.history|, s.history[i].owner);
  }

  lemma ApplyIsLogged(s: Store, c: Call, ttlMs: int)
    requires Inv(s) && Chronicled(s, ttlMs) && Fresh(s, c)
    ensures Apply(s, c, ttlMs).history == Logged(s.history, c, ttlMs)
  {
    hide Chronicled, ExpiredBy, KeyIsTaken, LiveIn, WasCompleted, PromisesFit, AttemptsTracked, RecordsExplained;
    hide AttemptsDoNotOverlap, DoneOnce;
    match c
    case CallBegin(e, token, prunedAt, now) =>
      StaleAreOverdue(s, prunedAt, ttlMs);
      PruneKeeps(s, prunedAt);
      PruneChronicled(s, prunedAt, ttlMs);
      TakenIff(Prune(s, prunedAt), ttlMs, CacheKey(e));
    case CallComplete(token, response, now) =>
      TokensAreLive(s, ttlMs, token);
      if token in s.tokens { PendingIsNotCompleted(s, token); }
    case CallFail(token) => TokensAreLive(s, ttlMs, token);
  }

  lemma {:induction false} RunIsLogged(s: Store, calls: seq<Call>, ttlMs: int, s': Store)
    requires Inv(s) && Chronicled(s, ttlMs) && Run(s, calls, ttlMs, s')
    ensures s'.history == LogOf(s.history, calls, ttlMs)
    decreases |calls|
  {
    hide Inv, Chronicled, Logged, Apply;
    if calls != [] {
      ApplyIsLogged(s, calls[0], ttlMs);
      ApplyKeeps(s, calls[0], ttlMs);
      ApplyChronicled(s, calls[0], ttlMs);
      RunIsLogged(Apply(s, calls[0], ttlMs), calls[1..], ttlMs, s');
    }
  }

  /** The two maps are a cache of the log: in every run from a new store, the history is what a log
      alone, without any map, would hold after the same calls. With `StartsIff` and
      `LiveAttemptsAnswer` this tells every answer from the calls made. */
  lemma StoreIsItsLog(calls: seq<Call>, ttlMs: int, s: Store)
    requires Run(NEW_STORE, calls, ttlMs, s)
    ensures s.history == LogOf([], calls, ttlMs)
  {
    hide Run;
    RunIsLogged(NEW_STORE, calls, ttlMs, s);
  }

  // ---------------------------------------------------------------------------------------
  // Cache keys
  // ---------------------------------------------------------------------------------------

  lemma {:induction false} FirstColon(a: string, b: string, x: string, y: string)
    requires ':' !in a && ':' !in b && a + ":" + x == b + ":" + y
    ensures a == b && x == y
  {
    if a == [] || b == [] {
      assert (a + ":" + x)[0] == (b + ":" + y)[0];
      assert x == (a + ":" + x)[|a| + 1..] && y == (b + ":" + y)[|b| + 1..];
    } else {
      assert a[0] == (a + ":" + x)[0] == (b + ":" + y)[0] == b[0];
      assert a[1..] + ":" + x == (a + ":" + x)[1..];
      assert b[1..] + ":" + y == (b + ":" + y)[1..];
      FirstColon(a[1..], b[1..], x, y);
    }
  }

  lemma {:induction false} LastColon(x: string, y: string, a: string, b: string)
    requires ':' !in a && ':' !in b && x + ":" + a == y + ":" + b
    ensures a == b && x == y
  {
    var s, t := x + ":" + a, y + ":" + b;
    if a == [] || b == [] {
      assert s[|s| - 1] == t[|t| - 1];
      assert x == s[..|s| - |a| - 1] && y == t[..|t| - |b| - 1];
    } else {
      assert a[|a| - 1] == s[|s| - 1] == t[|t| - 1] == b[|b| - 1];
      assert x + ":" + a[..|a| - 1] == s[..|s| - 1];
      assert y + ":" + b[..|b| - 1] == t[..|t| - 1];
      LastColon(x, y, a[..|a| - 1], b[..|b| - 1]);
    }
  }

  /** Hex digests contain no colon, so a cache key determines its three parts although the
      scope contains one. */
  lemma CacheKeyIsInjective(d: Entry, e: Entry)
    requires ':' !in d.keyHash && ':' !in d.principalHash && ':' !in e.keyHash && ':' !in e.principalHash
    ensures CacheKey(d) == CacheKey(e)
            <==> d.keyHash == e.keyHash && d.scope == e.scope && d.principalHash == e.principalHash
  {
    if CacheKey(d) == CacheKey(e) {
      assert CacheKey(d) == d.keyHash + ":" + (d.scope + ":" + d.principalHash);
      assert CacheKey(e) == e.keyHash + ":" + (e.scope + ":" + e.principalHash);
      FirstColon(d.keyHash, e.keyHash, d.scope + ":" + d.principalHash, e.scope + ":" + e.principalHash);
      LastColon(d.scope, e.scope, d.principalHash, e.principalHash);
    }
  }
}
