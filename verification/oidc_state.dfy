/** Single-use login states with an expiry, and what a caller may rely on over whole runs. */
module OidcState {
  import opened Common

  /** The nonce and the code verifier kept for a login. */
  datatype Login = Login(nonce: string, verifier: string)

  datatype StateEntry = StateEntry(login: Login, expiresAt: Time)

  datatype Call = Store(state: string, login: Login, at: Time) | Consume(state: string, at: Time)

  type Table = map<string, StateEntry>

  const DEFAULT_TTL: nat := 600 * SECOND

  // ----- reference: the answer read off the calls made so far -----

  /** The index of the last call about this state. */
  function LastCall(calls: seq<Call>, state: string): (index: Option<nat>)
    ensures match index
            case None => forall i | 0 <= i < |calls| :: calls[i].state != state
            case Some(k) => k < |calls| && calls[k].state == state && forall i | k < i < |calls| :: calls[i].state != state
    decreases |calls|
  {
    if calls == [] then None
    else if Last(calls).state == state then Some(|calls| - 1)
    else LastCall(Front(calls), state)
  }

  /**
   The store a consume would be answered from: the last call about the state, unless that consumed it or it
   expired.
   */
  function Source(calls: seq<Call>, ttl: nat, state: string, now: Time): Option<nat> {
    var k := LastCall(calls, state);
    if k.Some? && calls[k.value].Store? && calls[k.value].at + ttl > now then k else None
  }

  function Answer(calls: seq<Call>, ttl: nat, state: string, now: Time): Option<Login> {
    var k := Source(calls, ttl, state, now);
    if k.Some? then Some(calls[k.value].login) else None
  }

  /** A store of the state within its lifetime, with no other call about the state since. */
  predicate Redeemable(calls: seq<Call>, ttl: nat, state: string, now: Time, k: int) {
    && 0 <= k < |calls| && calls[k].Store? && calls[k].state == state && now < calls[k].at + ttl
    && forall m | k < m < |calls| :: calls[m].state != state
  }

  lemma SourceIsRedeemable(calls: seq<Call>, ttl: nat, state: string, now: Time)
    ensures forall k :: Redeemable(calls, ttl, state, now, k) <==> k >= 0 && Source(calls, ttl, state, now) == Some(k)
  {
    forall k | Redeemable(calls, ttl, state, now, k) ensures Source(calls, ttl, state, now) == Some(k) {
      assert calls[k].state == state;
    }
  }

  /** The call at `i` is a consume answered from the store at `k`. */
  predicate Serves(calls: seq<Call>, ttl: nat, i: int, k: nat) {
    0 <= i < |calls| && calls[i].Consume? && Source(calls[..i], ttl, calls[i].state, calls[i].at) == Some(k)
  }

  /** Between a store and the consume it answers nothing else was asked about the state. */
  lemma ServedFromLast(calls: seq<Call>, ttl: nat, i: int, k: nat)
    requires Serves(calls, ttl, i, k)
    ensures k < i && calls[k].state == calls[i].state
    ensures forall m | k < m < i :: calls[m].state != calls[k].state
  {
    forall m | k < m < i ensures calls[m].state != calls[k].state { assert calls[..i][m] == calls[m]; }
  }

  /** No store is consumed twice. */
  lemma ConsumedAtMostOnce(calls: seq<Call>, ttl: nat, i: int, j: int, k: nat)
    requires Serves(calls, ttl, i, k) && Serves(calls, ttl, j, k)
    ensures i == j
  {
    ServedFromLast(calls, ttl, i, k);
    ServedFromLast(calls, ttl, j, k);
  }

  // ----- the table, with and without cleanup -----

  function Unexpired(t: Table, now: Time): Table {
    map s | s in t && t[s].expiresAt > now :: t[s]
  }

  function After(t: Table, ttl: nat, c: Call, cleans: bool): Table {
    match c
    case Store(s, login, now) => (if cleans then Unexpired(t, now) else t)[s := StateEntry(login, now + ttl)]
    case Consume(s, _) => t - {s}
  }

  function Found(t: Table, state: string, now: Time): Option<Login> {
    if state in t && t[state].expiresAt > now then Some(t[state].login) else None
  }

  function TableAfter(calls: seq<Call>, ttl: nat, cleans: bool): Table
    decreases |calls|
  {
    if calls == [] then map[] else After(TableAfter(Front(calls), ttl, cleans), ttl, Last(calls), cleans)
  }

  predicate ClockRuns(calls: seq<Call>) {
    forall i, j | 0 <= i < j < |calls| :: calls[i].at <= calls[j].at
  }

  /** Without cleanup the table holds exactly the states whose last call was a store. */
  lemma {:induction false} KeptIsLastStore(calls: seq<Call>, ttl: nat, state: string)
    ensures var t := TableAfter(calls, ttl, false); var k := LastCall(calls, state);
            && (state in t <==> k.Some? && calls[k.value].Store?)
            && (state in t ==> t[state] == StateEntry(calls[k.value].login, calls[k.value].at + ttl))
    decreases |calls|
  {
    if calls != [] { KeptIsLastStore(Front(calls), ttl, state); }
  }

  /** Cleanup drops only what had expired by the time of the last call. */
  lemma {:induction false} CleanupDropsExpired(calls: seq<Call>, ttl: nat, state: string)
    requires ClockRuns(calls)
    ensures var cleaned, kept := TableAfter(calls, ttl, true), TableAfter(calls, ttl, false);
            && (state in cleaned ==> state in kept && cleaned[state] == kept[state])
            && (state in kept && state !in cleaned ==> calls != [] && kept[state].expiresAt <= Last(calls).at)
    decreases |calls|
  {
    if calls != [] {
      CleanupDropsExpired(Front(calls), ttl, state);
      if |calls| > 1 { assert Last(Front(calls)).at <= Last(calls).at; }
    }
  }

  /** Under a clock that never runs backwards cleanup cannot be told from keeping everything. */
  lemma SameAnswerWithCleanup(calls: seq<Call>, ttl: nat, state: string, now: Time)
    requires ClockRuns(calls) && (calls != [] ==> Last(calls).at <= now)
    ensures Found(TableAfter(calls, ttl, true), state, now) == Found(TableAfter(calls, ttl, false), state, now)
    ensures Found(TableAfter(calls, ttl, true), state, now) == Answer(calls, ttl, state, now)
  {
    CleanupDropsExpired(calls, ttl, state);
    KeptIsLastStore(calls, ttl, state);
  }

  /** Right after a store the table holds nothing older than one lifetime. */
  lemma StoreLeavesUnexpired(t: Table, ttl: nat, c: Call)
    requires c.Store?
    ensures (forall s | s in After(t, ttl, c, true) :: After(t, ttl, c, true)[s].expiresAt > c.at) <==> ttl > 0
  {
    var after := After(t, ttl, c, true);
    assert after[c.state].expiresAt == c.at + ttl;
  }

  lemma CallExtends(calls: seq<Call>, ttl: nat, c: Call)
    requires ClockRuns(calls) && (calls != [] ==> Last(calls).at <= c.at)
    ensures ClockRuns(calls + [c]) && TableAfter(calls + [c], ttl, true) == After(TableAfter(calls, ttl, true), ttl, c, true)
  {
    assert Front(calls + [c]) == calls;
  }

  class OidcStateStore {
    const ttl: nat
    var entries: Table
    ghost var calls: seq<Call>

    ghost predicate Valid()
      reads this
    {
      ClockRuns(calls) && entries == TableAfter(calls, ttl, true)
    }

    ghost predicate Now(now: Time)
      reads this
    {
      calls != [] ==> Last(calls).at <= now
    }

    constructor ()
      ensures Valid() && calls == [] && ttl == 600_000_000
    {
      ttl, entries, calls := DEFAULT_TTL, map[], [];
    }

    constructor WithTtl(ttl: nat)
      ensures Valid() && calls == [] && this.ttl == ttl
    {
      this.ttl := ttl;
      entries, calls := map[], [];
    }

    method StoreState(state: string, login: Login, now: Time)
      requires Valid() && Now(now)
      modifies this
      ensures Valid() && calls == old(calls) + [Store(state, login, now)]
      ensures (forall s | s in entries :: entries[s].expiresAt > now) <==> ttl > 0
    {
      hide ClockRuns, TableAfter;
      CallExtends(calls, ttl, Store(state, login, now));
      StoreLeavesUnexpired(entries, ttl, Store(state, login, now));
      entries := map s | s in entries && entries[s].expiresAt > now :: entries[s];
      entries := entries[state := StateEntry(login, now + ttl)];
      calls := calls + [Store(state, login, now)];
    }

    method ConsumeState(state: string, now: Time) returns (r: Option<Login>)
      requires Valid() && Now(now)
      modifies this
      ensures Valid() && calls == old(calls) + [Consume(state, now)]
      ensures r == Answer(old(calls), ttl, state, now)
      ensures r.Some? <==> exists k :: Serves(calls, ttl, |old(calls)|, k)
      ensures r.Some? <==> exists k :: Redeemable(old(calls), ttl, state, now, k)
      ensures forall k | Redeemable(old(calls), ttl, state, now, k) :: r == Some(old(calls)[k].login)
      ensures state !in entries
    {
      hide ClockRuns, TableAfter, LastCall;
      CallExtends(calls, ttl, Consume(state, now));
      SameAnswerWithCleanup(calls, ttl, state, now);
      SourceIsRedeemable(calls, ttl, state, now);
      r := None;
      if state in entries {
        var entry := entries[state];
        entries := entries - {state};
        if entry.expiresAt > now { r := Some(entry.login); }
      }
      calls := calls + [Consume(state, now)];
      assert calls[..|old(calls)|] == old(calls);
      hide Redeemable;
      if r.Some? {
        var k := Source(old(calls), ttl, state, now).value;
        assert Serves(calls, ttl, |old(calls)|, k) && Redeemable(old(calls), ttl, state, now, k);
      }
    }
  }
}
