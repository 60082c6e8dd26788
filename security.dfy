/**
 * The token revocation registry (the blacklist): a set of (token, expiry) pairs that
 * prunes itself on every call. The clock is passed in as `now`, in seconds.
 */
module Security {
  import opened Common
  import opened Crypto

  /** A revocation entry: the revoked token and the instant until which it stays revoked. */
  type Entry = (Jwt, int)

  /** The revocation lifetime, in minutes, when the caller gives none. */
  const DefaultRevocationMinutes := 5

  /** The entries still in force at `now`: those whose expiry is strictly later than `now`. */
  function Live(entries: set<Entry>, now: int): set<Entry> {
    set e | e in entries && e.1 > now
  }

  /** Whether some entry names exactly this token (whatever its expiry). */
  predicate Listed(entries: set<Entry>, token: Jwt) {
    exists e :: e in entries && e.0 == token
  }

  class TokenBlacklist {
    var entries: set<Entry>

    constructor()
      ensures entries == {}
    {
      entries := {};
    }

    /** Revokes `token` for `minutes` from `now`, then prunes. */
    method AddToken(token: Jwt, now: int, minutes: int := DefaultRevocationMinutes)
      modifies this
      ensures entries == Live(old(entries) + {(token, now + minutes * SecondsPerMinute)}, now)
      ensures forall e :: e in entries ==> e.1 > now
    {
      entries := entries + {(token, now + minutes * SecondsPerMinute)};
      CleanupExpired(now);
    }

    /** Prunes, then reports whether the exact token is still listed. */
    method IsBlacklisted(token: Jwt, now: int) returns (revoked: bool)
      modifies this
      ensures entries == Live(old(entries), now)
      ensures forall e :: e in entries ==> e.1 > now
      ensures revoked <==> Listed(entries, token)
    {
      CleanupExpired(now);
      revoked := exists e | e in entries :: e.0 == token;
    }

    /** Keeps only the entries whose expiry is strictly in the future. */
    method CleanupExpired(now: int)
      modifies this
      ensures entries == Live(old(entries), now)
    {
      entries := set e | e in entries && e.1 > now;
    }
  }

  // ---------------------------------------------------------------------------
  // The registry as a sequence of calls

  /** One call on the registry, made at instant `at`. */
  datatype Call = Add(token: Jwt, at: int, minutes: int) | Query(token: Jwt, at: int)

  /** The entry an Add call inserts. */
  function Inserted(c: Call): (e: Entry)
    requires c.Add?
    ensures e.0 == c.token
  {
    (c.token, c.at + c.minutes * SecondsPerMinute)
  }

  /** The registry contents after one call, as AddToken and IsBlacklisted leave them. */
  function Step(entries: set<Entry>, c: Call): set<Entry> {
    match c
    case Add(_, at, _) => Live(entries + {Inserted(c)}, at)
    case Query(_, at) => Live(entries, at)
  }

  /** The registry contents after a sequence of calls. */
  function Replay(entries: set<Entry>, calls: seq<Call>): set<Entry>
    decreases |calls|
  {
    if calls == [] then entries
    else Step(Replay(entries, calls[..|calls| - 1]), calls[|calls| - 1])
  }

  /** The answer IsBlacklisted gives when `c` is a query made on `entries`. */
  predicate Answer(entries: set<Entry>, c: Call)
    requires c.Query?
  {
    Listed(Step(entries, c), c.token)
  }

  /** Every entry ever inserted by the calls. */
  function AddedBy(calls: seq<Call>): set<Entry> {
    set i | 0 <= i < |calls| && calls[i].Add? :: Inserted(calls[i])
  }

  /** The calls are made at non-decreasing instants. */
  predicate Chronological(calls: seq<Call>) {
    forall i, j :: 0 <= i < j < |calls| ==> calls[i].at <= calls[j].at
  }

  // ---------------------------------------------------------------------------
  // Properties of pruning

  /** Pruning removes exactly the entries whose expiry has passed and keeps the rest unchanged. */
  lemma LivePartition(entries: set<Entry>, now: int)
    ensures Live(entries, now) <= entries
    ensures entries - Live(entries, now) == set e | e in entries && e.1 <= now
  {
  }

  /** Pruning twice at the same instant is pruning once. */
  lemma LiveIdempotent(entries: set<Entry>, now: int)
    ensures Live(Live(entries, now), now) == Live(entries, now)
  {
  }

  /** Pruning at an earlier instant, then inserting, then pruning later is one later prune. */
  lemma LiveThenLater(entries: set<Entry>, added: set<Entry>, earlier: int, later: int)
    requires earlier <= later
    ensures Live(Live(entries, earlier) + added, later) == Live(entries + added, later)
  {
  }

  /** After any call, every entry expires strictly after that call's instant. */
  lemma StepLeavesOnlyLive(entries: set<Entry>, c: Call)
    ensures forall e :: e in Step(entries, c) ==> e.1 > c.at
  {
  }

  /** A query never adds an entry and never removes one that has not expired. */
  lemma QueryKeepsUnexpired(entries: set<Entry>, c: Call)
    requires c.Query?
    ensures Step(entries, c) <= entries
    ensures forall e :: e in entries && e.1 > c.at ==> e in Step(entries, c)
  {
  }

  /** An Add inserts exactly its entry when that entry is still in force, and prunes the rest. */
  lemma AddInserts(entries: set<Entry>, c: Call)
    requires c.Add?
    ensures Inserted(c) in Step(entries, c) <==> c.minutes > 0
    ensures Step(entries, c) - {Inserted(c)} == Live(entries, c.at) - {Inserted(c)}
  {
  }

  // ---------------------------------------------------------------------------
  // Properties of histories

  lemma AddedBySnoc(calls: seq<Call>, c: Call)
    ensures AddedBy(calls + [c]) == AddedBy(calls) + (if c.Add? then {Inserted(c)} else {})
  {
    var all := calls + [c];
    forall e | e in AddedBy(all)
      ensures e in AddedBy(calls) + (if c.Add? then {Inserted(c)} else {})
    {
      var i :| 0 <= i < |all| && all[i].Add? && e == Inserted(all[i]);
      if i < |calls| {
        assert all[i] == calls[i];
      }
    }
    forall e | e in AddedBy(calls)
      ensures e in AddedBy(all)
    {
      var i :| 0 <= i < |calls| && calls[i].Add? && e == Inserted(calls[i]);
      assert all[i] == calls[i];
    }
    if c.Add? {
      assert all[|calls|] == c;
      assert Inserted(c) in AddedBy(all);
    }
  }

  /**
   * On a chronological history, the registry holds exactly the inserted entries
   * (and the initial ones) that are still in force at the last call's instant:
   * the interleaved prunes lose nothing that has not expired.
   */
  lemma {:induction false} ReplayIsLiveHistory(start: set<Entry>, calls: seq<Call>)
    requires calls != [] && Chronological(calls)
    ensures Replay(start, calls) == Live(start + AddedBy(calls), calls[|calls| - 1].at)
    decreases |calls|
  {
    var n := |calls|;
    var prefix, c := calls[..n - 1], calls[n - 1];
    assert calls == prefix + [c];
    AddedBySnoc(prefix, c);
    var added: set<Entry> := if c.Add? then {Inserted(c)} else {};
    if prefix == [] {
      assert AddedBy(prefix) == {};
      assert Replay(start, prefix) == start;
      LiveThenLater(start, added, c.at, c.at);
    } else {
      assert Chronological(prefix) by {
        forall i, j | 0 <= i < j < |prefix| ensures prefix[i].at <= prefix[j].at {
          assert prefix[i] == calls[i] && prefix[j] == calls[j];
        }
      }
      ReplayIsLiveHistory(start, prefix);
      var earlier := prefix[|prefix| - 1].at;
      assert earlier == calls[n - 2].at <= c.at;
      LiveThenLater(start + AddedBy(prefix), added, earlier, c.at);
      assert start + AddedBy(prefix) + added == start + AddedBy(calls);
    }
  }

  /**
   * From an empty registry, a token is revoked at the last call's instant exactly when
   * one of its insertions expires later than that instant: re-adding a token keeps
   * it revoked until the latest of its expiries.
   */
  lemma RevokedUntilLatestExpiry(calls: seq<Call>, token: Jwt)
    requires calls != [] && Chronological(calls)
    ensures Listed(Replay({}, calls), token) <==>
      exists i :: 0 <= i < |calls| && calls[i].Add? && calls[i].token == token
                  && Inserted(calls[i]).1 > calls[|calls| - 1].at
  {
    var now := calls[|calls| - 1].at;
    ReplayIsLiveHistory({}, calls);
    assert {} + AddedBy(calls) == AddedBy(calls);
    if Listed(Replay({}, calls), token) {
      var e :| e in Replay({}, calls) && e.0 == token;
      var i :| 0 <= i < |calls| && calls[i].Add? && e == Inserted(calls[i]);
    }
    if exists i :: 0 <= i < |calls| && calls[i].Add? && calls[i].token == token
                   && Inserted(calls[i]).1 > now {
      var i :| 0 <= i < |calls| && calls[i].Add? && calls[i].token == token
               && Inserted(calls[i]).1 > now;
      assert Inserted(calls[i]) in AddedBy(calls);
      assert Inserted(calls[i]) in Replay({}, calls);
    }
  }

  /**
   * A token added once, at instant s with lifetime m minutes, is reported revoked by
   * every later call at an instant u exactly when u < s + m minutes.
   */
  lemma RevocationWindow(calls: seq<Call>, k: nat, token: Jwt)
    requires Chronological(calls)
    requires k < |calls| && calls[k].Add? && calls[k].token == token
    requires forall i :: 0 <= i < |calls| && i != k && calls[i].Add? ==> calls[i].token != token
    ensures Listed(Replay({}, calls), token) <==>
      calls[|calls| - 1].at < calls[k].at + calls[k].minutes * SecondsPerMinute
  {
    RevokedUntilLatestExpiry(calls, token);
  }

  /** A new insertion never makes a token that was revoked at a later instant unrevoked. */
  lemma ReAddNeverShortens(entries: set<Entry>, c: Call, token: Jwt, later: int)
    requires c.Add? && c.at <= later
    requires Listed(Live(entries, later), token)
    ensures Listed(Live(Step(entries, c), later), token)
  {
    var e :| e in Live(entries, later) && e.0 == token;
    assert e in Live(Step(entries, c), later);
  }

  /** An entry survives every call made before it expires. */
  lemma {:induction false} EntrySurvives(start: set<Entry>, calls: seq<Call>, e: Entry)
    requires e in start
    requires forall i :: 0 <= i < |calls| ==> calls[i].at < e.1
    ensures e in Replay(start, calls)
    decreases |calls|
  {
    if calls != [] {
      EntrySurvives(start, calls[..|calls| - 1], e);
    }
  }
}
