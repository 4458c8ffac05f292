/**
 * The vote store: one table keyed by user id, each row holding the epoch
 * millisecond at which that user's vote expires.  The SQLite table is an
 * in-memory map here; the clock is the `now` argument.
 */
module Votes {

  /** One week in milliseconds, the lifetime of a vote. */
  const VOTE_DURATION_MS: int := 7 * 24 * 60 * 60 * 1000

  /** The table after an upsert of `u` at time `now`: the primary key keeps one row per user. */
  function Upsert(m: map<string, int>, u: string, now: int): (r: map<string, int>)
    ensures r.Keys == m.Keys + {u}
    ensures r[u] == now + VOTE_DURATION_MS
    ensures forall v :: v in m && v != u ==> r[v] == m[v]
  {
    m[u := now + VOTE_DURATION_MS]
  }

  /** The table after deleting the row of `u`, if there is one. */
  function Remove(m: map<string, int>, u: string): (r: map<string, int>)
    ensures r.Keys == m.Keys - {u}
    ensures forall v :: v in r ==> r[v] == m[v]
    ensures u !in m ==> r == m
  {
    m - {u}
  }

  /** The ids whose row has `expires_at <= now`. */
  function Expired(m: map<string, int>, now: int): set<string>
  {
    set u | u in m && m[u] <= now
  }

  /** The elements of a snapshot, as a set. */
  function Elements(s: seq<string>): set<string>
  {
    set u | u in s
  }

  predicate NoDuplicates(s: seq<string>)
  {
    forall i, j :: 0 <= i < j < |s| ==> s[i] != s[j]
  }

  class VoteStore {
    var votes: map<string, int>

    constructor ()
      ensures votes == map[]
    {
      votes := map[];
    }

    /** Inserts or overwrites the row of `userId`; returns the new expiry. */
    method UpdateVote(userId: string, now: int) returns (expiresAt: int)
      modifies this
      ensures expiresAt == now + VOTE_DURATION_MS
      ensures votes == Upsert(old(votes), userId, now)
      ensures votes[userId] == expiresAt
    {
      expiresAt := now + VOTE_DURATION_MS;
      votes := votes[userId := expiresAt];
    }

    /** Deletes the row of `userId`; a missing row is not an error. */
    method RemoveVote(userId: string)
      modifies this
      ensures votes == Remove(old(votes), userId)
    {
      votes := votes - {userId};
    }

    /**
     * A snapshot of the expired ids, in no particular order: each id at most
     * once, exactly those whose row has `expires_at <= now`.
     */
    method GetExpiredVotes(now: int) returns (ids: seq<string>)
      ensures NoDuplicates(ids)
      ensures forall u :: u in ids <==> u in votes && votes[u] <= now
      ensures Elements(ids) == Expired(votes, now)
      ensures |ids| == |Expired(votes, now)|
    {
      ids := [];
      var pending := votes.Keys;
      while pending != {}
        invariant pending <= votes.Keys
        invariant forall u :: u in ids <==> u in votes && u !in pending && votes[u] <= now
        invariant NoDuplicates(ids)
        decreases pending
      {
        var u :| u in pending;
        if votes[u] <= now {
          ids := ids + [u];
        }
        pending := pending - {u};
      }
      SnapshotSize(ids);
    }
  }

  /** Deleting a user right after an upsert leaves the table as a plain delete would. */
  lemma RemoveUndoesUpsert(m: map<string, int>, u: string, now: int)
    ensures Remove(Upsert(m, u, now), u) == Remove(m, u)
  {
  }

  /**
   * Renewing a vote at a later time moves its expiry forward and keeps one
   * row for the user.
   */
  lemma RenewalIsMonotonic(m: map<string, int>, u: string, t1: int, t2: int)
    requires t1 <= t2
    ensures Upsert(Upsert(m, u, t1), u, t2)[u] >= Upsert(m, u, t1)[u]
    ensures Upsert(Upsert(m, u, t1), u, t2).Keys == Upsert(m, u, t1).Keys
  {
  }

  /** A vote recorded at `t` is expired at `now` exactly when a full week has passed. */
  lemma FreshVoteExpiresAfterOneWeek(m: map<string, int>, u: string, t: int, now: int)
    ensures u in Expired(Upsert(m, u, t), now) <==> now >= t + VOTE_DURATION_MS
  {
  }

  /** The set of expired ids only grows as time passes. */
  lemma ExpiredIsMonotonic(m: map<string, int>, now1: int, now2: int)
    requires now1 <= now2
    ensures Expired(m, now1) <= Expired(m, now2)
  {
  }

  /**
   * Deleting every expired row leaves exactly the rows that have not
   * expired, with their expiries unchanged, and nothing expired.
   */
  lemma SweepKeepsOnlyLiveVotes(m: map<string, int>, now: int)
    ensures forall u :: u in m - Expired(m, now) <==> u in m && m[u] > now
    ensures forall u :: u in m - Expired(m, now) ==> (m - Expired(m, now))[u] == m[u]
    ensures Expired(m - Expired(m, now), now) == {}
  {
  }

  /** A duplicate-free snapshot has as many ids as its set of elements. */
  lemma {:induction false} SnapshotSize(s: seq<string>)
    requires NoDuplicates(s)
    ensures |Elements(s)| == |s|
  {
    if s != [] {
      var rest := s[1..];
      assert NoDuplicates(rest) by {
        forall i, j | 0 <= i < j < |rest| ensures rest[i] != rest[j] {
          assert rest[i] == s[i + 1] && rest[j] == s[j + 1];
        }
      }
      assert s[0] !in Elements(rest) by {
        forall j | 0 <= j < |rest| ensures rest[j] != s[0] {
          assert rest[j] == s[j + 1];
        }
      }
      assert Elements(s) == {s[0]} + Elements(rest) by {
        assert s == [s[0]] + rest;
      }
      SnapshotSize(rest);
    }
  }

  /** A duplicate-free snapshot holding exactly one id is that id alone. */
  lemma SingletonSnapshot(s: seq<string>, u: string)
    requires NoDuplicates(s) && Elements(s) == {u}
    ensures s == [u]
  {
    SnapshotSize(s);
    assert s[0] in Elements(s);
  }
}
