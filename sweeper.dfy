/**
 * The expiry checker: every minute, unless a pass is still running, it takes
 * a snapshot of the expired votes, tries to revoke each user's role and then
 * deletes the user's row whatever the revoke did.
 *
 * The chat-platform client is a pure function value `revoke` plus the flag
 * `guildFound` (whether a guild holding the role is in the client's cache):
 * neither can read or write the store.
 */
module Sweeper {
  import opened Votes

  /** What one revoke attempt ended in; the checker ignores it. */
  datatype RevokeOutcome =
    | Removed(notified: bool)  // role removed; `notified` is whether the DM went through
    | NotHeld                  // member found, but role unknown or not held
    | RevokeMemberNotFound     // the member fetch failed
    | RevokeFailed             // removing the role threw
    | RevokeGuildMissing       // no guild with the role in the cache: nothing attempted

  /** The outcome recorded for one expired user. */
  function Attempt(guildFound: bool, revoke: string -> RevokeOutcome, userId: string): RevokeOutcome
  {
    if guildFound then revoke(userId) else RevokeGuildMissing
  }

  class ExpiryChecker {
    /** Set while a pass is in progress; a tick that sees it set does nothing. */
    var isChecking: bool
    const store: VoteStore

    constructor (store: VoteStore)
      ensures this.store == store && !isChecking
    {
      this.store := store;
      isChecking := false;
    }

    /** The guard at the start of a tick: claims the single slot if it is free. */
    method Begin() returns (entered: bool)
      modifies this
      ensures entered == !old(isChecking)
      ensures isChecking
    {
      if isChecking {
        return false;
      }
      isChecking := true;
      entered := true;
    }

    /**
     * One pass: every id of the snapshot is processed once, in snapshot
     * order, and its row is deleted whatever the revoke outcome; rows not
     * in the snapshot keep their expiry.
     */
    method Sweep(now: int, guildFound: bool, revoke: string -> RevokeOutcome)
      returns (processed: seq<string>, outcomes: seq<RevokeOutcome>)
      requires isChecking
      modifies store
      ensures NoDuplicates(processed)
      ensures forall u :: u in processed <==> u in old(store.votes) && old(store.votes)[u] <= now
      ensures store.votes == old(store.votes) - Elements(processed)
      ensures |outcomes| == |processed|
      ensures forall i :: 0 <= i < |processed| ==> outcomes[i] == Attempt(guildFound, revoke, processed[i])
    {
      processed := store.GetExpiredVotes(now);
      outcomes := [];
      for i := 0 to |processed|
        invariant |outcomes| == i
        invariant forall k :: 0 <= k < i ==> outcomes[k] == Attempt(guildFound, revoke, processed[k])
        invariant store.votes == old(store.votes) - Elements(processed[..i])
      {
        var userId := processed[i];
        var outcome := Attempt(guildFound, revoke, userId);
        outcomes := outcomes + [outcome];
        store.RemoveVote(userId);
        assert Elements(processed[..i + 1]) == Elements(processed[..i]) + {userId} by {
          assert processed[..i + 1] == processed[..i] + [userId];
        }
      }
      assert processed[..|processed|] == processed;
    }

    /** The `finally` of a tick: the slot is released. */
    method Finish()
      modifies this
      ensures !isChecking
    {
      isChecking := false;
    }

    /**
     * One timer tick.  When a pass is already running it changes nothing and
     * revokes nothing; otherwise it runs a full pass and releases the slot.
     */
    method Tick(now: int, guildFound: bool, revoke: string -> RevokeOutcome)
      returns (ran: bool, processed: seq<string>, outcomes: seq<RevokeOutcome>)
      modifies this, store
      ensures ran == !old(isChecking)
      ensures !ran ==> processed == [] && outcomes == [] && isChecking && store.votes == old(store.votes)
      ensures ran ==> !isChecking
      ensures ran ==> NoDuplicates(processed) && Elements(processed) == Expired(old(store.votes), now)
      ensures ran ==> store.votes == old(store.votes) - Expired(old(store.votes), now)
      ensures ran ==> |outcomes| == |processed|
      ensures ran ==> forall i :: 0 <= i < |processed| ==> outcomes[i] == Attempt(guildFound, revoke, processed[i])
    {
      processed, outcomes := [], [];
      ran := Begin();
      if !ran {
        return;
      }
      processed, outcomes := Sweep(now, guildFound, revoke);
      Finish();
    }
  }

  /**
   * A pass leaves no snapshot id in the table and keeps every other row as
   * it was, whichever outcomes the revokes had.
   */
  lemma SweptIdsAreGone(before: map<string, int>, after: map<string, int>, processed: seq<string>)
    requires after == before - Elements(processed)
    ensures forall u :: u in processed ==> u !in after
    ensures forall u :: u in before && u !in processed ==> u in after && after[u] == before[u]
  {
  }
}
