/**
 * End-to-end scenarios over the store, the expiry checker and the webhook
 * handler, each proved from the contracts of the operations alone.
 */
module Scenarios {
  import opened Wrappers
  import opened Votes
  import opened Sweeper
  import opened Webhook

  /**
   * A vote recorded at `t0` is not yet expired one millisecond before the
   * week is over and is expired one millisecond after.
   */
  method ExpiryAroundOneWeek(t0: int) returns (before: seq<string>, after: seq<string>)
    ensures "u1" !in before
    ensures after == ["u1"]
  {
    var store := new VoteStore();
    var expiresAt := store.UpdateVote("u1", t0);
    before := store.GetExpiredVotes(t0 + VOTE_DURATION_MS - 1);
    after := store.GetExpiredVotes(t0 + VOTE_DURATION_MS + 1);
    SingletonSnapshot(after, "u1");
  }

  /**
   * A body `{"id": "u42"}` with no secret configured is answered 200 and
   * records `u42` for one week, even when the grant step fails.
   */
  method VoteWithoutSecret(now: int) returns (status: int, votes: map<string, int>)
    ensures status == 200
    ensures votes == map["u42" := now + VOTE_DURATION_MS]
  {
    var store := new VoteStore();
    var granted;
    status, granted := HandleWebhook(store, None, Request(None, Some("u42"), None), now, true, _ => GrantFailed);
    votes := store.votes;
  }

  /**
   * A second tick fires while the first tick's pass is running.  In the
   * program it can only fire during an await inside the pass; it reads only
   * the flag, which stays set from `Begin` to `Finish`, so it is placed
   * before `Sweep` here.  The second tick does nothing, the first processes its batch exactly once, and the table
   * ends empty with the slot released.
   */
  method OverlappingTicks(t0: int, revoke: string -> RevokeOutcome)
    returns (first: seq<string>, second: seq<string>, remaining: map<string, int>, released: bool)
    ensures second == []
    ensures first == ["u1"]
    ensures remaining == map[]
    ensures released
  {
    var store := new VoteStore();
    var expiresAt := store.UpdateVote("u1", t0);
    var checker := new ExpiryChecker(store);
    var entered := checker.Begin();
    var ran, outcomes2;
    ran, second, outcomes2 := checker.Tick(expiresAt, true, revoke);
    var outcomes1;
    first, outcomes1 := checker.Sweep(expiresAt, true, revoke);
    checker.Finish();
    assert Expired(map["u1" := expiresAt], expiresAt) == {"u1"};
    SingletonSnapshot(first, "u1");
    remaining := store.votes;
    released := !checker.isChecking;
  }
}
