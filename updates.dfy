/**
 * The background refresh script (packages/api/scripts/updates.ts): which
 * update jobs each pass of `main` runs, in which order, how a thrown error
 * ends only the current pass, and the arithmetic of the rows it writes back.
 * Every database and network call is an opaque step; whether a step throws
 * is the parameter `fails(iteration, job)`.
 */
module Updates {
  import opened Wrappers

  // ---------------------------------------------------------------------
  // The schedule
  // ---------------------------------------------------------------------

  /** The update jobs of the script. */
  datatype Job = Feeds | Communities | Tokens | FarcasterAccounts | TwitterAccounts | Vaults

  /** Where a job stands in the body of the loop. */
  function Rank(job: Job): nat {
    match job
    case Feeds => 0
    case Communities => 1
    case Tokens => 2
    case FarcasterAccounts => 3
    case TwitterAccounts => 4
    case Vaults => 5
  }

  /** The jobs pass `i` of `main` runs when none of them throws. */
  function Schedule(i: nat): (jobs: seq<Job>)
    ensures |jobs| >= 2 && jobs[0] == Feeds && jobs[1] == Communities
  {
    [Feeds, Communities]
    + (if i % 10 == 0 then [Tokens] else [])
    + (if i % 20 == 0 then [FarcasterAccounts, TwitterAccounts, Vaults] else [])
  }

  /**
   * Feeds and communities are refreshed on every pass, tokens on every
   * tenth, the Farcaster and Twitter accounts and the vaults on every
   * twentieth.
   */
  lemma ScheduleMembers(i: nat)
    ensures Feeds in Schedule(i) && Communities in Schedule(i)
    ensures Tokens in Schedule(i) <==> i % 10 == 0
    ensures FarcasterAccounts in Schedule(i) <==> i % 20 == 0
    ensures TwitterAccounts in Schedule(i) <==> i % 20 == 0
    ensures Vaults in Schedule(i) <==> i % 20 == 0
  {
  }

  /** Within a pass the jobs keep the order feeds, communities, tokens, Farcaster, Twitter, vaults. */
  lemma ScheduleOrdered(i: nat)
    ensures forall a, b :: 0 <= a < b < |Schedule(i)| ==> Rank(Schedule(i)[a]) < Rank(Schedule(i)[b])
  {
  }

  /** Every pass that refreshes the social accounts and vaults also refreshes tokens. */
  lemma AccountPassesRefreshTokens(i: nat)
    requires FarcasterAccounts in Schedule(i)
    ensures Tokens in Schedule(i)
  {
    ScheduleMembers(i);
    assert i == 10 * (2 * (i / 20));
  }

  // ---------------------------------------------------------------------
  // One pass: try { jobs in order } catch { log }
  // ---------------------------------------------------------------------

  /** A job started in pass `iteration`, and whether it completed. */
  datatype Step = Step(iteration: nat, job: Job, ok: bool)

  /**
   * The steps of pass `i` over `jobs`: each job in order, up to and
   * including the first one that throws.
   */
  function Attempted(i: nat, jobs: seq<Job>, fails: (nat, Job) -> bool): (steps: seq<Step>)
    ensures |steps| <= |jobs|
    ensures |jobs| > 0 ==> |steps| > 0
  {
    if |jobs| == 0 then []
    else if fails(i, jobs[0]) then [Step(i, jobs[0], false)]
    else [Step(i, jobs[0], true)] + Attempted(i, jobs[1..], fails)
  }

  /**
   * The steps of a pass are its jobs in schedule order, each marked with
   * whether it completed; all but the last completed, and the pass stops
   * short of its schedule only at a job that threw.
   */
  lemma {:induction false} AttemptedSteps(i: nat, jobs: seq<Job>, fails: (nat, Job) -> bool)
    ensures var steps := Attempted(i, jobs, fails);
      && (forall k :: 0 <= k < |steps| ==> steps[k] == Step(i, jobs[k], !fails(i, jobs[k])))
      && (forall k :: 0 <= k < |steps| - 1 ==> steps[k].ok)
      && (|steps| < |jobs| ==> !steps[|steps| - 1].ok)
    decreases |jobs|
  {
    if |jobs| > 0 && !fails(i, jobs[0]) {
      AttemptedSteps(i, jobs[1..], fails);
      var rest := Attempted(i, jobs[1..], fails);
      var steps := Attempted(i, jobs, fails);
      assert steps == [Step(i, jobs[0], true)] + rest;
      forall k | 0 < k < |steps|
        ensures steps[k] == Step(i, jobs[k], !fails(i, jobs[k]))
      {
        assert steps[k] == rest[k - 1] && jobs[k] == jobs[1..][k - 1];
      }
    }
  }

  /** A pass over `[job] + rest` starts `job` and goes on only if it completed. */
  lemma AttemptedCons(i: nat, job: Job, rest: seq<Job>, fails: (nat, Job) -> bool)
    ensures Attempted(i, [job] + rest, fails) ==
      if fails(i, job) then [Step(i, job, false)]
      else [Step(i, job, true)] + Attempted(i, rest, fails)
  {
    assert ([job] + rest)[1..] == rest;
  }

  /** A pass in which no job throws runs its whole schedule. */
  lemma CleanPassRunsAll(i: nat, jobs: seq<Job>, fails: (nat, Job) -> bool)
    requires forall k :: 0 <= k < |jobs| ==> !fails(i, jobs[k])
    ensures |Attempted(i, jobs, fails)| == |jobs|
    ensures forall k :: 0 <= k < |jobs| ==> Attempted(i, jobs, fails)[k] == Step(i, jobs[k], true)
  {
    AttemptedSteps(i, jobs, fails);
  }

  /**
   * Part of pass `i` over `full` is done: once a job threw, the logged steps
   * are the whole pass; until then they are the pass minus what is `todo`.
   */
  ghost predicate Progress(i: nat, steps: seq<Step>, caught: bool, todo: seq<Job>, full: seq<Job>, fails: (nat, Job) -> bool) {
    if caught then steps == Attempted(i, full, fails) && |steps| > 0 && !steps[|steps| - 1].ok
    else steps + Attempted(i, todo, fails) == Attempted(i, full, fails) && forall k :: 0 <= k < |steps| ==> steps[k].ok
  }

  /**
   * `await job()` inside the `try` block: skipped once an earlier job threw,
   * otherwise started and logged, and a throw is caught.
   */
  method Await(i: nat, job: Job, steps: seq<Step>, caught: bool, ghost todo: seq<Job>, ghost full: seq<Job>, fails: (nat, Job) -> bool)
    returns (steps': seq<Step>, caught': bool, ghost todo': seq<Job>)
    requires Progress(i, steps, caught, todo, full, fails)
    requires !caught ==> |todo| > 0 && todo[0] == job
    ensures Progress(i, steps', caught', todo', full, fails)
    ensures caught' == (caught || fails(i, job))
    ensures steps' == if caught then steps else steps + [Step(i, job, !fails(i, job))]
    ensures todo' == if caught then todo else todo[1..]
  {
    steps', caught', todo' := steps, caught, todo;
    if !caught {
      AttemptedCons(i, job, todo[1..], fails);
      assert todo == [job] + todo[1..];
      caught' := fails(i, job);
      steps' := steps + [Step(i, job, !caught')];
      todo' := todo[1..];
      if !caught' {
        assert (steps + [Step(i, job, true)]) + Attempted(i, todo', fails) == steps + Attempted(i, todo, fails);
      }
    }
  }

  /**
   * One pass of the loop body: the jobs in their fixed order, tokens only
   * when `i % 10 == 0`, the accounts and vaults only when `i % 20 == 0`.
   * The first job that throws ends the `try`; the error is caught and
   * logged, so the pass ends normally.
   */
  method RunPass(i: nat, fails: (nat, Job) -> bool) returns (steps: seq<Step>, caught: bool)
    ensures steps == Attempted(i, Schedule(i), fails)
    ensures caught <==> exists k :: 0 <= k < |steps| && !steps[k].ok
  {
    ghost var full := Schedule(i);
    ghost var todo := full;
    assert [] + Attempted(i, todo, fails) == Attempted(i, full, fails);
    steps, caught, todo := Await(i, Feeds, [], false, todo, full, fails);
    steps, caught, todo := Await(i, Communities, steps, caught, todo, full, fails);
    if i % 10 == 0 {
      steps, caught, todo := Await(i, Tokens, steps, caught, todo, full, fails);
    }
    if i % 20 == 0 {
      steps, caught, todo := Await(i, FarcasterAccounts, steps, caught, todo, full, fails);
      steps, caught, todo := Await(i, TwitterAccounts, steps, caught, todo, full, fails);
      steps, caught, todo := Await(i, Vaults, steps, caught, todo, full, fails);
    }
    if !caught {
      assert todo == [];
      assert steps == steps + Attempted(i, todo, fails);
    }
  }

  // ---------------------------------------------------------------------
  // The loop of main
  // ---------------------------------------------------------------------

  /** The steps of the first `n` passes. */
  function Trace(n: nat, fails: (nat, Job) -> bool): seq<Step> {
    if n == 0 then [] else Trace(n - 1, fails) + Attempted(n - 1, Schedule(n - 1), fails)
  }

  /**
   * The first `iterations` passes of `main`'s endless loop (the 30-second
   * sleep between them is left out). The counter advances after every pass,
   * caught error or not.
   */
  method MainLoop(iterations: nat, fails: (nat, Job) -> bool) returns (i: nat, trace: seq<Step>)
    ensures i == iterations
    ensures trace == Trace(iterations, fails)
  {
    i, trace := 0, [];
    while i < iterations
      invariant i <= iterations
      invariant trace == Trace(i, fails)
    {
      var steps, caught := RunPass(i, fails);
      trace := trace + steps;
      i := i + 1;
    }
  }

  /** Every step in the trace is a job scheduled for its own pass. */
  lemma {:induction false} TraceFollowsSchedule(n: nat, fails: (nat, Job) -> bool)
    ensures forall s :: s in Trace(n, fails) ==> s.iteration < n && s.job in Schedule(s.iteration)
  {
    if n > 0 {
      TraceFollowsSchedule(n - 1, fails);
      AttemptedFromJobs(n - 1, Schedule(n - 1), fails);
    }
  }

  /** A pass only starts jobs of its own schedule. */
  lemma AttemptedFromJobs(i: nat, jobs: seq<Job>, fails: (nat, Job) -> bool)
    ensures forall s :: s in Attempted(i, jobs, fails) ==> s.iteration == i && s.job in jobs
  {
    AttemptedSteps(i, jobs, fails);
    var steps := Attempted(i, jobs, fails);
    forall s | s in steps ensures s.iteration == i && s.job in jobs {
      var k :| 0 <= k < |steps| && steps[k] == s;
    }
  }

  /** Everything pass `k` attempted is in the trace of any later point. */
  lemma {:induction false} PassInTrace(n: nat, k: nat, fails: (nat, Job) -> bool)
    requires k < n
    ensures forall s :: s in Attempted(k, Schedule(k), fails) ==> s in Trace(n, fails)
  {
    if k < n - 1 {
      PassInTrace(n - 1, k, fails);
    }
  }

  /**
   * An error never stops the loop: every pass starts with the feeds,
   * whatever happened in earlier passes.
   */
  lemma FeedsEveryPass(n: nat, k: nat, fails: (nat, Job) -> bool)
    requires k < n
    ensures Step(k, Feeds, !fails(k, Feeds)) in Trace(n, fails)
  {
    PassInTrace(n, k, fails);
    assert Attempted(k, Schedule(k), fails)[0] == Step(k, Feeds, !fails(k, Feeds));
  }

  /** Tokens are refreshed only on every tenth pass. */
  lemma TokensOnlyEveryTenth(n: nat, fails: (nat, Job) -> bool)
    ensures forall s :: s in Trace(n, fails) && s.job == Tokens ==> s.iteration % 10 == 0
  {
    TraceFollowsSchedule(n, fails);
    forall s | s in Trace(n, fails) && s.job == Tokens ensures s.iteration % 10 == 0 {
      ScheduleMembers(s.iteration);
    }
  }

  /** Social accounts and vaults are refreshed only on every twentieth pass. */
  lemma AccountsOnlyEveryTwentieth(n: nat, fails: (nat, Job) -> bool)
    ensures forall s :: s in Trace(n, fails) && s.job in {FarcasterAccounts, TwitterAccounts, Vaults}
                        ==> s.iteration % 20 == 0
  {
    TraceFollowsSchedule(n, fails);
    forall s | s in Trace(n, fails) && s.job in {FarcasterAccounts, TwitterAccounts, Vaults}
      ensures s.iteration % 20 == 0
    {
      ScheduleMembers(s.iteration);
    }
  }

  /** On a tenth pass whose feeds and communities succeed, tokens are refreshed. */
  lemma TokensWhenDue(n: nat, k: nat, fails: (nat, Job) -> bool)
    requires k < n && k % 10 == 0
    requires !fails(k, Feeds) && !fails(k, Communities)
    ensures Step(k, Tokens, !fails(k, Tokens)) in Trace(n, fails)
  {
    PassInTrace(n, k, fails);
    var steps := Attempted(k, Schedule(k), fails);
    AttemptedSteps(k, Schedule(k), fails);
    assert Schedule(k)[2] == Tokens;
    assert |steps| > 2;
    assert steps[2] == Step(k, Tokens, !fails(k, Tokens));
  }

  // ---------------------------------------------------------------------
  // The rows the jobs write back
  // ---------------------------------------------------------------------

  /** A community with its linked accounts' follower counts, when known. */
  datatype CommunityRow = CommunityRow(
    id: string, fid: int,
    farcasterFollowers: Option<nat>, twitterFollowers: Option<nat>,
    posts: nat, followers: nat)

  /** The follower total of `updateCommunities`; a missing count is 0. */
  function Followers(farcaster: Option<nat>, twitter: Option<nat>): (total: nat)
    ensures farcaster.None? && twitter.None? ==> total == 0
    ensures farcaster.None? && twitter.Some? ==> total == twitter.value
    ensures farcaster.Some? && twitter.None? ==> total == farcaster.value
    ensures farcaster.Some? && twitter.Some? ==> total == farcaster.value + twitter.value
  {
    farcaster.GetOr(0) + twitter.GetOr(0)
  }

  /** A known count never makes the total smaller than that count. */
  lemma FollowersCoverEach(farcaster: Option<nat>, twitter: Option<nat>)
    ensures farcaster.Some? ==> Followers(farcaster, twitter) >= farcaster.value
    ensures twitter.Some? ==> Followers(farcaster, twitter) >= twitter.value
  {
  }

  /** `updateCommunities`: each row gets its post count and follower total. */
  method UpdateCommunities(rows: array<CommunityRow>, postsForFid: int -> nat)
    modifies rows
    ensures forall k :: 0 <= k < rows.Length ==>
      rows[k] == old(rows[k]).(posts := postsForFid(old(rows[k]).fid),
                               followers := Followers(old(rows[k]).farcasterFollowers, old(rows[k]).twitterFollowers))
  {
    for k := 0 to rows.Length
      invariant forall m :: 0 <= m < k ==>
        rows[m] == old(rows[m]).(posts := postsForFid(old(rows[m]).fid),
                                 followers := Followers(old(rows[m]).farcasterFollowers, old(rows[m]).twitterFollowers))
      invariant forall m :: k <= m < rows.Length ==> rows[m] == old(rows[m])
    {
      var c := rows[k];
      rows[k] := c.(posts := postsForFid(c.fid), followers := Followers(c.farcasterFollowers, c.twitterFollowers));
    }
  }

  /** A token row; only its holder count is written back here. */
  datatype TokenRow = TokenRow(id: string, chainId: int, address: string, holders: nat)

  /** `holder_count ?? 0`. */
  function Holders(holderCount: Option<nat>): (n: nat)
    ensures holderCount.None? ==> n == 0
    ensures holderCount.Some? ==> n == holderCount.value
  {
    holderCount.GetOr(0)
  }

  /** `updateTokens`: each row gets the provider's holder count, or 0. */
  method UpdateTokens(rows: array<TokenRow>, holderCount: (int, string) -> Option<nat>)
    modifies rows
    ensures forall k :: 0 <= k < rows.Length ==>
      rows[k] == old(rows[k]).(holders := Holders(holderCount(old(rows[k]).chainId, old(rows[k]).address)))
  {
    for k := 0 to rows.Length
      invariant forall m :: 0 <= m < k ==>
        rows[m] == old(rows[m]).(holders := Holders(holderCount(old(rows[m]).chainId, old(rows[m]).address)))
      invariant forall m :: k <= m < rows.Length ==> rows[m] == old(rows[m])
    {
      var t := rows[k];
      rows[k] := t.(holders := Holders(holderCount(t.chainId, t.address)));
    }
  }

  /** A vault row with its post count. */
  datatype VaultRow = VaultRow(id: string, posts: nat)

  /** `updateVaults`: each row gets its post count. */
  method UpdateVaults(rows: array<VaultRow>, countPosts: string -> nat)
    modifies rows
    ensures forall k :: 0 <= k < rows.Length ==> rows[k] == old(rows[k]).(posts := countPosts(old(rows[k]).id))
  {
    for k := 0 to rows.Length
      invariant forall m :: 0 <= m < k ==> rows[m] == old(rows[m]).(posts := countPosts(old(rows[m]).id))
      invariant forall m :: k <= m < rows.Length ==> rows[m] == old(rows[m])
    {
      rows[k] := rows[k].(posts := countPosts(rows[k].id));
    }
  }
}
