# anonworld client rules, modelled in Dafny

anonworld lets a pseudonymous poster prove that a wallet they control holds
enough of a token, and use that proof to delete or promote their posts. This
project models the small, exact rules that the client applies around that
flow, and one background script:

- `post.dfy` (module `Post`, from `apps/next/components/post/index.tsx`):
  - the `canDelete` / `canPromote` gates, which compare the wallet's token
    balance with the per-token threshold table;
  - which controls a post shows;
  - the confirm buttons, which read the proof pipeline's status
    (`idle | generating | signature`);
  - `timeAgo`, `cleanText` and `twitterEmbed`;
  - the `open` / `asReply` state of the delete and promote dialogs.
- `credentials.dfy` (module `Credentials`, from
  `packages/react/src/components/posts/new/credentials.tsx`):
  - the `isExpired` test;
  - the credential picker as a small state object, holding the selected
    credentials and the popover's `isOpen` flag;
  - how a press toggles the selection by id, and how expired credentials
    ignore presses;
  - what each listed credential and the trigger badge show.
- `updates.ts` is modelled in `updates.dfy` (module `Updates`, from
  `packages/api/scripts/updates.ts`):
  - which jobs each pass of the endless refresh loop runs, and in which
    order;
  - how a thrown error ends only the current pass;
  - the follower and holder arithmetic of the rows the jobs write back.
- `decimal.dfy` (module `Decimal`): how `timeAgo` writes its integer count,
  as decimal digits without a leading zero.
- `wrappers.dfy` (module `Wrappers`): `Option` and `Result`.

Clocks, the NFKC normaliser, wallet hooks, the database and the network all
become parameters:
- `elapsedMs` and `now` are times in milliseconds;
- `nfkc` maps one UTF-16 code unit to the code units it normalises to;
- `balance` and `connected` stand for the wallet hooks;
- `fails(iteration, job)` says whether a database or network job throws;
- `postsForFid`, `holderCount` and `countPosts` are provider answers.

The expiration constant `CREDENTIAL_EXPIRATION_TIME` is defined in a utils
module that is not part of this model. It is the parameter `ttl`.

Where the system's design description and the code differ, the model
follows the code:
- The design calls a credential usable when it is verified and
  `now - verified_at < TTL`. The picker's `isExpired` is
  `verified_at + TTL < now`, and it is false when `verified_at` is absent.
  So a never-verified credential is selectable, and so is one at exactly
  `verified_at + TTL`. `Credentials.UsableIsNotExpired` and
  `Credentials.NotExpiredYetUnusable` state both directions.
- The design says an unconfigured token fails closed. In the code, a
  truthy balance with an unconfigured token throws while rendering.
  `Post.CanPerform` returns `Err(UnconfiguredToken)` there.
- The gates compare the wallet's live balance, not a credential's claimed
  balance. `!!balance` also rejects a zero balance even when the threshold
  is zero.

## Model

| member | source | states |
|---|---|---|
| `Post.Truthy` | apps/next/components/post/index.tsx:42-46 | `!!balance` holds exactly when the balance, defaulted to 0 when missing, is non-zero |
| `Post.CanPerform` | apps/next/components/post/index.tsx:42-46 | true exactly when the balance is present, non-zero and at least the token's delete/promote threshold; an error exactly when a truthy balance meets an unconfigured token; a falsy balance never consults the table |
| `Post.ZeroBalanceNeverEnables` | apps/next/components/post/index.tsx:42-46 | a missing or zero balance yields false for both actions, whatever the thresholds (even zero) and even for an unconfigured token |
| `Post.UnconfiguredNeverEnables` | apps/next/components/post/index.tsx:42-46 | an unconfigured token never enables an action |
| `Post.GateMonotone` | apps/next/components/post/index.tsx:42-46 | a larger non-zero balance keeps every permission a smaller one had |
| `Post.PostControls` | apps/next/components/post/index.tsx:197-216 | Quote and Reply appear exactly when a wallet is connected; Promote and Delete appear exactly when their gates hold; the whole post fails exactly when a truthy balance meets an unconfigured token |
| `Post.ConfirmButton` | apps/next/components/post/index.tsx:282-296 | the button is disabled exactly when the status is not idle, shows a spinner exactly when disabled, and shows the action's own name (Delete/Promote, lines 353-366 alike) exactly when enabled; "Generating proof" and "Awaiting signature" for the two busy states |
| `Post.Intervals` | apps/next/components/post/index.tsx:231-238 | the six units y, mo, d, h, m, s in table order, the last being one second |
| `Post.IntervalsDescending` | apps/next/components/post/index.tsx:231-238 | the unit table is strictly decreasing and ends at one second |
| `Post.FitExists` | apps/next/components/post/index.tsx:231-245 | every elapsed time of at least one second has a first fitting unit |
| `Post.FirstFitUnique` | apps/next/components/post/index.tsx:240-245 | the first fitting unit is unique |
| `Post.FirstFitBounds` | apps/next/components/post/index.tsx:240-244 | for the chosen unit, count ≥ 1 and count·unit ≤ seconds < (count+1)·unit, and the elapsed time is below the next larger unit |
| `Post.TimeAgo` | apps/next/components/post/index.tsx:226-248 | the text is "just now" exactly when less than one whole second (1000 ms) elapsed; otherwise it is the decimal count of the first fitting unit followed by that unit and " ago" |
| `Decimal.Show` | apps/next/components/post/index.tsx:243 | the count is written as at least one decimal digit, with no leading zero |
| `Decimal.ValueOfShow` | apps/next/components/post/index.tsx:243 | reading the written count back gives the count |
| `Decimal.ShowInjective` | apps/next/components/post/index.tsx:243 | different counts give different texts |
| `Post.CleanUnit` | apps/next/components/post/index.tsx:55-62 | a code unit in 0x20..0x7E is kept as it is; any other unit is replaced by its normal form |
| `Post.CleanText` | apps/next/components/post/index.tsx:49-64 | empty text gives empty text; text made only of printable ASCII is returned unchanged |
| `Post.CleanTextAppend` | apps/next/components/post/index.tsx:53-63 | cleaning works unit by unit: cleaning a concatenation is the concatenation of the cleaned parts |
| `Post.CleanTextKeepsPrintable` | apps/next/components/post/index.tsx:57-61 | a printable unit stays in place between the cleaned text before and after it |
| `Post.CleanTextFixedPoint` | apps/next/components/post/index.tsx:53-63 | text whose units the normaliser leaves alone is returned unchanged |
| `Post.Contains` | apps/next/components/post/index.tsx:319 | `includes`: the empty string occurs in every string, and a part longer than the string never occurs |
| `Post.ContainsAt` | apps/next/components/post/index.tsx:319 | `includes` holds exactly when the part occurs at some offset |
| `Post.IsTwitterLink` | apps/next/components/post/index.tsx:318-320 | the `find` callback: an embed with no URL never matches, and a matching URL contains "x.com" or "twitter.com" |
| `Post.TwitterEmbed` | apps/next/components/post/index.tsx:318-320 | absent exactly when no embed URL contains "x.com" or "twitter.com"; otherwise the embed at the first index whose URL does, with no earlier one matching |
| `Post.SubstringMatchesOtherHosts` | apps/next/components/post/index.tsx:319 | the test is on substrings: a netflix.com URL counts as a Twitter embed |
| `Post.Host` | apps/next/components/post/index.tsx:318-320 | the host of a URL is the text right after its `https://` or `http://` scheme, up to a path, query, fragment or port |
| `Post.TweetLinkIsTwitterLink` | apps/next/components/post/index.tsx:318-320 | every URL whose host is x.com or twitter.com (with `www.` or `mobile.`) is matched by the substring test as written |
| `Post.OtherHostIsNoTweet` | apps/next/components/post/index.tsx:318-320 | with the host test, a netflix.com URL is no Twitter embed |
| `Post.XLinkIsTweet` | apps/next/components/post/index.tsx:318-320 | with the host test, a link to an x.com status is a Twitter embed |
| `Post.DeleteDialog.constructor` | apps/next/components/post/index.tsx:253 | the dialog starts closed |
| `Post.DeleteDialog.SetOpen` | apps/next/components/post/index.tsx:264 | opening and closing set `open` |
| `Post.DeleteDialog.Confirm` | apps/next/components/post/index.tsx:255-261 | a click on a disabled button does nothing; otherwise the delete request for this post is issued, and only once it has settled is the toast shown and the dialog closed |
| `Post.PromoteDialog.constructor` | apps/next/components/post/index.tsx:307-308 | the dialog starts closed with the reply option off |
| `Post.PromoteDialog.SetOpen` | apps/next/components/post/index.tsx:323 | opening and closing set `open` and keep the reply choice |
| `Post.PromoteDialog.SetAsReply` | apps/next/components/post/index.tsx:336-342 | the checkbox exists, and so changes the choice, only when the cast has a Twitter embed; the invariant "reply only with a Twitter embed" is kept |
| `Post.PromoteDialog.Confirm` | apps/next/components/post/index.tsx:310-316 | like delete, with the request carrying the reply choice; a request asks to reply only when a Twitter embed exists |
| `Credentials.IsExpired` | packages/react/src/components/posts/new/credentials.tsx:97-100 | a credential is expired exactly when it was verified and its age at `now` exceeds the expiration time |
| `Credentials.UnverifiedNeverExpires` | packages/react/src/components/posts/new/credentials.tsx:97-100 | a credential without a usable `verified_at` is never expired |
| `Credentials.ExpiryBoundary` | packages/react/src/components/posts/new/credentials.tsx:97-100 | the comparison is strict: not expired at exactly `verified_at + ttl`, expired one millisecond later |
| `Credentials.ExpiryIsPermanent` | packages/react/src/components/posts/new/credentials.tsx:97-100 | once expired, a credential stays expired as time goes on |
| `Credentials.UsableIsNotExpired` | packages/react/src/components/posts/new/credentials.tsx:97-100 | every credential the design calls usable is unexpired for the picker |
| `Credentials.NotExpiredYetUnusable` | packages/react/src/components/posts/new/credentials.tsx:97-100 | the converse fails: a never-verified credential and one at the exact boundary are unexpired yet not usable |
| `Credentials.HasId` | packages/react/src/components/posts/new/credentials.tsx:39 | the `some` test: some selected credential has the id |
| `Credentials.WithoutId` | packages/react/src/components/posts/new/credentials.tsx:40 | removal leaves no entry with the id, keeps exactly the entries with other ids, and changes nothing when the id was not selected |
| `Credentials.WithoutIdUnique` | packages/react/src/components/posts/new/credentials.tsx:38-45 | removal keeps ids unique and removes exactly one entry when the id was selected |
| `Credentials.Toggled` | packages/react/src/components/posts/new/credentials.tsx:38-43 | after a press the id is selected exactly when it was not before, and credentials with other ids are untouched |
| `Credentials.ToggledUnique` | packages/react/src/components/posts/new/credentials.tsx:38-45 | toggling keeps the ids of the selection unique |
| `Credentials.ToggleTwice` | packages/react/src/components/posts/new/credentials.tsx:38-43 | pressing an unselected credential twice restores the selection exactly |
| `Credentials.WithoutAppended` | packages/react/src/components/posts/new/credentials.tsx:39-42 | adding a credential and then removing its id gives back the selection |
| `Credentials.TriggerText` | packages/react/src/components/posts/new/credentials.tsx:51 | the "Select credential " placeholder is shown exactly when nothing is selected |
| `Credentials.RowFor` | packages/react/src/components/posts/new/credentials.tsx:118-150 | a listed credential shows the Expired badge exactly when it is expired and its vault badge otherwise; the check mark appears exactly when a selected credential has its id; the row responds to presses exactly when not expired |
| `Credentials.Listing` | packages/react/src/components/posts/new/credentials.tsx:96-154 | one row per known credential, in order, each as above |
| `Credentials.CredentialSelector.constructor` | packages/react/src/components/posts/new/credentials.tsx:35-36 | the selection is the new-post context's current one, with unique ids; the popover starts closed |
| `Credentials.CredentialSelector.SetOpen` | packages/react/src/components/posts/new/credentials.tsx:48 | the popover's open change sets `isOpen` and keeps the selection |
| `Credentials.CredentialSelector.HandlePress` | packages/react/src/components/posts/new/credentials.tsx:38-45 | removes by id when a selected credential has the id, appends otherwise, always closes the popover, and keeps ids unique |
| `Credentials.CredentialSelector.Press` | packages/react/src/components/posts/new/credentials.tsx:110-113 | a press on an expired credential changes neither the selection nor the popover; any other press is `HandlePress` |
| `Credentials.CredentialSelector.PressSelectedBadge` | packages/react/src/components/posts/new/credentials.tsx:23 | pressing a selected credential's badge removes its id and keeps the popover state |
| `Updates.Schedule` | packages/api/scripts/updates.ts:102-112 | every pass begins with feeds and then communities |
| `Updates.ScheduleMembers` | packages/api/scripts/updates.ts:103-112 | feeds and communities are in every pass; tokens exactly when `i % 10 == 0`; Farcaster accounts, Twitter accounts and vaults exactly when `i % 20 == 0` |
| `Updates.ScheduleOrdered` | packages/api/scripts/updates.ts:102-112 | jobs run in the order feeds, communities, tokens, Farcaster, Twitter, vaults |
| `Updates.AccountPassesRefreshTokens` | packages/api/scripts/updates.ts:105-112 | every pass that refreshes accounts and vaults also refreshes tokens |
| `Updates.Attempted` | packages/api/scripts/updates.ts:102-115 | a pass starts at most its scheduled jobs, and at least one |
| `Updates.AttemptedSteps` | packages/api/scripts/updates.ts:102-115 | a pass starts its jobs in schedule order; every step but the last completed; it stops short of its schedule only at a job that threw |
| `Updates.AttemptedCons` | packages/api/scripts/updates.ts:102-104 | a job is started and the next is reached only if it completed |
| `Updates.CleanPassRunsAll` | packages/api/scripts/updates.ts:102-112 | a pass in which nothing throws runs its whole schedule, every job completing |
| `Updates.Await` | packages/api/scripts/updates.ts:103-111 | an awaited job inside `try` is skipped once an earlier one threw, and otherwise logged with its outcome |
| `Updates.RunPass` | packages/api/scripts/updates.ts:101-116 | one pass logs exactly the scheduled jobs up to and including the first that throws, and reports a caught error exactly when a logged job failed |
| `Updates.MainLoop` | packages/api/scripts/updates.ts:99-121 | after n passes the counter is n, whatever failed, and the log is the passes one after another |
| `Updates.TraceFollowsSchedule` | packages/api/scripts/updates.ts:99-121 | every logged job belongs to the schedule of its own pass, and that pass has already run |
| `Updates.AttemptedFromJobs` | packages/api/scripts/updates.ts:102-115 | a pass only starts jobs of its own schedule |
| `Updates.PassInTrace` | packages/api/scripts/updates.ts:99-121 | what a pass did stays in the log of every later point |
| `Updates.FeedsEveryPass` | packages/api/scripts/updates.ts:101-119 | an error never stops the loop: every pass starts the feeds job, whatever earlier passes did |
| `Updates.TokensOnlyEveryTenth` | packages/api/scripts/updates.ts:105-107 | tokens are refreshed only on passes with `i % 10 == 0` |
| `Updates.AccountsOnlyEveryTwentieth` | packages/api/scripts/updates.ts:108-112 | accounts and vaults are refreshed only on passes with `i % 20 == 0` |
| `Updates.TokensWhenDue` | packages/api/scripts/updates.ts:103-107 | on a tenth pass whose feeds and communities complete, tokens are refreshed |
| `Updates.Followers` | packages/api/scripts/updates.ts:35-36 | the follower total is the sum of the Farcaster and Twitter counts, a missing one counting as 0 |
| `Updates.FollowersCoverEach` | packages/api/scripts/updates.ts:35-36 | the total is at least each known count |
| `Updates.UpdateCommunities` | packages/api/scripts/updates.ts:30-42 | every community row gets its post count and its follower total, and nothing else changes |
| `Updates.Holders` | packages/api/scripts/updates.ts:25 | a missing holder count becomes 0; a given one is kept |
| `Updates.UpdateTokens` | packages/api/scripts/updates.ts:15-28 | every token row gets its holder count from the provider, 0 when omitted |
| `Updates.UpdateVaults` | packages/api/scripts/updates.ts:88-97 | every vault row gets its post count |

## Left out

- `formatNumber` (apps/next/components/post/index.tsx:23-30) is left out. It uses floating-point `Math.log10` and `toFixed`.
- The ERC20 amount display (credentials.tsx:161-190) is left out. It uses floating-point `parseFloat` of `formatUnits`.
- The price, market-cap and total-supply rounding in `updateTokens` is left out. It is floating-point; only `holders` is modelled.
- NFKC normalisation is left out. It is the parameter `nfkc`.
- `Date`, `Date.now` and `new Date(...).getTime()` are clock and parsing calls. They are the parameters `elapsedMs` and `now`.
- Post.TimeAgo: a timestamp that does not parse gives a NaN elapsed time in the source, which then returns "just now"; the model takes an integer elapsed time, so this input is not represented.
- Credentials: an empty `verified_at` string is folded into `Never`; both are falsy in the source.
- `CREDENTIAL_EXPIRATION_TIME` and `TOKEN_CONFIG` live in modules that are not part of this model. They are the parameters `ttl` and `config`.
- Post: a threshold that `BigInt` cannot convert would throw. Thresholds are modelled as integers.
- `addCredential` and `removeCredential` live in the new-post context, which is not part of this model. They are modelled as append and as drop-by-id.
- Credentials.CredentialSelector.constructor: the context's initial selection is not part of this model. It is a parameter, taken to have unique ids, and the context is taken to change it only through the picker's presses and badge removals.
- `useBalance`, `useAccount`, `usePost` and `useCredentials` are hooks. Their values are parameters.
- The status transitions of the proof pipeline are not in these files, only read here.
- Proof generation, wallet signing, the server-side authorization engine and the action executor are not in these files.
- Reply and quote (`setParent`, `setQuote`, `window.scrollTo`) only hand the cast to a context that is not part of this model.
- JSX layout, styling, popovers, sheets and toasts beyond their title are left out.
- Post.TwitterEmbed: `cast.embeds?.find` on a missing list gives no embed. `PromoteButton` is rendered only by `Post` (index.tsx:215), and `Post` maps over `cast.embeds` unguarded (index.tsx:100), so the list is modelled as always present.
- `updateFeeds`, `updateFarcasterAccounts` and `updateTwitterAccounts` only copy provider data. They stay opaque steps of the schedule.
- Updates: each job is one step that completes or throws. A job that throws partway through its row list leaves the rows before that point updated; this is not modelled.
- `UpdateCommunities`, `UpdateTokens` and `UpdateVaults` model a job that completes.
- Updates.MainLoop: the loop is endless. The model runs its first n passes and leaves out the 30-second sleep and the console logging.
- Updates: the counter is a JavaScript number. Precision loss past 2^53 passes is not modelled.
- `packages/react/src/components/communities/display/index.tsx`, `apps/anonworld/app/layout.tsx` and `packages/react/src/providers/index.tsx` are left out. They are UI and provider composition with no rules.

## Findings

| source | as written | input that shows it | evidently intended | confidence | as-written member | corrected member |
|---|---|---|---|---|---|---|
| apps/next/components/post/index.tsx:318-320 | an embed is a Twitter embed when its URL contains "x.com" or "twitter.com" anywhere | `https://netflix.com/title` (also box.com, max.com, fox.com) contains "x.com", so "Promote as reply" is offered for a post that embeds no tweet | the URL's host is x.com or twitter.com, possibly with `www.` or `mobile.` | medium, not executed | `Post.SubstringMatchesOtherHosts` (about `Post.IsTwitterLink`) | `Post.IsTweetLink`, with `Post.OtherHostIsNoTweet`, `Post.XLinkIsTweet` and `Post.TweetLinkIsTwitterLink` |

The dialogs keep the substring test, because that is what the client
does. The host test only narrows it: every link it accepts is also accepted
as written (`Post.TweetLinkIsTwitterLink`).
