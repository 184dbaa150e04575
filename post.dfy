/**
 * The client-side rules of a feed post (apps/next/components/post/index.tsx):
 * the token-balance gates on the privileged actions, the confirm buttons that
 * read the proof pipeline's status, the relative time label, the text
 * cleaner, the Twitter-embed lookup and the two confirmation dialogs.
 */
module Post {
  import opened Wrappers
  import Decimal

  // ---------------------------------------------------------------------
  // Action gating
  // ---------------------------------------------------------------------

  /** The privileged actions a post offers. */
  datatype ActionKind = Delete | Promote

  /** One entry of the per-token threshold table, keyed by token address. */
  datatype TokenConfig = TokenConfig(deleteAmount: int, promoteAmount: int)

  /** Looking up a token the table does not hold throws while rendering. */
  datatype GateError = UnconfiguredToken(address: string)

  function Threshold(entry: TokenConfig, kind: ActionKind): int {
    match kind
    case Delete => entry.deleteAmount
    case Promote => entry.promoteAmount
  }

  /** `!!balance` on an optional bigint: present and not zero. */
  predicate Truthy(balance: Option<int>)
    ensures Truthy(balance) <==> balance.GetOr(0) != 0
  {
    balance.Some? && balance.value != 0
  }

  /**
   * `canDelete` / `canPromote`: the balance is tested first, and only a
   * truthy balance consults the table, where a missing token throws.
   */
  function CanPerform(kind: ActionKind, config: map<string, TokenConfig>, token: string, balance: Option<int>): (r: Result<bool, GateError>)
    ensures r.Err? <==> balance.Some? && balance.value != 0 && token !in config
    ensures r.Err? ==> r.error == UnconfiguredToken(token)
    ensures r == Ok(true) <==>
      balance.Some? && balance.value != 0 && token in config && balance.value >= Threshold(config[token], kind)
  {
    if !Truthy(balance) then Ok(false)
    else if token !in config then Err(UnconfiguredToken(token))
    else Ok(balance.value >= Threshold(config[token], kind))
  }

  /** A zero or missing balance never enables an action, whatever the threshold. */
  lemma ZeroBalanceNeverEnables(kind: ActionKind, config: map<string, TokenConfig>, token: string, balance: Option<int>)
    requires balance == None || balance == Some(0)
    ensures CanPerform(kind, config, token, balance) == Ok(false)
  {
  }

  /** An unconfigured token never enables an action. */
  lemma UnconfiguredNeverEnables(kind: ActionKind, config: map<string, TokenConfig>, token: string, balance: Option<int>)
    requires token !in config
    ensures CanPerform(kind, config, token, balance) != Ok(true)
  {
  }

  /** Holding more never takes a permission away, as long as the balance stays non-zero. */
  lemma GateMonotone(kind: ActionKind, config: map<string, TokenConfig>, token: string, b: int, more: int)
    requires CanPerform(kind, config, token, Some(b)) == Ok(true)
    requires b <= more && more != 0
    ensures CanPerform(kind, config, token, Some(more)) == Ok(true)
  {
  }

  /** Which controls a post shows in its action row. */
  datatype Controls = Controls(quote: bool, reply: bool, promote: bool, delete: bool)

  /**
   * The action row of `Post`: Quote and Reply need a connected wallet,
   * Promote and Delete need their gates. Both gates are evaluated before
   * anything is rendered, so an unconfigured token fails the whole post.
   */
  function PostControls(connected: bool, config: map<string, TokenConfig>, token: string, balance: Option<int>): (r: Result<Controls, GateError>)
    ensures r.Err? <==> Truthy(balance) && token !in config
    ensures r.Ok? ==> r.value.quote == connected && r.value.reply == connected
    ensures r.Ok? ==> (r.value.delete <==> CanPerform(Delete, config, token, balance) == Ok(true))
    ensures r.Ok? ==> (r.value.promote <==> CanPerform(Promote, config, token, balance) == Ok(true))
  {
    if Truthy(balance) && token !in config then Err(UnconfiguredToken(token))
    else Ok(Controls(connected, connected,
                     CanPerform(Promote, config, token, balance) == Ok(true),
                     CanPerform(Delete, config, token, balance) == Ok(true)))
  }

  // ---------------------------------------------------------------------
  // Confirm buttons: the read side of the proof pipeline's status
  // ---------------------------------------------------------------------

  /** `deleteState.status` / `promoteState.status`. */
  datatype Status = Idle | Generating | Signature

  /** What the confirm button of a dialog shows. */
  datatype ButtonView = ButtonView(disabled: bool, spinner: bool, caption: string)

  function ActionName(kind: ActionKind): string {
    match kind
    case Delete => "Delete"
    case Promote => "Promote"
  }

  /** The confirm button of `DeleteButton` / `PromoteButton`. */
  function ConfirmButton(kind: ActionKind, status: Status): (b: ButtonView)
    ensures b.disabled <==> status != Idle
    ensures b.spinner <==> b.disabled
    ensures b.caption == ActionName(kind) <==> !b.disabled
    ensures status == Generating ==> b.caption == "Generating proof"
    ensures status == Signature ==> b.caption == "Awaiting signature"
  {
    match status
    case Generating => ButtonView(true, true, "Generating proof")
    case Signature => ButtonView(true, true, "Awaiting signature")
    case Idle => ButtonView(false, false, ActionName(kind))
  }

  // ---------------------------------------------------------------------
  // Relative time
  // ---------------------------------------------------------------------

  type Positive = n: int | n > 0 witness 1

  datatype Interval = Interval(suffix: string, seconds: Positive)

  /** The unit table of `timeAgo`, largest first, ending with the second. */
  function Intervals(): (table: seq<Interval>)
    ensures |table| == 6 && table[|table| - 1] == Interval("s", 1)
  {
    [ Interval("y", 31536000),
      Interval("mo", 2592000),
      Interval("d", 86400),
      Interval("h", 3600),
      Interval("m", 60),
      Interval("s", 1) ]
  }

  /** Unit `k` is the first in the table that fits at least once into `seconds`. */
  predicate FirstFit(seconds: int, k: nat)
    requires k < |Intervals()|
  {
    && seconds / Intervals()[k].seconds >= 1
    && forall j :: 0 <= j < k ==> seconds / Intervals()[j].seconds < 1
  }

  /** The table is strictly decreasing and ends at one second. */
  lemma IntervalsDescending()
    ensures forall j, k :: 0 <= j < k < |Intervals()| ==> Intervals()[j].seconds > Intervals()[k].seconds
    ensures Intervals()[|Intervals()| - 1].seconds == 1
  {
  }

  /** Every elapsed time of at least one second has a unit. */
  lemma FitExists(seconds: int)
    requires seconds >= 1
    ensures exists k :: 0 <= k < |Intervals()| && FirstFit(seconds, k)
  {
    var k := 0;
    while k < |Intervals()| - 1 && seconds / Intervals()[k].seconds < 1
      invariant 0 <= k <= |Intervals()| - 1
      invariant forall j :: 0 <= j < k ==> seconds / Intervals()[j].seconds < 1
    {
      k := k + 1;
    }
    assert FirstFit(seconds, k);
  }

  /** At most one unit is the first that fits. */
  lemma FirstFitUnique(seconds: int, j: nat, k: nat)
    requires j < |Intervals()| && k < |Intervals()|
    requires FirstFit(seconds, j) && FirstFit(seconds, k)
    ensures j == k
  {
  }

  /**
   * The chosen unit gives `count` whole units not exceeding the elapsed
   * time, and the elapsed time is below the next larger unit.
   */
  lemma FirstFitBounds(seconds: int, k: nat)
    requires k < |Intervals()| && FirstFit(seconds, k)
    ensures var unit := Intervals()[k].seconds; var count := seconds / unit;
      count >= 1 && count * unit <= seconds < (count + 1) * unit
    ensures k > 0 ==> seconds < Intervals()[k - 1].seconds
  {
    if k > 0 {
      assert seconds / Intervals()[k - 1].seconds < 1;
    }
  }

  /**
   * `timeAgo`, given the elapsed milliseconds `now - past`: whole seconds are
   * floored (the divisors are positive, so Dafny's division is the floor),
   * and the first unit whose count reaches one is written as `<count><unit> ago`.
   */
  method TimeAgo(elapsedMs: int) returns (text: string)
    ensures text == "just now" <==> elapsedMs < 1000
    ensures elapsedMs >= 1000 ==>
      exists k :: 0 <= k < |Intervals()| && FirstFit(elapsedMs / 1000, k)
        && text == Decimal.Show(elapsedMs / 1000 / Intervals()[k].seconds) + Intervals()[k].suffix + " ago"
  {
    var seconds := elapsedMs / 1000;
    for k := 0 to |Intervals()|
      invariant forall j :: 0 <= j < k ==> seconds / Intervals()[j].seconds < 1
    {
      var count := seconds / Intervals()[k].seconds;
      if count >= 1 {
        text := Decimal.Show(count) + Intervals()[k].suffix + " ago";
        assert FirstFit(seconds, k);
        assert Decimal.IsDigit(text[0]);
        return;
      }
    }
    assert seconds / Intervals()[5].seconds < 1;
    text := "just now";
  }

  // ---------------------------------------------------------------------
  // Text cleaning
  // ---------------------------------------------------------------------

  /** A UTF-16 code unit: `split('')` cuts a string into these. */
  type CodeUnit = u: int | 0 <= u < 0x1_0000

  /** The class `[\x20-\x7E]`. */
  predicate Printable(u: CodeUnit) {
    0x20 <= u <= 0x7E
  }

  predicate AllPrintable(text: seq<CodeUnit>) {
    forall k :: 0 <= k < |text| ==> Printable(text[k])
  }

  /** One unit of `cleanText`; `nfkc` stands for `normalize('NFKC')` of a one-unit string. */
  function CleanUnit(u: CodeUnit, nfkc: CodeUnit -> seq<CodeUnit>): (r: seq<CodeUnit>)
    ensures Printable(u) ==> r == [u]
    ensures !Printable(u) ==> r == nfkc(u)
  {
    if Printable(u) then [u] else nfkc(u)
  }

  /** `cleanText`: normalise every unit outside printable ASCII, keep the rest, join. */
  function CleanText(text: seq<CodeUnit>, nfkc: CodeUnit -> seq<CodeUnit>): (r: seq<CodeUnit>)
    ensures text == [] ==> r == []
    ensures AllPrintable(text) ==> r == text
  {
    if |text| == 0 then [] else CleanUnit(text[0], nfkc) + CleanText(text[1..], nfkc)
  }

  /** Cleaning works unit by unit: it distributes over concatenation. */
  lemma {:induction false} CleanTextAppend(a: seq<CodeUnit>, b: seq<CodeUnit>, nfkc: CodeUnit -> seq<CodeUnit>)
    ensures CleanText(a + b, nfkc) == CleanText(a, nfkc) + CleanText(b, nfkc)
    decreases |a|
  {
    if |a| > 0 {
      assert (a + b)[1..] == a[1..] + b;
      CleanTextAppend(a[1..], b, nfkc);
    } else {
      assert a + b == b;
    }
  }

  /** A printable unit stays where it is, between the cleaned text around it. */
  lemma CleanTextKeepsPrintable(before: seq<CodeUnit>, u: CodeUnit, after: seq<CodeUnit>, nfkc: CodeUnit -> seq<CodeUnit>)
    requires Printable(u)
    ensures CleanText(before + [u] + after, nfkc) == CleanText(before, nfkc) + [u] + CleanText(after, nfkc)
  {
    CleanTextAppend(before + [u], after, nfkc);
    CleanTextAppend(before, [u], nfkc);
  }

  /** Units the normaliser leaves as they are pass through as well. */
  lemma {:induction false} CleanTextFixedPoint(text: seq<CodeUnit>, nfkc: CodeUnit -> seq<CodeUnit>)
    requires forall k :: 0 <= k < |text| ==> nfkc(text[k]) == [text[k]]
    ensures CleanText(text, nfkc) == text
    decreases |text|
  {
    if |text| > 0 {
      CleanTextFixedPoint(text[1..], nfkc);
    }
  }

  // ---------------------------------------------------------------------
  // Twitter embed
  // ---------------------------------------------------------------------

  /** An embed of a cast; only its optional URL matters here. */
  datatype Embed = Embed(url: Option<string>)

  predicate StartsWith(s: string, prefix: string) {
    |prefix| <= |s| && s[..|prefix|] == prefix
  }

  /** `String.prototype.includes`: `part` occurs somewhere in `s`. */
  predicate Contains(s: string, part: string)
    ensures |part| == 0 ==> Contains(s, part)
    ensures Contains(s, part) ==> |part| <= |s|
    decreases |s|
  {
    StartsWith(s, part) || (|s| > 0 && Contains(s[1..], part))
  }

  /** `part` occurs in `s` starting at offset `i`. */
  predicate OccursAt(s: string, part: string, i: nat) {
    i + |part| <= |s| && s[i..i + |part|] == part
  }

  /** `Contains` finds exactly the occurrences at some offset. */
  lemma {:induction false} ContainsAt(s: string, part: string)
    ensures Contains(s, part) <==> exists i: nat :: OccursAt(s, part, i)
    decreases |s|
  {
    if StartsWith(s, part) {
      assert OccursAt(s, part, 0);
    }
    if |s| > 0 {
      ContainsAt(s[1..], part);
      if Contains(s[1..], part) {
        var i: nat :| OccursAt(s[1..], part, i);
        assert OccursAt(s, part, i + 1);
      }
      if exists i: nat :: OccursAt(s, part, i) {
        var i: nat :| OccursAt(s, part, i);
        if i > 0 {
          assert OccursAt(s[1..], part, i - 1);
        }
      }
    } else {
      if exists i: nat :: OccursAt(s, part, i) {
        var i: nat :| OccursAt(s, part, i);
        assert |part| == 0 && StartsWith(s, part);
      }
    }
  }

  /** The test of the `find` callback. */
  predicate IsTwitterLink(e: Embed)
    ensures IsTwitterLink(e) ==> e.url.Some? && |"x.com"| <= |e.url.value|
  {
    e.url.Some? && (Contains(e.url.value, "x.com") || Contains(e.url.value, "twitter.com"))
  }

  /** Embed `k` is a Twitter link and no earlier one is. */
  predicate FirstTwitterLinkAt(embeds: seq<Embed>, k: nat)
    requires k < |embeds|
  {
    IsTwitterLink(embeds[k]) && forall j :: 0 <= j < k ==> !IsTwitterLink(embeds[j])
  }

  /** `twitterEmbed`: the first embed whose URL mentions x.com or twitter.com. */
  function TwitterEmbed(embeds: seq<Embed>): (r: Option<Embed>)
    ensures r.None? <==> forall k :: 0 <= k < |embeds| ==> !IsTwitterLink(embeds[k])
    ensures r.Some? ==> exists k :: 0 <= k < |embeds| && embeds[k] == r.value && FirstTwitterLinkAt(embeds, k)
  {
    if |embeds| == 0 then None
    else if IsTwitterLink(embeds[0]) then Some(embeds[0])
    else
      var rest := TwitterEmbed(embeds[1..]);
      assert rest.Some? ==> exists k :: 1 <= k < |embeds| && embeds[k] == rest.value && FirstTwitterLinkAt(embeds, k) by {
        if rest.Some? {
          var k :| 0 <= k < |embeds[1..]| && embeds[1..][k] == rest.value && FirstTwitterLinkAt(embeds[1..], k);
          assert forall j :: 0 <= j < k + 1 ==> !IsTwitterLink(embeds[j]) by {
            forall j | 0 <= j < k + 1 ensures !IsTwitterLink(embeds[j]) {
              if j > 0 { assert embeds[j] == embeds[1..][j - 1]; }
            }
          }
          assert FirstTwitterLinkAt(embeds, k + 1);
        }
      }
      rest
  }

  /** The test is on substrings, not on host names: any URL containing "x.com" matches. */
  lemma SubstringMatchesOtherHosts()
    ensures IsTwitterLink(Embed(Some("https://netflix.com/title")))
  {
    var url := "https://netflix.com/title";
    assert OccursAt(url, "x.com", 14);
    ContainsAt(url, "x.com");
  }

  // ---------------------------------------------------------------------
  // Twitter embed by host
  // ---------------------------------------------------------------------

  /** The length of a leading `https://` or `http://`, or 0 without one. */
  function SchemeLength(url: string): (n: nat)
    ensures n <= |url|
    ensures n > 0 ==> StartsWith(url, "https://") || StartsWith(url, "http://")
  {
    if StartsWith(url, "https://") then 8
    else if StartsWith(url, "http://") then 7
    else 0
  }

  /** A character that ends the host part of a URL. */
  predicate EndsHost(ch: char) {
    ch == '/' || ch == '?' || ch == '#' || ch == ':'
  }

  /** The longest prefix of `s` that holds no character ending a host. */
  function HostPrefix(s: string): (h: string)
    ensures StartsWith(s, h)
    ensures forall i :: 0 <= i < |h| ==> !EndsHost(h[i])
    ensures |h| < |s| ==> EndsHost(s[|h|])
  {
    if |s| == 0 || EndsHost(s[0]) then [] else [s[0]] + HostPrefix(s[1..])
  }

  /** The host of a URL: what follows the scheme, up to a path, query, fragment or port. */
  function Host(url: string): (h: string)
    ensures OccursAt(url, h, SchemeLength(url))
  {
    var n := SchemeLength(url);
    var h := HostPrefix(url[n..]);
    assert url[n..][..|h|] == url[n..n + |h|];
    h
  }

  /** Twitter's own host names. */
  predicate TwitterHost(h: string) {
    h == "x.com" || h == "www.x.com" || h == "twitter.com" || h == "www.twitter.com" || h == "mobile.twitter.com"
  }

  /** The test the embed search evidently intends: the URL's host is Twitter's. */
  predicate IsTweetLink(e: Embed) {
    e.url.Some? && TwitterHost(Host(e.url.value))
  }

  /** The host test only narrows the substring test: every tweet link is matched as written. */
  lemma TweetLinkIsTwitterLink(e: Embed)
    requires IsTweetLink(e)
    ensures IsTwitterLink(e)
  {
    var url := e.url.value;
    var n := SchemeLength(url);
    var h := Host(url);
    var part: string, j: nat;
    if h == "x.com" || h == "twitter.com" {
      part, j := h, 0;
    } else if h == "www.x.com" {
      part, j := "x.com", 4;
      assert h[4..9] == part;
    } else if h == "www.twitter.com" {
      part, j := "twitter.com", 4;
      assert h[4..15] == part;
    } else {
      part, j := "twitter.com", 7;
      assert h[7..18] == part;
    }
    assert url[n + j..n + j + |part|] == url[n..n + |h|][j..j + |part|];
    assert OccursAt(url, part, n + j);
    ContainsAt(url, part);
  }

  /** A host that merely contains "x.com" is no tweet link. */
  lemma OtherHostIsNoTweet()
    ensures !IsTweetLink(Embed(Some("https://netflix.com/title")))
  {
    var url := "https://netflix.com/title";
    assert StartsWith(url, "https://");
    var h := HostPrefix(url[8..]);
    assert url[8..][0] == 'n';
    assert |h| > 0 && h[0] == 'n';
  }

  /** A link to x.com is a tweet link. */
  lemma XLinkIsTweet()
    ensures IsTweetLink(Embed(Some("https://x.com/anon/status/1")))
  {
    var url := "https://x.com/anon/status/1";
    assert StartsWith(url, "https://");
    var s := url[8..];
    var h := HostPrefix(s);
    assert s[..5] == "x.com" && s[5] == '/';
    assert h == s[..5];
  }

  // ---------------------------------------------------------------------
  // Confirmation dialogs
  // ---------------------------------------------------------------------

  /** What a confirmed dialog hands to the proof pipeline. */
  datatype Request = DeleteRequest(hash: string) | PromoteRequest(hash: string, asReply: bool)

  const DeleteToast: string := "Post will be deleted in 1-2 minutes"
  const PromoteToast: string := "Post will be promoted in 1-2 minutes"

  /** `DeleteButton`: the dialog's `open` flag around `handleDelete`. */
  class DeleteDialog {
    const hash: string
    var open: bool

    constructor (hash: string)
      ensures this.hash == hash && !open
    {
      this.hash := hash;
      open := false;
    }

    /** `onOpenChange`. */
    method SetOpen(value: bool)
      modifies this
      ensures open == value
    {
      open := value;
    }

    /**
     * A click on the confirm button while the pipeline has status `status`.
     * A disabled button ignores the click. Otherwise the request is issued;
     * only when it `settled` (the awaited call returned) is the toast shown
     * and the dialog closed.
     */
    method Confirm(status: Status, settled: bool) returns (request: Option<Request>, toast: Option<string>)
      modifies this
      ensures request == (if ConfirmButton(Delete, status).disabled then None else Some(DeleteRequest(hash)))
      ensures toast == (if status == Idle && settled then Some(DeleteToast) else None)
      ensures open == (if status == Idle && settled then false else old(open))
    {
      request, toast := None, None;
      if !ConfirmButton(Delete, status).disabled {
        request := Some(DeleteRequest(hash));
        if settled {
          toast := Some(DeleteToast);
          open := false;
        }
      }
    }
  }

  /** `PromoteButton`: `open` and the "Promote as reply" choice around `handlePromote`. */
  class PromoteDialog {
    const hash: string
    const embeds: seq<Embed>
    var open: bool
    var asReply: bool

    /** The reply option can only be on when its checkbox is shown. */
    predicate Valid()
      reads this
    {
      asReply ==> ShowsReplyOption()
    }

    /** The checkbox is rendered only when the cast has a Twitter embed. */
    predicate ShowsReplyOption() {
      TwitterEmbed(embeds).Some?
    }

    constructor (hash: string, embeds: seq<Embed>)
      ensures this.hash == hash && this.embeds == embeds
      ensures Valid() && !open && !asReply
    {
      this.hash := hash;
      this.embeds := embeds;
      open := false;
      asReply := false;
    }

    /** `onOpenChange`. */
    method SetOpen(value: bool)
      requires Valid()
      modifies this
      ensures Valid() && open == value && asReply == old(asReply)
    {
      open := value;
    }

    /** `onCheckedChange` of the checkbox, which exists only with a Twitter embed. */
    method SetAsReply(checked: bool)
      requires Valid()
      modifies this
      ensures Valid() && open == old(open)
      ensures asReply == (if ShowsReplyOption() then checked else old(asReply))
    {
      if ShowsReplyOption() {
        asReply := checked;
      }
    }

    /** Like `DeleteDialog.Confirm`; the request carries the reply choice. */
    method Confirm(status: Status, settled: bool) returns (request: Option<Request>, toast: Option<string>)
      requires Valid()
      modifies this
      ensures Valid() && asReply == old(asReply)
      ensures request == (if ConfirmButton(Promote, status).disabled then None else Some(PromoteRequest(hash, asReply)))
      ensures request.Some? && request.value.asReply ==> TwitterEmbed(embeds).Some?
      ensures toast == (if status == Idle && settled then Some(PromoteToast) else None)
      ensures open == (if status == Idle && settled then false else old(open))
    {
      request, toast := None, None;
      if !ConfirmButton(Promote, status).disabled {
        request := Some(PromoteRequest(hash, asReply));
        if settled {
          toast := Some(PromoteToast);
          open := false;
        }
      }
    }
  }
}
