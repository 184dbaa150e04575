/**
 * The credential picker of the new-post form
 * (packages/react/src/components/posts/new/credentials.tsx): which
 * credentials count as expired, how a press toggles the selection, and what
 * each listed credential and the trigger badge show.
 */
module Credentials {

  /**
   * `verified_at` as the picker sees it: absent (or empty), a string that is
   * not a date (its time is NaN, so no comparison holds), or a time in ms.
   */
  datatype VerifiedAt = Never | Unparseable | At(ms: int)

  /** The fields of a credential the picker reads. */
  datatype Credential = Credential(id: string, vaultId: string, verifiedAt: VerifiedAt)

  // ---------------------------------------------------------------------
  // Expiry
  // ---------------------------------------------------------------------

  /**
   * `isExpired` at time `now` (ms), where `ttl` is the expiration time
   * constant: verified, and the verification plus `ttl` lies strictly
   * before `now`.
   */
  predicate IsExpired(c: Credential, now: int, ttl: int)
    ensures IsExpired(c, now, ttl) <==> c.verifiedAt.At? && now - c.verifiedAt.ms > ttl
  {
    c.verifiedAt.At? && c.verifiedAt.ms + ttl < now
  }

  /** A credential that was never verified is not expired. */
  lemma UnverifiedNeverExpires(c: Credential, now: int, ttl: int)
    requires !c.verifiedAt.At?
    ensures !IsExpired(c, now, ttl)
  {
  }

  /** A verified credential is still fresh at exactly `ms + ttl` and expired one millisecond later. */
  lemma ExpiryBoundary(c: Credential, ttl: int)
    requires c.verifiedAt.At?
    ensures !IsExpired(c, c.verifiedAt.ms + ttl, ttl)
    ensures IsExpired(c, c.verifiedAt.ms + ttl + 1, ttl)
  {
  }

  /** Once expired, a credential stays expired as time goes on. */
  lemma ExpiryIsPermanent(c: Credential, now: int, later: int, ttl: int)
    requires IsExpired(c, now, ttl) && now <= later
    ensures IsExpired(c, later, ttl)
  {
  }

  /**
   * The system's design calls a credential usable when it has been verified
   * and less than `ttl` has passed since. Every usable credential is
   * unexpired here.
   */
  predicate Usable(c: Credential, now: int, ttl: int) {
    c.verifiedAt.At? && now - c.verifiedAt.ms < ttl
  }

  lemma UsableIsNotExpired(c: Credential, now: int, ttl: int)
    requires Usable(c, now, ttl)
    ensures !IsExpired(c, now, ttl)
  {
  }

  /**
   * The converse fails twice: a never-verified credential, and a verified
   * one at exactly `ms + ttl`, are selectable without being usable.
   */
  lemma NotExpiredYetUnusable(id: string, vault: string, t: int, ttl: int)
    ensures var never := Credential(id, vault, Never);
      !IsExpired(never, t, ttl) && !Usable(never, t, ttl)
    ensures var edge := Credential(id, vault, At(t));
      !IsExpired(edge, t + ttl, ttl) && !Usable(edge, t + ttl, ttl)
  {
  }

  // ---------------------------------------------------------------------
  // Selection by id
  // ---------------------------------------------------------------------

  /** `postCredentials.some((c) => c.id === id)`. */
  predicate HasId(selected: seq<Credential>, id: string)
    ensures HasId(selected, id) <==> exists c :: c in selected && c.id == id
  {
    exists k :: 0 <= k < |selected| && selected[k].id == id
  }

  /** No two selected credentials share an id. */
  predicate UniqueIds(selected: seq<Credential>) {
    forall j, k :: 0 <= j < k < |selected| ==> selected[j].id != selected[k].id
  }

  /**
   * `removeCredential`: the selection without the entries of that id,
   * keeping every entry of another id. (The new-post context that implements it is not part of
   * this model; it is taken to drop by id, as the picker tests by id.)
   */
  function WithoutId(selected: seq<Credential>, id: string): (r: seq<Credential>)
    ensures !HasId(r, id)
    ensures forall c :: c in r <==> c in selected && c.id != id
    ensures !HasId(selected, id) ==> r == selected
  {
    if |selected| == 0 then []
    else
      var rest := WithoutId(selected[1..], id);
      assert !HasId(selected, id) ==> !HasId(selected[1..], id) by {
        if HasId(selected[1..], id) {
          var k :| 0 <= k < |selected[1..]| && selected[1..][k].id == id;
          assert selected[k + 1].id == id;
        }
      }
      if selected[0].id == id then rest else [selected[0]] + rest
  }

  /** Dropping entries keeps the ids unique, and drops exactly one when the id was selected. */
  lemma {:induction false} WithoutIdUnique(selected: seq<Credential>, id: string)
    requires UniqueIds(selected)
    ensures UniqueIds(WithoutId(selected, id))
    ensures |WithoutId(selected, id)| == if HasId(selected, id) then |selected| - 1 else |selected|
    decreases |selected|
  {
    if |selected| > 0 {
      var tail := selected[1..];
      assert UniqueIds(tail) by {
        forall j, k | 0 <= j < k < |tail| ensures tail[j].id != tail[k].id {
          assert tail[j] == selected[j + 1] && tail[k] == selected[k + 1];
        }
      }
      WithoutIdUnique(tail, id);
      var rest := WithoutId(tail, id);
      if selected[0].id == id {
        assert !HasId(tail, id);
      } else {
        assert HasId(selected, id) <==> HasId(tail, id) by {
          if HasId(selected, id) {
            var k :| 0 <= k < |selected| && selected[k].id == id;
            assert tail[k - 1].id == id;
          }
          if HasId(tail, id) {
            var k :| 0 <= k < |tail| && tail[k].id == id;
            assert selected[k + 1].id == id;
          }
        }
        var r := [selected[0]] + rest;
        forall j, k | 0 <= j < k < |r| ensures r[j].id != r[k].id {
          if j == 0 {
            assert r[k] in rest;
            assert r[k] in tail;
            var m :| 0 <= m < |tail| && tail[m] == r[k];
            assert selected[m + 1] == r[k];
          } else {
            assert r[j] == rest[j - 1] && r[k] == rest[k - 1];
          }
        }
      }
    }
  }

  /** `handlePress` on the selection: remove when an entry has the id, add otherwise. */
  function Toggled(selected: seq<Credential>, c: Credential): (r: seq<Credential>)
    ensures HasId(r, c.id) <==> !HasId(selected, c.id)
    ensures forall d: Credential :: d.id != c.id ==> (d in r <==> d in selected)
  {
    if HasId(selected, c.id) then WithoutId(selected, c.id)
    else
      assert (selected + [c])[|selected|].id == c.id;
      selected + [c]
  }

  /** Toggling keeps ids unique. */
  lemma ToggledUnique(selected: seq<Credential>, c: Credential)
    requires UniqueIds(selected)
    ensures UniqueIds(Toggled(selected, c))
  {
    if HasId(selected, c.id) {
      WithoutIdUnique(selected, c.id);
    } else {
      var r := selected + [c];
      forall j, k | 0 <= j < k < |r| ensures r[j].id != r[k].id {
        if k == |selected| {
          assert r[j] == selected[j];
        }
      }
    }
  }

  /** Pressing a credential that was not selected twice restores the selection. */
  lemma {:induction false} ToggleTwice(selected: seq<Credential>, c: Credential)
    requires !HasId(selected, c.id)
    ensures Toggled(Toggled(selected, c), c) == selected
  {
    WithoutAppended(selected, c);
  }

  lemma {:induction false} WithoutAppended(selected: seq<Credential>, c: Credential)
    requires !HasId(selected, c.id)
    ensures WithoutId(selected + [c], c.id) == selected
    decreases |selected|
  {
    if |selected| == 0 {
      assert [c][1..] == [];
    } else {
      assert (selected + [c])[1..] == selected[1..] + [c];
      assert !HasId(selected[1..], c.id);
      assert selected[0].id != c.id;
      WithoutAppended(selected[1..], c);
    }
  }

  // ---------------------------------------------------------------------
  // What the picker shows
  // ---------------------------------------------------------------------

  /** The text of the trigger badge: a placeholder while nothing is selected. */
  function TriggerText(selected: seq<Credential>): (text: string)
    ensures text != "" <==> |selected| == 0
    ensures text != "" ==> text == "Select credential "
  {
    if |selected| == 0 then "Select credential " else ""
  }

  /** The status badge of a listed credential. */
  datatype StatusBadge = VaultBadge(vaultId: string) | ExpiredBadge

  /** One entry of the picker's list. */
  datatype Row = Row(badge: StatusBadge, checked: bool, pressable: bool)

  /**
   * The entry for `c`: exactly one status badge, a check mark (shown in both
   * layouts under the same test) when a selected credential has its id, and
   * a press handler that does something only when it is not expired.
   */
  function RowFor(c: Credential, selected: seq<Credential>, now: int, ttl: int): (row: Row)
    ensures row.badge == ExpiredBadge <==> IsExpired(c, now, ttl)
    ensures row.badge != ExpiredBadge ==> row.badge == VaultBadge(c.vaultId)
    ensures row.checked <==> HasId(selected, c.id)
    ensures row.pressable <==> row.badge.VaultBadge?
  {
    var expired := IsExpired(c, now, ttl);
    Row(if expired then ExpiredBadge else VaultBadge(c.vaultId), HasId(selected, c.id), !expired)
  }

  /** The whole list, one entry per known credential, in order. */
  function Listing(all: seq<Credential>, selected: seq<Credential>, now: int, ttl: int): (rows: seq<Row>)
    ensures |rows| == |all|
    ensures forall k :: 0 <= k < |all| ==> rows[k] == RowFor(all[k], selected, now, ttl)
  {
    seq(|all|, k requires 0 <= k < |all| => RowFor(all[k], selected, now, ttl))
  }

  // ---------------------------------------------------------------------
  // Picker state
  // ---------------------------------------------------------------------

  /**
   * `CredentialSelector` with the part of the new-post context it changes:
   * the selected credentials and whether the popover is open.
   */
  class CredentialSelector {
    var selected: seq<Credential>
    var isOpen: bool

    predicate Valid()
      reads this
    {
      UniqueIds(selected)
    }

    /** The selection comes from the new-post context; the popover starts closed. */
    constructor (initial: seq<Credential>)
      requires UniqueIds(initial)
      ensures Valid() && selected == initial && !isOpen
    {
      selected := initial;
      isOpen := false;
    }

    /** `onOpenChange` of the popover. */
    method SetOpen(value: bool)
      requires Valid()
      modifies this
      ensures Valid() && isOpen == value && selected == old(selected)
    {
      isOpen := value;
    }

    /** `handlePress`: toggle by id, then close the popover. */
    method HandlePress(c: Credential)
      requires Valid()
      modifies this
      ensures Valid() && !isOpen
      ensures selected == Toggled(old(selected), c)
      ensures HasId(old(selected), c.id) ==> selected == WithoutId(old(selected), c.id)
      ensures !HasId(old(selected), c.id) ==> selected == old(selected) + [c]
    {
      ToggledUnique(selected, c);
      if HasId(selected, c.id) {
        selected := WithoutId(selected, c.id);
      } else {
        selected := selected + [c];
      }
      isOpen := false;
    }

    /**
     * The `onPress` of a listed credential: expired ones are ignored.
     * `isExpired` is computed when the list is rendered and the press
     * handler captures it, so `now` is the clock at the last render, not
     * at the press.
     */
    method Press(c: Credential, now: int, ttl: int)
      requires Valid()
      modifies this
      ensures Valid()
      ensures IsExpired(c, now, ttl) ==> selected == old(selected) && isOpen == old(isOpen)
      ensures !IsExpired(c, now, ttl) ==> selected == Toggled(old(selected), c) && !isOpen
    {
      if IsExpired(c, now, ttl) {
        return;
      }
      HandlePress(c);
    }

    /** A press on a selected credential's badge in `NewPostCredentials` removes it. */
    method PressSelectedBadge(c: Credential)
      requires Valid()
      modifies this
      ensures Valid() && isOpen == old(isOpen)
      ensures selected == WithoutId(old(selected), c.id)
    {
      WithoutIdUnique(selected, c.id);
      selected := WithoutId(selected, c.id);
    }
  }
}
