/** The list of shares grouped by owner, and the selection it keeps
    (src/components/modals/shared-address-books-add/users-shares-list.tsx). */
module UsersSharesList {
  import opened Wrappers
  import opened Sequences
  import opened Shares

  /** The selection after `onSelect(share)`: unchanged when the share is already
      selected, otherwise the share appended at the end. */
  function Selected(selection: seq<ShareInfo>, share: ShareInfo): (r: seq<ShareInfo>)
    ensures share in r
    ensures share in selection ==> r == selection
    ensures share !in selection ==> |r| == |selection| + 1 && r[..|selection|] == selection && r[|selection|] == share
    ensures NoDuplicates(selection) ==> NoDuplicates(r)
  {
    if IndexOf(selection, share) >= 0 then selection else selection + [share]
  }

  /** The selection after `onDeselect(share)`: unchanged when the share is not
      selected, otherwise the selection with that share's first occurrence spliced out. */
  function Deselected(selection: seq<ShareInfo>, share: ShareInfo): (r: seq<ShareInfo>)
    ensures share !in selection ==> r == selection
    ensures share in selection ==> |r| == |selection| - 1
    ensures multiset(r) == multiset(selection) - multiset{share}
    ensures IsSubsequence(r, selection)
    ensures NoDuplicates(selection) ==> NoDuplicates(r) && share !in r
  {
    var i := IndexOf(selection, share);
    if i < 0 then
      SubsequenceOfSelf(selection);
      selection
    else
      RemoveAtMultiset(selection, i);
      RemoveAtIsSubsequence(selection, i);
      RemoveAtNoDuplicates(selection, i);
      RemoveAt(selection, i)
  }

  /** Selecting a share that was not selected and then deselecting it gives back
      the selection as it was. */
  lemma SelectThenDeselect(selection: seq<ShareInfo>, share: ShareInfo)
    requires share !in selection
    ensures Deselected(Selected(selection, share), share) == selection
  {
    var s := Selected(selection, share);
    assert IndexOf(s, share) == |selection| by {
      assert share !in s[..|selection|];
    }
  }

  /** A user action on the list. */
  datatype SelectionEvent = Select(share: ShareInfo) | Deselect(share: ShareInfo)

  /** The selection after a series of actions, applied in order. */
  function Replay(selection: seq<ShareInfo>, events: seq<SelectionEvent>): seq<ShareInfo>
    decreases |events|
  {
    if events == [] then selection
    else
      var next := match events[0]
        case Select(s) => Selected(selection, s)
        case Deselect(s) => Deselected(selection, s);
      Replay(next, events[1..])
  }

  /** No series of selections and deselections creates a duplicate. */
  lemma {:induction false} ReplayNoDuplicates(selection: seq<ShareInfo>, events: seq<SelectionEvent>)
    requires NoDuplicates(selection)
    ensures NoDuplicates(Replay(selection, events))
    decreases |events|
  {
    if events != [] {
      var next := match events[0]
        case Select(s) => Selected(selection, s)
        case Deselect(s) => Deselected(selection, s);
      ReplayNoDuplicates(next, events[1..]);
    }
  }

  /** The selection the list keeps across renders (`selectionRef.current`),
      changed in place by `onSelect` and `onDeselect`. */
  class Selection {
    var current: seq<ShareInfo>

    ghost predicate Valid()
      reads this
    {
      NoDuplicates(current)
    }

    /** `useRef([])`: the selection starts empty. */
    constructor ()
      ensures Valid() && current == []
    {
      current := [];
    }

    /** `onSelect`: appends the share unless it is selected already. `notified`
        is the argument passed to `onSelectionChange`, or None when it is not called. */
    method OnSelect(share: ShareInfo) returns (notified: Option<seq<ShareInfo>>)
      requires Valid()
      modifies this
      ensures Valid()
      ensures current == Selected(old(current), share)
      ensures notified == if share in old(current) then None else Some(current)
    {
      var shareIndex := IndexOf(current, share);
      if shareIndex >= 0 {
        return None;
      }
      current := current + [share];
      notified := Some(current);
    }

    /** `onDeselect`: removes the share if it is selected. `notified` is the argument
        passed to `onSelectionChange`, or None when it is not called. */
    method OnDeselect(share: ShareInfo) returns (notified: Option<seq<ShareInfo>>)
      requires Valid()
      modifies this
      ensures Valid()
      ensures current == Deselected(old(current), share)
      ensures notified == if share in old(current) then Some(current) else None
    {
      var shareIndex := IndexOf(current, share);
      if shareIndex < 0 {
        return None;
      }
      current := RemoveAt(current, shareIndex);
      notified := Some(current);
    }
  }

  /** The key lodash's `groupBy` files a share under: its owner name, or the
      string "undefined" when it has none (object keys are strings). */
  function GroupKey(share: ShareInfo): string
  {
    match share.ownerName
    case Some(name) => name
    case None => "undefined"
  }

  /** The shares of one group, in input order. */
  function SharesOf(shares: seq<ShareInfo>, key: string): seq<ShareInfo>
  {
    Filter(shares, (s: ShareInfo) => GroupKey(s) == key)
  }

  /** `groupBy(shares, share => share.ownerName)`: each share is pushed onto the
      group of its key, creating the group when it is the first. */
  function GroupBy(shares: seq<ShareInfo>): (groups: map<string, seq<ShareInfo>>)
    ensures forall i :: 0 <= i < |shares| ==> GroupKey(shares[i]) in groups
    ensures forall k :: k in groups ==> groups[k] != []
    decreases |shares|
  {
    if shares == [] then map[]
    else
      var groups := GroupBy(shares[..|shares| - 1]);
      var share := shares[|shares| - 1];
      var key := GroupKey(share);
      groups[key := (if key in groups then groups[key] else []) + [share]]
  }

  /** `Object.keys(sharesGroups)`: the group keys in the order their first share
      appears. */
  function OwnerNames(shares: seq<ShareInfo>): (r: seq<string>)
    ensures NoDuplicates(r)
    decreases |shares|
  {
    if shares == [] then []
    else
      var names := OwnerNames(shares[..|shares| - 1]);
      var key := GroupKey(shares[|shares| - 1]);
      if key in names then names else names + [key]
  }

  /** The owner names are exactly the keys of the input shares. */
  lemma {:induction false} OwnerNamesAreKeys(shares: seq<ShareInfo>)
    ensures forall k :: k in OwnerNames(shares) <==> exists i :: 0 <= i < |shares| && GroupKey(shares[i]) == k
    decreases |shares|
  {
    if shares != [] {
      var prefix := shares[..|shares| - 1];
      OwnerNamesAreKeys(prefix);
      forall k
        ensures k in OwnerNames(shares) <==> exists i :: 0 <= i < |shares| && GroupKey(shares[i]) == k
      {
        if k in OwnerNames(prefix) {
          var i :| 0 <= i < |prefix| && GroupKey(prefix[i]) == k;
          assert shares[i] == prefix[i];
        }
        if exists i :: 0 <= i < |shares| && GroupKey(shares[i]) == k {
          var i :| 0 <= i < |shares| && GroupKey(shares[i]) == k;
          if i < |prefix| { assert prefix[i] == shares[i]; }
        }
      }
    }
  }

  /** The group keys are exactly the owner names. */
  lemma {:induction false} GroupByKeys(shares: seq<ShareInfo>)
    ensures GroupBy(shares).Keys == set k | k in OwnerNames(shares)
    decreases |shares|
  {
    if shares != [] {
      GroupByKeys(shares[..|shares| - 1]);
    }
  }

  /** Each group holds exactly the input shares with its key, in input order. */
  lemma {:induction false} GroupByContents(shares: seq<ShareInfo>)
    ensures forall k :: k in GroupBy(shares) ==> GroupBy(shares)[k] == SharesOf(shares, k)
    decreases |shares|
  {
    if shares != [] {
      var prefix := shares[..|shares| - 1];
      var share := shares[|shares| - 1];
      assert shares == prefix + [share];
      GroupByContents(prefix);
      forall k | k in GroupBy(shares)
        ensures GroupBy(shares)[k] == SharesOf(shares, k)
      {
        var q := (s: ShareInfo) => GroupKey(s) == k;
        FilterAppend(prefix, share, q);
        if k != GroupKey(share) {
          assert k in GroupBy(prefix);
        } else if k !in GroupBy(prefix) {
          GroupByKeys(prefix);
          OwnerNamesAreKeys(prefix);
          assert forall i :: 0 <= i < |prefix| ==> !q(prefix[i]);
          FilterKeepsNone(prefix, q);
        }
      }
    }
  }

  /** The groups are exactly the owner names, and each group holds exactly the shares
      with that key, in input order. */
  lemma GroupByIsFilter(shares: seq<ShareInfo>)
    ensures GroupBy(shares).Keys == set k | k in OwnerNames(shares)
    ensures forall k :: k in GroupBy(shares) ==> GroupBy(shares)[k] == SharesOf(shares, k)
    ensures forall k :: k in OwnerNames(shares) <==> exists i :: 0 <= i < |shares| && GroupKey(shares[i]) == k
  {
    GroupByKeys(shares);
    GroupByContents(shares);
    OwnerNamesAreKeys(shares);
  }

  /** Every share lands in exactly one group: the one keyed by its owner name. */
  lemma EveryShareInOneGroup(shares: seq<ShareInfo>, i: nat)
    requires i < |shares|
    ensures GroupKey(shares[i]) in GroupBy(shares)
    ensures shares[i] in GroupBy(shares)[GroupKey(shares[i])]
    ensures forall k :: k in GroupBy(shares) && k != GroupKey(shares[i]) ==> shares[i] !in GroupBy(shares)[k]
  {
    GroupByIsFilter(shares);
  }

  /** Each group keeps the relative order its shares have in the input. */
  lemma GroupsPreserveOrder(shares: seq<ShareInfo>, k: string)
    requires k in GroupBy(shares)
    ensures IsSubsequence(GroupBy(shares)[k], shares)
  {
    GroupByIsFilter(shares);
    FilterIsSubsequence(shares, (s: ShareInfo) => GroupKey(s) == k);
  }

  /** The list renders one item per owner name, showing that owner's group. */
  function ListItems(shares: seq<ShareInfo>): (items: seq<(string, seq<ShareInfo>)>)
    ensures |items| == |OwnerNames(shares)|
    ensures forall i :: 0 <= i < |items| ==> items[i].0 == OwnerNames(shares)[i] && items[i].1 == SharesOf(shares, items[i].0)
    ensures forall i, j :: 0 <= i < j < |items| ==> items[i].0 != items[j].0
  {
    var names := OwnerNames(shares);
    var groups := GroupBy(shares);
    GroupByIsFilter(shares);
    seq(|names|, i requires 0 <= i < |names| => (names[i], groups[names[i]]))
  }
}
