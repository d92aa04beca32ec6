/** The "Find Contact Shares" modal: the owner-name filter, the filtered share
    list, the selection and the labelled shares it asks the server to mount
    (src/components/modals/shared-address-books-add/shared-address-books-add-modal.tsx). */
module SharedAddressBooksAddModal {
  import opened Wrappers
  import opened Sequences
  import opened Text
  import opened Shares

  /** The filter as stored by `onOwnerNameFilterChange`: trimmed, then lower-cased. */
  function NormalizeFilter(input: string): (r: string)
    ensures IsTrimmed(r)
    ensures forall i :: 0 <= i < |r| ==> !IsUpper(r[i])
    ensures |r| <= |input|
  {
    ToLowerCase(Trim(input))
  }

  /** Normalising a stored filter again changes nothing. */
  lemma NormalizeFilterIdempotent(input: string)
    ensures NormalizeFilter(NormalizeFilter(input)) == NormalizeFilter(input)
  {
    var t := Trim(input);
    ToLowerCaseKeepsTrimmed(t);
    TrimTrimmed(ToLowerCase(t));
    ToLowerCaseIdempotent(t);
  }

  /** The test `filteredSharedInfo` applies to one share: an empty filter keeps
      everything; otherwise the lower-cased owner name must start with the filter,
      and a share without an owner name is dropped. */
  predicate OwnerMatches(filter: string, share: ShareInfo)
  {
    filter == [] || (share.ownerName.Some? && StartsWith(ToLowerCase(share.ownerName.value), filter))
  }

  /** `filteredSharedInfo`: the shares whose owner matches the filter, in order. */
  function FilteredShares(shares: seq<ShareInfo>, filter: string): (r: seq<ShareInfo>)
    ensures filter == [] ==> r == shares
    ensures forall s :: s in r <==> s in shares && OwnerMatches(filter, s)
    ensures IsSubsequence(r, shares)
  {
    var p := (s: ShareInfo) => OwnerMatches(filter, s);
    FilterIsSubsequence(shares, p);
    if filter == [] then
      FilterKeepsAll(shares, p);
      Filter(shares, p)
    else
      Filter(shares, p)
  }

  /** With a non-empty filter, a share is shown exactly when it has an owner name
      whose lower-cased form starts with the filter. */
  lemma FilteredSharesNonEmptyFilter(shares: seq<ShareInfo>, filter: string, share: ShareInfo)
    requires filter != []
    ensures share in FilteredShares(shares, filter) <==>
              share in shares && share.ownerName.Some?
              && StartsWith(ToLowerCase(share.ownerName.value), filter)
  {
  }

  /** `last(folderPath.split('/'))`: the segment after the last '/'. */
  function BaseName(folderPath: string): (r: string)
    ensures '/' !in r
  {
    LastPiece(folderPath, '/')
  }

  /** The base name is a suffix of the path; it is the whole path when the path has
      no '/', and otherwise the character just before it is the last '/'. */
  lemma BaseNameIsLastSegment(folderPath: string)
    ensures |BaseName(folderPath)| <= |folderPath|
    ensures BaseName(folderPath) == folderPath[|folderPath| - |BaseName(folderPath)|..]
    ensures '/' !in folderPath ==> BaseName(folderPath) == folderPath
    ensures '/' in folderPath ==> folderPath[|folderPath| - |BaseName(folderPath)| - 1] == '/'
  {
    LastPieceIsSuffix(folderPath, '/');
  }

  /** A share as sent to `createMountpoints`: every field of the share, plus the
      name the new mountpoint gets. */
  datatype LabeledShare = LabeledShare(share: ShareInfo, mountpointName: string)

  /** `labeledShares` in `onConfirm`. `MountpointName` stands for the translated
      "{{shareName}} of {{ownerName}}" text, computed from the share and its base name. */
  function LabelShares(selected: seq<ShareInfo>, MountpointName: (ShareInfo, string) -> string): (r: seq<LabeledShare>)
    ensures |r| == |selected|
    ensures forall i :: 0 <= i < |r| ==> r[i].share == selected[i]
    ensures forall i :: 0 <= i < |r| ==>
              r[i].mountpointName == MountpointName(selected[i], BaseName(selected[i].folderPath))
  {
    seq(|selected|, i requires 0 <= i < |selected| =>
      LabeledShare(selected[i], MountpointName(selected[i], BaseName(selected[i].folderPath))))
  }

  /** The answer to `getShareInfo`: a list that may be null, or a failure. */
  datatype ShareInfoResponse = Received(shares: Option<seq<ShareInfo>>) | Failed

  /** The modal's state cells: `sharesInfo`, `selectedShares`, `ownerNameFilter`,
      and whether the modal has asked its owner to close it. */
  class AddModal {
    var sharesInfo: seq<ShareInfo>
    var selectedShares: seq<ShareInfo>
    var ownerNameFilter: string
    var closed: bool

    constructor ()
      ensures sharesInfo == [] && selectedShares == [] && ownerNameFilter == [] && !closed
    {
      sharesInfo, selectedShares, ownerNameFilter, closed := [], [], [], false;
    }

    /** The effect that fetches the shares: a missing list is stored as the empty
        list; on failure (an error snackbar) nothing is stored. */
    method OnShareInfoResponse(response: ShareInfoResponse)
      modifies this`sharesInfo
      ensures response.Received? ==> sharesInfo == response.shares.GetOr([])
      ensures response.Failed? ==> sharesInfo == old(sharesInfo)
    {
      if response.Received? {
        sharesInfo := response.shares.GetOr([]);
      }
    }

    method OnOwnerNameFilterChange(value: string)
      modifies this`ownerNameFilter
      ensures ownerNameFilter == NormalizeFilter(value)
    {
      ownerNameFilter := NormalizeFilter(value);
    }

    /** The list handed to `UsersSharesList`. */
    function FilteredSharedInfo(): (r: seq<ShareInfo>)
      reads this
      ensures IsSubsequence(r, sharesInfo)
      ensures ownerNameFilter == [] ==> r == sharesInfo
    {
      FilteredShares(sharesInfo, ownerNameFilter)
    }

    /** `onSharesSelection`: stores a copy of the list's selection. */
    method OnSharesSelection(selection: seq<ShareInfo>)
      modifies this`selectedShares
      ensures selectedShares == selection
    {
      selectedShares := selection;
    }

    /** `isAddButtonDisabled`. */
    function IsAddButtonDisabled(): (r: bool)
      reads this
      ensures r <==> selectedShares == []
    {
      |selectedShares| == 0
    }

    /** `onConfirm`: sends the labelled selection to `createMountpoints`; the modal
        closes only when that call succeeds (`succeeded` is its outcome). */
    method OnConfirm(MountpointName: (ShareInfo, string) -> string, succeeded: bool) returns (request: seq<LabeledShare>)
      modifies this`closed
      ensures request == LabelShares(selectedShares, MountpointName)
      ensures closed == (old(closed) || succeeded)
    {
      request := LabelShares(selectedShares, MountpointName);
      if succeeded {
        closed := true;
      }
    }
  }
}
