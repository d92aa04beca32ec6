# A verified model of the contact UI's selection, filtering and guard logic

This project models, in Dafny, the parts of the Carbonio contacts front-end that
carry logic rather than layout:

- the share-selection list of the "Find Contact Shares" modal: a duplicate-free
  selection changed in place by `onSelect` / `onDeselect`, and the grouping of
  shares by owner name (`UsersSharesList`);
- the modal itself: the owner-name filter (trimmed, lower-cased), the
  case-insensitive prefix filter over the shares, the Add button's disabled flag,
  and the labelled shares sent to `createMountpoints`, whose base name is the last
  `/` segment of the folder path (`SharedAddressBooksAddModal`);
- the "Empty address book" action: the ordered rejection rules of `canExecute`,
  the `execute` guard and the action record (`EmptyAddressBook`);
- the search result list: the paging guards `loadMore` / `canLoadMore`, the
  two-state toggle choosing the "no results" title, what is rendered when, and the
  advanced-filter button (`SearchList`);
- the tags accordion: one item per tag with its default fields, the accordion
  root, and the query chip a tag click searches for (`TagsAccordions`);
- the breadcrumb count, capped at "100+" (`Breadcrumbs`).

Helper modules model the JavaScript built-ins these components call:
`Sequences` (`filter`, `indexOf`, `splice(i, 1)`, and the predicates
`NoDuplicates` and `IsSubsequence`), `Text` (`trim`, `toLowerCase`,
`startsWith`, `split`; `join` is not called by the components and is there as the
inverse that the properties of `split` are stated with), `Wrappers` (optional
values) and `Shares` (the share record).

State held across renders is a class: `UsersSharesList.Selection`
(the `selectionRef.current` array, changed in place),
`SharedAddressBooksAddModal.AddModal` (the modal's three state cells, each
replaced wholesale by its setter, and whether it closed) and `SearchList.TitleToggle` (the
`randomListIndex` cell and the dependencies its effect last ran with). The
accumulator loop of the tag builder is a method with a loop. Everything else is
functions and lemmas.

Foreign collaborators are parameters: the translation function `t` (as
`Translate` or `MountpointName`), the folder helpers `isNestedInTrash`, `isTrash`
and `isLink` (`EmptyAddressBook.FolderHelpers`), the outcome of the network calls
`getShareInfo` and `createMountpoints`, the `nanoid()` chip id, and the rendering
of a number as text.

## Model

| member | source | states |
|---|---|---|
| `Sequences.IndexOf` | src/components/modals/shared-address-books-add/users-shares-list.tsx:34 | `indexOf`: -1 exactly when the share is absent; otherwise a position holding it with no earlier occurrence |
| `Sequences.RemoveAt` | src/components/modals/shared-address-books-add/users-shares-list.tsx:50 | `splice(i, 1)` shortens the array by one, keeps every element before `i` in place and shifts every later one down by one |
| `Sequences.Filter` | src/components/modals/shared-address-books-add/shared-address-books-add-modal.tsx:66 | `filter` never lengthens its input, and a value is in the result iff it is in the input and satisfies the predicate |
| `Sequences.FilterIsSubsequence` | src/components/modals/shared-address-books-add/shared-address-books-add-modal.tsx:66 | `filter` keeps an order-preserving subsequence of its input |
| `UsersSharesList.Selected` | src/components/modals/shared-address-books-add/users-shares-list.tsx:34-39 | selecting a selected share leaves the selection unchanged; selecting an absent one appends it at the end and keeps every earlier element in place; no duplicate is created |
| `UsersSharesList.Deselected` | src/components/modals/shared-address-books-add/users-shares-list.tsx:46-51 | deselecting an absent share changes nothing; deselecting a present one removes exactly one occurrence (multiset minus that share), keeps the rest in order, and in a duplicate-free selection leaves the share absent |
| `UsersSharesList.SelectThenDeselect` | src/components/modals/shared-address-books-add/users-shares-list.tsx:38-50 | selecting an absent share and then deselecting it restores the original selection |
| `UsersSharesList.ReplayNoDuplicates` | src/components/modals/shared-address-books-add/users-shares-list.tsx:32-54 | no sequence of `onSelect`/`onDeselect` calls creates a duplicate |
| `UsersSharesList.Selection.constructor` | src/components/modals/shared-address-books-add/users-shares-list.tsx:30 | the selection starts empty |
| `UsersSharesList.Selection.OnSelect` | src/components/modals/shared-address-books-add/users-shares-list.tsx:32-42 | the selection becomes `Selected(old, share)` and stays duplicate-free; `onSelectionChange` is called with the new selection exactly when the share was absent |
| `UsersSharesList.Selection.OnDeselect` | src/components/modals/shared-address-books-add/users-shares-list.tsx:44-54 | the selection becomes `Deselected(old, share)` and stays duplicate-free; `onSelectionChange` is called exactly when the share was present |
| `UsersSharesList.OwnerNames` | src/components/modals/shared-address-books-add/users-shares-list.tsx:29 | the owner-name list has no duplicates |
| `UsersSharesList.GroupKey` | src/components/modals/shared-address-books-add/users-shares-list.tsx:28 | a definition without a contract of its own: the `groupBy` iteratee `share.ownerName`, with a missing name becoming the object key "undefined"; `GroupBy`, `SharesOf` and `GroupByContents` are stated with it |
| `UsersSharesList.GroupBy` | src/components/modals/shared-address-books-add/users-shares-list.tsx:28 | every share's key (its owner name, or "undefined") is a group, and no group is empty; `GroupByIsFilter` states the full contents |
| `UsersSharesList.OwnerNamesAreKeys` | src/components/modals/shared-address-books-add/users-shares-list.tsx:28-29 | a name is in `Object.keys(sharesGroups)` iff some input share has that key |
| `UsersSharesList.GroupByKeys` | src/components/modals/shared-address-books-add/users-shares-list.tsx:28-29 | the keys of `sharesGroups` are exactly the owner names listed |
| `UsersSharesList.GroupByContents` | src/components/modals/shared-address-books-add/users-shares-list.tsx:28 | each group is exactly the input shares with that key, in input order |
| `UsersSharesList.GroupByIsFilter` | src/components/modals/shared-address-books-add/users-shares-list.tsx:28-29 | the group keys are exactly the owner names, which are exactly the keys of the input shares; each group is exactly the input shares with that key, in input order |
| `UsersSharesList.EveryShareInOneGroup` | src/components/modals/shared-address-books-add/users-shares-list.tsx:28 | every share is in the group keyed by its owner name and in no other |
| `UsersSharesList.GroupsPreserveOrder` | src/components/modals/shared-address-books-add/users-shares-list.tsx:28 | each group is an order-preserving subsequence of the input |
| `UsersSharesList.ListItems` | src/components/modals/shared-address-books-add/users-shares-list.tsx:59-64 | one list item per owner name, in key order, no owner twice, each showing that owner's shares |
| `Text.Trim` | src/components/modals/shared-address-books-add/shared-address-books-add-modal.tsx:61 | `trim` returns a slice of the input with no whitespace at either end, and only whitespace was cut off |
| `Text.ToLowerCase` | src/components/modals/shared-address-books-add/shared-address-books-add-modal.tsx:61 | `toLowerCase` keeps the length and maps each character independently through the per-character lower-casing |
| `Text.StartsWith` | src/components/modals/shared-address-books-add/shared-address-books-add-modal.tsx:68 | `startsWith` holds iff the prefix is no longer than the string and agrees with it position by position; the empty prefix always matches |
| `Text.Split` | src/components/modals/shared-address-books-add/shared-address-books-add-modal.tsx:81 | `split('/')` yields at least one piece and no piece contains the separator |
| `Text.LastPiece` | src/components/modals/shared-address-books-add/shared-address-books-add-modal.tsx:81 | `last(path.split('/'))` contains no separator |
| `Text.JoinSplit` | src/components/modals/shared-address-books-add/shared-address-books-add-modal.tsx:81 | `split('/')` loses nothing: joining the pieces gives the path back |
| `Text.SplitJoin` | src/components/modals/shared-address-books-add/shared-address-books-add-modal.tsx:81 | pieces without '/' are what splitting their join gives back |
| `SharedAddressBooksAddModal.NormalizeFilter` | src/components/modals/shared-address-books-add/shared-address-books-add-modal.tsx:60-62 | the stored filter has no whitespace at either end and no upper-case letter |
| `SharedAddressBooksAddModal.NormalizeFilterIdempotent` | src/components/modals/shared-address-books-add/shared-address-books-add-modal.tsx:60-62 | normalising the filter twice gives the same as once |
| `SharedAddressBooksAddModal.OwnerMatches` | src/components/modals/shared-address-books-add/shared-address-books-add-modal.tsx:67-68 | a definition without a contract of its own: the `filter` callback, true for an empty filter, otherwise only for a share with an owner name whose lower-cased form starts with the filter (`?.` drops a share without one); `FilteredShares` and `FilteredSharesNonEmptyFilter` are stated with it |
| `SharedAddressBooksAddModal.FilteredShares` | src/components/modals/shared-address-books-add/shared-address-books-add-modal.tsx:64-72 | with an empty filter the list is `sharesInfo` itself; a share is kept iff its owner matches; the result is an order-preserving subsequence of `sharesInfo` |
| `SharedAddressBooksAddModal.FilteredSharesNonEmptyFilter` | src/components/modals/shared-address-books-add/shared-address-books-add-modal.tsx:66-69 | with a non-empty filter a share is kept iff it has an owner name whose lower-cased form starts with the filter; shares without an owner name are dropped |
| `SharedAddressBooksAddModal.BaseName` | src/components/modals/shared-address-books-add/shared-address-books-add-modal.tsx:81 | the base name contains no '/' |
| `SharedAddressBooksAddModal.BaseNameIsLastSegment` | src/components/modals/shared-address-books-add/shared-address-books-add-modal.tsx:81 | the base name is a suffix of the folder path, the whole path when it has no '/', and otherwise preceded by the last '/' |
| `SharedAddressBooksAddModal.LabelShares` | src/components/modals/shared-address-books-add/shared-address-books-add-modal.tsx:80-92 | one labelled share per selected share, same order, each keeping the whole share and adding the mountpoint name made from that share and its base name |
| `SharedAddressBooksAddModal.AddModal.constructor` | src/components/modals/shared-address-books-add/shared-address-books-add-modal.tsx:37-39 | shares, selection and filter start empty |
| `SharedAddressBooksAddModal.AddModal.OnShareInfoResponse` | src/components/modals/shared-address-books-add/shared-address-books-add-modal.tsx:42-58 | a missing share list is stored as the empty list; a failed fetch leaves the shares unchanged |
| `SharedAddressBooksAddModal.AddModal.OnOwnerNameFilterChange` | src/components/modals/shared-address-books-add/shared-address-books-add-modal.tsx:60-62 | the stored filter is the normalised input |
| `SharedAddressBooksAddModal.AddModal.FilteredSharedInfo` | src/components/modals/shared-address-books-add/shared-address-books-add-modal.tsx:64-72 | the displayed shares are a subsequence of `sharesInfo`, all of it under an empty filter |
| `SharedAddressBooksAddModal.AddModal.OnSharesSelection` | src/components/modals/shared-address-books-add/shared-address-books-add-modal.tsx:74-76 | the stored selection is the list's selection |
| `SharedAddressBooksAddModal.AddModal.IsAddButtonDisabled` | src/components/modals/shared-address-books-add/shared-address-books-add-modal.tsx:119-122 | the Add button is disabled iff the selection is empty |
| `SharedAddressBooksAddModal.AddModal.OnConfirm` | src/components/modals/shared-address-books-add/shared-address-books-add-modal.tsx:78-117 | the request is the labelled selection; the modal closes only when the request succeeds |
| `EmptyAddressBook.CanExecute` | src/actions/empty-address-book.tsx:25-50 | false with no address book, for one nested in trash, for the trash folder, for a link, and for zero items; true iff present, not in or nested in trash, not a link and `n != 0` |
| `EmptyAddressBook.Execute` | src/actions/empty-address-book.tsx:52-74 | no modal when `canExecute` is false; exactly one, for the given book, otherwise |
| `EmptyAddressBook.Action` | src/actions/empty-address-book.tsx:76-85 | the action has id `ACTION_IDS.emptyAddressBook`, icon `EmptyFolderOutline`, the translated label, and `canExecute` as its guard |
| `SearchList.LoadMore` | src/legacy/views/search/search-list.jsx:31-35 | `search(query, false)` is called iff results exist, hold at least one contact and `more` is set |
| `SearchList.CanLoadMore` | src/legacy/views/search/search-list.jsx:37-40 | holds iff not loading and results exist, hold contacts and `more` is set; implies `loadMore`'s own guard |
| `SearchList.HasMore` | src/legacy/views/search/search-list.jsx:32 | a definition without a contract of its own: the `loadMore` guard, results present with at least one contact and `more` set; `LoadMore` and `CanLoadMore` are stated with it |
| `SearchList.NextListIndex` | src/legacy/views/search/search-list.jsx:43-49 | the toggled index is 0 or 1, and differs from a 0/1 input |
| `SearchList.NextListIndexTwice` | src/legacy/views/search/search-list.jsx:43-49 | two toggles restore the index |
| `SearchList.TitleToggle.constructor` | src/legacy/views/search/search-list.jsx:42 | the index starts at 0 before any effect has run |
| `SearchList.DepsOf` | src/legacy/views/search/search-list.jsx:50 | a definition without a contract of its own: the effect's dependency array, the contact count (absent without results) and the identity of `query`; `TitleToggle.Render` is stated with it |
| `SearchList.TitleToggle.Render` | src/legacy/views/search/search-list.jsx:43-50 | the index flips exactly when the contact count or the identity of the query array differs from the previous render (or on the first render), and stays in {0,1} |
| `SearchList.DisplayerTitle` | src/legacy/views/search/search-list.jsx:51-62 | no title unless results exist with zero contacts; then title 1 for index 0 and title 2 otherwise |
| `SearchList.FilterButtonOf` | src/legacy/views/search/search-list.jsx:74-88 | the button is `default` iff `filterCount > 0`; the plain label iff `filterCount` is 0, otherwise the count label |
| `SearchList.FilterButtonConsistent` | src/legacy/views/search/search-list.jsx:76-86 | for a non-negative count, the button is outlined iff the count is 0 iff the label is plain |
| `SearchList.Render` | src/legacy/views/search/search-list.jsx:90-116 | shimmer iff loading; the results list iff contacts exist and not loading, with the bottom handler iff `canLoadMore`; the empty-state message iff results are empty and not loading, holding `displayerTitle` |
| `SearchList.RenderExclusive` | src/legacy/views/search/search-list.jsx:90-103 | results list and empty-state message never show together, neither while loading, and a shown message has a title |
| `SearchList.ListBottomLoadsMore` | src/legacy/views/search/search-list.jsx:97 | on a shown list the bottom handler is attached iff the server has more, so it fires only when `loadMore` would search |
| `TagsAccordions.ColorIndex` | src/legacy/hooks/use-get-tags-accordions.tsx:107 | the colour is the tag's colour, or 0 when it is absent |
| `TagsAccordions.BuildItems` | src/legacy/hooks/use-get-tags-accordions.tsx:100-118 | one item per tag, in order; each with the tag's id, the name as label and name, the colour or 0, and `active`, `open`, `divider` false |
| `TagsAccordions.GetTagsAccordion` | src/legacy/hooks/use-get-tags-accordions.tsx:90-121 | the root has id 'Tags', the translated label, `active` and `open` false, and the built items |
| `TagsAccordions.TriggerSearch` | src/legacy/hooks/use-get-tags-accordions.tsx:33-52 | one chip, searched in 'contacts', with label `tag:` + name and value `tag:"` + name + `"` |
| `TagsAccordions.TagNameOfValue` | src/legacy/hooks/use-get-tags-accordions.tsx:46 | a value read back as a name has the form `tag:"` + name + `"`; nothing in the component reads chip values, so this is the inverse that `ChipValueRoundTrip` is stated with, and since the component does not escape quotes a name such as `a"b` gives the value `tag:"a"b"`, read back as `a"b` |
| `TagsAccordions.ChipValueRoundTrip` | src/legacy/hooks/use-get-tags-accordions.tsx:46 | reading the tag name back out of the chip value gives the tag's name |
| `Breadcrumbs.Breadcrumbs` | src/legacy/views/app/breadcrumbs.jsx:49 | a count above 100 is shown as "100+"; any other count unchanged |
| `Breadcrumbs.CountText` | src/legacy/views/app/breadcrumbs.jsx:49 | a definition without a contract of its own: the count element's text, "100+" when capped and the rendered number otherwise; `CapBoundary` is stated with it |
| `Breadcrumbs.CapBoundary` | src/legacy/views/app/breadcrumbs.jsx:49 | 100 shows as 100 and 101 as "100+" |
| `Breadcrumbs.IgnoresFolderPath` | src/legacy/views/app/breadcrumbs.jsx:16-23 | what is shown does not depend on the folder path, whose label computation is commented out |

## Left out

- Share identity: `indexOf` compares shares by reference; the model compares them by value, so two distinct but equal share objects count as one.
- `TagsAccordions.BuildItems`: the tag store is a record keyed by tag id, and the sequence of tags stands for the order lodash's `reduce` walks it in (`Object.keys` order, integer-like ids first in ascending order).
- `UsersSharesList.OwnerNames`: lists keys in first-appearance order; JavaScript's `Object.keys` puts integer-like keys (an owner named "42") first, in numeric order, which is not modelled.
- `Text.ToLowerCase`: lower-cases the Basic Latin and Latin-1 upper-case letters only; the full Unicode case mapping of `toLowerCase` (including mappings that change the length) is not modelled.
- `SharedAddressBooksAddModal.LabelShares`: the mountpoint name is an opaque function of the share and its base name; the translation, `getFolderIdParts` and `getFolderTranslatedName` are not part of this model.
- `EmptyAddressBook.CanExecute`: `isNestedInTrash`, `isTrash` and `isLink` are parameters, as their definitions are not part of this model; `n` is modelled as an always-present number.
- `EmptyAddressBook.Action`: the text of `ACTION_IDS.emptyAddressBook` is not part of this model, so the id is an abstract constant; `execute` is the separate method `Execute`.
- `SearchList.TitleToggle.Render`: the identity of each render's `query` array is given as a number (`QueryRef`), since React compares that dependency with `Object.is`; how the caller allocates query arrays is not modelled.
- Network calls (`getShareInfo`, `createMountpoints`, `search`, `runSearch`) are modelled by their guards and by an abstract outcome; their effects on the server are out of scope.
- Snackbars, `createModal`, `StoreProvider`, the JSX layout and the design-system components are rendering, not logic.
- Concurrency and React scheduling: memoisation, effect ordering and the asynchronous resolution of promises; `TitleToggle.Render` models one render followed by its effect.
- JavaScript truthiness for unexpected values (a `NaN` colour, a non-boolean `more`, an `itemsCount` that is not a number) is not modelled: the model's fields are typed.
- The `ZIMBRA_STANDARD_COLORS` lookup (only the colour index is modelled) and the `nanoid()` chip id (a parameter).
- `Breadcrumbs.CountText`: an exact count is rendered by an opaque number-to-text function.
- The distribution-list displayer (tab reset, member pagination) and the move-contacts `canExecute` rule are out of scope.
- src/legacy/views/app-view.jsx and src/components/cg-list-item.tsx: layout, a boolean toggle and a double-click check; src/legacy/types/views/edit-view.ts: a type declaration without behaviour.
