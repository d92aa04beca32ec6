/** The "Empty address book" action: when it may run, what it opens, and the
    action record it is exposed as (src/actions/empty-address-book.tsx). */
module EmptyAddressBook {
  import opened Wrappers

  /** The part of an address-book folder the action reads: its id and `n`, the
      number of items it holds. */
  datatype Folder = Folder(id: string, name: string, n: int)

  /** The folder helpers the action calls, whose definitions are not part of this
      model: `isNestedInTrash`, `isTrash` (on a folder id) and `isLink`. */
  datatype FolderHelpers = FolderHelpers(
    isNestedInTrash: Folder -> bool,
    isTrash: string -> bool,
    isLink: Folder -> bool)

  /** `canExecute`: the rules are tried in order, and the first that applies rejects. */
  function CanExecute(addressBook: Option<Folder>, helpers: FolderHelpers): (r: bool)
    ensures addressBook.None? ==> !r
    ensures addressBook.Some? && helpers.isNestedInTrash(addressBook.value) ==> !r
    ensures addressBook.Some? && helpers.isTrash(addressBook.value.id) ==> !r
    ensures addressBook.Some? && helpers.isLink(addressBook.value) ==> !r
    ensures addressBook.Some? && addressBook.value.n == 0 ==> !r
    ensures r <==> addressBook.Some?
                   && !helpers.isNestedInTrash(addressBook.value)
                   && !helpers.isTrash(addressBook.value.id)
                   && !helpers.isLink(addressBook.value)
                   && addressBook.value.n != 0
  {
    if addressBook.None? then false
    else
      var book := addressBook.value;
      if helpers.isNestedInTrash(book) then false
      else if helpers.isTrash(book.id) then false
      else if helpers.isLink(book) then false
      else if book.n == 0 then false
      else true
  }

  /** `execute`: returns the address books for which the confirmation modal was
      opened — none when `canExecute` rejects, otherwise exactly the one given. */
  method Execute(addressBook: Option<Folder>, helpers: FolderHelpers) returns (modals: seq<Folder>)
    ensures !CanExecute(addressBook, helpers) ==> modals == []
    ensures CanExecute(addressBook, helpers) ==> modals == [addressBook.value]
  {
    if !CanExecute(addressBook, helpers) {
      return [];
    }
    if addressBook.None? {
      return [];
    }
    modals := [addressBook.value];
  }

  /** Which entry of `ACTION_IDS` an action carries; the constant's text is not
      part of this model. */
  datatype ActionId = EmptyAddressBookId

  /** The action record: its id, translated label (`labelText`, as `label` is a Dafny
      keyword), icon name, and its `canExecute`. */
  datatype UIAction = UIAction(
    id: ActionId,
    labelText: string,
    icon: string,
    canExecute: Option<Folder> -> bool)

  /** `useActionEmptyAddressBook`. `Translate(key, default)` stands for `t`. */
  function Action(Translate: (string, string) -> string, helpers: FolderHelpers): (a: UIAction)
    ensures a.id == EmptyAddressBookId
    ensures a.icon == "EmptyFolderOutline"
    ensures a.labelText == Translate("folder.action.empty.folder", "Empty address book")
    ensures forall book :: a.canExecute(book) == CanExecute(book, helpers)
  {
    UIAction(
      EmptyAddressBookId,
      Translate("folder.action.empty.folder", "Empty address book"),
      "EmptyFolderOutline",
      (book: Option<Folder>) => CanExecute(book, helpers))
  }
}
