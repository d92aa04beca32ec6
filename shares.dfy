/** The share record that the server returns and the add-shares modal lists. */
module Shares {
  import opened Wrappers

  /** One shared address book: the folder that is shared and who owns it.
      `ownerName` may be absent. */
  datatype ShareInfo = ShareInfo(
    ownerId: string,
    ownerEmail: string,
    ownerName: Option<string>,
    folderId: string,
    folderPath: string)
}
