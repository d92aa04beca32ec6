/** The header above the contact list: a fixed heading and the number of
    contacts, capped (src/legacy/views/app/breadcrumbs.jsx). */
module Breadcrumbs {

  /** The count as shown: the number itself, or the text "100+". */
  datatype CountDisplay = Exact(count: int) | Capped

  const CappedText: string := "100+"

  /** The text the count element holds; an exact count is rendered as its number. */
  function CountText(d: CountDisplay, NumberText: int -> string): string
  {
    match d
    case Exact(n) => NumberText(n)
    case Capped => CappedText
  }

  datatype BreadcrumbsView = BreadcrumbsView(heading: string, count: CountDisplay)

  /** `Breadcrumbs({ folderPath, itemsCount })`: the count is capped above 100; the
      folder path is not used, as its label computation is commented out. */
  function Breadcrumbs(folderPath: string, itemsCount: int): (v: BreadcrumbsView)
    ensures v.heading == "Number of Contacts"
    ensures itemsCount > 100 <==> v.count == Capped
    ensures itemsCount <= 100 ==> v.count == Exact(itemsCount)
  {
    BreadcrumbsView("Number of Contacts", if itemsCount > 100 then Capped else Exact(itemsCount))
  }

  /** At the boundary: 100 is shown as is, 101 as "100+". */
  lemma CapBoundary(folderPath: string, NumberText: int -> string)
    ensures CountText(Breadcrumbs(folderPath, 100).count, NumberText) == NumberText(100)
    ensures CountText(Breadcrumbs(folderPath, 101).count, NumberText) == "100+"
  {
  }

  /** What is shown does not depend on the folder path. */
  lemma IgnoresFolderPath(path1: string, path2: string, itemsCount: int)
    ensures Breadcrumbs(path1, itemsCount) == Breadcrumbs(path2, itemsCount)
  {
  }
}
