/** The page-title helper shared by every view. */
module ApplicationHelper {

  const BaseTitle: string := "RoR Tutorial App"
  const Separator: string := " | "

  /** `full_title`: the base title alone for an empty page title, otherwise
      the base title, a separator and the page title. */
  function FullTitle(pageTitle: string): (r: string)
    ensures pageTitle == [] ==> r == BaseTitle
    ensures pageTitle != [] ==> r == BaseTitle + Separator + pageTitle
  {
    if pageTitle == [] then BaseTitle else BaseTitle + Separator + pageTitle
  }

  /** Every title starts with the base title and is never empty. */
  lemma FullTitleStartsWithBase(pageTitle: string)
    ensures |FullTitle(pageTitle)| >= |BaseTitle| > 0
    ensures FullTitle(pageTitle)[..|BaseTitle|] == BaseTitle
  {
  }

  /** A non-empty page title is the tail of the full title, after the separator. */
  lemma FullTitleEndsWithPage(pageTitle: string)
    requires pageTitle != []
    ensures |FullTitle(pageTitle)| == |BaseTitle| + |Separator| + |pageTitle|
    ensures FullTitle(pageTitle)[|BaseTitle| + |Separator|..] == pageTitle
    ensures FullTitle(pageTitle)[|BaseTitle|..|BaseTitle| + |Separator|] == Separator
  {
  }

  /** The page title can be read back from the full title: distinct page
      titles give distinct full titles. */
  lemma FullTitleInjective(t1: string, t2: string)
    requires FullTitle(t1) == FullTitle(t2)
    ensures t1 == t2
  {
    if t1 != [] && t2 != [] {
      FullTitleEndsWithPage(t1);
      FullTitleEndsWithPage(t2);
    } else if t1 != [] {
      FullTitleEndsWithPage(t1);
    } else if t2 != [] {
      FullTitleEndsWithPage(t2);
    }
  }

  /** The titles the static pages ask for: the home page passes an empty
      page title and gets no separator; "Help" gets one. */
  lemma FullTitleExamples()
    ensures FullTitle("") == "RoR Tutorial App"
    ensures FullTitle("Help") == "RoR Tutorial App | Help"
    ensures '|' !in FullTitle("")
  {
  }
}
