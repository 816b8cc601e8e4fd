/** The new-folder dialog (components/AddFolderModal.tsx): `handleSubmit`
    rejects a blank name and passes on the trimmed one. */
module AddFolderModal {
  import opened Text

  const EmptyNameError: string := "Folder name cannot be empty."

  /** What submitting does: set the error, or call `onAddFolder` with a name. */
  datatype Submission = Rejected(error: string) | Accepted(name: string)

  /** `handleSubmit` on the name field's value. */
  function HandleSubmit(name: string): (r: Submission)
    ensures r.Rejected? <==> AllWhitespace(name)
    ensures r.Rejected? ==> r.error == EmptyNameError
    ensures r.Accepted? ==> r.name != "" && Trimmed(r.name)
  {
    if Trim(name) == "" then Rejected(EmptyNameError) else Accepted(Trim(name))
  }

  /** The name passed on is the typed name without the whitespace around it:
      a piece of the input with nothing but whitespace cut from each end. */
  lemma AcceptedNameIsCore(name: string) returns (i: int)
    requires HandleSubmit(name).Accepted?
    ensures var folder := HandleSubmit(name).name;
            && 0 <= i && i + |folder| <= |name|
            && folder == name[i..i + |folder|]
            && AllWhitespace(name[..i]) && AllWhitespace(name[i + |folder|..])
  {
    i := TrimSlice(name);
  }

  /** Names that differ only in surrounding whitespace give the same outcome. */
  lemma SurroundingWhitespaceIgnored(pre: string, name: string, post: string)
    requires AllWhitespace(pre) && AllWhitespace(post)
    ensures HandleSubmit(pre + name + post) == HandleSubmit(name)
  {
    TrimIgnoresSurroundings(pre, name, post);
  }

  /** Submitting an accepted name again accepts it unchanged. */
  lemma AcceptedNameStable(name: string)
    requires HandleSubmit(name).Accepted?
    ensures HandleSubmit(HandleSubmit(name).name) == HandleSubmit(name)
  {
    TrimIdempotent(name);
  }
}
