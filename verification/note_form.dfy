/** The new-note form: its tag editor and the blank-title guard of its submit. */
module NoteForm {
  import opened Wrappers
  import opened Tags

  /** The form's title field and tag editor. */
  datatype Form = Form(title: string, editor: TagEditor)

  /** The form as first shown and as reset after a submit. */
  const Empty := Form("", TagEditor([], ""))

  /** What the form hands to `onNoteSubmit`: the title as typed and the tag list. */
  datatype Draft = Draft(title: string, tags: seq<string>)

  datatype Submitted = Submitted(form: Form, sent: Option<Draft>)

  /**
   * `handleSubmit`: a title that is blank after trimming sends nothing and
   * leaves the form alone; otherwise the untrimmed title and the tags are
   * sent and the title, tags and tag input are all reset.
   */
  function HandleSubmit(f: Form): (r: Submitted)
    ensures r.sent.None? <==> AllSpace(f.title)
    ensures r.sent.None? ==> r.form == f
    ensures r.sent.Some? ==> r.sent.value == Draft(f.title, f.editor.tags) && r.form == Empty
  {
    if Trim(f.title) == "" then Submitted(f, None)
    else Submitted(Empty, Some(Draft(f.title, f.editor.tags)))
  }

  /**
   * Whatever the user typed, committed or removed before it, a sent tag list
   * has no duplicates and holds only trimmed, non-blank tags.
   */
  lemma SentTagsClean(events: seq<TagEvent>, title: string)
    ensures var r := HandleSubmit(Form(title, Run(TagEditor([], ""), events)));
      r.sent.Some? ==> Seqs.NoDup(r.sent.value.tags) && forall t :: t in r.sent.value.tags ==> Clean(t)
  {
    RunKeepsClean(TagEditor([], ""), events);
  }
}
