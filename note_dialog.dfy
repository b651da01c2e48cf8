/**
 * The note editor dialog: the fields it starts from and the checks its Save
 * button runs before handing the note to `onSave`.
 */
module NoteDialog {
  import opened Wrappers
  import opened JsText
  import UseNotes

  const MaxTitleLength := 200
  const MaxContentLength := 10000

  datatype Fields = Fields(title: string, content: string)

  /** The field-initialisation effect: the edited note's title and content, or empty fields for a new note. */
  function InitialFields(note: Option<UseNotes.Note>): (f: Fields)
    ensures note.Some? ==> f.title == note.value.title && f.content == note.value.content
    ensures note.None? ==> f.title == "" && f.content == ""
  {
    match note
    case Some(n) => Fields(n.title, n.content)
    case None => Fields("", "")
  }

  /** The toast a rejected save shows; its title in the dialog is given beside each case. */
  datatype SaveError =
    | ContentRequired   // "Content required"
    | TitleTooLong      // "Title too long"
    | ContentTooLong    // "Content too long"

  /**
   * `Saved(t, c)`: `onSave(t, c)` is called and the dialog closes.
   * `Rejected(e)`: the toast for `e` is shown, `onSave` is not called and the
   * dialog stays open.
   */
  datatype SaveOutcome = Rejected(error: SaveError) | Saved(title: string, content: string)

  /**
   * `handleSave`. Blank content is refused before anything else; the length
   * limits are inclusive and measured on the text as typed, before trimming;
   * what is saved is the trimmed title and content.
   */
  function HandleSave(title: string, content: string): (r: SaveOutcome)
    ensures r == Rejected(ContentRequired) <==> IsBlank(content)
    ensures r.Saved? <==>
      !IsBlank(content) && JsLength(title) <= MaxTitleLength && JsLength(content) <= MaxContentLength
    ensures r.Saved? ==> r.title == Trim(title) && r.content == Trim(content)
    ensures r.Saved? ==>
      && r.content != []
      && JsLength(r.content) <= MaxContentLength
      && JsLength(r.title) <= MaxTitleLength
  {
    TrimNoLonger(title);
    TrimNoLonger(content);
    if Trim(content) == [] then
      Rejected(ContentRequired)
    else if JsLength(title) > MaxTitleLength then
      Rejected(TitleTooLong)
    else if JsLength(content) > MaxContentLength then
      Rejected(ContentTooLong)
    else
      Saved(Trim(title), Trim(content))
  }

  /**
   * The checks run in a fixed order and the first failure is the one
   * reported: blank content, then the title's length, then the content's.
   */
  lemma SaveChecksInOrder(title: string, content: string)
    ensures IsBlank(content) ==> HandleSave(title, content) == Rejected(ContentRequired)
    ensures !IsBlank(content) && JsLength(title) > MaxTitleLength ==>
      HandleSave(title, content) == Rejected(TitleTooLong)
    ensures HandleSave(title, content) == Rejected(ContentTooLong) <==>
      !IsBlank(content) && JsLength(title) <= MaxTitleLength && JsLength(content) > MaxContentLength
  {
  }

  /**
   * Saving is stable: when the dialog is reopened on a saved note and saved
   * again unchanged, the same title and content are saved.
   */
  lemma ResaveUnchanged(title: string, content: string)
    requires HandleSave(title, content).Saved?
    ensures var saved := HandleSave(title, content);
      var f := InitialFields(Some(UseNotes.Note("", saved.title, saved.content, 0, 0)));
      HandleSave(f.title, f.content) == saved
  {
    TrimIdempotent(title);
    TrimIdempotent(content);
  }

  /** The limits are inclusive: a 200-unit title with 10000 units of non-blank content is saved. */
  lemma SaveAcceptsLimits(title: string, content: string)
    requires JsLength(title) == MaxTitleLength && JsLength(content) == MaxContentLength
    requires !IsBlank(content)
    ensures HandleSave(title, content) == Saved(Trim(title), Trim(content))
  {
  }

  /**
   * The title is measured before trimming: 200 letters followed by a space
   * are refused, although trimming would leave exactly 200.
   */
  lemma TitleMeasuredBeforeTrim()
    ensures var title := seq(MaxTitleLength, _ => 'a') + [' '];
      && JsLength(Trim(title)) == MaxTitleLength
      && HandleSave(title, "x") == Rejected(TitleTooLong)
  {
    var letters := seq(MaxTitleLength, _ => 'a');
    var title := letters + [' '];
    JsLengthBmp(letters);
    JsLengthBmp(title);
    assert TrailingWhitespace(title[..|title| - 1]) == 0 by {
      assert title[..|title| - 1] == letters;
    }
    assert Trim(title) == letters;
    assert !IsBlank("x") by { assert !IsWhitespace("x"[0]); }
  }
}
