/**
 * The document header: the title-edit state machine (a draft title and an
 * editing flag), the title area it shows, and the export file it produces.
 */
module Header {
  import opened Wrappers
  import opened JsStrings
  import opened Store

  /** The keys the title input distinguishes. */
  datatype Key = Enter | Escape | OtherKey

  /** What the left of the header shows. */
  datatype TitleArea =
    | AppName                      // no current document: the application name
    | TitleHeading(title: string)  // the current title, clickable to start editing
    | TitleInput(draft: string)    // the input holding the draft title

  function ShowTitleArea(current: Option<Document>, isEditing: bool, draft: string): TitleArea {
    match current
    case None => AppName
    case Some(d) => if isEditing then TitleInput(draft) else TitleHeading(d.title)
  }

  /**
   * The title and its input are shown only when there is a current document;
   * which of the two depends on the editing flag.
   */
  lemma TitleAreaChoice(current: Option<Document>, isEditing: bool, draft: string)
    ensures var v := ShowTitleArea(current, isEditing, draft);
      && (v.AppName? <==> current.None?)
      && (v.TitleInput? <==> current.Some? && isEditing)
      && (v.TitleInput? ==> v.draft == draft)
      && (v.TitleHeading? ==> current.Some? && !isEditing && v.title == current.value.title)
  {
  }

  /**
   * The decision in `handleTitleSubmit`: the title to commit, if any. It is the
   * trimmed draft, and only when there is a current document and the draft is
   * not blank.
   */
  function TitleToCommit(draft: string, current: Option<Document>): (t: Option<string>)
    ensures t.Some? <==> current.Some? && !IsBlank(draft)
    ensures t.Some? ==> t.value == Trim(draft) && t.value != []
    ensures t.Some? ==> !IsWhitespace(t.value[0]) && !IsWhitespace(t.value[|t.value| - 1])
    ensures t.Some? ==> Trim(t.value) == t.value
  {
    var trimmed := Trim(draft);
    TrimEmptyIffBlank(draft);
    TrimEdges(draft);
    TrimIdempotent(draft);
    if trimmed != [] && current.Some? then Some(trimmed) else None
  }

  const ExportExtension: string := ".html"

  /** The file offered for download: its suggested name and its body. */
  datatype ExportFile = ExportFile(fileName: string, body: string)

  /** `handleExport`: nothing without a current document. */
  function Export(current: Option<Document>): Option<ExportFile> {
    match current
    case None => None
    case Some(d) => Some(ExportFile(d.title + ExportExtension, d.content))
  }

  /**
   * Export produces a file exactly when there is a current document; its name
   * is the title followed by ".html" and its body is the raw content.
   */
  lemma ExportShape(current: Option<Document>)
    ensures Export(current).Some? <==> current.Some?
    ensures Export(current).Some? ==>
      var f := Export(current).value; var d := current.value;
      && |f.fileName| == |d.title| + 5
      && f.fileName[..|d.title|] == d.title
      && f.fileName[|d.title|..] == ".html"
      && f.body == d.content
  {
  }

  /** The header component's local state over the shared store. */
  class DocumentHeader {
    const store: EditorStore
    var title: string      // the draft title
    var isEditing: bool

    constructor (store: EditorStore)
      ensures this.store == store && title == "" && !isEditing
    {
      this.store := store;
      title := "";
      isEditing := false;
    }

    /** The effect run when the current document changes: the draft follows its title. */
    method CurrentDocumentChanged()
      modifies this
      ensures isEditing == old(isEditing)
      ensures store.currentDocument.Some? ==> title == store.currentDocument.value.title
      ensures store.currentDocument.None? ==> title == old(title)
    {
      if store.currentDocument.Some? {
        title := store.currentDocument.value.title;
      }
    }

    /** Typing in the title input. */
    method ChangeDraft(value: string)
      modifies this
      ensures title == value && isEditing == old(isEditing)
    {
      title := value;
    }

    /** Clicking the displayed title. */
    method StartEditing()
      modifies this
      ensures isEditing && title == old(title)
    {
      isEditing := true;
    }

    /**
     * `handleTitleSubmit`, run on Enter and on blur: commits the trimmed draft
     * and leaves editing, or does nothing at all.
     */
    method SubmitTitle(now: int)
      requires store.Valid()
      modifies this, store
      ensures store.Valid() && store.isLoading == old(store.isLoading)
      ensures title == old(title)
      ensures var commit := TitleToCommit(old(title), old(store.currentDocument));
        && (commit.Some? ==>
              store.Partialize() == TitleUpdated(old(store.Partialize()), commit.value, now) && !isEditing)
        && (commit.None? ==>
              store.Partialize() == old(store.Partialize()) && isEditing == old(isEditing))
    {
      var commit := TitleToCommit(title, store.currentDocument);
      if commit.Some? {
        store.UpdateTitle(commit.value, now);
        isEditing := false;
      }
    }

    /** Losing focus submits. */
    method Blur(now: int)
      requires store.Valid()
      modifies this, store
      ensures store.Valid() && store.isLoading == old(store.isLoading)
      ensures title == old(title)
      ensures var commit := TitleToCommit(old(title), old(store.currentDocument));
        && (commit.Some? ==>
              store.Partialize() == TitleUpdated(old(store.Partialize()), commit.value, now) && !isEditing)
        && (commit.None? ==>
              store.Partialize() == old(store.Partialize()) && isEditing == old(isEditing))
    {
      SubmitTitle(now);
    }

    /**
     * `handleKeyPress`: Enter submits; Escape restores the current title (or the
     * empty string) and leaves editing without renaming; other keys do nothing.
     */
    method KeyDown(key: Key, now: int)
      requires store.Valid()
      modifies this, store
      ensures store.Valid() && store.isLoading == old(store.isLoading)
      ensures key.Enter? ==>
        var commit := TitleToCommit(old(title), old(store.currentDocument));
        && title == old(title)
        && (commit.Some? ==>
              store.Partialize() == TitleUpdated(old(store.Partialize()), commit.value, now) && !isEditing)
        && (commit.None? ==>
              store.Partialize() == old(store.Partialize()) && isEditing == old(isEditing))
      ensures key.Escape? ==>
        && store.Partialize() == old(store.Partialize())
        && title == (if store.currentDocument.Some? then store.currentDocument.value.title else "")
        && !isEditing
      ensures key.OtherKey? ==>
        store.Partialize() == old(store.Partialize()) && title == old(title) && isEditing == old(isEditing)
    {
      match key
      case Enter =>
        SubmitTitle(now);
      case Escape =>
        title := if store.currentDocument.Some? then store.currentDocument.value.title else "";
        isEditing := false;
      case OtherKey =>
    }
  }
}
