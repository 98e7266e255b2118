/**
 * The page: it creates a welcome document when the list is empty and chooses
 * between the landing screen and the workspace, whose main pane is either the
 * editor or a prompt to select a document.
 */
module IndexPage {
  import opened Wrappers
  import opened Store

  const WelcomeTitle: string := "Welcome Document"

  datatype MainPane = EditorPane | SelectPrompt
  datatype Screen = Landing | Workspace(main: MainPane)

  /** The screen for a store state. */
  function ChooseScreen(s: Snapshot): Screen {
    if s.currentDocument.None? && |s.documents| == 0 then Landing
    else if s.currentDocument.Some? then Workspace(EditorPane)
    else Workspace(SelectPrompt)
  }

  /**
   * The landing screen is shown exactly for an empty store, the editor exactly
   * when there is a current document, and the selection prompt exactly when
   * documents exist but none is current.
   */
  lemma ScreenChoice(s: Snapshot)
    ensures ChooseScreen(s) == Landing <==> s.currentDocument.None? && s.documents == []
    ensures ChooseScreen(s) == Workspace(EditorPane) <==> s.currentDocument.Some?
    ensures ChooseScreen(s) == Workspace(SelectPrompt) <==> s.currentDocument.None? && s.documents != []
  {
  }

  /** In a state the store can reach, showing the editor means the list is not empty. */
  lemma EditorImpliesDocuments(s: Snapshot)
    requires SelectionValid(s)
    ensures ChooseScreen(s) == Workspace(EditorPane) ==> s.documents != []
  {
  }

  /**
   * Deleting the current document while another document remains leads to the
   * selection prompt.
   */
  lemma DeleteCurrentShowsPrompt(s: Snapshot, other: Document)
    requires Consistent(s) && s.currentDocument.Some?
    requires other in s.documents && other.id != s.currentDocument.value.id
    ensures ChooseScreen(Deleted(s, s.currentDocument.value.id)) == Workspace(SelectPrompt)
  {
    var t := Deleted(s, s.currentDocument.value.id);
    DeletedEffect(s, s.currentDocument.value.id);
    assert multiset(t.documents)[other] == multiset(s.documents)[other];
    assert other in t.documents;
  }

  /**
   * The bootstrap effect: with no documents, a "Welcome Document" is created
   * (with the fresh identifier `freshId`) and becomes current, so the editor is
   * shown; otherwise nothing happens.
   */
  method Bootstrap(store: EditorStore, freshId: string, now: int)
    requires store.Valid()
    modifies store
    ensures store.Valid() && store.isLoading == old(store.isLoading)
    ensures old(store.documents) == [] ==>
      && store.documents == [NewDocument(freshId, WelcomeTitle, now)]
      && store.currentDocument == Some(NewDocument(freshId, WelcomeTitle, now))
      && ChooseScreen(store.Partialize()) == Workspace(EditorPane)
    ensures old(store.documents) != [] ==> store.Partialize() == old(store.Partialize())
  {
    if |store.documents| == 0 {
      store.CreateDocument(Some(WelcomeTitle), freshId, now);
    }
  }
}
