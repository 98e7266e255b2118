# Document store and editor sync of a browser rich-text editor

This project is a Dafny model of the state core of a small browser rich-text editor. It has five parts.

- **The document store** (`Store`, `editor_store.dfy`). The store holds a list of documents and an optional current document. Its actions are create, update content, update title, save, load and delete. Each action is a pure transition on the persisted part of the state, the `Snapshot` that `partialize` returns. The class `EditorStore` keeps that state in mutable fields, and each of its methods is specified by the matching transition. The invariant `Consistent` says two things: the current document is an entry of the list, and identifiers are distinct. Every action keeps it, provided the identifier passed to create is fresh.
- **The title-edit state machine** of the header (`Header`, `document_header.dfy`). It has a draft title and an editing flag. Enter and blur submit, Escape cancels, a click starts editing, and the draft follows changes of the current document. The export file is computed here too.
- **The sidebar** (`Sidebar`, `document_sidebar.dfy`). It holds the case-insensitive title search, the "selected" mark on each entry, the empty-state message, and the dispatch of clicks to the store.
- **The editor bridge** (`Editor`, `rich_text_editor.dfy`). The editing surface is a record holding the markup it renders. Outbound, content is pushed into it only when it differs from the current document. Inbound, every user edit is stored. The lemmas and `UserEdit` show that the equality guard ends the update cycle.
- **The page** (`IndexPage`, `index_page.dfy`). It covers the welcome-document bootstrap and the three-way choice between the landing screen, the editor and the selection prompt.

There are also three helper modules:
- `Wrappers`: the Option type.
- `Sequences`: order-preserving subsequences, i.e. what `filter` returns.
- `JsStrings`: JavaScript's `trim`, `toLowerCase` and `includes`.

Identifiers (`crypto.randomUUID()`) and clock readings (`new Date()`) are parameters. `CreateDocument` requires its identifier to be absent from the list. Timestamps are plain integers.

Some behaviours of the code worth knowing:
- Blank-title rejection happens only in the header (`TitleToCommit`). The store's `updateTitle` stores any title, blank included (`TitleUpdatedEffect`).
- When the current document becomes null during a title edit, `isEditing` stays as it was and so does the draft (`DocumentHeader.CurrentDocumentChanged`).
- `saveDocument` changes no state. It only reports the title it logs (`EditorStore.SaveDocument`).
- `lastModified` takes whatever the clock gives. No monotonicity is assumed or claimed.

## Model

| member | source | states |
|---|---|---|
| `Store.ReplaceById` | src/store/editorStore.ts:61-63 | the mapped list has the same length; every entry whose id equals the new record's id becomes that record, and every other entry is unchanged |
| `Store.RemoveById` | src/store/editorStore.ts:85 | the filtered list is a subsequence of the list (order kept); it holds no entry with the id; every entry with another id keeps its multiplicity |
| `Store.FindById` | src/store/editorStore.ts:77 | a result exists exactly when some entry has the id; the result has that id and is an entry of the list |
| `Store.FindByIdFirst` | src/store/editorStore.ts:77 | `find` returns the entry at the first position holding the id |
| `Store.CreatedShape` | src/store/editorStore.ts:41-47 | after create, the new document is at position 0 with the given title, empty content and both timestamps equal to the clock; it is current; the old entries follow in their old order |
| `Store.CreatedConsistent` | src/store/editorStore.ts:41-47 | with an id not yet present, create keeps the selection inside the list and ids pairwise distinct |
| `Store.ReplaceByIdKeepsIds` | src/store/editorStore.ts:61-63 | the map keeps every id at its position |
| `Store.ReplaceCurrentConsistent` | src/store/editorStore.ts:59-64 | replacing the current record by an edited record with the same id keeps the invariant; the edited record is in the new list |
| `Store.ContentUpdatedNoCurrent` | src/store/editorStore.ts:49-51 | `updateDocument` without a current document changes nothing |
| `Store.ContentUpdatedEffect` | src/store/editorStore.ts:53-64 | the current document and every entry with its id become one record with the new content and time, keeping id, title and created; length, order and all other entries are unchanged |
| `Store.TitleUpdatedNoCurrent` | src/store/editorStore.ts:90-92 | `updateTitle` without a current document changes nothing |
| `Store.TitleUpdatedEffect` | src/store/editorStore.ts:94-105 | the title is stored verbatim, with no trimming or blank check; only title and lastModified of the current record and its entries change |
| `Store.EditsKeepIdentity` | src/store/editorStore.ts:53-105 | in a consistent state, neither edit changes any entry's id or created time at any position |
| `Store.UpdatesConsistent` | src/store/editorStore.ts:49-106 | both edits keep the invariant |
| `Store.LoadedEffect` | src/store/editorStore.ts:75-81 | load never changes the list; an absent id changes nothing; otherwise the current document becomes the entry at the first position holding the id |
| `Store.LoadedSelectsEntry` | src/store/editorStore.ts:75-81 | with distinct ids, loading an entry's id selects exactly that entry and changes nothing else |
| `Store.LoadedConsistent` | src/store/editorStore.ts:75-81 | load keeps the invariant |
| `Store.SubsequenceIdsDistinct` | src/store/editorStore.ts:85 | filtering a list with distinct ids leaves distinct ids |
| `Store.RemoveAbsentId` | src/store/editorStore.ts:85 | filtering out an absent id returns the list unchanged |
| `Store.DeletedEffect` | src/store/editorStore.ts:83-88 | delete removes exactly the entries with the id and keeps the rest in order and multiplicity; the selection becomes null exactly when it was null or had that id, and is otherwise kept |
| `Store.DeletedAbsent` | src/store/editorStore.ts:83-88 | when the selection is in the list, deleting an absent id changes nothing |
| `Store.DeletedConsistent` | src/store/editorStore.ts:83-88 | delete keeps the invariant |
| `Store.EditorStore.Partialize` | src/store/editorStore.ts:110-113 | the persisted snapshot is exactly the list and the current document; `isLoading` is not part of it |
| `Store.EditorStore.constructor` | src/store/editorStore.ts:37-39 | the store starts with no documents, no selection and not loading, which satisfies the invariant |
| `Store.EditorStore.CreateDocument` | src/store/editorStore.ts:41-47 | the new state is `Created` of the old one, with "Untitled Document" when no title is given; the invariant is kept and `isLoading` is untouched |
| `Store.EditorStore.UpdateDocument` | src/store/editorStore.ts:49-65 | the new state is `ContentUpdated` of the old one; the invariant is kept |
| `Store.EditorStore.SaveDocument` | src/store/editorStore.ts:67-73 | changes nothing; reports no title without a current document, and otherwise the current document's title |
| `Store.EditorStore.LoadDocument` | src/store/editorStore.ts:75-81 | the new state is `Loaded` of the old one; the invariant is kept |
| `Store.EditorStore.DeleteDocument` | src/store/editorStore.ts:83-88 | the new state is `Deleted` of the old one; the invariant is kept |
| `Store.EditorStore.UpdateTitle` | src/store/editorStore.ts:90-106 | the new state is `TitleUpdated` of the old one; the invariant is kept |
| `JsStrings.TrimStart` | src/components/DocumentHeader.tsx:34 | the result is a suffix of the input; everything cut off is whitespace; the result does not start with whitespace |
| `JsStrings.TrimEnd` | src/components/DocumentHeader.tsx:34 | the result is a prefix of the input; everything cut off is whitespace; the result does not end with whitespace |
| `JsStrings.TrimIsPiece` | src/components/DocumentHeader.tsx:34 | `trim` returns the contiguous piece of the input that starts where leading whitespace ends |
| `JsStrings.TrimCutsWhitespaceAfter` | src/components/DocumentHeader.tsx:34 | everything `trim` cuts off after the kept piece is whitespace |
| `JsStrings.TrimKeepsCore` | src/components/DocumentHeader.tsx:34 | `trim` returns a contiguous piece of the input with only whitespace cut off on both sides, and the piece neither starts nor ends with whitespace |
| `JsStrings.TrimEdges` | src/components/DocumentHeader.tsx:34 | a non-empty trimmed string has no whitespace at either end |
| `JsStrings.TrimEmptyIffBlank` | src/components/DocumentHeader.tsx:34 | `trim` gives the empty string exactly when every character is whitespace |
| `JsStrings.TrimIdempotent` | src/components/DocumentHeader.tsx:34-35 | trimming a trimmed string changes nothing |
| `JsStrings.ToLowerIdempotent` | src/components/DocumentSidebar.tsx:24 | lower-casing an already lower-cased string changes nothing |
| `JsStrings.IncludesIffOccurs` | src/components/DocumentSidebar.tsx:24 | `includes` holds exactly when the needle occurs at some position of the haystack |
| `JsStrings.IncludesEmpty` | src/components/DocumentSidebar.tsx:24 | every string includes the empty string |
| `Header.TitleAreaChoice` | src/components/DocumentHeader.tsx:93-116 | the title and its input appear only with a current document; the input appears exactly while editing and shows the draft, and otherwise the current title is shown |
| `Header.TitleToCommit` | src/components/DocumentHeader.tsx:33-35 | a title is committed exactly when there is a current document and the draft is not blank; it is the trimmed draft, non-empty, with no whitespace at either end |
| `Header.ExportShape` | src/components/DocumentHeader.tsx:61-67 | there is an export exactly when there is a current document; the file name is the title followed by ".html" and the body is the raw content |
| `Header.DocumentHeader.constructor` | src/components/DocumentHeader.tsx:23-24 | the draft starts empty and editing off |
| `Header.DocumentHeader.CurrentDocumentChanged` | src/components/DocumentHeader.tsx:27-31 | a non-null current document puts its title in the draft; null leaves the draft; the editing flag never changes |
| `Header.DocumentHeader.ChangeDraft` | src/components/DocumentHeader.tsx:98 | typing replaces the draft and nothing else |
| `Header.DocumentHeader.StartEditing` | src/components/DocumentHeader.tsx:105-107 | clicking the title turns editing on and keeps the draft |
| `Header.DocumentHeader.SubmitTitle` | src/components/DocumentHeader.tsx:33-42 | with a committable title, the store receives `updateTitle` of the trimmed draft and editing ends; otherwise neither the store nor the editing flag changes |
| `Header.DocumentHeader.Blur` | src/components/DocumentHeader.tsx:99 | blur has the same effect as submit |
| `Header.DocumentHeader.KeyDown` | src/components/DocumentHeader.tsx:44-51 | Enter submits; Escape restores the current title, or "" without one, and ends editing without renaming; any other key changes nothing |
| `Sidebar.FilteredDocuments` | src/components/DocumentSidebar.tsx:23-25 | the result is a subsequence of the list (order kept); every kept document's lower-cased title contains the lower-cased term; every matching document keeps its multiplicity |
| `Sidebar.SearchExample` | src/components/DocumentSidebar.tsx:23-25 | searching "alph" among "Alpha", "beta", "Alphabet" yields "Alpha" and "Alphabet" in that order |
| `Sidebar.EmptySearchKeepsAll` | src/components/DocumentSidebar.tsx:23-25 | an empty search term returns every document |
| `Sidebar.MatchIgnoresTermCase` | src/components/DocumentSidebar.tsx:24 | a document matches a search term exactly when it matches the lower-cased term |
| `Sidebar.SearchIgnoresCase` | src/components/DocumentSidebar.tsx:23-25 | a search term and its lower-cased form give the same filtered list |
| `Sidebar.FilteredBounds` | src/components/DocumentSidebar.tsx:23-25 | the filtered list is no longer than the list and keeps ids distinct |
| `Sidebar.Entries` | src/components/DocumentSidebar.tsx:69-73 | one entry per filtered document, in order; an entry is selected exactly when its id equals the current document's |
| `Sidebar.SelectionMarks` | src/components/DocumentSidebar.tsx:73 | in a consistent store at most one entry is selected; the current document's entry is selected whenever it matches the search |
| `Sidebar.EmptyStateMessage` | src/components/DocumentSidebar.tsx:63-65 | the message appears exactly when nothing matches; it is "No documents match your search" with a search term, and otherwise "No documents yet", which then only happens for an empty list |
| `Sidebar.Dispatch` | src/components/DocumentSidebar.tsx:43-98 | an entry click loads that id; a delete click only deletes, with no load; "+" creates an untitled document |
| `Editor.InitialContent` | src/components/RichTextEditor.tsx:36 | the initial markup is the current content, or the placeholder when there is no document or its content is empty; it is never empty |
| `Editor.EchoNeedsNoPush` | src/components/RichTextEditor.tsx:69-76 | after the store takes the surface's markup, the sync guard is false, so no push follows |
| `Editor.PushSettles` | src/components/RichTextEditor.tsx:72-73 | after a push the guard is false again unless the document's content is empty, in which case the surface shows the placeholder |
| `Editor.AcceptsDrop` | src/components/RichTextEditor.tsx:45-64 | a drop is accepted exactly when it is not a move, has a first file, and that file's MIME type contains "image/" |
| `Editor.RichTextEditor.Mount` | src/components/RichTextEditor.tsx:16-36 | the surface is created holding the initial content |
| `Editor.RichTextEditor.SyncEffect` | src/components/RichTextEditor.tsx:69-76 | a push happens exactly when a surface and a current document exist and their markup differs; it writes the content, or the placeholder for empty content; otherwise the surface is unchanged |
| `Editor.RichTextEditor.OnUpdate` | src/components/RichTextEditor.tsx:37-40 | the store's new state is `updateDocument` of the surface's markup |
| `Editor.RichTextEditor.UserEdit` | src/components/RichTextEditor.tsx:37-76 | a user edit is stored, and the sync effect that follows does not push, so the cycle ends |
| `IndexPage.ScreenChoice` | src/pages/Index.tsx:19-60 | in every state: landing exactly for no current document and an empty list; the editor exactly when there is a current document; the selection prompt exactly for a non-empty list with no current document |
| `IndexPage.EditorImpliesDocuments` | src/pages/Index.tsx:44-45 | when the current document is an entry of the list, showing the editor implies the list is not empty |
| `IndexPage.DeleteCurrentShowsPrompt` | src/pages/Index.tsx:44-60 | deleting the current document while another remains shows the selection prompt |
| `IndexPage.Bootstrap` | src/pages/Index.tsx:13-17 | with an empty list, a current "Welcome Document" becomes the only entry and the editor is shown; otherwise nothing changes |

## Left out

- Persistence: the zustand `persist` middleware, localStorage, and JSON (de)serialisation of the `Date` fields are storage I/O. Only the `partialize` projection is modelled, so there is no hydration round trip.
- Store.NewDocument: `createNewDocument` reads the clock twice, once for `lastModified` and once for `created`. The model uses one `now` parameter for both readings, so it cannot show `created` coming out later than `lastModified`.
- `crypto.randomUUID()` and `new Date()` are parameters. Freshness of identifiers is a precondition of `CreateDocument`. Nothing is claimed about clock monotonicity.
- The editing surface is a record holding its markup. It is assumed that `getHTML()` returns exactly what was set or typed, with no markup normalisation. It is also assumed that a programmatic `setContent` does not fire `onUpdate`. Both are library behaviour.
- React scheduling: when effects run and how events are ordered (e.g. whether the input's blur fires after Enter or Escape unmounts it) is not modelled. Each handler and effect is a method the caller invokes.
- FileReader, image insertion at the drop position, the file-input upload, and the Blob/URL/anchor download are browser side effects. Only the drop-acceptance decision and the export file's name and body are modelled.
- The toolbar, toasts, date formatting, CSS classes and the sidebar-collapse toggle are presentation only.
- JsStrings.ToLower: folds only ASCII letters A-Z, not full Unicode `toLowerCase`. Strings are sequences of Unicode characters, not UTF-16 code units.
- Store.EditsKeepIdentity: requires a consistent state. Without it, an entry sharing the current document's id could take the current record's creation time.
