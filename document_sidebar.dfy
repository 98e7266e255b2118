/**
 * The document sidebar: the case-insensitive title search, the list entries
 * with their "selected" marks, the empty-state message, and what a click on
 * an entry, on its delete button or on the new-document button does.
 */
module Sidebar {
  import opened Wrappers
  import opened Sequences
  import opened JsStrings
  import opened Store

  /** The lower-cased title contains the lower-cased search term. */
  predicate Matches(d: Document, searchTerm: string) {
    Includes(ToLower(d.title), ToLower(searchTerm))
  }

  /** `filteredDocuments`: the documents matching the search term, in list order. */
  function FilteredDocuments(docs: seq<Document>, searchTerm: string): (r: seq<Document>)
    ensures IsSubsequence(r, docs)
    ensures forall d :: d in r ==> Matches(d, searchTerm)
    ensures forall d :: Matches(d, searchTerm) ==> multiset(r)[d] == multiset(docs)[d]
  {
    if docs == [] then []
    else
      assert docs == [docs[0]] + docs[1..];
      if Matches(docs[0], searchTerm) then [docs[0]] + FilteredDocuments(docs[1..], searchTerm)
      else FilteredDocuments(docs[1..], searchTerm)
  }

  /** The empty search term keeps every document. */
  lemma {:induction false} EmptySearchKeepsAll(docs: seq<Document>)
    ensures FilteredDocuments(docs, "") == docs
  {
    if docs != [] {
      IncludesEmpty(ToLower(docs[0].title));
      EmptySearchKeepsAll(docs[1..]);
    }
  }

  lemma LowerExamples()
    ensures ToLower("alph") == "alph" && ToLower("Alpha") == "alpha"
    ensures ToLower("beta") == "beta" && ToLower("Alphabet") == "alphabet"
  {
  }

  lemma IncludesExamples()
    ensures Includes("alpha", "alph") && Includes("alphabet", "alph") && !Includes("beta", "alph")
  {
    assert "beta"[..4] != "alph" by { assert "beta"[0] != 'a'; }
    assert "beta"[1..] == "eta";
  }

  /** Searching "alph" among "Alpha", "beta", "Alphabet" keeps "Alpha" and "Alphabet", in order. */
  lemma SearchExample(a: Document, b: Document, c: Document)
    requires a.title == "Alpha" && b.title == "beta" && c.title == "Alphabet"
    ensures FilteredDocuments([a, b, c], "alph") == [a, c]
  {
    LowerExamples();
    IncludesExamples();
    assert Matches(a, "alph") && !Matches(b, "alph") && Matches(c, "alph");
    assert [a, b, c][1..] == [b, c];
    assert [b, c][1..] == [c];
    assert [c][1..] == [];
    assert FilteredDocuments([c], "alph") == [c];
    assert FilteredDocuments([b, c], "alph") == [c];
  }

  /** The filtered list is never longer than the list, and keeps distinct identifiers. */
  lemma FilteredBounds(docs: seq<Document>, searchTerm: string)
    ensures |FilteredDocuments(docs, searchTerm)| <= |docs|
    ensures IdsDistinct(docs) ==> IdsDistinct(FilteredDocuments(docs, searchTerm))
  {
    SubsequenceLength(FilteredDocuments(docs, searchTerm), docs);
    if IdsDistinct(docs) {
      SubsequenceIdsDistinct(FilteredDocuments(docs, searchTerm), docs);
    }
  }

  /** Whether a document matches does not depend on the case of the search term. */
  lemma MatchIgnoresTermCase(d: Document, searchTerm: string)
    ensures Matches(d, searchTerm) <==> Matches(d, ToLower(searchTerm))
  {
    ToLowerIdempotent(searchTerm);
  }

  /** The search ignores case: a term and its lower-cased form select the same documents. */
  lemma {:induction false} SearchIgnoresCase(docs: seq<Document>, searchTerm: string)
    ensures FilteredDocuments(docs, searchTerm) == FilteredDocuments(docs, ToLower(searchTerm))
  {
    if docs != [] {
      MatchIgnoresTermCase(docs[0], searchTerm);
      SearchIgnoresCase(docs[1..], searchTerm);
    }
  }

  /** One row of the list: a document and whether it is drawn as selected. */
  datatype Entry = Entry(doc: Document, selected: bool)

  /** The entries for `filtered`: an entry is selected when its id is the current document's. */
  function Entries(filtered: seq<Document>, current: Option<Document>): (r: seq<Entry>)
    ensures |r| == |filtered|
    ensures forall i :: 0 <= i < |r| ==> r[i].doc == filtered[i]
    ensures forall i :: 0 <= i < |r| ==> (r[i].selected <==> current.Some? && filtered[i].id == current.value.id)
  {
    seq(|filtered|, i requires 0 <= i < |filtered| =>
      Entry(filtered[i], current.Some? && current.value.id == filtered[i].id))
  }

  /**
   * In a consistent store at most one entry is selected, and the current
   * document's entry is selected whenever it matches the search.
   */
  lemma SelectionMarks(s: Snapshot, searchTerm: string)
    requires Consistent(s)
    ensures var e := Entries(FilteredDocuments(s.documents, searchTerm), s.currentDocument);
      && (forall i, j :: 0 <= i < j < |e| && e[i].selected ==> !e[j].selected)
      && (s.currentDocument.Some? && Matches(s.currentDocument.value, searchTerm) ==>
            exists i :: 0 <= i < |e| && e[i].selected && e[i].doc == s.currentDocument.value)
  {
    var f := FilteredDocuments(s.documents, searchTerm);
    FilteredBounds(s.documents, searchTerm);
    if s.currentDocument.Some? && Matches(s.currentDocument.value, searchTerm) {
      var c := s.currentDocument.value;
      assert multiset(f)[c] == multiset(s.documents)[c];
      assert c in f;
    }
  }

  const NoMatchMessage: string := "No documents match your search"
  const NoDocumentsMessage: string := "No documents yet"

  /** The list area: a message when nothing is listed, the entries otherwise. */
  datatype ListView = EmptyState(message: string) | Listing(entries: seq<Entry>)

  function View(docs: seq<Document>, searchTerm: string, current: Option<Document>): ListView {
    var filtered := FilteredDocuments(docs, searchTerm);
    if |filtered| == 0 then
      EmptyState(if searchTerm != "" then NoMatchMessage else NoDocumentsMessage)
    else
      Listing(Entries(filtered, current))
  }

  /**
   * The message appears exactly when nothing matches; it names the search when
   * there is a search term, and otherwise it appears only for an empty list.
   */
  lemma EmptyStateMessage(docs: seq<Document>, searchTerm: string, current: Option<Document>)
    ensures var v := View(docs, searchTerm, current);
      && (v.EmptyState? <==> FilteredDocuments(docs, searchTerm) == [])
      && (v.EmptyState? && searchTerm != "" ==> v.message == NoMatchMessage)
      && (v.EmptyState? && searchTerm == "" ==> v.message == NoDocumentsMessage && docs == [])
      && (v.Listing? ==> |v.entries| == |FilteredDocuments(docs, searchTerm)|)
  {
    EmptySearchKeepsAll(docs);
  }

  /** The clicks the sidebar handles. */
  datatype SidebarEvent =
    | EntryClicked(id: string)   // click on an entry
    | DeleteClicked(id: string)  // click on an entry's delete button; propagation is stopped
    | NewClicked                 // the "+" button

  /**
   * Dispatches a click to the store: an entry click loads it, a delete click
   * only deletes (the entry's own click handler does not run), and "+" creates
   * an untitled document with the fresh identifier `freshId`.
   */
  method Dispatch(store: EditorStore, event: SidebarEvent, freshId: string, now: int)
    requires store.Valid()
    requires event.NewClicked? ==> !HasId(store.documents, freshId)
    modifies store
    ensures store.Valid() && store.isLoading == old(store.isLoading)
    ensures event.EntryClicked? ==> store.Partialize() == Loaded(old(store.Partialize()), event.id)
    ensures event.DeleteClicked? ==> store.Partialize() == Deleted(old(store.Partialize()), event.id)
    ensures event.NewClicked? ==> store.Partialize() == Created(old(store.Partialize()), freshId, DefaultTitle, now)
  {
    match event
    case EntryClicked(id) =>
      store.LoadDocument(id);
    case DeleteClicked(id) =>
      store.DeleteDocument(id);
    case NewClicked =>
      store.CreateDocument(None, freshId, now);
  }
}
