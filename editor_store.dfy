/**
 * The document store: the list of documents, the current document and the
 * actions that change them. Each action is a pure transition on the persisted
 * part of the state (a `Snapshot`); the class `EditorStore` holds that state in
 * mutable fields and performs the transitions.
 */
module Store {
  import opened Wrappers
  import opened Sequences

  /** A document. Timestamps are abstract instants supplied by the caller. */
  datatype Document = Document(id: string, title: string, content: string, lastModified: int, created: int)

  /** The part of the store that is persisted: the result of `partialize`. */
  datatype Snapshot = Snapshot(documents: seq<Document>, currentDocument: Option<Document>)

  const DefaultTitle: string := "Untitled Document"

  /** Some document in `docs` has identifier `id`. */
  predicate HasId(docs: seq<Document>, id: string) {
    exists i :: 0 <= i < |docs| && docs[i].id == id
  }

  /** No two documents share an identifier. */
  predicate IdsDistinct(docs: seq<Document>) {
    forall i, j :: 0 <= i < j < |docs| ==> docs[i].id != docs[j].id
  }

  /** The current document, when there is one, is an entry of the list. */
  predicate SelectionValid(s: Snapshot) {
    s.currentDocument.Some? ==> s.currentDocument.value in s.documents
  }

  /** The invariant every action keeps. */
  predicate Consistent(s: Snapshot) {
    SelectionValid(s) && IdsDistinct(s.documents)
  }

  /** `createNewDocument`: the identifier and the clock reading are inputs. */
  function NewDocument(id: string, title: string, now: int): Document {
    Document(id, title, "", now, now)
  }

  /** `documents.map(doc => doc.id === d.id ? d : doc)`. */
  function ReplaceById(docs: seq<Document>, d: Document): (r: seq<Document>)
    ensures |r| == |docs|
    ensures forall i :: 0 <= i < |docs| && docs[i].id == d.id ==> r[i] == d
    ensures forall i :: 0 <= i < |docs| && docs[i].id != d.id ==> r[i] == docs[i]
  {
    if docs == [] then []
    else [if docs[0].id == d.id then d else docs[0]] + ReplaceById(docs[1..], d)
  }

  /** `documents.filter(doc => doc.id !== id)`. */
  function RemoveById(docs: seq<Document>, id: string): (r: seq<Document>)
    ensures IsSubsequence(r, docs)
    ensures forall d :: d in r ==> d.id != id
    ensures forall d: Document :: d.id != id ==> multiset(r)[d] == multiset(docs)[d]
  {
    if docs == [] then []
    else
      assert docs == [docs[0]] + docs[1..];
      if docs[0].id != id then [docs[0]] + RemoveById(docs[1..], id)
      else RemoveById(docs[1..], id)
  }

  /** `documents.find(doc => doc.id === id)`. */
  function FindById(docs: seq<Document>, id: string): (r: Option<Document>)
    ensures r.Some? <==> HasId(docs, id)
    ensures r.Some? ==> r.value.id == id && r.value in docs
  {
    if docs == [] then None
    else if docs[0].id == id then Some(docs[0])
    else
      assert HasId(docs, id) ==> HasId(docs[1..], id) by {
        if HasId(docs, id) {
          var i :| 0 <= i < |docs| && docs[i].id == id;
          assert docs[1..][i - 1].id == id;
        }
      }
      FindById(docs[1..], id)
  }

  /** `find` returns the entry at the first position holding the identifier. */
  lemma {:induction false} FindByIdFirst(docs: seq<Document>, id: string, j: nat)
    requires j < |docs| && docs[j].id == id
    requires forall k :: 0 <= k < j ==> docs[k].id != id
    ensures FindById(docs, id) == Some(docs[j])
  {
    if j > 0 {
      FindByIdFirst(docs[1..], id, j - 1);
    }
  }

  // ---------------------------------------------------------------------------
  // The actions, as transitions of the persisted state

  /** `createDocument(title)`: a fresh document is prepended and made current. */
  function Created(s: Snapshot, id: string, title: string, now: int): Snapshot {
    var d := NewDocument(id, title, now);
    Snapshot([d] + s.documents, Some(d))
  }

  /** `updateDocument(content)`: nothing without a current document. */
  function ContentUpdated(s: Snapshot, content: string, now: int): Snapshot {
    match s.currentDocument
    case None => s
    case Some(cur) =>
      var u := cur.(content := content, lastModified := now);
      Snapshot(ReplaceById(s.documents, u), Some(u))
  }

  /** `updateTitle(title)`: the title is stored as given; nothing without a current document. */
  function TitleUpdated(s: Snapshot, title: string, now: int): Snapshot {
    match s.currentDocument
    case None => s
    case Some(cur) =>
      var u := cur.(title := title, lastModified := now);
      Snapshot(ReplaceById(s.documents, u), Some(u))
  }

  /** `loadDocument(id)`: selects the first entry with that id, if any. */
  function Loaded(s: Snapshot, id: string): Snapshot {
    match FindById(s.documents, id)
    case None => s
    case Some(d) => s.(currentDocument := Some(d))
  }

  /** `deleteDocument(id)`: drops every entry with that id; clears a selection with that id. */
  function Deleted(s: Snapshot, id: string): Snapshot {
    Snapshot(
      RemoveById(s.documents, id),
      if s.currentDocument.Some? && s.currentDocument.value.id == id then None else s.currentDocument)
  }

  // ---------------------------------------------------------------------------
  // Properties of the actions

  /**
   * `createDocument` puts the new document first, with the given title, empty
   * content and both timestamps set, makes it current and keeps the previous
   * entries, in order, after it.
   */
  lemma CreatedShape(s: Snapshot, id: string, title: string, now: int)
    ensures var t := Created(s, id, title, now);
      && |t.documents| == |s.documents| + 1
      && t.documents[0] == Document(id, title, "", now, now)
      && t.currentDocument == Some(t.documents[0])
      && t.documents[1..] == s.documents
  {
  }

  /** With an identifier not yet in use, `createDocument` keeps the invariant. */
  lemma CreatedConsistent(s: Snapshot, id: string, title: string, now: int)
    requires Consistent(s) && !HasId(s.documents, id)
    ensures Consistent(Created(s, id, title, now))
  {
    var t := Created(s, id, title, now);
    forall i, j | 0 <= i < j < |t.documents| ensures t.documents[i].id != t.documents[j].id {
      if i == 0 {
        assert t.documents[j] == s.documents[j - 1];
      } else {
        assert t.documents[i] == s.documents[i - 1] && t.documents[j] == s.documents[j - 1];
      }
    }
  }

  /** Replacing by identifier keeps every identifier where it was. */
  lemma ReplaceByIdKeepsIds(docs: seq<Document>, d: Document)
    ensures forall i :: 0 <= i < |docs| ==> ReplaceById(docs, d)[i].id == docs[i].id
  {
  }

  /**
   * The selection edits (`updateDocument`, `updateTitle`) keep the invariant:
   * the edited record is what replaces the current document in the list.
   */
  lemma {:induction false} ReplaceCurrentConsistent(s: Snapshot, u: Document)
    requires Consistent(s) && s.currentDocument.Some? && u.id == s.currentDocument.value.id
    ensures Consistent(Snapshot(ReplaceById(s.documents, u), Some(u)))
  {
    var cur := s.currentDocument.value;
    var i :| 0 <= i < |s.documents| && s.documents[i] == cur;
    var r := ReplaceById(s.documents, u);
    assert r[i] == u;
    ReplaceByIdKeepsIds(s.documents, u);
  }

  /** `updateDocument` with no current document leaves the whole state alone. */
  lemma ContentUpdatedNoCurrent(s: Snapshot, content: string, now: int)
    requires s.currentDocument.None?
    ensures ContentUpdated(s, content, now) == s
  {
  }

  /**
   * `updateDocument(c)`: the current document and every entry with its id
   * become one record holding `c`, with id, title and creation time kept; the
   * other entries, the length and the order are unchanged.
   */
  lemma ContentUpdatedEffect(s: Snapshot, content: string, now: int)
    requires s.currentDocument.Some?
    ensures var cur := s.currentDocument.value; var t := ContentUpdated(s, content, now);
      && t.currentDocument.Some?
      && var u := t.currentDocument.value;
      && u.id == cur.id && u.title == cur.title && u.created == cur.created
      && u.content == content && u.lastModified == now
      && |t.documents| == |s.documents|
      && (forall i :: 0 <= i < |s.documents| && s.documents[i].id == cur.id ==> t.documents[i] == u)
      && (forall i :: 0 <= i < |s.documents| && s.documents[i].id != cur.id ==> t.documents[i] == s.documents[i])
  {
  }

  /** `updateTitle` with no current document leaves the whole state alone. */
  lemma TitleUpdatedNoCurrent(s: Snapshot, title: string, now: int)
    requires s.currentDocument.None?
    ensures TitleUpdated(s, title, now) == s
  {
  }

  /**
   * `updateTitle(t)` stores `t` verbatim (blank or not) and changes only the
   * title and modification time of the current record and of its entries.
   */
  lemma TitleUpdatedEffect(s: Snapshot, title: string, now: int)
    requires s.currentDocument.Some?
    ensures var cur := s.currentDocument.value; var t := TitleUpdated(s, title, now);
      && t.currentDocument == Some(cur.(title := title, lastModified := now))
      && |t.documents| == |s.documents|
      && (forall i :: 0 <= i < |s.documents| && s.documents[i].id == cur.id ==>
            t.documents[i] == cur.(title := title, lastModified := now))
      && (forall i :: 0 <= i < |s.documents| && s.documents[i].id != cur.id ==> t.documents[i] == s.documents[i])
  {
  }

  /**
   * In a consistent state the edits change no entry's identifier or creation
   * time, position by position.
   */
  lemma {:induction false} EditsKeepIdentity(s: Snapshot, content: string, title: string, now: int)
    requires Consistent(s)
    ensures var a := ContentUpdated(s, content, now); var b := TitleUpdated(s, title, now);
      && |a.documents| == |b.documents| == |s.documents|
      && (forall i :: 0 <= i < |s.documents| ==>
            a.documents[i].id == s.documents[i].id && a.documents[i].created == s.documents[i].created
            && b.documents[i].id == s.documents[i].id && b.documents[i].created == s.documents[i].created)
  {
    if s.currentDocument.Some? {
      var cur := s.currentDocument.value;
      var k :| 0 <= k < |s.documents| && s.documents[k] == cur;
      var a := ContentUpdated(s, content, now);
      var b := TitleUpdated(s, title, now);
      ContentUpdatedEffect(s, content, now);
      TitleUpdatedEffect(s, title, now);
      forall i | 0 <= i < |s.documents|
        ensures a.documents[i].id == s.documents[i].id && a.documents[i].created == s.documents[i].created
        ensures b.documents[i].id == s.documents[i].id && b.documents[i].created == s.documents[i].created
      {
        if s.documents[i].id == cur.id {
          assert i == k;
          assert a.documents[i] == cur.(content := content, lastModified := now);
          assert b.documents[i] == cur.(title := title, lastModified := now);
        } else {
          assert a.documents[i] == s.documents[i] && b.documents[i] == s.documents[i];
        }
      }
    }
  }

  /** The edits keep the invariant. */
  lemma UpdatesConsistent(s: Snapshot, content: string, title: string, now: int)
    requires Consistent(s)
    ensures Consistent(ContentUpdated(s, content, now))
    ensures Consistent(TitleUpdated(s, title, now))
  {
    if s.currentDocument.Some? {
      var cur := s.currentDocument.value;
      ReplaceCurrentConsistent(s, cur.(content := content, lastModified := now));
      ReplaceCurrentConsistent(s, cur.(title := title, lastModified := now));
    }
  }

  /**
   * `loadDocument(id)` never changes the list; with an absent id it changes
   * nothing, otherwise the current document becomes the first entry with that id.
   */
  lemma LoadedEffect(s: Snapshot, id: string)
    ensures Loaded(s, id).documents == s.documents
    ensures !HasId(s.documents, id) ==> Loaded(s, id) == s
    ensures forall j :: 0 <= j < |s.documents| && s.documents[j].id == id
                        && (forall k :: 0 <= k < j ==> s.documents[k].id != id) ==>
      Loaded(s, id).currentDocument == Some(s.documents[j])
  {
    forall j | 0 <= j < |s.documents| && s.documents[j].id == id
               && (forall k :: 0 <= k < j ==> s.documents[k].id != id)
      ensures Loaded(s, id).currentDocument == Some(s.documents[j])
    {
      FindByIdFirst(s.documents, id, j);
    }
  }

  /** With distinct identifiers, loading the id of an entry selects that very entry. */
  lemma LoadedSelectsEntry(s: Snapshot, d: Document)
    requires IdsDistinct(s.documents) && d in s.documents
    ensures Loaded(s, d.id) == s.(currentDocument := Some(d))
  {
    var k :| 0 <= k < |s.documents| && s.documents[k] == d;
    FindByIdFirst(s.documents, d.id, k);
  }

  /** `loadDocument` keeps the invariant. */
  lemma LoadedConsistent(s: Snapshot, id: string)
    requires Consistent(s)
    ensures Consistent(Loaded(s, id))
  {
  }

  /** A subsequence of a list with distinct identifiers has distinct identifiers. */
  lemma {:induction false} SubsequenceIdsDistinct(a: seq<Document>, b: seq<Document>)
    requires IsSubsequence(a, b) && IdsDistinct(b)
    ensures IdsDistinct(a)
    decreases |b|
  {
    if a != [] {
      if a[0] == b[0] && IsSubsequence(a[1..], b[1..]) {
        SubsequenceIdsDistinct(a[1..], b[1..]);
        SubsequenceMembers(a[1..], b[1..]);
        forall j | 0 < j < |a| ensures a[0].id != a[j].id {
          assert a[j] in a[1..];
          var m :| 0 <= m < |b[1..]| && b[1..][m] == a[j];
          assert b[m + 1] == a[j];
        }
      } else {
        SubsequenceIdsDistinct(a, b[1..]);
      }
    }
  }

  /** Removing an identifier that is not in the list gives the list back. */
  lemma {:induction false} RemoveAbsentId(docs: seq<Document>, id: string)
    requires !HasId(docs, id)
    ensures RemoveById(docs, id) == docs
  {
    if docs != [] {
      forall i | 0 <= i < |docs[1..]| ensures docs[1..][i].id != id {
        assert docs[1..][i] == docs[i + 1];
      }
      RemoveAbsentId(docs[1..], id);
    }
  }

  /**
   * `deleteDocument(id)` removes exactly the entries with that id and keeps the
   * rest in order; the selection is cleared exactly when it had that id.
   */
  lemma DeletedEffect(s: Snapshot, id: string)
    ensures var t := Deleted(s, id);
      && IsSubsequence(t.documents, s.documents)
      && !HasId(t.documents, id)
      && (forall d: Document :: d.id != id ==> multiset(t.documents)[d] == multiset(s.documents)[d])
      && (t.currentDocument.None? <==> s.currentDocument.None? || s.currentDocument.value.id == id)
      && (t.currentDocument.Some? ==> t.currentDocument == s.currentDocument)
  {
    var t := Deleted(s, id);
    forall i | 0 <= i < |t.documents| ensures t.documents[i].id != id {
      assert t.documents[i] in t.documents;
    }
  }

  /** Deleting an identifier that is not in a consistent state changes nothing. */
  lemma DeletedAbsent(s: Snapshot, id: string)
    requires SelectionValid(s) && !HasId(s.documents, id)
    ensures Deleted(s, id) == s
  {
    RemoveAbsentId(s.documents, id);
    if s.currentDocument.Some? {
      var k :| 0 <= k < |s.documents| && s.documents[k] == s.currentDocument.value;
      assert s.documents[k].id != id;
    }
  }

  /** `deleteDocument` keeps the invariant. */
  lemma DeletedConsistent(s: Snapshot, id: string)
    requires Consistent(s)
    ensures Consistent(Deleted(s, id))
  {
    var t := Deleted(s, id);
    SubsequenceIdsDistinct(t.documents, s.documents);
    if t.currentDocument.Some? {
      var c := t.currentDocument.value;
      assert multiset(t.documents)[c] == multiset(s.documents)[c];
    }
  }

  // ---------------------------------------------------------------------------
  // The store object

  /** The zustand store: two persisted fields and the (unpersisted) loading flag. */
  class EditorStore {
    var documents: seq<Document>
    var currentDocument: Option<Document>
    var isLoading: bool

    /** `partialize`: what is persisted, leaving `isLoading` out. */
    function Partialize(): (p: Snapshot)
      reads this
      ensures p.documents == documents && p.currentDocument == currentDocument
    {
      Snapshot(documents, currentDocument)
    }

    ghost predicate Valid()
      reads this
    {
      Consistent(Partialize())
    }

    /** The initial state: no documents, nothing selected, not loading. */
    constructor ()
      ensures Valid()
      ensures documents == [] && currentDocument == None && !isLoading
    {
      documents := [];
      currentDocument := None;
      isLoading := false;
    }

    /** `createDocument(title?)`; `id` is the fresh identifier and `now` the clock. */
    method CreateDocument(title: Option<string>, id: string, now: int)
      requires Valid() && !HasId(documents, id)
      modifies this
      ensures Valid()
      ensures Partialize() == Created(old(Partialize()), id, title.GetOr(DefaultTitle), now)
      ensures isLoading == old(isLoading)
    {
      CreatedConsistent(Partialize(), id, title.GetOr(DefaultTitle), now);
      var newDoc := NewDocument(id, title.GetOr(DefaultTitle), now);
      currentDocument := Some(newDoc);
      documents := [newDoc] + documents;
    }

    /** `updateDocument(content)`. */
    method UpdateDocument(content: string, now: int)
      requires Valid()
      modifies this
      ensures Valid()
      ensures Partialize() == ContentUpdated(old(Partialize()), content, now)
      ensures isLoading == old(isLoading)
    {
      UpdatesConsistent(Partialize(), content, "", now);
      if currentDocument.None? {
        return;
      }
      var updatedDoc := currentDocument.value.(content := content, lastModified := now);
      currentDocument := Some(updatedDoc);
      documents := ReplaceById(documents, updatedDoc);
    }

    /**
     * `saveDocument`: changes nothing; reports the title it would have logged
     * as saved, or nothing when there is no current document.
     */
    method SaveDocument() returns (saved: Option<string>)
      ensures saved.None? <==> currentDocument.None?
      ensures saved.Some? ==> saved.value == currentDocument.value.title
    {
      if currentDocument.None? {
        return None;
      }
      saved := Some(currentDocument.value.title);
    }

    /** `loadDocument(id)`. */
    method LoadDocument(id: string)
      requires Valid()
      modifies this
      ensures Valid()
      ensures Partialize() == Loaded(old(Partialize()), id)
      ensures isLoading == old(isLoading)
    {
      LoadedConsistent(Partialize(), id);
      var document := FindById(documents, id);
      if document.Some? {
        currentDocument := document;
      }
    }

    /** `deleteDocument(id)`. */
    method DeleteDocument(id: string)
      requires Valid()
      modifies this
      ensures Valid()
      ensures Partialize() == Deleted(old(Partialize()), id)
      ensures isLoading == old(isLoading)
    {
      DeletedConsistent(Partialize(), id);
      if currentDocument.Some? && currentDocument.value.id == id {
        currentDocument := None;
      }
      documents := RemoveById(documents, id);
    }

    /** `updateTitle(title)`. */
    method UpdateTitle(title: string, now: int)
      requires Valid()
      modifies this
      ensures Valid()
      ensures Partialize() == TitleUpdated(old(Partialize()), title, now)
      ensures isLoading == old(isLoading)
    {
      UpdatesConsistent(Partialize(), "", title, now);
      if currentDocument.None? {
        return;
      }
      var updatedDoc := currentDocument.value.(title := title, lastModified := now);
      currentDocument := Some(updatedDoc);
      documents := ReplaceById(documents, updatedDoc);
    }
  }
}
