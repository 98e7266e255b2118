/**
 * The bridge between the store and the rich-text editing surface. The surface
 * is a record holding the markup it currently renders. Outbound, the current
 * document's content is pushed into the surface only when the two differ;
 * inbound, every user edit is written back into the store.
 */
module Editor {
  import opened Wrappers
  import opened JsStrings
  import opened Store

  const Placeholder: string := "<p>Start typing to get started...</p>"

  /** The editing surface: the markup its `getHTML()` returns. */
  datatype Surface = Surface(html: string)

  /** What the surface shows for a document: its content, or the placeholder when that is empty. */
  function Displayed(d: Document): string {
    if d.content != "" then d.content else Placeholder
  }

  /** The surface's initial content: `currentDocument?.content || placeholder`. */
  function InitialContent(current: Option<Document>): (c: string)
    ensures c != ""
    ensures current.Some? && current.value.content != "" ==> c == current.value.content
    ensures current.None? || current.value.content == "" ==> c == Placeholder
  {
    match current
    case None => Placeholder
    case Some(d) => Displayed(d)
  }

  /** The guard of the sync effect: a surface and a current document exist and they differ. */
  predicate NeedsPush(editor: Option<Surface>, current: Option<Document>) {
    editor.Some? && current.Some? && editor.value.html != current.value.content
  }

  /**
   * After an inbound update the store holds exactly what the surface holds, so
   * the sync effect pushes nothing: the update cycle ends.
   */
  lemma EchoNeedsNoPush(s: Snapshot, html: string, now: int)
    ensures !NeedsPush(Some(Surface(html)), ContentUpdated(s, html, now).currentDocument)
  {
  }

  /**
   * After a push the surface agrees with the document unless the document is
   * empty (the surface then shows the placeholder, which is never empty).
   */
  lemma PushSettles(d: Document)
    ensures NeedsPush(Some(Surface(Displayed(d))), Some(d)) <==> d.content == ""
  {
  }

  /** A file in a drop: only its MIME type matters. */
  datatype DroppedFile = DroppedFile(mimeType: string)

  /**
   * `handleDrop`: a drop is taken over (and its image inserted) only when it is
   * not a move, carries at least one file, and the first file's MIME type
   * contains "image/". `files` is None when the event has no data transfer.
   */
  function AcceptsDrop(moved: bool, files: Option<seq<DroppedFile>>): (accepted: bool)
    ensures accepted <==>
      && !moved && files.Some? && |files.value| > 0
      && exists i: nat :: OccursAt(files.value[0].mimeType, "image/", i)
  {
    if !moved && files.Some? && |files.value| > 0 then
      IncludesIffOccurs(files.value[0].mimeType, "image/");
      Includes(files.value[0].mimeType, "image/")
    else false
  }

  /** The editor component: the store it reads and the surface, once created. */
  class RichTextEditor {
    const store: EditorStore
    var editor: Option<Surface>

    /** Before the first render completes there is no surface. */
    constructor (store: EditorStore)
      ensures this.store == store && editor.None?
    {
      this.store := store;
      editor := None;
    }

    /** `useEditor` creates the surface with the initial content. */
    method Mount()
      modifies this
      ensures editor == Some(Surface(InitialContent(store.currentDocument)))
    {
      editor := Some(Surface(InitialContent(store.currentDocument)));
    }

    /**
     * The sync effect, run when the current document or the surface changes:
     * pushes the document into the surface exactly when `NeedsPush` holds.
     */
    method SyncEffect() returns (pushed: bool)
      modifies this
      ensures pushed <==> NeedsPush(old(editor), store.currentDocument)
      ensures pushed ==> editor == Some(Surface(Displayed(store.currentDocument.value)))
      ensures !pushed ==> editor == old(editor)
    {
      pushed := false;
      if editor.Some? && store.currentDocument.Some? {
        var currentContent := editor.value.html;
        if currentContent != store.currentDocument.value.content {
          editor := Some(Surface(Displayed(store.currentDocument.value)));
          pushed := true;
        }
      }
    }

    /** `onUpdate`: the surface's markup is written into the store. */
    method OnUpdate(now: int)
      requires store.Valid() && editor.Some?
      modifies store
      ensures store.Valid() && store.isLoading == old(store.isLoading)
      ensures store.Partialize() == ContentUpdated(old(store.Partialize()), editor.value.html, now)
    {
      var html := editor.value.html;
      store.UpdateDocument(html, now);
    }

    /**
     * One user edit end to end: the surface takes the new markup, `onUpdate`
     * stores it, and the sync effect that follows pushes nothing back.
     */
    method UserEdit(html: string, now: int) returns (pushed: bool)
      requires store.Valid() && editor.Some?
      modifies this, store
      ensures store.Valid() && store.isLoading == old(store.isLoading)
      ensures editor == Some(Surface(html))
      ensures store.Partialize() == ContentUpdated(old(store.Partialize()), html, now)
      ensures !pushed
    {
      editor := Some(Surface(html));
      OnUpdate(now);
      EchoNeedsNoPush(old(store.Partialize()), html, now);
      pushed := SyncEffect();
    }
  }
}
