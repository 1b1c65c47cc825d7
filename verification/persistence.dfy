/** Persistence: the `artifacts-database` entry of local storage, read once
    by `loadArtifacts` when the component mounts and rewritten by
    `saveArtifacts` from the effect that watches the collection. The entry is
    modelled as the record it parses to rather than as JSON text. */
module Persistence {
  import opened Options
  import opened Artifacts
  import opened Collection

  /** A parsed entry. A field is `None` when it is missing or holds a falsy
      value (`data.artifacts || []` treats both alike). */
  datatype StoredRecord = StoredRecord(artifacts: Option<seq<Artifact>>, chatMessages: Option<Threads>)

  /** The storage slot: `None` when the key is absent, holds the empty
      string, does not parse, or parses to `null` (all of which
      `loadArtifacts` skips or catches). Any other parsed value, `{}` or a
      number say, is a record whose missing fields are `None`. */
  type Store = Option<StoredRecord>

  /** What `saveArtifacts` writes: both collections, in full, so that
      loading it gives both back. */
  function Snapshot(s: AppState): (r: StoredRecord)
    ensures Load(Initial, Some(r)).artifacts == s.artifacts
    ensures Load(Initial, Some(r)).chatMessages == s.chatMessages
  {
    StoredRecord(Some(s.artifacts), Some(s.chatMessages))
  }

  /** A stored entry whose threads all belong to stored artifacts. */
  predicate StoreValid(store: Store) {
    store.Some? ==>
      ThreadsCascade(store.value.artifacts.GetOr([]), store.value.chatMessages.GetOr(map[]))
  }

  /** Load. An unusable slot leaves the state as it was; otherwise the two
      collections are taken from the entry, a missing list becoming empty and
      a missing map becoming empty, and nothing else changes. */
  function Load(s: AppState, store: Store): (r: AppState)
    ensures store.None? ==> r == s
    ensures store.Some? && store.value.artifacts.None? ==> r.artifacts == []
    ensures store.Some? && store.value.artifacts.Some? ==> r.artifacts == store.value.artifacts.value
    ensures store.Some? && store.value.chatMessages.None? ==> r.chatMessages == map[]
    ensures store.Some? && store.value.chatMessages.Some? ==> r.chatMessages == store.value.chatMessages.value
    ensures r.selected == s.selected && r.view == s.view && r.draft == s.draft
    ensures Valid(s) && s.selected.None? && StoreValid(store) ==> Valid(r)
  {
    match store
    case None => s
    case Some(record) =>
      s.(artifacts := record.artifacts.GetOr([]), chatMessages := record.chatMessages.GetOr(map[]))
  }

  /** The save as the effect performs it: skipped while the list is empty,
      and lost (logged only) when the write throws, `written` being whether
      `localStorage.setItem` succeeded. */
  function SaveAsWritten(s: AppState, store: Store, written: bool): (r: Store)
    ensures |s.artifacts| == 0 || !written ==> r == store
    ensures |s.artifacts| > 0 && written ==>
      Load(Initial, r).artifacts == s.artifacts && Load(Initial, r).chatMessages == s.chatMessages
    ensures Valid(s) && StoreValid(store) ==> StoreValid(r)
  {
    if |s.artifacts| > 0 && written then Some(Snapshot(s)) else store
  }

  /** The save without the empty-list guard: every change to the
      collection is written, an emptied list included. A successful write
      reloads to exactly the collection that was saved. */
  function Save(s: AppState, store: Store, written: bool): (r: Store)
    ensures !written ==> r == store
    ensures written ==>
      Load(Initial, r).artifacts == s.artifacts && Load(Initial, r).chatMessages == s.chatMessages
    ensures Valid(s) && StoreValid(store) ==> StoreValid(r)
  {
    if written then Some(Snapshot(s)) else store
  }

  /** The two saves differ only while the list is empty. */
  lemma SaveAsWrittenAgrees(s: AppState, store: Store, written: bool)
    ensures |s.artifacts| > 0 ==> SaveAsWritten(s, store, written) == Save(s, store, written)
  {
  }

  /** With the save as written, deleting the only artifact is never stored:
      the entry keeps the deleted artifact, and the next load brings it back. */
  lemma DeletingLastIsNotPersisted(s: AppState, store: Store)
    requires |s.artifacts| == 1 && store == Some(Snapshot(s))
    ensures var d := Delete(s, s.artifacts[0].id, true);
      && d.artifacts == []
      && SaveAsWritten(d, store, true) == store
      && Load(Initial, SaveAsWritten(d, store, true)).artifacts == s.artifacts
  {
  }

  /** With the intended save, deleting the only artifact is stored, and the
      next load shows an empty collection. */
  lemma DeletingLastIsPersisted(s: AppState, store: Store)
    requires |s.artifacts| == 1
    ensures var d := Delete(s, s.artifacts[0].id, true);
      Load(Initial, Save(d, store, true)).artifacts == []
  {
  }
}
