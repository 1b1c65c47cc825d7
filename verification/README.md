# Artifact scanner: collection state model

The artifact scanner is a single-page React application. It photographs objects
and stores each capture as an *artifact*, with an optional geolocation fix and a
timestamp. It keeps a thread of free-text notes ("chat") per artifact and holds
the whole collection in one local-storage entry. All of its behaviour lives in
one component, `app.js`. This project models the component's state logic as
pure functions over one immutable state value:

- the ordered list of artifacts;
- the map from artifact id to its note thread;
- the selected artifact;
- the current screen (`scan`, `database`, `map`, `chat`);
- the note draft.

The browser supplies several values, and here they are parameters:

- the id and timestamp (`Date.now()`, `toISOString()`);
- the image data URL;
- the geolocation outcome, an `Option<Location>`;
- the answer to `confirm`, a `bool`;
- whether `localStorage.setItem` succeeded, a `bool`.

Modules, leaf to root:

- `Options` and `Text` (text.dfy): the optional value. ECMAScript's
  `String.prototype.trim`, which guards the note field. The decimal rendering
  of a number inside a template literal, which builds artifact labels.
- `Artifacts` (model.dfy): the records and the state. The consistency
  predicates: every thread belongs to a listed artifact, the selection is a
  listed artifact, and the map and notes screens always have a selection.
- `Collection` (collection.dfy): capture (`processImage`), `deleteArtifact`
  and `sendMessage`.
- `Navigation` (navigation.dfy): the tabs, the card buttons and the close
  buttons, with the screen graph they move along.
- `Persistence` (persistence.dfy): `loadArtifacts`, and the saving effect as
  written. Also the same save without its empty-list guard (see Findings).
- `Session` (session.dfy): mounting, then a run of events. Each event goes to
  the handler its control is wired to, followed by the save when the
  collection changed. `Step` and `Run` save without the guard;
  `StepAsWritten` and `RunAsWritten` save as the effect does. This module
  proves the invariants hold in every reachable state, and it proves the
  capture, note and delete scenario with both saves.

Behaviour of the code that the model keeps:

- Leaving the map or notes screen by a tab does not clear the selection. Only
  deleting the selected artifact clears it.
- The collection screen is `database` in the code.
- The effect skips the save while the list is empty, so a change that empties
  the list is not written (see Findings).
- Deleting an id that no artifact has is a no-op only in a consistent state. In
  a state with a thread whose artifact is missing, the delete drops that thread.

## Model

| member | source | states |
|---|---|---|
| `Text.TrimStart` | app.js:177 | The result is the suffix of the input left after the leading WhiteSpace/LineTerminator code points, which are all trimmable; it does not start with one. |
| `Text.TrimEnd` | app.js:177 | The result is the prefix left after the trailing trimmable code points; it does not end with one. |
| `Text.Trim` | app.js:177 | The `!newMessage.trim()` guard: the result is empty exactly when every code point of the draft is trimmable, and otherwise neither of its ends is trimmable. |
| `Text.TrimIsSlice` | app.js:177 | `trim()` returns a contiguous slice of the draft, and every code point before or after that slice is trimmable. |
| `Text.NatToString` | app.js:146 | The number in `Artifact ${n}` renders as a non-empty run of decimal digits with no leading zero. |
| `Text.NatToStringRoundTrip` | app.js:146 | Reading the rendered digits back gives the number that was rendered. |
| `Text.NatToStringInjective` | app.js:146 | Two numbers render the same exactly when they are equal. |
| `Collection.Capture` | app.js:136-174 | One artifact is appended at the end and the earlier ones are kept. It carries the given id, image and timestamp, the label `Artifact <old length + 1>`, an empty description and tags, and the location on success or none on failure (created in both cases). Its thread becomes empty, replacing any thread under a colliding id, and other threads are unchanged. Selection, screen and draft are unchanged, and consistency is preserved. |
| `Collection.CaptureKeepsLabelling` | app.js:146 | While only captures happen, every artifact is labelled with its 1-based position. |
| `Collection.PositionLabelsAreDistinct` | app.js:146 | Labels given by position never repeat. |
| `Collection.LabelRepeatsAfterDelete` | app.js:146 | The label counts the current list, so capture, capture, delete the first, capture shows "Artifact 2" twice. |
| `Collection.RemoveId` | app.js:195 | `filter(a => a.id !== id)`: an artifact survives exactly when it was listed with another id, none with `id` remains, and an absent id leaves the list unchanged. |
| `Collection.RemoveIdKeepsOrder` | app.js:195 | The survivors keep their relative order: the result is the subsequence taken at exactly the positions whose id differs from `id`. |
| `Collection.RemoveIdAppend` | app.js:195 | Filtering a concatenation filters each part. |
| `Collection.Delete` | app.js:193-205 | A refused confirmation changes nothing. Otherwise no artifact with the id remains and the others survive, the id's thread key is removed, and every other thread is exactly as before. The selection is cleared if and only if it has that id. Screen and draft are unchanged, and consistency is preserved. |
| `Collection.DeleteAbsentIsNoop` | app.js:193-205 | In a consistent state, deleting an id no artifact has leaves list, threads and selection unchanged. |
| `Collection.RemoveIdOfAppended` | app.js:195 | Filtering out the id of an artifact just appended under a fresh id gives back the list before it. |
| `Collection.DeleteUndoesCapture` | app.js:193-200 | Deleting an artifact just captured under a fresh id restores the state before the capture. |
| `Collection.SendMessage` | app.js:176-191 | No-op when the draft trims to empty or nothing is selected. Otherwise exactly one note (the untrimmed draft, author "You") is appended at the end of the selected artifact's thread, which is created if absent. Every other thread is unchanged, the draft is cleared, and consistency is preserved. |
| `Collection.AppendNote` | app.js:186-189 | Appending the note to the selected artifact's thread: the key gains exactly the new note at the end of its thread (a missing thread counts as empty), the key set grows by that key only, and every other thread is unchanged. |
| `Collection.SendMessageTwiceSendsOnce` | app.js:176-190 | Sending twice in a row adds only one note, because the first send clears the draft. |
| `Navigation.Shown` | app.js:536-539 | Which controls each screen renders (the screen switch here, the card list at app.js:343, and the `if (!artifact) return null` guards at app.js:401-403 and app.js:458-460): on the scan screen only the two tabs; on the collection screen the tabs and the Chat/Map buttons of listed cards; on the map and notes screens the tabs, plus the close button when something is selected. |
| `Navigation.Press` | app.js:358-372 | The card Chat/Map buttons (also the tabs, app.js:543-560, and the close buttons, app.js:412 and app.js:471) change only screen and selection. The Scan tab leads to `scan`; the Collection tab and the close buttons lead to `database`; a card button selects its artifact and opens the notes or map screen, and nothing else does. Every move is along the screen graph. The tabs and close buttons keep the selection. Consistency holds, and the map and notes screens always have a selection. |
| `Persistence.Snapshot` | app.js:53-58 | The written object holds both collections in full: loading it gives back exactly the list and the threads. |
| `Persistence.Load` | app.js:40-51 | An absent or unparsable entry leaves the state unchanged. Otherwise the list and the map come from the entry, a missing field becomes an empty list or an empty map, and selection, screen and draft are untouched. Loading a consistent entry into a consistent state with nothing selected (as at mount) gives a consistent state. |
| `Persistence.SaveAsWritten` | app.js:28-32 | The effect writes nothing while the list is empty or when the write throws. Otherwise the entry reloads to exactly the saved list and threads. |
| `Persistence.Save` | app.js:53-62 | A successful write reloads to exactly the saved list and threads, an empty list included; a failed one leaves the entry as it was; consistency of the entry is kept. |
| `Persistence.SaveAsWrittenAgrees` | app.js:28-32 | The guarded save and the unconditional save agree whenever the list is non-empty. |
| `Persistence.DeletingLastIsNotPersisted` | app.js:28-32 | With the guard as written, after deleting the only artifact the entry still holds it, and a reload brings it back. |
| `Persistence.DeletingLastIsPersisted` | app.js:53-62 | With the unguarded save, deleting the only artifact reloads as an empty collection. |
| `Session.Enabled` | app.js:536-539 | A capture can always complete. Every other event can occur exactly when its control is on screen (app.js:386, 511-517 and the buttons of `Navigation.Shown`). A button press is enabled exactly when the button is shown. A delete is enabled exactly on the collection screen for a listed card (app.js:385-391). A note edit or send is enabled exactly on the notes screen with a selection (app.js:508-521). So the scan and map screens allow only a capture or a shown button. |
| `Session.Mutates` | app.js:32 | The effect's dependencies are `artifacts` and `chatMessages`: typing a note and moving between screens never count as a change; only a capture, a delete, or a send with a selection can. |
| `Session.MutatesIffCollectionChanges` | app.js:28-32 | An enabled event counts as a change exactly when its handler changes the list or the threads, so the save runs exactly when a dependency of the effect changed. |
| `Session.Apply` | app.js:343-391 | The body sends each event to the handler its control is wired to. The contract states the frame: events other than capture, confirmed delete and a real send leave the list and the threads unchanged. It also states the card wiring of Delete (app.js:386): a confirmed delete filters out the id of the artifact on that card. |
| `Session.ApplyKeepsValid` | app.js:136-205 | Every handler keeps the state consistent. Threads belong to listed artifacts, the selection is listed, and the map and notes screens keep a selection. |
| `Session.Mount` | app.js:17-26 | Mounting loads the stored entry into the initial state: nothing selected, scan screen, empty draft. The result matches what a reload shows and is consistent when the entry is. |
| `Session.Step` | app.js:28-32 | A control that is not shown changes nothing. Otherwise memory becomes the handler's result. The entry is rewritten exactly when the list or the threads changed, the effect's dependencies at app.js:32: an unchanged collection leaves it as it was, and a changed one gets the save. Consistency is kept, and with a successful write the entry still reloads to the collection in memory. |
| `Session.Run` | app.js:28-32 | Over any run of events consistency holds at the end. With the unguarded save and every write successful, the entry reloads to the collection in memory. |
| `Session.ReachableStatesAreConsistent` | app.js:17-32 | Every state reached from a consistent entry is consistent. With the unguarded save and every write successful, it equals what a reload would show. |
| `Session.RunIgnoresStore` | app.js:17-32 | The entry is read only at mount: two sessions in the same state pass through the same states on the same events, whatever their entries hold. |
| `Session.StepAsWritten` | app.js:28-32 | With the effect's own save, memory changes exactly as in `Session.Step`. The entry is left as it was when the collection did not change, and gets the guarded save when it did. So it is the same as `Step`'s while the list is non-empty and is left untouched once it is empty. Consistency is kept, and with a successful write the entry reloads to the collection in memory unless the list is empty. |
| `Session.RunAsWritten` | app.js:28-32 | A run with the effect's own save passes through the same states as `Session.Run`. It keeps consistency, and when every write succeeds the entry matches memory whenever the list is non-empty. |
| `Session.ReachableStatesAsWritten` | app.js:17-32 | From a consistent entry, every state the component as written reaches is consistent. When every write succeeds and the list is non-empty, it equals what a reload would show. |
| `Session.CaptureNoteDeleteScenario` | app.js:136-205 | With the unguarded save: start from empty storage and capture with location (10, 20, accuracy 5), giving one artifact "Artifact 1" with that location. Add the note "test": its thread is exactly that note. Delete the artifact: the list is empty, the thread key is gone, nothing is selected, and a reload shows an empty collection. |
| `Session.CaptureNoteDeleteScenarioAsWritten` | app.js:28-32 | The same events with the effect's own save: memory ends empty as before, but the delete is never written, so a reload brings back "Artifact 1" and its note "test". |

## Left out

- Camera acquisition, frame capture and stopping the stream (app.js:87-127), and the file input (app.js:129-134): device I/O. The image reaches the model as an opaque data-URL string.
- `FileReader`, `getUserLocation` (app.js:64-85), `navigator.vibrate` and `alert`: asynchronous browser APIs. The geolocation outcome is an `Option<Location>` parameter, and the alerts show nothing the state depends on.
- `Date.now().toString()` and `toISOString()`: the clock. Ids and timestamps are parameters, and nothing assumes they are unique. A colliding capture id is modelled, and the capture then resets that id's thread.
- JSON text and the `localStorage` calls: the entry is the record it parses to, one optional field per key. Any field value that JavaScript treats as falsy counts as missing. A truthy value of the wrong shape (a string where a list belongs) is outside the model.
- The export download (app.js:207-216), `shareArtifact` (app.js:218-232) and the install prompt (app.js:34-38): I/O and UI. None of them changes the collection.
- Rendering, and the coordinate formatting with `toFixed`: UI and floating point. Location values are `real`s that the model only carries around.
- Asynchrony. `processImage` numbers the new artifact from the `artifacts` its closure captured, while it appends to the latest list. The model handles one event at a time, so the two lists are the same.
- Mount timing. The saving effect first runs on the initial render, while `artifacts` is still the initial `[]`, because the state set by `loadArtifacts` lands only on the next render (app.js:17-32). The `artifacts.length > 0` guard skips that run. Once the loaded list arrives, the effect runs again and, when the loaded list is non-empty, rewrites the entry with content that loads to the same collections (a missing or falsy `chatMessages` is written as `{}`, and other top-level fields are dropped). `Session.Mount` does not run the effect and leaves the entry as it was, which reloads identically. This is also why the unguarded `Persistence.Save` is harmless in the model: in the component, dropping the guard alone would let that first run write an empty collection over the entry.
- Session.Step: saves with the corrected, unguarded save (see Findings). The component as written is `Session.StepAsWritten`, which keeps the entry in step with memory only while the list is non-empty.
- Session.Run: its reload conjunct holds for the unguarded save only. `Session.RunAsWritten` states what the effect as written keeps.
- Session.ReachableStatesAreConsistent: its reload conjunct holds for the unguarded save only. `Session.ReachableStatesAsWritten` is the as-written counterpart.
- Session.CaptureNoteDeleteScenario: its final empty reload holds for the unguarded save only. `Session.CaptureNoteDeleteScenarioAsWritten` shows that the component as written brings the artifact back.

## Findings

| source | as written | input that shows it | evidently intended | confidence | as-written member | corrected member |
|---|---|---|---|---|---|---|
| app.js:28-32 | The effect calls `saveArtifacts` only while `artifacts.length > 0`, so a change that empties the list is never written. | Store one artifact, delete it and confirm, then reload: the entry still holds the artifact, and `loadArtifacts` brings it back. | Every change to the collection is written, the emptied list included. The effect's dependency list (app.js:32) asks for a save on every change to `artifacts` or `chatMessages`. The delete prompt at app.js:194 says the deletion "cannot be undone", so deleting everything and then reloading should show an empty collection. The guard most likely exists for the effect's first run at mount (app.js:17-32), which sees the initial empty list before `loadArtifacts` lands. The fix this implies is to skip that first run rather than every empty list. `Persistence.Save` is the save after mount, and `Session.Mount` does not run the effect. | medium; not executed | `Persistence.SaveAsWritten`, shown by `Persistence.DeletingLastIsNotPersisted` | `Persistence.Save`, proved by `Persistence.DeletingLastIsPersisted` and used by `Session.Step` (the component as written is `Session.StepAsWritten`, shown by `Session.CaptureNoteDeleteScenarioAsWritten`) |
