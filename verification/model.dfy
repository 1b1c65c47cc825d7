/** Artifacts: the application's state record. The React component keeps
    five pieces of state (`artifacts`, `chatMessages`, `selectedArtifact`,
    `view`, `newMessage`); here they are the fields of one immutable value
    that every operation takes and returns. */
module Artifacts {
  import opened Options
  import opened Text

  /** A geolocation fix: latitude, longitude and accuracy in metres. */
  datatype Location = Location(lat: real, lng: real, accuracy: real)

  /** A captured object. `image` (a data URL) and `timestamp` (an ISO
      instant) are opaque strings; `description` and `tags` are written once,
      empty, and never edited. */
  datatype Artifact = Artifact(
    id: string,
    image: string,
    location: Option<Location>,
    timestamp: string,
    name: string,
    description: string,
    tags: seq<string>)

  /** One entry of an artifact's note thread. */
  datatype Note = Note(id: string, text: string, timestamp: string, user: string)

  /** The four screens; `Database` is the one labelled "Collection". */
  datatype View = Scan | Database | Map | Chat

  /** Note threads keyed by artifact id. */
  type Threads = map<string, seq<Note>>

  datatype AppState = AppState(
    artifacts: seq<Artifact>,
    chatMessages: Threads,
    selected: Option<Artifact>,
    view: View,
    draft: string)

  /** The state before anything is loaded: no artifacts, no threads, nothing
      selected, the scan screen, an empty draft. */
  const Initial: AppState := AppState([], map[], None, Scan, "")

  /** The author label every note carries. */
  const NoteAuthor: string := "You"

  /** The label a new artifact gets: "Artifact " followed by its number. */
  function ArtifactLabel(n: nat): string {
    "Artifact " + NatToString(n)
  }

  function Ids(arts: seq<Artifact>): set<string> {
    set a | a in arts :: a.id
  }

  /** `chatMessages[id] || []`: the thread of `id`, empty when it has none. */
  function ThreadOf(threads: Threads, id: string): seq<Note> {
    if id in threads then threads[id] else []
  }

  /** The cascade invariant: every thread belongs to an artifact in the list. */
  predicate ThreadsCascade(arts: seq<Artifact>, threads: Threads) {
    threads.Keys <= Ids(arts)
  }

  /** The selection, when there is one, is an artifact of the list. */
  predicate SelectionListed(s: AppState) {
    s.selected.Some? ==> s.selected.value in s.artifacts
  }

  predicate Valid(s: AppState) {
    ThreadsCascade(s.artifacts, s.chatMessages) && SelectionListed(s)
  }

  /** The map and notes screens render nothing without a selection; in every
      reachable state they have one. */
  predicate ScreenHasSelection(s: AppState) {
    (s.view == Map || s.view == Chat) ==> s.selected.Some?
  }
}
