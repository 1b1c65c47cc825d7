/** Navigation: the buttons that move between the four screens, that is, the
    two tabs of the bottom bar, the Chat and Map buttons of each collection
    card, and the close button of the map and notes screens. */
module Navigation {
  import opened Options
  import opened Artifacts

  datatype Control =
    | ScanTab
    | CollectionTab
    | ChatButton(index: nat)   // on the card of artifacts[index]
    | MapButton(index: nat)    // on the card of artifacts[index]
    | CloseButton

  /** Whether the control is on screen. The tabs always are; card buttons
      exist on the collection screen, one set per listed artifact; the close
      button exists on the map and notes screens, which render nothing
      without a selection. */
  function Shown(s: AppState, c: Control): (b: bool)
    ensures s.view == Scan ==> (b <==> c == ScanTab || c == CollectionTab)
    ensures s.view == Database ==> (b <==> !c.CloseButton? && (c.ChatButton? || c.MapButton? ==> c.index < |s.artifacts|))
    ensures s.view == Map || s.view == Chat ==>
      (b <==> c == ScanTab || c == CollectionTab || (c == CloseButton && s.selected.Some?))
  {
    match c
    case ScanTab => true
    case CollectionTab => true
    case ChatButton(i) => s.view == Database && i < |s.artifacts|
    case MapButton(i) => s.view == Database && i < |s.artifacts|
    case CloseButton => (s.view == Map || s.view == Chat) && s.selected.Some?
  }

  /** The screen graph: the tabs reach the scan and collection screens from
      anywhere (the close button also leads to the collection screen), and
      the map and notes screens are entered from the collection screen. */
  predicate Allowed(from: View, to: View) {
    || to == Scan
    || to == Database
    || (from == Database && (to == Map || to == Chat))
  }

  /** Pressing a control changes only the screen and the selection, moves
      along the screen graph, selects the artifact of the pressed card, and
      keeps the selection otherwise (the tabs do not clear it). */
  function Press(s: AppState, c: Control): (r: AppState)
    requires Shown(s, c)
    ensures r.artifacts == s.artifacts && r.chatMessages == s.chatMessages && r.draft == s.draft
    ensures Allowed(s.view, r.view)
    ensures (c.ChatButton? || c.MapButton?) ==> r.selected == Some(s.artifacts[c.index])
    ensures !(c.ChatButton? || c.MapButton?) ==> r.selected == s.selected
    ensures c.ChatButton? <==> r.view == Chat
    ensures c.MapButton? <==> r.view == Map
    ensures c == ScanTab ==> r.view == Scan
    ensures c == CollectionTab || c == CloseButton ==> r.view == Database
    ensures Valid(s) ==> Valid(r)
    ensures ScreenHasSelection(r)
  {
    match c
    case ScanTab => s.(view := Scan)
    case CollectionTab => s.(view := Database)
    case ChatButton(i) => s.(selected := Some(s.artifacts[i]), view := Chat)
    case MapButton(i) => s.(selected := Some(s.artifacts[i]), view := Map)
    case CloseButton => s.(view := Database)
  }
}
