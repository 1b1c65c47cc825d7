/** Session: the component as a whole. Starting from the stored entry, it
    reacts to a sequence of events (a capture completing, a button, a
    keystroke in the note field), each handled by the operation the control
    is wired to, and rewrites the stored entry whenever the collection
    changed. Controls that are not on screen cannot be pressed, so their
    events change nothing. */
module Session {
  import opened Options
  import opened Text
  import opened Artifacts
  import opened Collection
  import opened Navigation
  import opened Persistence

  datatype Event =
    | Captured(id: string, image: string, timestamp: string, located: Option<Location>)
    | DeletePressed(index: nat, confirmed: bool)   // Delete on the card of artifacts[index]
    | DraftEdited(text: string)                    // the note field's onChange
    | SendPressed(noteId: string, timestamp: string) // Send button or Enter
    | Pressed(control: Control)

  /** An event, and whether the save it may trigger succeeds. */
  datatype Input = Input(event: Event, written: bool)

  datatype Session = Session(app: AppState, store: Store)

  /** Whether the event can occur in state `s`. A capture completes whatever
      the screen; the other events come from controls that must be shown.
      On the scan and map screens nothing but a capture or a shown button
      can happen: deleting needs the collection screen and editing or sending
      a note needs the notes screen with an artifact selected. */
  function Enabled(s: AppState, e: Event): (b: bool)
    ensures s.view == Scan || s.view == Map ==> (b <==> e.Captured? || (e.Pressed? && Shown(s, e.control)))
    ensures e.Captured? ==> b
    ensures e.Pressed? ==> (b <==> Shown(s, e.control))
    ensures e.DeletePressed? ==> (b <==> s.view == Database && e.index < |s.artifacts|)
    ensures e.DraftEdited? || e.SendPressed? ==> (b <==> s.view == Chat && s.selected.Some?)
  {
    match e
    case Captured(_, _, _, _) => true
    case DeletePressed(i, _) => s.view == Database && i < |s.artifacts|
    case DraftEdited(_) => s.view == Chat && s.selected.Some?
    case SendPressed(_, _) => s.view == Chat && s.selected.Some?
    case Pressed(c) => Shown(s, c)
  }

  /** Whether the handler updates `artifacts` or `chatMessages`, the two
      dependencies of the saving effect. Typing a note and moving between
      screens never wake it. */
  function Mutates(s: AppState, e: Event): (b: bool)
    ensures e.DraftEdited? || e.Pressed? ==> !b
    ensures b ==> e.Captured? || e.DeletePressed? || (e.SendPressed? && s.selected.Some?)
  {
    || e.Captured?
    || (e.DeletePressed? && e.confirmed)
    || (e.SendPressed? && !IsBlank(s.draft) && s.selected.Some?)
  }

  /** The handler of an event. Events that do not mutate leave both
      collections alone. */
  function Apply(s: AppState, e: Event): (r: AppState)
    requires Enabled(s, e)
    ensures !Mutates(s, e) ==> r.artifacts == s.artifacts && r.chatMessages == s.chatMessages
    ensures e.DeletePressed? && e.confirmed ==> r.artifacts == RemoveId(s.artifacts, s.artifacts[e.index].id)
  {
    match e
    case Captured(id, image, timestamp, located) => Capture(s, id, image, timestamp, located)
    case DeletePressed(i, confirmed) => Delete(s, s.artifacts[i].id, confirmed)
    case DraftEdited(text) => s.(draft := text)
    case SendPressed(noteId, timestamp) => SendMessage(s, noteId, timestamp)
    case Pressed(c) => Press(s, c)
  }

  /** Every handler keeps the state consistent, and the map and notes
      screens keep a selection to show. */
  lemma ApplyKeepsValid(s: AppState, e: Event)
    requires Enabled(s, e)
    ensures Valid(s) && ScreenHasSelection(s) ==> Valid(Apply(s, e)) && ScreenHasSelection(Apply(s, e))
  {
  }

  /** The events counted as mutating are exactly those whose handler changes
      the list or the threads, so the save runs exactly when one of the
      effect's dependencies changed. */
  lemma MutatesIffCollectionChanges(s: AppState, e: Event)
    requires Enabled(s, e)
    ensures Mutates(s, e) <==>
      Apply(s, e).artifacts != s.artifacts || Apply(s, e).chatMessages != s.chatMessages
  {
  }

  /** A consistent session: a consistent state whose map and notes screens
      have something to show, over a consistent stored entry. */
  predicate SessionValid(ss: Session) {
    Valid(ss.app) && ScreenHasSelection(ss.app) && StoreValid(ss.store)
  }

  /** Reloading the stored entry gives back the collection in memory. */
  predicate Persisted(ss: Session) {
    var loaded := Load(Initial, ss.store);
    loaded.artifacts == ss.app.artifacts && loaded.chatMessages == ss.app.chatMessages
  }

  /** The component mounting: the initial state, loaded from the entry. */
  function Mount(store: Store): (r: Session)
    ensures StoreValid(store) ==> SessionValid(r)
    ensures Persisted(r)
    ensures r.app.selected.None? && r.app.view == Scan && r.app.draft == ""
  {
    Session(Load(Initial, store), store)
  }

  /** One event: its handler, then the save if the collection changed. The
      entry is rewritten exactly when the list or the threads changed, the
      two dependencies of the saving effect. */
  function Step(ss: Session, input: Input): (r: Session)
    ensures SessionValid(ss) ==> SessionValid(r)
    ensures Persisted(ss) && input.written ==> Persisted(r)
    ensures !Enabled(ss.app, input.event) ==> r == ss
    ensures Enabled(ss.app, input.event) ==> r.app == Apply(ss.app, input.event)
    ensures r.app.artifacts == ss.app.artifacts && r.app.chatMessages == ss.app.chatMessages ==> r.store == ss.store
    ensures r.app.artifacts != ss.app.artifacts || r.app.chatMessages != ss.app.chatMessages ==>
      r.store == Save(r.app, ss.store, input.written)
  {
    if !Enabled(ss.app, input.event) then ss
    else
      ApplyKeepsValid(ss.app, input.event);
      MutatesIffCollectionChanges(ss.app, input.event);
      var app := Apply(ss.app, input.event);
      var store := if Mutates(ss.app, input.event) then Save(app, ss.store, input.written) else ss.store;
      Session(app, store)
  }

  predicate AllWritten(inputs: seq<Input>) {
    forall i :: 0 <= i < |inputs| ==> inputs[i].written
  }

  /** A run of events. Consistency holds after every run, and as long as no
      write fails the stored entry always reloads to the collection in
      memory. */
  function Run(ss: Session, inputs: seq<Input>): (r: Session)
    ensures SessionValid(ss) ==> SessionValid(r)
    ensures Persisted(ss) && AllWritten(inputs) ==> Persisted(r)
    decreases |inputs|
  {
    if |inputs| == 0 then ss else Run(Step(ss, inputs[0]), inputs[1..])
  }

  /** Every state reached from a consistent stored entry is consistent and,
      when every write succeeds, matches what a reload would show. */
  lemma ReachableStatesAreConsistent(store: Store, inputs: seq<Input>)
    requires StoreValid(store)
    ensures SessionValid(Run(Mount(store), inputs))
    ensures AllWritten(inputs) ==> Persisted(Run(Mount(store), inputs))
  {
  }

  /** After mounting, the stored entry never feeds back into memory: two
      sessions with the same state go through the same states on the same
      events, whatever their entries hold. */
  lemma {:induction false} RunIgnoresStore(a: Session, b: Session, inputs: seq<Input>)
    requires a.app == b.app
    ensures Run(a, inputs).app == Run(b, inputs).app
    decreases |inputs|
  {
    if |inputs| > 0 {
      assert Step(a, inputs[0]).app == Step(b, inputs[0]).app;
      RunIgnoresStore(Step(a, inputs[0]), Step(b, inputs[0]), inputs[1..]);
    }
  }

  /** What the effect as written keeps: the entry reloads to the collection
      in memory unless the list is empty, when it may hold a stale list. */
  predicate PersistedUnlessEmpty(ss: Session) {
    ss.app.artifacts == [] || Persisted(ss)
  }

  /** One event followed by the save as the effect performs it
      (`Persistence.SaveAsWritten`). Memory changes as in `Step`; the entry
      differs from `Step`'s only when the list ends up empty, and then it is
      left as it was. */
  function StepAsWritten(ss: Session, input: Input): (r: Session)
    ensures r.app == Step(ss, input).app
    ensures |r.app.artifacts| > 0 ==> r == Step(ss, input)
    ensures |r.app.artifacts| == 0 ==> r.store == ss.store
    ensures SessionValid(ss) ==> SessionValid(r)
    ensures PersistedUnlessEmpty(ss) && input.written ==> PersistedUnlessEmpty(r)
    ensures r.app.artifacts == ss.app.artifacts && r.app.chatMessages == ss.app.chatMessages ==> r.store == ss.store
    ensures r.app.artifacts != ss.app.artifacts || r.app.chatMessages != ss.app.chatMessages ==>
      r.store == SaveAsWritten(r.app, ss.store, input.written)
  {
    if !Enabled(ss.app, input.event) then ss
    else
      ApplyKeepsValid(ss.app, input.event);
      MutatesIffCollectionChanges(ss.app, input.event);
      var app := Apply(ss.app, input.event);
      var store := if Mutates(ss.app, input.event) then SaveAsWritten(app, ss.store, input.written) else ss.store;
      Session(app, store)
  }

  /** A run of events with the save as written. It passes through the same
      states as `Run`, keeps consistency, and as long as no write fails the
      entry reloads to the collection in memory whenever that is non-empty. */
  function RunAsWritten(ss: Session, inputs: seq<Input>): (r: Session)
    ensures r.app == Run(ss, inputs).app
    ensures SessionValid(ss) ==> SessionValid(r)
    ensures PersistedUnlessEmpty(ss) && AllWritten(inputs) ==> PersistedUnlessEmpty(r)
    decreases |inputs|
  {
    if |inputs| == 0 then ss
    else
      RunIgnoresStore(StepAsWritten(ss, inputs[0]), Step(ss, inputs[0]), inputs[1..]);
      RunAsWritten(StepAsWritten(ss, inputs[0]), inputs[1..])
  }

  /** Every state the component as written reaches from a consistent entry is
      consistent and, when every write succeeds and the list is non-empty,
      matches what a reload would show. */
  lemma ReachableStatesAsWritten(store: Store, inputs: seq<Input>)
    requires StoreValid(store)
    ensures SessionValid(RunAsWritten(Mount(store), inputs))
    ensures AllWritten(inputs) ==> PersistedUnlessEmpty(RunAsWritten(Mount(store), inputs))
  {
  }

  // The states of the scenario below, one per screen it passes through.
  const ScenarioLocation: Location := Location(10.0, 20.0, 5.0)
  const ScenarioArtifact: Artifact :=
    Artifact("1", "data:image/jpeg", Some(ScenarioLocation), "t1", "Artifact 1", "", [])
  const ScenarioNote: Note := Note("2", "test", "t2", "You")

  lemma ScenarioCapture(ss: Session)
    requires ss.app == Initial
    ensures Step(ss, Input(Captured("1", "data:image/jpeg", "t1", Some(ScenarioLocation)), true)).app
      == AppState([ScenarioArtifact], map["1" := []], None, Scan, "")
  {
    assert NatToString(1) == "1";
    assert ArtifactLabel(1) == "Artifact 1";
  }

  lemma ScenarioOpenNotes(ss: Session)
    requires ss.app == AppState([ScenarioArtifact], map["1" := []], None, Scan, "")
    ensures Step(Step(Step(ss, Input(Pressed(CollectionTab), true)), Input(Pressed(ChatButton(0)), true)),
                 Input(DraftEdited("test"), true)).app
      == AppState([ScenarioArtifact], map["1" := []], Some(ScenarioArtifact), Chat, "test")
  {
  }

  lemma ScenarioSend(ss: Session)
    requires ss.app == AppState([ScenarioArtifact], map["1" := []], Some(ScenarioArtifact), Chat, "test")
    ensures Step(ss, Input(SendPressed("2", "t2"), true)).app
      == AppState([ScenarioArtifact], map["1" := [ScenarioNote]], Some(ScenarioArtifact), Chat, "")
  {
    assert !IsTrimmable('t');
    assert !IsBlank(ss.app.draft);
    assert Enabled(ss.app, SendPressed("2", "t2")) && Mutates(ss.app, SendPressed("2", "t2"));
    var r := SendMessage(ss.app, "2", "t2");
    assert ThreadOf(ss.app.chatMessages, "1") == [];
    assert r.chatMessages.Keys == {"1"} && r.chatMessages["1"] == [ScenarioNote];
    assert r.chatMessages == map["1" := [ScenarioNote]];
  }

  lemma ScenarioDelete(ss: Session)
    requires ss.app == AppState([ScenarioArtifact], map["1" := [ScenarioNote]], Some(ScenarioArtifact), Chat, "")
    ensures var r := Step(Step(ss, Input(Pressed(CloseButton), true)), Input(DeletePressed(0, true), true));
      r.app == AppState([], map[], None, Database, "") && Load(Initial, r.store).artifacts == []
  {
  }

  /** Start from empty storage, capture one photo at (10, 20) with accuracy
      5, open its notes, add the note "test", go back to the collection and
      delete the artifact. */
  lemma CaptureNoteDeleteScenario()
    ensures
      var s0 := Mount(None);
      var s1 := Step(s0, Input(Captured("1", "data:image/jpeg", "t1", Some(ScenarioLocation)), true));
      var s2 := Step(s1, Input(Pressed(CollectionTab), true));
      var s3 := Step(s2, Input(Pressed(ChatButton(0)), true));
      var s4 := Step(s3, Input(DraftEdited("test"), true));
      var s5 := Step(s4, Input(SendPressed("2", "t2"), true));
      var s6 := Step(s5, Input(Pressed(CloseButton), true));
      var s7 := Step(s6, Input(DeletePressed(0, true), true));
      && |s1.app.artifacts| == 1 && s1.app.artifacts[0].location == Some(ScenarioLocation)
      && s1.app.artifacts[0].name == "Artifact 1"
      && ThreadOf(s5.app.chatMessages, "1") == [Note("2", "test", "t2", "You")]
      && s7.app.artifacts == [] && "1" !in s7.app.chatMessages
      && s7.app.selected.None?
      && Load(Initial, s7.store).artifacts == []
  {
    var s0 := Mount(None);
    ScenarioCapture(s0);
    var s1 := Step(s0, Input(Captured("1", "data:image/jpeg", "t1", Some(ScenarioLocation)), true));
    ScenarioOpenNotes(s1);
    var s4 := Step(Step(Step(s1, Input(Pressed(CollectionTab), true)), Input(Pressed(ChatButton(0)), true)),
                   Input(DraftEdited("test"), true));
    ScenarioSend(s4);
    var s5 := Step(s4, Input(SendPressed("2", "t2"), true));
    ScenarioDelete(s5);
  }

  /** The scenario's events up to typing the note. The list holds the
      artifact throughout, so both saves leave the same entry. */
  lemma ScenarioAsWrittenOpenNotes()
    ensures
      var t4 := StepAsWritten(StepAsWritten(StepAsWritten(StepAsWritten(
        Mount(None), Input(Captured("1", "data:image/jpeg", "t1", Some(ScenarioLocation)), true)),
        Input(Pressed(CollectionTab), true)), Input(Pressed(ChatButton(0)), true)), Input(DraftEdited("test"), true));
      && t4.app == AppState([ScenarioArtifact], map["1" := []], Some(ScenarioArtifact), Chat, "test")
      && Persisted(t4)
  {
    var s0 := Mount(None);
    ScenarioCapture(s0);
    var s1 := Step(s0, Input(Captured("1", "data:image/jpeg", "t1", Some(ScenarioLocation)), true));
    ScenarioOpenNotes(s1);
    var s2 := Step(s1, Input(Pressed(CollectionTab), true));
    var s3 := Step(s2, Input(Pressed(ChatButton(0)), true));
    assert StepAsWritten(s0, Input(Captured("1", "data:image/jpeg", "t1", Some(ScenarioLocation)), true)) == s1;
    assert StepAsWritten(s1, Input(Pressed(CollectionTab), true)) == s2;
    assert StepAsWritten(s2, Input(Pressed(ChatButton(0)), true)) == s3;
  }

  /** Sending the note and leaving the notes screen: the list still holds
      the artifact, so the entry still reloads to it and its note. */
  lemma ScenarioAsWrittenSendAndClose(ts: Session)
    requires ts.app == AppState([ScenarioArtifact], map["1" := []], Some(ScenarioArtifact), Chat, "test")
    requires Persisted(ts)
    ensures var t6 := StepAsWritten(StepAsWritten(ts, Input(SendPressed("2", "t2"), true)), Input(Pressed(CloseButton), true));
      && t6.app == AppState([ScenarioArtifact], map["1" := [ScenarioNote]], Some(ScenarioArtifact), Database, "")
      && Persisted(t6)
  {
    var send := Input(SendPressed("2", "t2"), true);
    ScenarioSend(ts);
    var t5 := StepAsWritten(ts, send);
    assert t5.app == Step(ts, send).app;
    assert t5 == Step(ts, send);
    assert Persisted(t5);
    var close := Input(Pressed(CloseButton), true);
    assert Enabled(t5.app, close.event) && !Mutates(t5.app, close.event);
    assert StepAsWritten(t5, close) == Session(Press(t5.app, CloseButton), t5.store);
  }

  /** Deleting the artifact empties the list, so the effect as written
      skips the save and the entry keeps the artifact and its note. */
  lemma ScenarioAsWrittenDelete(ts: Session)
    requires ts.app == AppState([ScenarioArtifact], map["1" := [ScenarioNote]], Some(ScenarioArtifact), Database, "")
    requires Persisted(ts)
    ensures var t7 := StepAsWritten(ts, Input(DeletePressed(0, true), true));
      && t7.app.artifacts == [] && "1" !in t7.app.chatMessages
      && Load(Initial, t7.store).artifacts == [ScenarioArtifact]
      && ThreadOf(Load(Initial, t7.store).chatMessages, "1") == [ScenarioNote]
  {
    var delete := Input(DeletePressed(0, true), true);
    assert Enabled(ts.app, delete.event) && Mutates(ts.app, delete.event);
    var t7 := StepAsWritten(ts, delete);
    assert t7.app == Delete(ts.app, "1", true);
    assert t7.app.artifacts == [] && t7.store == ts.store;
  }

  /** The same scenario with the save as the effect performs it. Memory goes
      through the same states, but the delete empties the list and is never
      written, so a reload brings back the artifact and its note. */
  lemma CaptureNoteDeleteScenarioAsWritten()
    ensures
      var t0 := Mount(None);
      var t1 := StepAsWritten(t0, Input(Captured("1", "data:image/jpeg", "t1", Some(ScenarioLocation)), true));
      var t2 := StepAsWritten(t1, Input(Pressed(CollectionTab), true));
      var t3 := StepAsWritten(t2, Input(Pressed(ChatButton(0)), true));
      var t4 := StepAsWritten(t3, Input(DraftEdited("test"), true));
      var t5 := StepAsWritten(t4, Input(SendPressed("2", "t2"), true));
      var t6 := StepAsWritten(t5, Input(Pressed(CloseButton), true));
      var t7 := StepAsWritten(t6, Input(DeletePressed(0, true), true));
      && t7.app.artifacts == [] && "1" !in t7.app.chatMessages
      && Load(Initial, t7.store).artifacts == [ScenarioArtifact]
      && ThreadOf(Load(Initial, t7.store).chatMessages, "1") == [ScenarioNote]
  {
    ScenarioAsWrittenOpenNotes();
    var t4 := StepAsWritten(StepAsWritten(StepAsWritten(StepAsWritten(
      Mount(None), Input(Captured("1", "data:image/jpeg", "t1", Some(ScenarioLocation)), true)),
      Input(Pressed(CollectionTab), true)), Input(Pressed(ChatButton(0)), true)), Input(DraftEdited("test"), true));
    ScenarioAsWrittenSendAndClose(t4);
    var t6 := StepAsWritten(StepAsWritten(t4, Input(SendPressed("2", "t2"), true)), Input(Pressed(CloseButton), true));
    ScenarioAsWrittenDelete(t6);
  }
}
