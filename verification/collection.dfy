/** Collection: the three handlers that change the collection, `processImage`
    (capture), `deleteArtifact` and `sendMessage`, as pure updates of the
    state. What the browser supplies (the new id, the image, the clock, the
    geolocation outcome, the answer to `confirm`) is passed in. */
module Collection {
  import opened Options
  import opened Text
  import opened Artifacts

  /** The record `processImage` builds, numbered after the current list. */
  function NewArtifact(s: AppState, id: string, image: string, timestamp: string,
                       located: Option<Location>): Artifact
  {
    Artifact(id, image, located, timestamp, ArtifactLabel(|s.artifacts| + 1), "", [])
  }

  /** Capture. `located` is `Some` when the position query resolved and
      `None` when it failed or is unsupported; the artifact is created in both
      cases, appended at the end, and given an empty thread (replacing any
      thread already stored under the same id). */
  function Capture(s: AppState, id: string, image: string, timestamp: string,
                   located: Option<Location>): (r: AppState)
    ensures |r.artifacts| == |s.artifacts| + 1
    ensures r.artifacts[..|s.artifacts|] == s.artifacts
    ensures var a := r.artifacts[|s.artifacts|];
      && a.id == id && a.image == image && a.timestamp == timestamp
      && a.location == located
      && a.name == ArtifactLabel(|s.artifacts| + 1)
      && a.description == "" && a.tags == []
    ensures r.chatMessages.Keys == s.chatMessages.Keys + {id}
    ensures r.chatMessages[id] == []
    ensures forall k :: k in s.chatMessages && k != id ==> r.chatMessages[k] == s.chatMessages[k]
    ensures r.selected == s.selected && r.view == s.view && r.draft == s.draft
    ensures Valid(s) ==> Valid(r)
  {
    var a := NewArtifact(s, id, image, timestamp, located);
    s.(artifacts := s.artifacts + [a], chatMessages := s.chatMessages[id := []])
  }

  /** Every artifact carries the label of its 1-based position. */
  predicate LabelledByPosition(arts: seq<Artifact>) {
    forall i :: 0 <= i < |arts| ==> arts[i].name == ArtifactLabel(i + 1)
  }

  /** Captures alone keep every artifact labelled by its position. */
  lemma CaptureKeepsLabelling(s: AppState, id: string, image: string, timestamp: string,
                              located: Option<Location>)
    requires LabelledByPosition(s.artifacts)
    ensures LabelledByPosition(Capture(s, id, image, timestamp, located).artifacts)
  {
  }

  /** Labels by position never repeat. */
  lemma PositionLabelsAreDistinct(arts: seq<Artifact>)
    requires LabelledByPosition(arts)
    ensures forall i, j :: 0 <= i < j < |arts| ==> arts[i].name != arts[j].name
  {
    forall i, j | 0 <= i < j < |arts|
      ensures arts[i].name != arts[j].name
    {
      var prefix := "Artifact ";
      assert ArtifactLabel(i + 1)[|prefix|..] == NatToString(i + 1);
      assert ArtifactLabel(j + 1)[|prefix|..] == NatToString(j + 1);
      NatToStringInjective(i + 1, j + 1);
    }
  }

  /** Labels count the list as it is, so after a deletion a capture can
      repeat a label: capture two artifacts, delete the first, capture a
      third, and the collection shows "Artifact 2" twice. */
  lemma LabelRepeatsAfterDelete()
    ensures
      var two := Capture(Capture(Initial, "1", "a", "t1", None), "2", "b", "t2", None);
      var r := Capture(Delete(two, "1", true), "3", "c", "t3", None);
      && |r.artifacts| == 2
      && r.artifacts[0].name == r.artifacts[1].name == "Artifact 2"
  {
    var one := Capture(Initial, "1", "a", "t1", None);
    var two := Capture(one, "2", "b", "t2", None);
    assert |two.artifacts| == 2 && two.artifacts[0].id == "1" && two.artifacts[1].id == "2";
    assert two.artifacts[1].name == ArtifactLabel(2);
    assert RemoveId(two.artifacts, "1") == [two.artifacts[1]] by {
      assert RemoveId(two.artifacts[1..], "1") == [two.artifacts[1]];
    }
    var d := Delete(two, "1", true);
    assert d.artifacts == [two.artifacts[1]];
    var r := Capture(d, "3", "c", "t3", None);
    assert r.artifacts[1].name == ArtifactLabel(2);
  }

  /** `arts.filter(a => a.id !== id)`. */
  function RemoveId(arts: seq<Artifact>, id: string): (r: seq<Artifact>)
    ensures forall a :: a in r <==> a in arts && a.id != id
    ensures id !in Ids(r)
    ensures |r| <= |arts|
    ensures id !in Ids(arts) ==> r == arts
    decreases |arts|
  {
    if |arts| == 0 then []
    else if arts[0].id == id then RemoveId(arts[1..], id)
    else [arts[0]] + RemoveId(arts[1..], id)
  }

  /** `idx` lists, in increasing order, the positions in `full` that the
      elements of `sub` come from. */
  ghost predicate Embeds<T>(idx: seq<nat>, sub: seq<T>, full: seq<T>) {
    && |idx| == |sub|
    && (forall k :: 0 <= k < |idx| ==> idx[k] < |full| && sub[k] == full[idx[k]])
    && (forall k, l :: 0 <= k < l < |idx| ==> idx[k] < idx[l])
  }

  function Shift(idx: seq<nat>): (r: seq<nat>)
    ensures |r| == |idx| && forall k :: 0 <= k < |idx| ==> r[k] == idx[k] + 1
  {
    seq(|idx|, k requires 0 <= k < |idx| => idx[k] + 1)
  }

  /** `idx` selects exactly the positions of `arts` whose id is not `id`. */
  ghost predicate SelectsOthers(idx: seq<nat>, arts: seq<Artifact>, id: string) {
    forall i :: 0 <= i < |arts| ==> (i in idx <==> arts[i].id != id)
  }

  /** An embedding into `rest` shifts to one into `[a] + rest`, with or
      without `a` itself in front. */
  lemma EmbedsCons<T>(idx: seq<nat>, sub: seq<T>, a: T, rest: seq<T>)
    requires Embeds(idx, sub, rest)
    ensures Embeds(Shift(idx), sub, [a] + rest)
    ensures Embeds([0] + Shift(idx), [a] + sub, [a] + rest)
  {
  }

  /** Positions selected in the tail shift by one; the head is selected
      exactly when its id differs. */
  lemma SelectsOthersCons(idx: seq<nat>, arts: seq<Artifact>, id: string)
    requires |arts| > 0 && SelectsOthers(idx, arts[1..], id)
    ensures SelectsOthers(if arts[0].id == id then Shift(idx) else [0] + Shift(idx), arts, id)
  {
  }

  /** The filter keeps the surviving artifacts in their relative order: the
      result is the subsequence of `arts` made of exactly the positions whose
      id differs from `id`. */
  lemma {:induction false} RemoveIdKeepsOrder(arts: seq<Artifact>, id: string)
    ensures exists idx :: Embeds(idx, RemoveId(arts, id), arts) && SelectsOthers(idx, arts, id)
    decreases |arts|
  {
    if |arts| > 0 {
      var rest := arts[1..];
      assert arts == [arts[0]] + rest;
      RemoveIdKeepsOrder(rest, id);
      var idx' :| Embeds(idx', RemoveId(rest, id), rest) && SelectsOthers(idx', rest, id);
      EmbedsCons(idx', RemoveId(rest, id), arts[0], rest);
      SelectsOthersCons(idx', arts, id);
      if arts[0].id == id {
        assert RemoveId(arts, id) == RemoveId(rest, id);
        assert Embeds(Shift(idx'), RemoveId(arts, id), arts);
      } else {
        assert RemoveId(arts, id) == [arts[0]] + RemoveId(rest, id);
        assert Embeds([0] + Shift(idx'), RemoveId(arts, id), arts);
      }
    } else {
      assert Embeds([], RemoveId(arts, id), arts) && SelectsOthers([], arts, id);
    }
  }

  /** Filtering distributes over concatenation. */
  lemma {:induction false} RemoveIdAppend(xs: seq<Artifact>, ys: seq<Artifact>, id: string)
    ensures RemoveId(xs + ys, id) == RemoveId(xs, id) + RemoveId(ys, id)
    decreases |xs|
  {
    if |xs| > 0 {
      var zs := xs + ys;
      assert zs[0] == xs[0];
      assert zs[1..] == xs[1..] + ys;
      RemoveIdAppend(xs[1..], ys, id);
      if xs[0].id == id {
        assert RemoveId(zs, id) == RemoveId(zs[1..], id);
        assert RemoveId(xs, id) == RemoveId(xs[1..], id);
      } else {
        assert RemoveId(zs, id) == [xs[0]] + RemoveId(zs[1..], id);
        assert RemoveId(xs, id) == [xs[0]] + RemoveId(xs[1..], id);
      }
    } else {
      assert xs + ys == ys;
    }
  }

  /** Delete. Refusing the confirmation changes nothing. Otherwise every
      artifact with that id leaves the list, its thread leaves the map, every
      other thread stays as it was, and the selection is cleared exactly when
      it is an artifact with that id. */
  function Delete(s: AppState, id: string, confirmed: bool): (r: AppState)
    ensures !confirmed ==> r == s
    ensures confirmed ==> id !in Ids(r.artifacts)
    ensures confirmed ==> r.artifacts == RemoveId(s.artifacts, id)
    ensures confirmed ==> forall a :: a in r.artifacts <==> a in s.artifacts && a.id != id
    ensures confirmed ==> r.chatMessages.Keys == s.chatMessages.Keys - {id}
    ensures forall k :: k in r.chatMessages ==> k in s.chatMessages && r.chatMessages[k] == s.chatMessages[k]
    ensures confirmed && s.selected.Some? && s.selected.value.id == id ==> r.selected.None?
    ensures !(s.selected.Some? && s.selected.value.id == id) ==> r.selected == s.selected
    ensures r.view == s.view && r.draft == s.draft
    ensures Valid(s) ==> Valid(r)
  {
    if !confirmed then s
    else
      var selected := if s.selected.Some? && s.selected.value.id == id then None else s.selected;
      s.(artifacts := RemoveId(s.artifacts, id),
         chatMessages := s.chatMessages - {id},
         selected := selected)
  }

  /** Deleting an id no artifact has leaves a valid state exactly as it was. */
  lemma DeleteAbsentIsNoop(s: AppState, id: string)
    requires Valid(s) && id !in Ids(s.artifacts)
    ensures Delete(s, id, true) == s
  {
  }

  /** Filtering out the id of an artifact appended under a fresh id gives
      back the list before the append. */
  lemma RemoveIdOfAppended(arts: seq<Artifact>, a: Artifact)
    requires a.id !in Ids(arts)
    ensures RemoveId(arts + [a], a.id) == arts
  {
    RemoveIdAppend(arts, [a], a.id);
    assert RemoveId([a], a.id) == [];
  }

  /** Deleting a freshly captured artifact undoes the capture. */
  lemma DeleteUndoesCapture(s: AppState, id: string, image: string, timestamp: string,
                            located: Option<Location>)
    requires Valid(s) && id !in Ids(s.artifacts)
    ensures Delete(Capture(s, id, image, timestamp, located), id, true) == s
  {
    var a := NewArtifact(s, id, image, timestamp, located);
    RemoveIdOfAppended(s.artifacts, a);
    assert id !in s.chatMessages;
    if s.selected.Some? {
      assert s.selected.value.id in Ids(s.artifacts);
    }
  }

  /** `{ ...threads, [key]: [...(threads[key] || []), note] }`. */
  function AppendNote(threads: Threads, key: string, note: Note): (r: Threads)
    ensures r.Keys == threads.Keys + {key}
    ensures r[key] == ThreadOf(threads, key) + [note]
    ensures forall k :: k in threads && k != key ==> r[k] == threads[k]
  {
    threads[key := ThreadOf(threads, key) + [note]]
  }

  /** Send note. Nothing happens when the draft trims to empty or nothing is
      selected. Otherwise the untrimmed draft becomes one note appended to
      the selected artifact's thread (created if absent), no other thread
      changes, and the draft is cleared. */
  function SendMessage(s: AppState, noteId: string, timestamp: string): (r: AppState)
    ensures IsBlank(s.draft) || s.selected.None? ==> r == s
    ensures !IsBlank(s.draft) && s.selected.Some? ==>
      var key := s.selected.value.id;
      && r.chatMessages.Keys == s.chatMessages.Keys + {key}
      && r.chatMessages[key] == ThreadOf(s.chatMessages, key) + [Note(noteId, s.draft, timestamp, NoteAuthor)]
      && (forall k :: k in s.chatMessages && k != key ==> r.chatMessages[k] == s.chatMessages[k])
      && r.draft == ""
      && r.artifacts == s.artifacts && r.selected == s.selected && r.view == s.view
    ensures Valid(s) ==> Valid(r)
  {
    if IsBlank(s.draft) || s.selected.None? then s
    else
      var note := Note(noteId, s.draft, timestamp, NoteAuthor);
      s.(chatMessages := AppendNote(s.chatMessages, s.selected.value.id, note), draft := "")
  }

  /** Sending twice in a row adds one note: the first send clears the draft,
      which makes the second a no-op. */
  lemma SendMessageTwiceSendsOnce(s: AppState, id1: string, t1: string, id2: string, t2: string)
    ensures SendMessage(SendMessage(s, id1, t1), id2, t2) == SendMessage(s, id1, t1)
  {
  }
}
