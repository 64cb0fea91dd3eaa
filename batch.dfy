/** The specification of the batch run `handleGenerateImages` (App.tsx:82-99):
    what one pass of its loop does to the scenes, what the whole run does, and
    the properties of the result. The loop itself is `AppComponent.App.GenerateImages`. */
module Batch {
  import opened Wrappers
  import opened Types
  import opened GeminiService
  import opened StoryEdits

  /** `{ isGenerating: true }` */
  const MarkGenerating: SceneUpdate := SceneUpdate(None, None, None, None, Some(true))
  /** `{ isGenerating: false }` */
  const StopGenerating: SceneUpdate := SceneUpdate(None, None, None, None, Some(false))
  /** `{ imageUrl: url, isGenerating: false }` */
  function Finished(url: string): SceneUpdate {
    SceneUpdate(None, None, None, Some(url), Some(false))
  }

  /** A scene once the call for it has ended: not generating, and holding the new
      image if the call succeeded, its previous one (if any) otherwise. */
  function Settle(s: Scene, outcome: Result<string, string>): Scene {
    match outcome
    case Success(url) => s.(imageUrl := Some(url), isGenerating := false)
    case Failure(_) => s.(isGenerating := false)
  }

  /** The reference behaviour for one scene: generate from its own prompt and settle it. */
  function Attempted(s: Scene, call: ImageCall): Scene {
    Settle(s, GenerateSceneImage(s.imagePrompt, call))
  }

  /** One pass of the loop body for the snapshot scene `target`: mark every scene
      with its id as generating, call the generator with the snapshot's prompt,
      then record the image or only clear the flag. The net effect settles every
      scene carrying that id and leaves the others alone. */
  function Attempt(scenes: seq<Scene>, target: Scene, call: ImageCall): (r: seq<Scene>)
    ensures |r| == |scenes|
  {
    var marked := UpdateScenes(scenes, target.id, MarkGenerating);
    match GenerateSceneImage(target.imagePrompt, call)
    case Success(url) => UpdateScenes(marked, target.id, Finished(url))
    case Failure(_) => UpdateScenes(marked, target.id, StopGenerating)
  }

  /** The net effect of one pass: every scene carrying the target's id is
      settled by the target's call, and the other scenes are unchanged. */
  lemma AttemptAt(scenes: seq<Scene>, target: Scene, call: ImageCall)
    ensures var r := Attempt(scenes, target, call);
      && |r| == |scenes|
      && forall k :: 0 <= k < |scenes| ==>
        r[k] == if scenes[k].id == target.id
                then Settle(scenes[k], GenerateSceneImage(target.imagePrompt, call))
                else scenes[k]
  {
  }

  /** The loop over the snapshot, one pass per snapshot scene in order, each with
      its own call outcome. */
  function RunAttempts(scenes: seq<Scene>, snapshot: seq<Scene>, calls: seq<ImageCall>): (r: seq<Scene>)
    requires |calls| == |snapshot|
    ensures |r| == |scenes|
    decreases |snapshot|
  {
    if snapshot == [] then scenes
    else
      var n := |snapshot| - 1;
      Attempt(RunAttempts(scenes, snapshot[..n], calls[..n]), snapshot[n], calls[n])
  }

  /** One more turn of the loop: the prefix of length `i + 1` is the prefix of
      length `i` followed by an attempt at snapshot scene `i`. */
  lemma RunAttemptsStep(scenes: seq<Scene>, snapshot: seq<Scene>, calls: seq<ImageCall>, i: nat)
    requires |calls| == |snapshot| && i < |snapshot|
    ensures RunAttempts(scenes, snapshot[..i + 1], calls[..i + 1])
         == Attempt(RunAttempts(scenes, snapshot[..i], calls[..i]), snapshot[i], calls[i])
  {
    assert snapshot[..i + 1][..i] == snapshot[..i];
    assert calls[..i + 1][..i] == calls[..i];
  }

  /** `{ ...prev, isEditing: false, isProcessing: true }` */
  function StartBatch(story: Option<StoryState>): (r: Option<StoryState>)
    ensures r.Some? <==> story.Some?
    ensures story.Some? ==>
      && !r.value.isEditing && r.value.isProcessing
      && r.value.(isEditing := story.value.isEditing, isProcessing := story.value.isProcessing) == story.value
  {
    match story
    case None => None
    case Some(st) => Some(st.(isEditing := false, isProcessing := true))
  }

  /** The loop's updates applied to the current story. */
  function WithAttempts(story: Option<StoryState>, snapshot: seq<Scene>, calls: seq<ImageCall>): Option<StoryState>
    requires |calls| == |snapshot|
  {
    match story
    case None => None
    case Some(st) => Some(st.(scenes := RunAttempts(st.scenes, snapshot, calls)))
  }

  /** `{ ...prev, isProcessing: false }` */
  function FinishBatch(story: Option<StoryState>): (r: Option<StoryState>)
    ensures r.Some? <==> story.Some?
    ensures story.Some? ==>
      && !r.value.isProcessing
      && r.value.(isProcessing := story.value.isProcessing) == story.value
  {
    match story
    case None => None
    case Some(st) => Some(st.(isProcessing := false))
  }

  /** The whole run, with `calls[i]` the outcomes of the model calls for scene `i`:
      it ends out of editing mode and no longer processing, with the title, the
      moral and the number of scenes unchanged. */
  function GenerateImages(story: Option<StoryState>, calls: seq<ImageCall>): (r: Option<StoryState>)
    requires story.Some? ==> |calls| == |story.value.scenes|
    ensures r.Some? <==> story.Some?
    ensures story.Some? ==>
      && !r.value.isEditing && !r.value.isProcessing
      && r.value.title == story.value.title && r.value.moral == story.value.moral
      && |r.value.scenes| == |story.value.scenes|
  {
    match story
    case None => None
    case Some(st) =>
      FinishBatch(WithAttempts(StartBatch(story), st.scenes, calls))
  }

  lemma HasIdLast(snapshot: seq<Scene>, id: SceneId)
    requires snapshot != []
    ensures HasId(snapshot, id) <==>
      HasId(snapshot[..|snapshot| - 1], id) || snapshot[|snapshot| - 1].id == id
  {
    var n := |snapshot| - 1;
    if HasId(snapshot, id) && snapshot[n].id != id {
      var j :| 0 <= j < |snapshot| && snapshot[j].id == id;
      assert snapshot[..n][j].id == id;
    }
    if HasId(snapshot[..n], id) {
      var j :| 0 <= j < n && snapshot[..n][j].id == id;
      assert snapshot[j].id == id;
    }
  }

  /** Whatever the ids, the run keeps every scene's place, id, prompt and text;
      a scene whose id is in the snapshot ends not generating; and every image
      is either the one the scene had or a data URI from the generator. */
  lemma {:induction false} RunAttemptsSettles(scenes: seq<Scene>, snapshot: seq<Scene>, calls: seq<ImageCall>)
    requires |calls| == |snapshot|
    ensures var r := RunAttempts(scenes, snapshot, calls);
      && |r| == |scenes|
      && forall k :: 0 <= k < |scenes| ==>
        && r[k].id == scenes[k].id
        && r[k].imagePrompt == scenes[k].imagePrompt
        && r[k].storyText == scenes[k].storyText
        && r[k].isGenerating == (if HasId(snapshot, scenes[k].id) then false else scenes[k].isGenerating)
        && (r[k].imageUrl == scenes[k].imageUrl || (r[k].imageUrl.Some? && IsDataUri(r[k].imageUrl.value)))
    decreases |snapshot|
  {
    if snapshot != [] {
      var n := |snapshot| - 1;
      RunAttemptsSettles(scenes, snapshot[..n], calls[..n]);
      AttemptAt(RunAttempts(scenes, snapshot[..n], calls[..n]), snapshot[n], calls[n]);
      forall k | 0 <= k < |scenes| ensures HasId(snapshot, scenes[k].id) <==>
        HasId(snapshot[..n], scenes[k].id) || snapshot[n].id == scenes[k].id
      {
        HasIdLast(snapshot, scenes[k].id);
      }
    }
  }

  /** With distinct ids, after the first `i` passes the first `i` scenes are each
      settled by their own call and the rest are untouched. */
  lemma {:induction false} RunAttemptsPerScene(snapshot: seq<Scene>, calls: seq<ImageCall>, i: nat)
    requires DistinctIds(snapshot) && |calls| == |snapshot| && i <= |snapshot|
    ensures var r := RunAttempts(snapshot, snapshot[..i], calls[..i]);
      && |r| == |snapshot|
      && forall k :: 0 <= k < |snapshot| ==>
        r[k] == if k < i then Attempted(snapshot[k], calls[k]) else snapshot[k]
  {
    if i > 0 {
      var n := i - 1;
      assert snapshot[..i][..n] == snapshot[..n];
      assert calls[..i][..n] == calls[..n];
      RunAttemptsPerScene(snapshot, calls, n);
      var prev := RunAttempts(snapshot, snapshot[..n], calls[..n]);
      var r := RunAttempts(snapshot, snapshot[..i], calls[..i]);
      assert r == Attempt(prev, snapshot[n], calls[n]);
      AttemptAt(prev, snapshot[n], calls[n]);
      forall k | 0 <= k < |snapshot|
        ensures r[k] == if k < i then Attempted(snapshot[k], calls[k]) else snapshot[k]
      {
        if k == n {
          assert prev[k] == snapshot[n];
        } else {
          assert prev[k].id == snapshot[k].id != snapshot[n].id;
        }
      }
    } else {
      assert snapshot[..0] == [];
    }
  }

  /** The run, scene by scene, when ids are distinct (as `handleAnalyze` makes
      them): every scene is attempted, a failure does not stop later scenes, a
      success replaces any image the scene already had, and a failure keeps it. */
  lemma GenerateImagesPerScene(st: StoryState, calls: seq<ImageCall>)
    requires DistinctIds(st.scenes) && |calls| == |st.scenes|
    ensures var r := GenerateImages(Some(st), calls).value.scenes;
      && |r| == |st.scenes|
      && forall k :: 0 <= k < |r| ==> r[k] == Attempted(st.scenes[k], calls[k])
  {
    var n := |st.scenes|;
    RunAttemptsPerScene(st.scenes, calls, n);
    assert st.scenes[..n] == st.scenes;
    assert calls[..n] == calls;
    assert GenerateImages(Some(st), calls).value.scenes == RunAttempts(st.scenes, st.scenes, calls);
  }

  /** Whatever the ids and outcomes, after the run no scene is generating, the
      scenes keep their order, ids, prompts and texts, and every image is the old
      one or a `data:image/png;base64,` URI. */
  lemma GenerateImagesSettles(st: StoryState, calls: seq<ImageCall>)
    requires |calls| == |st.scenes|
    ensures var r := GenerateImages(Some(st), calls).value.scenes;
      && |r| == |st.scenes|
      && forall k :: 0 <= k < |r| ==>
        && !r[k].isGenerating
        && r[k].id == st.scenes[k].id
        && r[k].imagePrompt == st.scenes[k].imagePrompt
        && r[k].storyText == st.scenes[k].storyText
        && (r[k].imageUrl == st.scenes[k].imageUrl || (r[k].imageUrl.Some? && IsDataUri(r[k].imageUrl.value)))
  {
    RunAttemptsSettles(st.scenes, st.scenes, calls);
    forall k | 0 <= k < |st.scenes| ensures HasId(st.scenes, st.scenes[k].id) {
    }
  }
}
