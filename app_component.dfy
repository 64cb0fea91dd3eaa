/** The `App` component's state and its handlers (App.tsx). Each `setStory(prev => …)`
    is one atomic assignment of `story`; the awaited model calls are oracle
    parameters. */
module AppComponent {
  import opened Wrappers
  import opened JsText
  import opened Types
  import opened GeminiService
  import opened StoryEdits
  import Batch

  const AnalysisFailedMessage: string := "分析故事失败，请检查网络或重试。"

  class App {
    var input: string
    var story: Option<StoryState>
    var loading: bool
    var error: Option<string>

    /** The first render: the given input text, no story, not loading, no error. */
    constructor (initialInput: string)
      ensures input == initialInput && story == None && !loading && error == None
    {
      input := initialInput;
      story := None;
      loading := false;
      error := None;
    }

    /** The story textarea's `onChange`. */
    method EditInput(text: string)
      modifies this`input
      ensures input == text
    {
      input := text;
    }

    /** `handleAnalyze`, where `analysis` is what `analyzeStory(input)` returned or
        threw and `nows[idx]` is what `Date.now()` returns while scene `idx` is
        given its id. Input that is only whitespace changes
        nothing; otherwise the error is cleared, and then either the analyzed story
        replaces the current one or the story stays and the failure message is set. */
    method Analyze(nows: seq<nat>, analysis: Result<Analysis, string>)
      requires analysis.Success? ==> |nows| == |analysis.value.scenes|
      modifies this`story, this`loading, this`error
      ensures AllWhitespace(input) ==> story == old(story) && loading == old(loading) && error == old(error)
      ensures !AllWhitespace(input) ==>
        && !loading
        && (analysis.Success? ==> story == Some(BuildStory(analysis.value, nows)) && error == None)
        && (analysis.Failure? ==> story == old(story) && error == Some(AnalysisFailedMessage))
    {
      TrimEmptyIff(input);
      if Trim(input) == [] {
        return;
      }
      loading := true;
      error := None;
      match analysis {
        case Success(a) =>
          story := Some(BuildStory(a, nows));
        case Failure(_) =>
          error := Some(AnalysisFailedMessage);
      }
      loading := false;
    }

    /** `updateScene(id, updates)` */
    method UpdateScene(id: SceneId, u: SceneUpdate)
      modifies this`story
      ensures story == StoryEdits.UpdateScene(old(story), id, u)
    {
      story := StoryEdits.UpdateScene(story, id, u);
    }

    /** `addScene(index)` at time `now`. */
    method AddScene(index: int, now: nat)
      modifies this`story
      ensures story == StoryEdits.AddScene(old(story), index, now)
    {
      story := StoryEdits.AddScene(story, index, now);
    }

    /** `removeScene(id)` */
    method RemoveScene(id: SceneId)
      modifies this`story
      ensures story == StoryEdits.RemoveScene(old(story), id)
    {
      story := StoryEdits.RemoveScene(story, id);
    }

    /** `handleGenerateImages`, where `calls[i]` holds the outcomes of the model
        calls made for snapshot scene `i`. Nothing happens without a story.
        Otherwise the story leaves editing mode and is processing throughout the
        loop; each snapshot scene in order is marked generating, its image is
        requested, and the image is recorded or only the flag cleared; finally
        processing ends. */
    method GenerateImages(calls: seq<ImageCall>)
      requires story.Some? ==> |calls| == |story.value.scenes|
      modifies this`story
      ensures story == Batch.GenerateImages(old(story), calls)
    {
      if story.None? {
        return;
      }
      var snapshot := story.value.scenes;
      story := Batch.StartBatch(story);
      ghost var started := story.value;
      var i := 0;
      while i < |snapshot|
        invariant 0 <= i <= |snapshot|
        invariant story == Some(started.(scenes := Batch.RunAttempts(snapshot, snapshot[..i], calls[..i])))
      {
        GenerateForScene(snapshot[i], calls[i]);
        Batch.RunAttemptsStep(snapshot, snapshot, calls, i);
        i := i + 1;
      }
      assert snapshot[..i] == snapshot && calls[..i] == calls;
      assert story == Batch.WithAttempts(Batch.StartBatch(old(story)), snapshot, calls);
      story := Batch.FinishBatch(story);
    }

    /** The body of the batch loop for one snapshot scene: mark its id as
        generating, request its image, then record the image or only clear the
        flag. Failures are caught, so the loop always goes on. */
    method GenerateForScene(scene: Scene, call: ImageCall)
      requires story.Some?
      modifies this`story
      ensures story == Some(old(story).value.(scenes := Batch.Attempt(old(story).value.scenes, scene, call)))
    {
      story := StoryEdits.UpdateScene(story, scene.id, Batch.MarkGenerating);
      var outcome := GenerateSceneImage(scene.imagePrompt, call);
      match outcome {
        case Success(url) =>
          story := StoryEdits.UpdateScene(story, scene.id, Batch.Finished(url));
        case Failure(_) =>
          story := StoryEdits.UpdateScene(story, scene.id, Batch.StopGenerating);
      }
    }

    /** "修改分镜设计": back to editing the same story. */
    method EditAgain()
      modifies this`story
      ensures old(story).None? ==> story == None
      ensures old(story).Some? ==> story == Some(old(story).value.(isEditing := true))
    {
      if story.Some? {
        story := Some(story.value.(isEditing := true));
      }
    }

    /** "取消并返回" and "开始新故事": drop the story. */
    method DiscardStory()
      modifies this`story
      ensures story == None
    {
      story := None;
    }
  }
}
