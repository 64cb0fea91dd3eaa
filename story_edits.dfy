/** The state updaters of App.tsx that build a new story value from the previous
    one: the story built by `handleAnalyze`, and `updateScene`, `addScene` and
    `removeScene`. A story that is `null` is `None`. */
module StoryEdits {
  import opened Wrappers
  import opened JsText
  import opened Types

  const NewSceneStoryText: string := "新场景描述..."
  const NewSceneImagePrompt: string := "Describe the visuals for the drawing engine..."

  /** `scene-${Date.now()}-${idx}`, the id `handleAnalyze` gives scene `idx` when
      the clock reads `now`: after the `scene-` prefix, the digits of the time run
      up to a dash. */
  function AnalyzedSceneId(now: nat, idx: nat): (r: SceneId)
    ensures |Decimal(now)| + 7 < |r| && r[..6] == "scene-"
    ensures forall i :: 6 <= i < 6 + |Decimal(now)| ==> IsDigit(r[i])
    ensures r[6 + |Decimal(now)|] == '-'
  {
    "scene-" + Decimal(now) + "-" + Decimal(idx)
  }

  /** `scene-${Date.now()}`, the id `addScene` gives the new scene: everything
      after the `scene-` prefix is a digit. */
  function AddedSceneId(now: nat): (r: SceneId)
    ensures 6 < |r| && r[..6] == "scene-"
    ensures forall i :: 6 <= i < |r| ==> IsDigit(r[i])
  {
    "scene-" + Decimal(now)
  }

  /** After the `scene-` prefix of an analyzed id come the digits of the time and
      then a non-digit. */
  lemma TimeDigits(now: nat, idx: nat)
    ensures var rest := AnalyzedSceneId(now, idx)[6..];
      && |Decimal(now)| < |rest|
      && (forall k :: 0 <= k < |Decimal(now)| ==> IsDigit(rest[k]))
      && !IsDigit(rest[|Decimal(now)|])
  {
    var r := AnalyzedSceneId(now, idx);
    assert forall k :: 0 <= k < |r| - 6 ==> r[6..][k] == r[6 + k];
  }

  /** Two analyzed ids are equal only for the same clock reading and the same
      index, whatever the two readings: the dash after the time sits at the same
      place in both, so the times and then the indices coincide. */
  lemma AnalyzedSceneIdInjective(t: nat, i: nat, t': nat, j: nat)
    ensures AnalyzedSceneId(t, i) == AnalyzedSceneId(t', j) ==> t == t' && i == j
  {
    var a, b := AnalyzedSceneId(t, i), AnalyzedSceneId(t', j);
    if a == b {
      var p, q := |Decimal(t)|, |Decimal(t')|;
      TimeDigits(t, i);
      TimeDigits(t', j);
      DigitRunUnique(a[6..], p, q);
      assert Decimal(t) == a[6..6 + p];
      assert Decimal(t') == b[6..6 + q];
      DecimalInjective(t, t');
      assert Decimal(i) == a[7 + p..];
      assert Decimal(j) == b[7 + q..];
      DecimalInjective(i, j);
    }
  }

  /** A run of digits at the start of `s` ended by a non-digit has only one
      possible length. */
  lemma {:induction false} DigitRunUnique(s: string, n: nat, m: nat)
    requires n < |s| && m < |s|
    requires forall k :: 0 <= k < n ==> IsDigit(s[k])
    requires forall k :: 0 <= k < m ==> IsDigit(s[k])
    requires !IsDigit(s[n]) && !IsDigit(s[m])
    ensures n == m
    decreases n
  {
    if n > 0 && m > 0 {
      assert forall k :: 0 <= k < |s| - 1 ==> s[1..][k] == s[k + 1];
      DigitRunUnique(s[1..], n - 1, m - 1);
    }
  }

  /** An inserted scene's id never equals an analyzed scene's id, whatever the
      two timestamps: the analyzed id has a dash where the other has a digit. */
  lemma AddedIdNotAnalyzed(t: nat, t': nat, idx: nat)
    ensures AddedSceneId(t) != AnalyzedSceneId(t', idx)
  {
    var a, b := AddedSceneId(t), AnalyzedSceneId(t', idx);
    var at := 6 + |Decimal(t')|;
    assert |a| <= at || a[at] != '-' by {
      if at < |a| {
        assert IsDigit(a[at]);
      }
    }
  }

  predicate DistinctIds(scenes: seq<Scene>) {
    forall i, j :: 0 <= i < j < |scenes| ==> scenes[i].id != scenes[j].id
  }

  predicate HasId(scenes: seq<Scene>, id: SceneId) {
    exists k :: 0 <= k < |scenes| && scenes[k].id == id
  }

  /** `{ ...s, ...updates }`: every field the update sets is taken from it, every
      other field is kept from the scene. */
  function Merge(s: Scene, u: SceneUpdate): (r: Scene)
    ensures r.id == (if u.id.Some? then u.id.value else s.id)
    ensures r.imagePrompt == (if u.imagePrompt.Some? then u.imagePrompt.value else s.imagePrompt)
    ensures r.storyText == (if u.storyText.Some? then u.storyText.value else s.storyText)
    ensures u.imageUrl.Some? ==> r.imageUrl == u.imageUrl
    ensures u.imageUrl.None? ==> r.imageUrl == s.imageUrl
    ensures r.isGenerating == (if u.isGenerating.Some? then u.isGenerating.value else s.isGenerating)
  {
    Scene(
      u.id.GetOr(s.id),
      u.imagePrompt.GetOr(s.imagePrompt),
      u.storyText.GetOr(s.storyText),
      if u.imageUrl.Some? then u.imageUrl else s.imageUrl,
      u.isGenerating.GetOr(s.isGenerating))
  }

  /** `prev.scenes.map(s => s.id === id ? { ...s, ...updates } : s)`: every scene
      with the id is merged, every other scene is kept, in the same order. */
  function UpdateScenes(scenes: seq<Scene>, id: SceneId, u: SceneUpdate): (r: seq<Scene>)
    ensures |r| == |scenes|
    ensures forall k :: 0 <= k < |scenes| ==>
      r[k] == if scenes[k].id == id then Merge(scenes[k], u) else scenes[k]
  {
    if scenes == [] then []
    else [if scenes[0].id == id then Merge(scenes[0], u) else scenes[0]] + UpdateScenes(scenes[1..], id, u)
  }

  /** `updateScene(id, updates)`: a null story stays null; otherwise only the
      scenes change, as `UpdateScenes` says. */
  function UpdateScene(story: Option<StoryState>, id: SceneId, u: SceneUpdate): (r: Option<StoryState>)
    ensures r.Some? <==> story.Some?
    ensures story.Some? ==>
      && r.value.title == story.value.title && r.value.moral == story.value.moral
      && r.value.isProcessing == story.value.isProcessing && r.value.isEditing == story.value.isEditing
      && r.value.scenes == UpdateScenes(story.value.scenes, id, u)
  {
    match story
    case None => None
    case Some(st) => Some(st.(scenes := UpdateScenes(st.scenes, id, u)))
  }

  /** An id that no scene has leaves the story as it was. */
  lemma UpdateAbsentIdIsNoOp(story: Option<StoryState>, id: SceneId, u: SceneUpdate)
    requires story.Some? ==> !HasId(story.value.scenes, id)
    ensures UpdateScene(story, id, u) == story
  {
    if story.Some? {
      assert UpdateScenes(story.value.scenes, id, u) == story.value.scenes;
    }
  }

  /** Editing a scene's text or prompt (App.tsx passes `{ storyText }` or
      `{ imagePrompt }`) never touches any scene's image or generating flag: a
      changed prompt keeps its old image. */
  lemma TextEditKeepsImage(story: Option<StoryState>, id: SceneId, u: SceneUpdate)
    requires story.Some?
    requires u.imageUrl.None? && u.isGenerating.None?
    ensures var r := UpdateScene(story, id, u).value.scenes;
      forall k :: 0 <= k < |r| ==>
        r[k].imageUrl == story.value.scenes[k].imageUrl
        && r[k].isGenerating == story.value.scenes[k].isGenerating
  {
  }

  /** Where `splice(start, 0, x)` inserts: a negative start counts from the end,
      and the position is clamped to `[0, len]`. */
  function SpliceStart(start: int, len: nat): (p: nat)
    ensures p <= len
    ensures 0 <= start <= len ==> p == start
  {
    if start < 0 then (if len + start < 0 then 0 else len + start)
    else if start > len then len
    else start
  }

  /** `newScenes.splice(index + 1, 0, newScene)` on a copy of the scenes. */
  function InsertScene(scenes: seq<Scene>, index: int, scene: Scene): (r: seq<Scene>)
    ensures |r| == |scenes| + 1
    ensures multiset(r) == multiset(scenes) + multiset{scene}
    ensures 0 <= index < |scenes| ==>
      && r[index + 1] == scene
      && r[..index + 1] == scenes[..index + 1]
      && r[index + 2..] == scenes[index + 1..]
    ensures index >= |scenes| ==> r == scenes + [scene]
  {
    var p := SpliceStart(index + 1, |scenes|);
    assert scenes == scenes[..p] + scenes[p..];
    scenes[..p] + [scene] + scenes[p..]
  }

  /** The scene `addScene` inserts: a fresh `scene-<now>` id, the placeholder
      prompt and text, no image, not generating. */
  function NewScene(now: nat): (r: Scene)
    ensures r.id == AddedSceneId(now)
    ensures r.imagePrompt == NewSceneImagePrompt && r.storyText == NewSceneStoryText
    ensures r.imageUrl.None? && !r.isGenerating
  {
    Scene(AddedSceneId(now), NewSceneImagePrompt, NewSceneStoryText, None, false)
  }

  /** `addScene(index)` at time `now`. */
  function AddScene(story: Option<StoryState>, index: int, now: nat): (r: Option<StoryState>)
    ensures r.Some? <==> story.Some?
    ensures story.Some? ==>
      && r.value == story.value.(scenes := r.value.scenes)
      && r.value.scenes == InsertScene(story.value.scenes, index, NewScene(now))
  {
    match story
    case None => None
    case Some(st) => Some(st.(scenes := InsertScene(st.scenes, index, NewScene(now))))
  }

  /** `prev.scenes.filter(s => s.id !== id)`. */
  function RemoveScenes(scenes: seq<Scene>, id: SceneId): (r: seq<Scene>)
    ensures |r| <= |scenes|
  {
    if scenes == [] then []
    else if scenes[0].id == id then RemoveScenes(scenes[1..], id)
    else [scenes[0]] + RemoveScenes(scenes[1..], id)
  }

  /** The filter keeps exactly the scenes without the id: every kept scene was in
      the list and lacks the id, and every scene of the list without it is kept. */
  lemma {:induction false} RemoveScenesMembers(scenes: seq<Scene>, id: SceneId)
    ensures forall x :: x in RemoveScenes(scenes, id) <==> x in scenes && x.id != id
  {
    if scenes != [] {
      RemoveScenesMembers(scenes[1..], id);
      assert forall x :: x in scenes <==> x == scenes[0] || x in scenes[1..];
    }
  }

  /** Filtering a concatenation filters each part and keeps them in order, so the
      kept scenes stay in their original relative order. */
  lemma {:induction false} RemoveDistributes(a: seq<Scene>, b: seq<Scene>, id: SceneId)
    ensures RemoveScenes(a + b, id) == RemoveScenes(a, id) + RemoveScenes(b, id)
  {
    if a == [] {
      assert a + b == b;
    } else {
      assert (a + b)[0] == a[0];
      assert (a + b)[1..] == a[1..] + b;
      RemoveDistributes(a[1..], b, id);
      if a[0].id != id {
        calc {
          RemoveScenes(a + b, id);
          [a[0]] + RemoveScenes(a[1..] + b, id);
          [a[0]] + (RemoveScenes(a[1..], id) + RemoveScenes(b, id));
          ([a[0]] + RemoveScenes(a[1..], id)) + RemoveScenes(b, id);
        }
      }
    }
  }

  /** Removing an id that no scene has changes nothing. */
  lemma {:induction false} RemoveAbsentIsNoOp(scenes: seq<Scene>, id: SceneId)
    requires !HasId(scenes, id)
    ensures RemoveScenes(scenes, id) == scenes
  {
    if scenes != [] {
      var tail := scenes[1..];
      assert scenes[0].id != id;
      assert !HasId(tail, id) by {
        forall k | 0 <= k < |tail| ensures tail[k].id != id {
          assert tail[k] == scenes[k + 1];
        }
      }
      RemoveAbsentIsNoOp(tail, id);
      assert RemoveScenes(scenes, id) == [scenes[0]] + RemoveScenes(tail, id);
      assert scenes == [scenes[0]] + tail;
    }
  }

  /** With distinct ids, removing scene `k`'s id removes exactly scene `k`. */
  lemma RemoveUnique(scenes: seq<Scene>, k: nat)
    requires DistinctIds(scenes) && k < |scenes|
    ensures RemoveScenes(scenes, scenes[k].id) == scenes[..k] + scenes[k + 1..]
  {
    var pre, post := scenes[..k], scenes[k + 1..];
    OnlyOneWithId(scenes, k);
    assert scenes == pre + [scenes[k]] + post;
    RemoveAround(pre, scenes[k], post, scenes[k].id);
  }

  lemma OnlyOneWithId(scenes: seq<Scene>, k: nat)
    requires DistinctIds(scenes) && k < |scenes|
    ensures !HasId(scenes[..k], scenes[k].id) && !HasId(scenes[k + 1..], scenes[k].id)
  {
    var pre, post := scenes[..k], scenes[k + 1..];
    forall j | 0 <= j < |pre| ensures pre[j].id != scenes[k].id {
      assert pre[j] == scenes[j];
    }
    forall j | 0 <= j < |post| ensures post[j].id != scenes[k].id {
      assert post[j] == scenes[k + 1 + j];
    }
  }

  /** `removeScene(id)`: a null story stays null; otherwise only the scenes change. */
  function RemoveScene(story: Option<StoryState>, id: SceneId): (r: Option<StoryState>)
    ensures r.Some? <==> story.Some?
    ensures story.Some? ==>
      && r.value == story.value.(scenes := r.value.scenes)
      && r.value.scenes == RemoveScenes(story.value.scenes, id)
  {
    match story
    case None => None
    case Some(st) => Some(st.(scenes := RemoveScenes(st.scenes, id)))
  }

  /** Removing the id of a scene that has it, between two runs of scenes that do
      not, leaves exactly the two runs. */
  lemma RemoveAround(pre: seq<Scene>, x: Scene, post: seq<Scene>, id: SceneId)
    requires !HasId(pre, id) && !HasId(post, id) && x.id == id
    ensures RemoveScenes(pre + [x] + post, id) == pre + post
  {
    var head := pre + [x];
    RemoveDistributes(head, post, id);
    RemoveDistributes(pre, [x], id);
    assert RemoveScenes([x], id) == [] by {
      assert [x][1..] == [];
    }
    RemoveAbsentIsNoOp(pre, id);
    RemoveAbsentIsNoOp(post, id);
    assert RemoveScenes(head, id) == pre;
  }

  /** Removing the scene just inserted (when its id was new) restores the story. */
  lemma AddThenRemove(st: StoryState, index: int, now: nat)
    requires !HasId(st.scenes, AddedSceneId(now))
    ensures RemoveScene(AddScene(Some(st), index, now), AddedSceneId(now)) == Some(st)
  {
    var s, p := st.scenes, SpliceStart(index + 1, |st.scenes|);
    var id := AddedSceneId(now);
    assert InsertScene(s, index, NewScene(now)) == s[..p] + [NewScene(now)] + s[p..];
    assert !HasId(s[..p], id);
    assert !HasId(s[p..], id);
    RemoveAround(s[..p], NewScene(now), s[p..], id);
    assert s[..p] + s[p..] == s;
  }

  /** `analysis.scenes.map((s, idx) => ({ ...s, id: …, isGenerating: false }))`,
      where `nows[idx]` is what `Date.now()` returns while the callback runs for
      scene `idx`: one scene per analyzed scene with its text and prompt, no
      image, not generating, and pairwise different ids however the clock moves. */
  function BuildScenes(raw: seq<RawScene>, nows: seq<nat>): (r: seq<Scene>)
    requires |nows| == |raw|
    ensures |r| == |raw|
    ensures forall k :: 0 <= k < |r| ==>
      && r[k].id == AnalyzedSceneId(nows[k], k)
      && r[k].imagePrompt == raw[k].imagePrompt
      && r[k].storyText == raw[k].storyText
      && r[k].imageUrl.None?
      && !r[k].isGenerating
    ensures DistinctIds(r)
  {
    var r := seq(|raw|, idx requires 0 <= idx < |raw| =>
      Scene(AnalyzedSceneId(nows[idx], idx), raw[idx].imagePrompt, raw[idx].storyText, None, false));
    assert DistinctIds(r) by {
      forall i, j | 0 <= i < j < |r| ensures r[i].id != r[j].id {
        AnalyzedSceneIdInjective(nows[i], i, nows[j], j);
      }
    }
    r
  }

  /** The story `handleAnalyze` stores on success: in editing mode, not processing,
      with the title and moral of the analysis and its scenes built as above. */
  function BuildStory(analysis: Analysis, nows: seq<nat>): (r: StoryState)
    requires |nows| == |analysis.scenes|
    ensures r.isEditing && !r.isProcessing
    ensures r.title == analysis.title && r.moral == analysis.moral
    ensures |r.scenes| == |analysis.scenes|
    ensures forall k :: 0 <= k < |r.scenes| ==>
      && r.scenes[k].imagePrompt == analysis.scenes[k].imagePrompt
      && r.scenes[k].storyText == analysis.scenes[k].storyText
      && r.scenes[k].imageUrl.None?
      && !r.scenes[k].isGenerating
    ensures DistinctIds(r.scenes)
  {
    StoryState(analysis.title, BuildScenes(analysis.scenes, nows), analysis.moral, false, true)
  }

  /** A scene inserted later, at any time, never takes an id the analysis gave,
      whatever the clock read during the analysis, so removing it restores the
      analyzed story. */
  lemma AddToAnalyzedThenRemove(analysis: Analysis, nows: seq<nat>, index: int, later: nat)
    requires |nows| == |analysis.scenes|
    ensures var st := BuildStory(analysis, nows);
      RemoveScene(AddScene(Some(st), index, later), AddedSceneId(later)) == Some(st)
  {
    var st := BuildStory(analysis, nows);
    assert st.scenes == BuildScenes(analysis.scenes, nows);
    forall k | 0 <= k < |st.scenes| ensures st.scenes[k].id != AddedSceneId(later) {
      AddedIdNotAnalyzed(later, nows[k], k);
    }
    AddThenRemove(st, index, later);
  }
}
