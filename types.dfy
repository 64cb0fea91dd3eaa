/** The records of types.ts, as the code uses them. */
module Types {
  import opened Wrappers

  /** App.tsx builds string ids ("scene-…"), although types.ts declares a number. */
  type SceneId = string

  /** One page of the storybook. `isGenerating` is optional in types.ts, but every
      scene the application creates sets it, so it is a plain flag here. */
  datatype Scene = Scene(
    id: SceneId,
    imagePrompt: string,
    storyText: string,
    imageUrl: Option<string>,
    isGenerating: bool)

  /** `Partial<Scene>`: a field that is `Some` overrides the scene's field. */
  datatype SceneUpdate = SceneUpdate(
    id: Option<SceneId>,
    imagePrompt: Option<string>,
    storyText: Option<string>,
    imageUrl: Option<string>,
    isGenerating: Option<bool>)

  /** The story being edited or shown. `isEditing` is used by App.tsx but not
      declared in types.ts. */
  datatype StoryState = StoryState(
    title: string,
    scenes: seq<Scene>,
    moral: string,
    isProcessing: bool,
    isEditing: bool)

  /** A scene as the analysis returns it (`Omit<Scene, 'imageUrl'>`, with the
      integer id the response schema asks for). */
  datatype RawScene = RawScene(id: int, imagePrompt: string, storyText: string)

  /** The parsed result of `analyzeStory`. */
  datatype Analysis = Analysis(title: string, scenes: seq<RawScene>, moral: string)
}
