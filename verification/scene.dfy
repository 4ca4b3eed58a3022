/**
 * The bounded model list of `graphics/scene.c`: `scene_init`,
 * `scene_add_model`, and the order in which `scene_draw` visits the camera
 * and the models. Models and the camera are opaque to the scene.
 */
module Scene {

  /** `SCENE_MAX_MODEL_COUNT`. */
  const MaxModelCount: nat := 10

  /** `scene_t`: the first `model_count` slots of `models`, and the camera. */
  datatype Scene<M, C> = Scene(models: seq<M>, camera: C)

  /** The count stays within the array. */
  predicate Valid<M, C>(s: Scene<M, C>)
  {
    |s.models| <= MaxModelCount
  }

  /** `scene_init`: no models, and the given camera. */
  function Init<M, C>(camera: C): (r: Scene<M, C>)
    ensures Valid(r) && |r.models| == 0 && r.camera == camera
  {
    Scene([], camera)
  }

  /**
   * `scene_add_model`: a full scene is left alone; otherwise the model goes
   * into slot `model_count` and the count grows by one.
   */
  function Add<M, C>(s: Scene<M, C>, model: M): (r: Scene<M, C>)
    requires Valid(s)
    ensures Valid(r) && r.camera == s.camera
    ensures |s.models| == MaxModelCount ==> r == s
    ensures |s.models| < MaxModelCount ==> |r.models| == |s.models| + 1 && r.models[|s.models|] == model
    ensures r.models[..|s.models|] == s.models
  {
    if |s.models| == MaxModelCount then s else s.(models := s.models + [model])
  }

  /** What `scene_draw` does, one call at a time. */
  datatype DrawCall<M, C> = SetViewProj(camera: C) | DrawModel(model: M)

  /** The calls `scene_draw` makes: the camera first, then models `0` to `model_count - 1`. */
  function Draw<M, C>(s: Scene<M, C>): (r: seq<DrawCall<M, C>>)
    ensures |r| == |s.models| + 1
    ensures r[0] == SetViewProj(s.camera)
    ensures forall i :: 0 <= i < |s.models| ==> r[i + 1] == DrawModel(s.models[i])
  {
    [SetViewProj(s.camera)] + seq(|s.models|, i requires 0 <= i < |s.models| => DrawModel(s.models[i]))
  }

  /** The scene after adding `models` one by one. */
  function AddAll<M, C>(s: Scene<M, C>, models: seq<M>): (r: Scene<M, C>)
    requires Valid(s)
    ensures Valid(r)
    decreases |models|
  {
    if models == [] then s else AddAll(Add(s, models[0]), models[1..])
  }

  /** Adding to a scene that is not full draws the new model last. */
  lemma DrawAfterAdd<M, C>(s: Scene<M, C>, model: M)
    requires Valid(s) && |s.models| < MaxModelCount
    ensures Draw(Add(s, model)) == Draw(s) + [DrawModel(model)]
  {
  }

  /**
   * Adding models to a fresh scene keeps the first ten, in order, and
   * silently drops the rest.
   */
  lemma {:induction false} AddAllKeepsFirst<M, C>(s: Scene<M, C>, models: seq<M>)
    requires Valid(s)
    ensures var n := if |s.models| + |models| <= MaxModelCount then |models| else MaxModelCount - |s.models|;
      AddAll(s, models).models == s.models + models[..n]
    ensures AddAll(s, models).camera == s.camera
    decreases |models|
  {
    if models != [] {
      var next := Add(s, models[0]);
      AddAllKeepsFirst(next, models[1..]);
      if |s.models| == MaxModelCount {
        assert models[..0] == [];
      } else {
        var n := if |s.models| + |models| <= MaxModelCount then |models| else MaxModelCount - |s.models|;
        assert models[..n] == [models[0]] + models[1..][..n - 1];
      }
    }
  }
}
