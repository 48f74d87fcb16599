/**
 * The listener and output bookkeeping of the view finder use case: when the camera is told that the
 * use case became active, inactive or needs a reset, when an output is pushed to the listener, and
 * when the use case may release a SurfaceTexture itself.
 */
module ViewFinder {
  import opened Wrappers

  /** A SurfaceTexture, by identity. */
  type TextureId = nat
  /** An OnViewFinderOutputUpdateListener, by identity. */
  type ListenerId = nat

  datatype Size = Size(width: int, height: int)

  /** The bundle handed to the listener: the texture, its size and the rotation to display it with. */
  datatype ViewFinderOutput = ViewFinderOutput(surfaceTexture: TextureId, textureSize: Size, rotationDegrees: int)

  /** The calls the use case makes on the camera, the listener and the textures. */
  datatype Effect =
    | NotifyActive
    | NotifyInactive
    | NotifyReset
    | ResetSurfaceTexture
    | OnUpdated(listener: ListenerId, output: ViewFinderOutput)
    | ReleaseTexture(texture: TextureId)
    | ReleaseCheckedSurfaceTexture
    | UpdateConfiguration(targetRotation: int)

  /** ImageOutputConfiguration.INVALID_ROTATION and Surface.ROTATION_0. */
  const InvalidRotation: int := -1
  const Rotation0: int := 0

  /** Whether the last active/inactive notification in the trace is "active" (none yet: inactive). */
  function LastActivity(effects: seq<Effect>): bool
    decreases |effects|
  {
    if effects == [] then false
    else match effects[|effects| - 1]
      case NotifyActive => true
      case NotifyInactive => false
      case _ => LastActivity(effects[..|effects| - 1])
  }

  /** The textures handed to a listener so far. */
  function DispatchedTextures(effects: seq<Effect>): set<TextureId>
    decreases |effects|
  {
    if effects == [] then {}
    else
      var last := effects[|effects| - 1];
      DispatchedTextures(effects[..|effects| - 1]) + (if last.OnUpdated? then {last.output.surfaceTexture} else {})
  }

  /** The textures the use case released so far. */
  function ReleasedTextures(effects: seq<Effect>): set<TextureId>
    decreases |effects|
  {
    if effects == [] then {}
    else
      var last := effects[|effects| - 1];
      ReleasedTextures(effects[..|effects| - 1]) + (if last.ReleaseTexture? then {last.texture} else {})
  }

  /** The safety rule: a texture handed to a listener is never released by the use case afterwards. */
  predicate NoReleaseAfterDispatch(effects: seq<Effect>)
    decreases |effects|
  {
    effects == [] ||
      (&& NoReleaseAfterDispatch(effects[..|effects| - 1])
       && (effects[|effects| - 1].ReleaseTexture? ==>
             effects[|effects| - 1].texture !in DispatchedTextures(effects[..|effects| - 1])))
  }

  /** The trace functions after one more call, in terms of the trace before it. */
  lemma Snoc(effects: seq<Effect>, e: Effect)
    ensures LastActivity(effects + [e]) == if e.NotifyActive? then true else if e.NotifyInactive? then false else LastActivity(effects)
    ensures DispatchedTextures(effects + [e]) == DispatchedTextures(effects) + (if e.OnUpdated? then {e.output.surfaceTexture} else {})
    ensures ReleasedTextures(effects + [e]) == ReleasedTextures(effects) + (if e.ReleaseTexture? then {e.texture} else {})
    ensures NoReleaseAfterDispatch(effects + [e]) <==>
      NoReleaseAfterDispatch(effects) && (e.ReleaseTexture? ==> e.texture !in DispatchedTextures(effects))
  {
    assert (effects + [e])[..|effects|] == effects;
  }

  /** A texture is dispatched exactly when some OnUpdated call in the trace carried it. */
  lemma {:induction false} DispatchedTexturesMeaning(effects: seq<Effect>, t: TextureId)
    ensures t in DispatchedTextures(effects) <==>
      exists i :: 0 <= i < |effects| && effects[i].OnUpdated? && effects[i].output.surfaceTexture == t
    decreases |effects|
  {
    if effects != [] {
      var prefix := effects[..|effects| - 1];
      DispatchedTexturesMeaning(prefix, t);
      assert effects == prefix + [effects[|effects| - 1]];
      if t in DispatchedTextures(prefix) {
        var i :| 0 <= i < |prefix| && prefix[i].OnUpdated? && prefix[i].output.surfaceTexture == t;
        assert effects[i] == prefix[i];
      }
      if exists i :: 0 <= i < |effects| && effects[i].OnUpdated? && effects[i].output.surfaceTexture == t {
        var i :| 0 <= i < |effects| && effects[i].OnUpdated? && effects[i].output.surfaceTexture == t;
        if i < |prefix| {
          assert prefix[i] == effects[i];
        }
      }
    }
  }

  /** The safety rule, pairwise: no OnUpdated call carries a texture that a later release names. */
  lemma {:induction false} NoReleaseAfterDispatchMeaning(effects: seq<Effect>)
    ensures NoReleaseAfterDispatch(effects) <==>
      forall i, j :: 0 <= i < j < |effects| && effects[i].OnUpdated? && effects[j].ReleaseTexture? ==>
        effects[j].texture != effects[i].output.surfaceTexture
    decreases |effects|
  {
    if effects != [] {
      var prefix, last := effects[..|effects| - 1], effects[|effects| - 1];
      NoReleaseAfterDispatchMeaning(prefix);
      assert effects == prefix + [last];
      if last.ReleaseTexture? {
        DispatchedTexturesMeaning(prefix, last.texture);
      }
      assert forall i :: 0 <= i < |prefix| ==> prefix[i] == effects[i];
    }
  }

  /** The rotation a new output carries: from the camera when its info is available, else the previous one. */
  function RelativeRotation(previous: Option<ViewFinderOutput>, sensorRotation: Option<int -> int>, targetRotation: Option<int>): int
  {
    match sensorRotation
    case Some(degreesFor) => degreesFor(targetRotation.GetOr(Rotation0))
    case None => if previous.Some? then previous.value.rotationDegrees else 0
  }

  /** The calls setting listener `newListener` in place of `oldListener` makes, given the latest output. */
  function ListenerChangeEffects(oldListener: Option<ListenerId>, newListener: Option<ListenerId>,
                                 latest: Option<ViewFinderOutput>): seq<Effect>
  {
    if oldListener.None? && newListener.Some? then
      [NotifyActive] + (if latest.Some? then [OnUpdated(newListener.value, latest.value)] else [])
    else if oldListener.Some? && newListener.None? then [NotifyInactive]
    else if oldListener.Some? && oldListener != newListener && latest.Some? then [ResetSurfaceTexture]
    else []
  }

  /**
   * What a listener change does: "active" exactly when going from no listener to one, "inactive"
   * exactly when going from one to none, a SurfaceTexture reset exactly when swapping two listeners
   * while an output exists, the latest output delivered exactly to a listener that arrives when there
   * was none, no texture released, and nothing at all when the listener stays the same.
   */
  lemma ListenerChangeEffectsMeaning(oldListener: Option<ListenerId>, newListener: Option<ListenerId>,
                                     latest: Option<ViewFinderOutput>)
    ensures var r := ListenerChangeEffects(oldListener, newListener, latest);
      && (NotifyActive in r <==> oldListener.None? && newListener.Some?)
      && (NotifyInactive in r <==> oldListener.Some? && newListener.None?)
      && (ResetSurfaceTexture in r <==> oldListener.Some? && newListener.Some? && oldListener != newListener && latest.Some?)
      && (forall l: ListenerId, o :: OnUpdated(l, o) in r <==> oldListener.None? && newListener == Some(l) && latest == Some(o))
      && (forall i :: 0 <= i < |r| ==> !r[i].ReleaseTexture? && !r[i].NotifyReset?)
      && (oldListener == newListener ==> r == [])
  {
  }

  /** After a listener change the camera was last told "active" exactly when a listener is set. */
  lemma {:induction false} ListenerChangeKeepsActivity(effects: seq<Effect>, oldListener: Option<ListenerId>,
                                                       newListener: Option<ListenerId>, latest: Option<ViewFinderOutput>)
    requires LastActivity(effects) <==> oldListener.Some?
    ensures LastActivity(effects + ListenerChangeEffects(oldListener, newListener, latest)) <==> newListener.Some?
  {
    var r := ListenerChangeEffects(oldListener, newListener, latest);
    if oldListener.None? && newListener.Some? {
      Snoc(effects, NotifyActive);
      if latest.Some? {
        Snoc(effects + [NotifyActive], OnUpdated(newListener.value, latest.value));
        assert effects + r == effects + [NotifyActive] + [OnUpdated(newListener.value, latest.value)];
      }
    } else if oldListener.Some? && newListener.None? {
      Snoc(effects, NotifyInactive);
    } else if r != [] {
      Snoc(effects, ResetSurfaceTexture);
    } else {
      assert effects + r == effects;
    }
  }

  /** The release a texture switch makes: the old texture, if there is one and it was never dispatched. */
  function RetiredEffects(previous: Option<ViewFinderOutput>, wasDispatched: bool, newTexture: TextureId): seq<Effect>
  {
    if previous.Some? && previous.value.surfaceTexture != newTexture && !wasDispatched
    then [ReleaseTexture(previous.value.surfaceTexture)] else []
  }

  class ViewFinderUseCase {
    var subscribedListener: Option<ListenerId>
    var latestOutput: Option<ViewFinderOutput>
    var surfaceDispatched: bool
    /** The target rotation the use-case configuration holds, if it holds one. */
    var targetRotation: Option<int>
    var effects: seq<Effect>

    /**
     * `surfaceDispatched` records exactly whether the current texture was handed to a listener,
     * no dispatched texture is ever released, and the camera was last told "active" exactly when
     * a listener is set. The second part holds only because a texture handed to `UpdateOutput` is
     * the latest one or was never seen before; see its precondition.
     */
    predicate Valid()
      reads this
    {
      && (surfaceDispatched <==> latestOutput.Some? && latestOutput.value.surfaceTexture in DispatchedTextures(effects))
      && NoReleaseAfterDispatch(effects)
      && (LastActivity(effects) <==> subscribedListener.Some?)
    }

    constructor (targetRotation: Option<int>)
      ensures Valid()
      ensures subscribedListener.None? && latestOutput.None? && !surfaceDispatched && effects == []
      ensures this.targetRotation == targetRotation
    {
      subscribedListener, latestOutput, surfaceDispatched := None, None, false;
      this.targetRotation := targetRotation;
      effects := [];
    }

    method Emit(e: Effect)
      modifies this
      ensures effects == old(effects) + [e]
      ensures LastActivity(effects) == if e.NotifyActive? then true else if e.NotifyInactive? then false else LastActivity(old(effects))
      ensures DispatchedTextures(effects) == DispatchedTextures(old(effects)) + (if e.OnUpdated? then {e.output.surfaceTexture} else {})
      ensures ReleasedTextures(effects) == ReleasedTextures(old(effects)) + (if e.ReleaseTexture? then {e.texture} else {})
      ensures NoReleaseAfterDispatch(effects) <==>
        NoReleaseAfterDispatch(old(effects)) && (e.ReleaseTexture? ==> e.texture !in DispatchedTextures(old(effects)))
      ensures subscribedListener == old(subscribedListener) && latestOutput == old(latestOutput)
      ensures surfaceDispatched == old(surfaceDispatched) && targetRotation == old(targetRotation)
    {
      Snoc(effects, e);
      effects := effects + [e];
    }

    /**
     * Set the listener. Going from none to one tells the camera it is active and hands the latest
     * output, if any, to the new listener; going from one to none tells it it is inactive; swapping
     * one listener for another resets the SurfaceTexture when an output exists.
     */
    method SetOnViewFinderOutputUpdateListener(newListener: Option<ListenerId>)
      requires Valid()
      modifies this
      ensures Valid()
      ensures subscribedListener == newListener
      ensures latestOutput == old(latestOutput) && targetRotation == old(targetRotation)
      ensures effects == old(effects) + ListenerChangeEffects(old(subscribedListener), newListener, latestOutput)
      ensures surfaceDispatched == (old(surfaceDispatched) || (old(subscribedListener).None? && newListener.Some? && latestOutput.Some?))
    {
      var oldListener := subscribedListener;
      subscribedListener := newListener;
      if oldListener.None? && newListener.Some? {
        Emit(NotifyActive);
        if latestOutput.Some? {
          surfaceDispatched := true;
          Emit(OnUpdated(newListener.value, latestOutput.value));
        }
      } else if oldListener.Some? && newListener.None? {
        Emit(NotifyInactive);
      } else if oldListener.Some? && oldListener != newListener {
        if latestOutput.Some? {
          Emit(ResetSurfaceTexture);
        }
      }
    }

    /** Exactly the same as setting no listener. */
    method RemoveViewFinderOutputListener()
      requires Valid()
      modifies this
      ensures Valid()
      ensures subscribedListener.None?
      ensures latestOutput == old(latestOutput) && targetRotation == old(targetRotation)
      ensures surfaceDispatched == old(surfaceDispatched)
      ensures effects == old(effects) + ListenerChangeEffects(old(subscribedListener), None, latestOutput)
    {
      SetOnViewFinderOutputUpdateListener(None);
    }

    /** The listener last set, or none. */
    method GetOnViewFinderOutputUpdateListener() returns (listener: Option<ListenerId>)
      ensures listener == subscribedListener
    {
      listener := subscribedListener;
    }

    /**
     * Take a texture (a new one, or the current one again) and its size. The output is rebuilt with
     * the current rotation and, only if it differs from the latest one, published.
     */
    method UpdateOutput(surfaceTexture: TextureId, resolution: Size, sensorRotation: Option<int -> int>)
      requires Valid()
      requires || (latestOutput.Some? && surfaceTexture == latestOutput.value.surfaceTexture)
               || surfaceTexture !in DispatchedTextures(effects) + ReleasedTextures(effects)
      modifies this
      ensures Valid()
      ensures subscribedListener == old(subscribedListener) && targetRotation == old(targetRotation)
      ensures var out := ViewFinderOutput(surfaceTexture, resolution, RelativeRotation(old(latestOutput), sensorRotation, targetRotation));
        && latestOutput == Some(out)
        && (old(latestOutput) == Some(out) ==> effects == old(effects) && surfaceDispatched == old(surfaceDispatched))
        && (old(latestOutput) != Some(out) ==> Published(old(latestOutput), old(surfaceDispatched), old(effects), out))
    {
      var relativeRotation := if latestOutput.None? then 0 else latestOutput.value.rotationDegrees;
      if sensorRotation.Some? {
        relativeRotation := sensorRotation.value(targetRotation.GetOr(Rotation0));
      }
      var newOutput := ViewFinderOutput(surfaceTexture, resolution, relativeRotation);
      if latestOutput != Some(newOutput) {
        PublishOutput(newOutput);
      }
    }

    /**
     * The state after `out` replaced `previous`: a replaced texture that was never dispatched is
     * released, the dispatched flag restarts for a new texture, and a present listener gets a reset
     * (for a new texture) followed by the new output.
     */
    ghost predicate Published(previous: Option<ViewFinderOutput>, wasDispatched: bool, before: seq<Effect>, out: ViewFinderOutput)
      reads this
    {
      var changed := previous.None? || previous.value.surfaceTexture != out.surfaceTexture;
      && latestOutput == Some(out)
      && effects == before + RetiredEffects(previous, wasDispatched, out.surfaceTexture)
           + (if subscribedListener.Some? then (if changed then [NotifyReset] else []) + [OnUpdated(subscribedListener.value, out)] else [])
      && surfaceDispatched == (subscribedListener.Some? || (!changed && wasDispatched))
    }

    /** The "something has changed" half of UpdateOutput. */
    method PublishOutput(newOutput: ViewFinderOutput)
      requires Valid() && latestOutput != Some(newOutput)
      requires || (latestOutput.Some? && newOutput.surfaceTexture == latestOutput.value.surfaceTexture)
               || newOutput.surfaceTexture !in DispatchedTextures(effects) + ReleasedTextures(effects)
      modifies this
      ensures Valid()
      ensures subscribedListener == old(subscribedListener) && targetRotation == old(targetRotation)
      ensures Published(old(latestOutput), old(surfaceDispatched), old(effects), newOutput)
    {
      var outputListener := subscribedListener;
      var textureChanged := latestOutput.None? || latestOutput.value.surfaceTexture != newOutput.surfaceTexture;
      RetireLatestTexture(newOutput.surfaceTexture);
      latestOutput := Some(newOutput);
      if outputListener.Some? {
        if textureChanged {
          Emit(NotifyReset);
        }
        surfaceDispatched := true;
        Emit(OnUpdated(outputListener.value, newOutput));
      }
    }

    /**
     * Before `newTexture` takes over: if it is a different texture, release the old one when it was
     * never dispatched, and restart the dispatched flag.
     */
    method RetireLatestTexture(newTexture: TextureId)
      requires Valid()
      requires || (latestOutput.Some? && newTexture == latestOutput.value.surfaceTexture)
               || newTexture !in DispatchedTextures(effects) + ReleasedTextures(effects)
      modifies this
      ensures subscribedListener == old(subscribedListener) && targetRotation == old(targetRotation)
      ensures latestOutput == old(latestOutput)
      ensures effects == old(effects) + RetiredEffects(old(latestOutput), old(surfaceDispatched), newTexture)
      ensures var changed := old(latestOutput).None? || old(latestOutput).value.surfaceTexture != newTexture;
        surfaceDispatched == (!changed && old(surfaceDispatched))
      ensures NoReleaseAfterDispatch(effects) && LastActivity(effects) == LastActivity(old(effects))
      ensures DispatchedTextures(effects) == DispatchedTextures(old(effects))
      ensures surfaceDispatched <==> newTexture in DispatchedTextures(effects)
    {
      var oldTexture := if latestOutput.None? then None else Some(latestOutput.value.surfaceTexture);
      if oldTexture != Some(newTexture) {
        if oldTexture.Some? && !surfaceDispatched {
          Emit(ReleaseTexture(oldTexture.value));
        }
        surfaceDispatched := false;
      }
    }

    /** Rebuild the latest output, if there is one, so that it carries the current rotation. */
    method InvalidateMetadata(sensorRotation: Option<int -> int>)
      requires Valid()
      modifies this
      ensures Valid()
      ensures subscribedListener == old(subscribedListener) && targetRotation == old(targetRotation)
      ensures old(latestOutput).None? ==> latestOutput.None? && effects == old(effects) && surfaceDispatched == old(surfaceDispatched)
      ensures old(latestOutput).Some? ==>
        var out := old(latestOutput).value.(rotationDegrees := RelativeRotation(old(latestOutput), sensorRotation, targetRotation));
        && latestOutput == Some(out)
        && effects == old(effects) + (if out != old(latestOutput).value && subscribedListener.Some? then [OnUpdated(subscribedListener.value, out)] else [])
        && surfaceDispatched == (old(surfaceDispatched) || (out != old(latestOutput).value && subscribedListener.Some?))
    {
      if latestOutput.Some? {
        UpdateOutput(latestOutput.value.surfaceTexture, latestOutput.value.textureSize, sensorRotation);
      }
    }

    /**
     * Set the rotation of the texture's consumer: the configuration is rebuilt, and the output's
     * metadata refreshed, only when no rotation was stored yet or the stored one differs.
     */
    method SetTargetRotation(rotation: int, sensorRotation: Option<int -> int>)
      requires Valid()
      modifies this
      ensures Valid()
      ensures subscribedListener == old(subscribedListener)
      ensures var stored := old(targetRotation).GetOr(InvalidRotation);
        if stored == InvalidRotation || stored != rotation then
          && targetRotation == Some(rotation)
          && |effects| > |old(effects)| && effects[..|old(effects)| + 1] == old(effects) + [UpdateConfiguration(rotation)]
          && (old(latestOutput).None? ==> latestOutput.None? && effects == old(effects) + [UpdateConfiguration(rotation)])
          && (old(latestOutput).Some? ==>
                var out := old(latestOutput).value.(rotationDegrees := RelativeRotation(old(latestOutput), sensorRotation, Some(rotation)));
                var redispatch := out != old(latestOutput).value && subscribedListener.Some?;
                && latestOutput == Some(out)
                && effects == old(effects) + [UpdateConfiguration(rotation)]
                     + (if redispatch then [OnUpdated(subscribedListener.value, out)] else [])
                && surfaceDispatched == (old(surfaceDispatched) || redispatch))
        else
          && targetRotation == old(targetRotation) && latestOutput == old(latestOutput)
          && effects == old(effects) && surfaceDispatched == old(surfaceDispatched)
    {
      var oldRotation := targetRotation.GetOr(InvalidRotation);
      if oldRotation == InvalidRotation || oldRotation != rotation {
        targetRotation := Some(rotation);
        Emit(UpdateConfiguration(rotation));
        ghost var configured := effects;
        InvalidateMetadata(sensorRotation);
        assert effects[..|configured|] == configured;
      }
    }

    /**
     * Detach the use case: release the checked SurfaceTexture, drop the listener, tell the camera it
     * is inactive, and release the latest texture only if it was never dispatched.
     */
    method Clear()
      requires Valid()
      modifies this
      ensures Valid()
      ensures subscribedListener.None? && latestOutput == old(latestOutput) && targetRotation == old(targetRotation)
      ensures surfaceDispatched == old(surfaceDispatched)
      ensures effects == old(effects) + [ReleaseCheckedSurfaceTexture]
        + (if old(subscribedListener).Some? then [NotifyInactive] else []) + [NotifyInactive]
        + (if latestOutput.Some? && !surfaceDispatched then [ReleaseTexture(latestOutput.value.surfaceTexture)] else [])
    {
      Emit(ReleaseCheckedSurfaceTexture);
      RemoveViewFinderOutputListener();
      Emit(NotifyInactive);
      if latestOutput.Some? && !surfaceDispatched {
        Emit(ReleaseTexture(latestOutput.value.surfaceTexture));
      }
    }
  }
}
