/** The playback state machine of `VideoPlayer`, the widget wrapping the
    platform's media decoder. The decoder itself is opaque: the model keeps
    the calls made on it, in order, and takes what it reports (video size,
    whether a source was accepted, whether it is playing) as an
    `Observation` supplied with each event that consults it. */
module Player {
  import opened Java
  import opened Layout

  const RESIZE_MODE_STRETCH: int := 0
  const RESIZE_MODE_CONTAIN: int := 1
  const RESIZE_MODE_COVER: int := 2

  /** What the platform reports while the player handles one event. */
  datatype Observation = Observation(
    videoWidth: int,
    videoHeight: int,
    // `setDataSource` returned instead of throwing an IOException
    sourceAccepted: bool,
    // the decoder reports playing and the control bar is visible, so
    // starting playback schedules the auto-hide timer
    autoHideArmed: bool)
  {
    /** `isInvalidVideo`: the decoder reports a zero dimension. */
    predicate InvalidVideo() {
      videoWidth == 0 || videoHeight == 0
    }
  }

  /** A call made on the decoder (`new MediaPlayer()` and its methods). */
  datatype MediaCall =
    | Create
    | Reset
    | SetDataSource(path: string)
    | PrepareAsync
    | Prepare
    | Start
    | Pause
    | Stop
    | SeekTo(msec: int)
    | Release

  /** The calls `prepareNewVideo` makes on an existing decoder. */
  function PrepareCalls(source: string, obs: Observation): seq<MediaCall>
  {
    [Reset, SetDataSource(source)] + if obs.sourceAccepted then [PrepareAsync] else []
  }

  /** The parent size a `LayoutSurfaceTask` was created with. */
  datatype Size = Size(width: int, height: int)

  /** How `onLayout` treats a child: `ImageView` and `ProgressBar` are
      centred, the `SurfaceView` is laid out by `layoutSurface`, anything
      else is the control bar. */
  datatype ChildKind = CenteredChild | SurfaceChild | BarChild

  datatype Child = Child(kind: ChildKind, measuredWidth: int, measuredHeight: int)

  /** Where `onLayout` puts `child` in a `width` x `height` player; `None`
      when the child is not laid out. */
  ghost predicate Placed(width: int, height: int, child: Child, frame: Option<Frame>) {
    match child.kind
    case CenteredChild => frame == Some(CenteredFrame(width, height, child.measuredWidth))
    case BarChild => frame == Some(BottomFrame(width, height, child.measuredHeight))
    case SurfaceChild => frame == None || frame == Some(Frame(0, 0, width, height))
  }

  class VideoPlayer {
    var resizeMode: int
    var isAutoPlay: bool
    var dataSource: string
    var canPlay: bool
    var isPlaying: bool
    var isNewVideo: bool
    var isPlayFinished: bool
    var canHideControlBar: bool
    var alreadyInitPlayer: bool
    var startListenProgress: bool
    /** `mPlayer != null` */
    var hasDecoder: bool
    /** `mLayoutSurfaceTask`, once created */
    var layoutTask: Option<Size>
    /** Every call made on a decoder, oldest first. */
    var decoderCalls: seq<MediaCall>

    /** The states the player can reach from its constructor. */
    ghost predicate Valid()
      reads this
    {
      (hasDecoder ==> alreadyInitPlayer)
      && (isPlaying ==> alreadyInitPlayer && !isPlayFinished)
      && (isPlayFinished ==> alreadyInitPlayer)
      // the progress task polls the decoder only while one exists
      && (startListenProgress ==> hasDecoder)
      && (!alreadyInitPlayer ==> decoderCalls == [])
    }

    /** What no event undoes: `mCanPlay` never comes back once false,
        autoplay and initialisation are never turned off, and calls made on
        the decoder stay made. */
    twostate predicate Monotone()
      reads this
    {
      (canPlay ==> old(canPlay))
      && (old(isAutoPlay) ==> isAutoPlay)
      && (old(alreadyInitPlayer) ==> alreadyInitPlayer)
      && old(decoderCalls) <= decoderCalls
    }

    constructor ()
      ensures Valid()
      ensures resizeMode == RESIZE_MODE_STRETCH && !isAutoPlay && dataSource == ""
      ensures canPlay && !isPlaying && !isNewVideo && !isPlayFinished && canHideControlBar
      ensures !alreadyInitPlayer && !startListenProgress && !hasDecoder
      ensures layoutTask == None && decoderCalls == []
    {
      resizeMode, isAutoPlay, dataSource := RESIZE_MODE_STRETCH, false, "";
      canPlay, isPlaying, isNewVideo, isPlayFinished := true, false, false, false;
      canHideControlBar, alreadyInitPlayer, startListenProgress := true, false, false;
      hasDecoder, layoutTask, decoderCalls := false, None, [];
    }

    /** `setResizeMode`: a new mode is stored; the pending surface layout task
        runs again (`relayout`) when the decoder holds a valid video. */
    method SetResizeMode(mode: int, obs: Observation) returns (o: Outcome, relayout: bool)
      requires Valid()
      modifies this`resizeMode
      ensures Valid() && Monotone() && resizeMode == mode
      ensures mode == old(resizeMode) ==> o == Returned && !relayout
      ensures o == NullPointerException <==> mode != old(resizeMode) && alreadyInitPlayer && !hasDecoder
      ensures o == Returned || o == NullPointerException
      ensures relayout <==> mode != old(resizeMode) && hasDecoder && !obs.InvalidVideo() && layoutTask.Some?
    {
      o, relayout := Returned, false;
      if resizeMode == mode {
        return;
      }
      resizeMode := mode;
      if alreadyInitPlayer {
        if !hasDecoder {
          o := NullPointerException;
          return;
        }
        relayout := !obs.InvalidVideo() && layoutTask.Some?;
      }
    }

    /** `enableAuto` */
    method EnableAuto()
      requires Valid()
      modifies this`isAutoPlay
      ensures Valid() && Monotone() && isAutoPlay
    {
      isAutoPlay := true;
    }

    /** `setUrl`: the source becomes `uri`, and the video counts as new exactly
        when `uri` differs from the previous source. A null `uri` throws from
        `uri.equals` before anything changes. */
    method SetUrl(uri: Option<string>) returns (o: Outcome)
      requires Valid()
      modifies this`isNewVideo, this`dataSource
      ensures Valid() && Monotone()
      ensures uri.None? ==> o == NullPointerException && unchanged(this)
      ensures uri.Some? ==> o == Returned && dataSource == uri.value
                            && (isNewVideo <==> uri.value != old(dataSource))
    {
      if uri.None? {
        return NullPointerException;
      }
      isNewVideo := uri.value != dataSource;
      dataSource := uri.value;
      o := Returned;
    }

    /** `startListenProgress`: posts the polling task only if it is not already running. */
    method StartListenProgress() returns (posted: bool)
      requires Valid() && hasDecoder
      modifies this`startListenProgress
      ensures Valid() && Monotone() && startListenProgress
      ensures posted <==> !old(startListenProgress)
    {
      posted := !startListenProgress;
      if !startListenProgress {
        startListenProgress := true;
      }
    }

    /** `stopListenProgress`: removes the polling task only if it is running. */
    method StopListenProgress() returns (removed: bool)
      requires Valid()
      modifies this`startListenProgress
      ensures Valid() && Monotone() && !startListenProgress
      ensures removed <==> old(startListenProgress)
    {
      removed := startListenProgress;
      if startListenProgress {
        startListenProgress := false;
      }
    }

    /** `play`: starts the decoder, polling and the auto-hide timer. */
    method Play(obs: Observation) returns (o: Outcome)
      requires Valid()
      modifies this`isPlaying, this`isNewVideo, this`isPlayFinished, this`canHideControlBar,
               this`startListenProgress, this`decoderCalls
      ensures Valid() && Monotone()
      ensures !hasDecoder ==> o == NullPointerException && unchanged(this)
      ensures hasDecoder ==> o == Returned && isPlaying && !isNewVideo && !isPlayFinished
                             && startListenProgress && decoderCalls == old(decoderCalls) + [Start]
                             && (canHideControlBar <==> old(canHideControlBar) || obs.autoHideArmed)
    {
      if !hasDecoder {
        return NullPointerException;
      }
      decoderCalls := decoderCalls + [Start];
      var _ := StartListenProgress();
      isPlaying, isNewVideo, isPlayFinished := true, false, false;
      if obs.autoHideArmed {
        canHideControlBar := true;
      }
      o := Returned;
    }

    /** `pause`: the control bar may no longer auto-hide; then the decoder and polling stop. */
    method Pause() returns (o: Outcome)
      requires Valid()
      modifies this`canHideControlBar, this`startListenProgress, this`isPlaying, this`decoderCalls
      ensures Valid() && Monotone() && !canHideControlBar
      ensures !hasDecoder ==> o == NullPointerException && isPlaying == old(isPlaying)
                              && startListenProgress == old(startListenProgress)
                              && decoderCalls == old(decoderCalls)
      ensures hasDecoder ==> o == Returned && !isPlaying && !startListenProgress
                             && decoderCalls == old(decoderCalls) + [MediaCall.Pause]
    {
      canHideControlBar := false;
      if !hasDecoder {
        return NullPointerException;
      }
      decoderCalls := decoderCalls + [MediaCall.Pause];
      var _ := StopListenProgress();
      isPlaying := false;
      o := Returned;
    }

    /** `resetPlayer`: polling stops, the decoder stops, playback is finished. */
    method ResetPlayer() returns (o: Outcome)
      requires Valid()
      modifies this`startListenProgress, this`isPlayFinished, this`isPlaying, this`decoderCalls
      ensures Valid() && Monotone() && !startListenProgress
      ensures !hasDecoder ==> o == NullPointerException && isPlaying == old(isPlaying)
                              && isPlayFinished == old(isPlayFinished)
                              && decoderCalls == old(decoderCalls)
      ensures hasDecoder ==> o == Returned && !isPlaying && isPlayFinished
                             && decoderCalls == old(decoderCalls) + [MediaCall.Stop]
    {
      var _ := StopListenProgress();
      if !hasDecoder {
        return NullPointerException;
      }
      decoderCalls := decoderCalls + [MediaCall.Stop];
      isPlayFinished, isPlaying := true, false;
      o := Returned;
    }

    /** `stop`: resets the player if it is playing, and does nothing otherwise. */
    method Stop() returns (o: Outcome)
      requires Valid()
      modifies this`startListenProgress, this`isPlayFinished, this`isPlaying, this`decoderCalls
      ensures Valid() && Monotone()
      ensures !old(isPlaying) ==> o == Returned && unchanged(this)
      ensures old(isPlaying) ==> !startListenProgress && (o == Returned <==> hasDecoder)
      ensures old(isPlaying) && hasDecoder ==> !isPlaying && isPlayFinished
                                               && decoderCalls == old(decoderCalls) + [MediaCall.Stop]
      ensures old(isPlaying) && !hasDecoder ==> o == NullPointerException && isPlaying
                                                && decoderCalls == old(decoderCalls)
    {
      o := Returned;
      if isPlaying {
        o := ResetPlayer();
      }
    }

    /** `recycle`: polling stops and the decoder is reset and released. The
        playback flags are left as they were. */
    method Recycle()
      requires Valid()
      modifies this`startListenProgress, this`hasDecoder, this`decoderCalls
      ensures Valid() && Monotone() && !startListenProgress && !hasDecoder
      ensures decoderCalls == old(decoderCalls) + if old(hasDecoder) then [Reset, Release] else []
    {
      var _ := StopListenProgress();
      if hasDecoder {
        decoderCalls := decoderCalls + [Reset, Release];
        hasDecoder := false;
      }
    }

    /** `onDetachedFromWindow` */
    method OnDetachedFromWindow()
      requires Valid()
      modifies this`startListenProgress, this`hasDecoder, this`decoderCalls
      ensures Valid() && Monotone() && !startListenProgress && !hasDecoder
      ensures decoderCalls == old(decoderCalls) + if old(hasDecoder) then [Reset, Release] else []
    {
      Recycle();
    }

    /** `prepareNewVideo`: nothing before the surface exists; otherwise the
        decoder is reset, given the source and asked to prepare asynchronously
        (unless it rejected the source). */
    method PrepareNewVideo(obs: Observation) returns (o: Outcome)
      requires Valid()
      modifies this`decoderCalls
      ensures Valid() && Monotone()
      ensures !alreadyInitPlayer ==> o == Returned && decoderCalls == old(decoderCalls)
      ensures alreadyInitPlayer && !hasDecoder ==> o == NullPointerException
                                                   && decoderCalls == old(decoderCalls)
      ensures hasDecoder ==> o == Returned
                             && decoderCalls == old(decoderCalls) + PrepareCalls(dataSource, obs)
    {
      if !alreadyInitPlayer {
        return Returned;
      }
      if !hasDecoder {
        return NullPointerException;
      }
      decoderCalls := decoderCalls + PrepareCalls(dataSource, obs);
      o := Returned;
    }

    /** `prepareOldVideo`: the finished decoder is prepared again, synchronously. */
    method PrepareOldVideo() returns (o: Outcome)
      requires Valid()
      modifies this`decoderCalls
      ensures Valid() && Monotone()
      ensures !hasDecoder ==> o == NullPointerException && decoderCalls == old(decoderCalls)
      ensures hasDecoder ==> o == Returned && decoderCalls == old(decoderCalls) + [Prepare]
    {
      if !hasDecoder {
        return NullPointerException;
      }
      decoderCalls := decoderCalls + [Prepare];
      o := Returned;
    }

    /** `surfaceCreated`: a fresh decoder; with autoplay enabled the source is
        prepared and playback starts at once. */
    method SurfaceCreated(obs: Observation) returns (o: Outcome)
      requires Valid()
      modifies this`hasDecoder, this`alreadyInitPlayer, this`decoderCalls, this`isPlaying,
               this`isNewVideo, this`isPlayFinished, this`canHideControlBar, this`startListenProgress
      ensures Valid() && Monotone()
      ensures o == Returned && hasDecoder && alreadyInitPlayer
      ensures !isAutoPlay ==> decoderCalls == old(decoderCalls) + [Create]
                              && isPlaying == old(isPlaying) && isNewVideo == old(isNewVideo)
                              && isPlayFinished == old(isPlayFinished)
                              && canHideControlBar == old(canHideControlBar)
                              && startListenProgress == old(startListenProgress)
      ensures isAutoPlay ==> decoderCalls == old(decoderCalls) + [Create] + PrepareCalls(dataSource, obs) + [Start]
                             && isPlaying && !isNewVideo && !isPlayFinished && startListenProgress
                             && (canHideControlBar <==> old(canHideControlBar) || obs.autoHideArmed)
    {
      decoderCalls := decoderCalls + [Create];
      hasDecoder := true;
      alreadyInitPlayer := true;
      o := Returned;
      if isAutoPlay {
        o := PrepareNewVideo(obs);
        o := Play(obs);
      }
    }

    /** `onCompletion`, delivered by the live decoder at the end of the video. */
    method OnCompletion()
      requires Valid() && hasDecoder
      modifies this`startListenProgress, this`isPlayFinished, this`isPlaying, this`decoderCalls
      ensures Valid() && Monotone()
      ensures !isPlaying && isPlayFinished && !startListenProgress
      ensures decoderCalls == old(decoderCalls) + [MediaCall.Stop]
    {
      var _ := ResetPlayer();
    }

    /** `onPrepared`, delivered by the live decoder. Only a new video is acted
        upon: an empty picture disables playing for good, anything else starts
        playback. */
    method OnPrepared(obs: Observation) returns (relayout: bool)
      requires Valid() && hasDecoder
      modifies this`canPlay, this`isPlaying, this`isNewVideo, this`isPlayFinished,
               this`canHideControlBar, this`startListenProgress, this`decoderCalls
      ensures Valid() && Monotone()
      ensures !old(isNewVideo) ==> !relayout && unchanged(this)
      ensures old(isNewVideo) && obs.InvalidVideo() ==>
                !relayout && !canPlay && isNewVideo && isPlaying == old(isPlaying)
                && isPlayFinished == old(isPlayFinished)
                && canHideControlBar == old(canHideControlBar)
                && startListenProgress == old(startListenProgress)
                && decoderCalls == old(decoderCalls)
      ensures old(isNewVideo) && !obs.InvalidVideo() ==>
                (relayout <==> layoutTask.Some?) && canPlay == old(canPlay)
                && isPlaying && !isNewVideo && !isPlayFinished && startListenProgress
                && (canHideControlBar <==> old(canHideControlBar) || obs.autoHideArmed)
                && decoderCalls == old(decoderCalls) + [Start]
    {
      relayout := false;
      if isNewVideo {
        if obs.InvalidVideo() {
          canPlay := false;
          return;
        }
        relayout := layoutTask.Some?;
        var _ := Play(obs);
      }
    }

    /** `onError`: playing is disabled for good; the error counts as handled. */
    method OnError() returns (handled: bool)
      requires Valid()
      modifies this`canPlay
      ensures Valid() && Monotone() && !canPlay && handled
    {
      canPlay := false;
      handled := true;
    }

    /** `pressPlay`, the play button and the control bar's play/pause button. */
    method PressPlay(obs: Observation) returns (o: Outcome)
      requires Valid()
      modifies this`canHideControlBar, this`startListenProgress, this`isPlaying, this`isNewVideo,
               this`isPlayFinished, this`decoderCalls
      ensures Valid() && Monotone()
      ensures o == Returned || o == NullPointerException
      // nothing to play
      ensures |dataSource| == 0 || !canPlay ==> o == Returned && unchanged(this)
      // playing: pause
      ensures |dataSource| > 0 && canPlay && old(isPlaying) ==>
                !canHideControlBar && (o == Returned <==> hasDecoder)
                && isNewVideo == old(isNewVideo) && isPlayFinished == old(isPlayFinished)
                && (hasDecoder ==> !isPlaying && !startListenProgress
                                   && decoderCalls == old(decoderCalls) + [MediaCall.Pause])
                && (!hasDecoder ==> isPlaying && startListenProgress == old(startListenProgress)
                                    && decoderCalls == old(decoderCalls))
      // a new video: only prepare it, playback starts from onPrepared
      ensures |dataSource| > 0 && canPlay && !old(isPlaying) && old(isNewVideo) ==>
                !isPlaying && isNewVideo && isPlayFinished == old(isPlayFinished)
                && canHideControlBar == old(canHideControlBar)
                && startListenProgress == old(startListenProgress)
                && (o == NullPointerException <==> alreadyInitPlayer && !hasDecoder)
                && decoderCalls == old(decoderCalls) + if hasDecoder then PrepareCalls(dataSource, obs) else []
      // otherwise: play, preparing a finished video again first
      ensures |dataSource| > 0 && canPlay && !old(isPlaying) && !old(isNewVideo) ==>
                (o == Returned <==> hasDecoder)
                && (!hasDecoder ==> unchanged(this))
                && (hasDecoder ==> isPlaying && !isNewVideo && !isPlayFinished && startListenProgress
                                   && (canHideControlBar <==> old(canHideControlBar) || obs.autoHideArmed)
                                   && decoderCalls == old(decoderCalls)
                                        + (if old(isPlayFinished) then [Prepare] else []) + [Start])
    {
      if |dataSource| == 0 || !canPlay {
        return Returned;
      }
      if isPlaying {
        o := Pause();
      } else if isNewVideo {
        o := PrepareNewVideo(obs);
      } else {
        if isPlayFinished {
          o := PrepareOldVideo();
          if o != Returned {
            return;
          }
        }
        o := Play(obs);
      }
    }

    /** The seek bar's touch listener: a press while playing stops polling;
        the touch is consumed (so the bar cannot be dragged) unless playing. */
    method OnSeekBarTouch(actionDown: bool) returns (consumed: bool)
      requires Valid()
      modifies this`startListenProgress
      ensures Valid() && Monotone() && (consumed <==> !isPlaying)
      ensures actionDown && isPlaying ==> !startListenProgress
      ensures !(actionDown && isPlaying) ==> startListenProgress == old(startListenProgress)
    {
      if actionDown && isPlaying {
        var _ := StopListenProgress();
      }
      consumed := !isPlaying;
    }

    /** `onProgressChanged`: a change made by the user keeps the control bar shown. */
    method OnProgressChanged(fromUser: bool)
      requires Valid()
      modifies this`canHideControlBar
      ensures Valid() && Monotone() && (canHideControlBar <==> old(canHideControlBar) && !fromUser)
    {
      if fromUser {
        canHideControlBar := false;
      }
    }

    /** `onStopTrackingTouch`: seek the decoder, then resume polling. */
    method OnStopTrackingTouch(progress: int) returns (o: Outcome)
      requires Valid()
      modifies this`decoderCalls, this`startListenProgress
      ensures Valid() && Monotone()
      ensures !hasDecoder ==> o == NullPointerException && unchanged(this)
      ensures hasDecoder ==> o == Returned && startListenProgress
                             && decoderCalls == old(decoderCalls) + [SeekTo(progress)]
    {
      if !hasDecoder {
        return NullPointerException;
      }
      decoderCalls := decoderCalls + [SeekTo(progress)];
      var _ := StartListenProgress();
      o := Returned;
    }

    /** `layoutSurface`: in stretch mode the surface fills the parent. In
        contain and cover mode it fills the parent only the first time it is
        laid out before a valid video is known, which also creates the layout
        task that later fits it to the video; other modes leave it alone. */
    method LayoutSurface(parentW: int, parentH: int, obs: Observation) returns (o: Outcome, frame: Option<Frame>)
      requires Valid()
      modifies this`layoutTask
      ensures Valid() && Monotone()
      ensures o == Returned || o == NullPointerException
      ensures resizeMode == RESIZE_MODE_STRETCH ==>
                o == Returned && frame == Some(Frame(0, 0, parentW, parentH)) && layoutTask == old(layoutTask)
      ensures resizeMode != RESIZE_MODE_STRETCH && resizeMode != RESIZE_MODE_CONTAIN
              && resizeMode != RESIZE_MODE_COVER ==>
                o == Returned && frame == None && layoutTask == old(layoutTask)
      ensures resizeMode == RESIZE_MODE_CONTAIN || resizeMode == RESIZE_MODE_COVER ==>
                (o == NullPointerException <==> alreadyInitPlayer && !hasDecoder)
                && var first := (!alreadyInitPlayer || (hasDecoder && obs.InvalidVideo()))
                                && old(layoutTask).None?;
                   (first ==> frame == Some(Frame(0, 0, parentW, parentH))
                              && layoutTask == Some(Size(parentW, parentH)))
                   && (!first ==> frame == None && layoutTask == old(layoutTask))
    {
      o, frame := Returned, None;
      if resizeMode == RESIZE_MODE_CONTAIN || resizeMode == RESIZE_MODE_COVER {
        if alreadyInitPlayer && !hasDecoder {
          o := NullPointerException;
          return;
        }
        if !alreadyInitPlayer || obs.InvalidVideo() {
          if layoutTask.None? {
            frame := Some(Frame(0, 0, parentW, parentH));
            layoutTask := Some(Size(parentW, parentH));
          }
        }
      } else if resizeMode == RESIZE_MODE_STRETCH {
        frame := Some(Frame(0, 0, parentW, parentH));
      }
    }

    /** `layoutSurface` reaches `isInvalidVideo` on a released decoder. */
    predicate SurfaceLayoutThrows()
      reads this
    {
      (resizeMode == RESIZE_MODE_CONTAIN || resizeMode == RESIZE_MODE_COVER)
      && alreadyInitPlayer && !hasDecoder
    }

    /** `onLayout`: every child in turn gets its frame (`frames[i]` for
        `children[i]`); a throw from `layoutSurface` ends the loop. */
    method OnLayout(width: int, height: int, children: seq<Child>, obs: Observation)
      returns (o: Outcome, frames: seq<Option<Frame>>)
      requires Valid()
      modifies this`layoutTask
      ensures Valid() && Monotone()
      ensures o == Returned ==> |frames| == |children|
      ensures o == Returned || o == NullPointerException
      // only a surface child in contain or cover mode, after the decoder was
      // released, makes `layoutSurface` throw
      ensures o == NullPointerException <==>
                SurfaceLayoutThrows() && exists i :: 0 <= i < |children| && children[i].kind == SurfaceChild
      ensures o == NullPointerException ==>
                |frames| < |children| && children[|frames|].kind == SurfaceChild
                && forall k :: 0 <= k < |frames| ==> children[k].kind != SurfaceChild
      ensures forall i :: 0 <= i < |frames| ==> Placed(width, height, children[i], frames[i])
      ensures resizeMode == RESIZE_MODE_STRETCH ==>
                forall i :: 0 <= i < |frames| && children[i].kind == SurfaceChild ==>
                  frames[i] == Some(Frame(0, 0, width, height))
      ensures layoutTask == old(layoutTask)
              || (old(layoutTask).None? && layoutTask == Some(Size(width, height)))
    {
      o, frames := Returned, [];
      var i := 0;
      while i < |children|
        invariant 0 <= i <= |children| && |frames| == i
        invariant o == Returned && Valid() && Monotone()
        invariant SurfaceLayoutThrows() ==> forall k :: 0 <= k < i ==> children[k].kind != SurfaceChild
        invariant forall k :: 0 <= k < i ==> Placed(width, height, children[k], frames[k])
        invariant resizeMode == RESIZE_MODE_STRETCH ==>
                    forall k :: 0 <= k < i && children[k].kind == SurfaceChild ==>
                      frames[k] == Some(Frame(0, 0, width, height))
        invariant layoutTask == old(layoutTask)
                  || (old(layoutTask).None? && layoutTask == Some(Size(width, height)))
      {
        var child := children[i];
        var frame: Option<Frame>;
        match child.kind {
          case CenteredChild =>
            frame := Some(CenteredFrame(width, height, child.measuredWidth));
          case SurfaceChild =>
            o, frame := LayoutSurface(width, height, obs);
            if o != Returned {
              return;
            }
          case BarChild =>
            frame := Some(BottomFrame(width, height, child.measuredHeight));
        }
        frames := frames + [frame];
        i := i + 1;
      }
    }
  }
}
