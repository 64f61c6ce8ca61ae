# React Native video player: a Dafny model of the Android widget

This project models the Android side of a React Native video player component. Two Java classes are covered:

- `VideoPlayer`, a `ViewGroup` that wraps the platform `MediaPlayer`.
- `VideoPlayerModule.RCTVideoPlayerManager`, the bridge adapter that turns JavaScript properties and commands into calls on a `VideoPlayer`.

The project has six modules:

- **`Java`**: the Java semantics the code depends on.
  - `int` as `Int32`.
  - Truncating `/` and `%` as `Div` and `Rem`.
  - A thrown exception as an `Outcome`.
  - Nullable results as `Option`.
- **`TimeText`**: `getTimeText`, which renders a position in milliseconds as "mm:ss".
  - The model builds it from Java's int-to-string conversion.
  - A parser reads the texts back.
  - Round trips are proved in both directions: a position's text parses back to its whole second, and every well-formed text is produced by the start of the second it names.
- **`ViewIds`**: `generateId`, a static counter that starts at 10000 and wraps from 0x00FFFFFF back to 1.
  - A closed form proves that fewer than 0x00FFFFFF consecutive ids are pairwise distinct.
  - The two static view ids are proved to be 10000 and 10001.
- **`Layout`**: the integer arithmetic of `onLayout`.
  - Square children are centred with truncating halves.
  - The control bar sits on the bottom edge.
- **`Player`**: the `VideoPlayer` class and its playback flags.
  - The state is `mCanPlay`, `mIsPlaying`, `mIsNewVideo`, `mIsPlayFinished`, `mAlreadyInitPlayer`, `mStartListenProgress`, `mCanHideControlBar`, the resize mode, the data source and whether `mPlayer` is null.
  - Each event handler is a method whose postcondition gives the whole new state.
  - The decoder is opaque. The model records the calls made on it, in order, in `decoderCalls`.
  - What the decoder reports comes in with each event as an `Observation`: the video size, whether `setDataSource` accepted the source, and whether starting playback arms the auto-hide timer.
  - Every method preserves `Valid()`, the invariant of the reachable states. For example, the progress poller runs only while a decoder exists, and a playing video is never also finished.
  - Every event also keeps `Monotone()`: `mCanPlay` never comes back, autoplay and initialisation are never undone, and the call log only grows.
- **`VideoPlayerModule`**: the bridge.
  - The `resizeMode` names and the command ids decode to player modes and commands. Both decodings are proved to be inverted by their naming functions.
  - `receiveCommand` throws `IllegalArgumentException` for an unknown id, with the exact message.

Some behaviours of the source that the contracts make explicit:

- `recycle` (the `recycle` command, or detaching from the window) releases the decoder but leaves `mIsPlaying` and `mAlreadyInitPlayer` as they were.
  - A later `stop` command on a playing player throws `NullPointerException` from `mPlayer.stop()`, after polling has stopped.
  - `pressPlay` throws the same way.
- Setting the same `uri` twice before the surface exists clears `mIsNewVideo`.
  - `pressPlay` then goes to `play()` and throws on the null decoder.
- With autoplay, `surfaceCreated` prepares and starts at once, and `play()` clears `mIsNewVideo`. The later `onPrepared` callback then does nothing: no layout task run, no `initProgress`.
- `onPrepared` starts playback even after `onError` has cleared `mCanPlay`, since it tests only `mIsNewVideo`.
- `setResizeMode` with a new mode after `recycle` throws `NullPointerException` from `isInvalidVideo`, after the new mode has been stored.
- `getTimeText` of a position at or below -1000 ms shows a minus sign in one of its fields. It is then no longer a well-formed "mm:ss" text. The value -1 that the decoder reports for an unknown duration still shows as "00:00".

## Model

Paths are relative to the repository root. `VideoPlayer.java` is `android/app/src/main/java/com/reactnativevideoplayer/view/VideoPlayer.java`, and `VideoPlayerModule.java` is in `.../rctmodule/`.

| member | source | states |
|---|---|---|
| TimeText.Digits | android/app/src/main/java/com/reactnativevideoplayer/view/VideoPlayer.java:678 | the decimal form of a non-negative int: only digits, at least one, a single digit exactly below 10, no leading zero |
| TimeText.DecimalString | android/app/src/main/java/com/reactnativevideoplayer/view/VideoPlayer.java:678-682 | Java's `int + ""`: only digits for a non-negative value; a '-' followed by at least one more character for a negative one |
| TimeText.DecimalStringValue | android/app/src/main/java/com/reactnativevideoplayer/view/VideoPlayer.java:678-682 | the rendering reads back: a non-negative value's digits parse as the value; after a negative value's '-' come only digits, parsing as its magnitude |
| TimeText.TimeTextFields | android/app/src/main/java/com/reactnativevideoplayer/view/VideoPlayer.java:676-687 | for a non-negative position, Java's truncating division coincides with Euclidean division: the text is the padded decimal minutes, ':', and the padded decimal seconds of ms/1000 |
| TimeText.FormatFieldsRoundTrip | android/app/src/main/java/com/reactnativevideoplayer/view/VideoPlayer.java:678-686 | padded minutes and seconds (below 60) form a well-formed time text whose fields read back as those numbers |
| TimeText.FormatFieldsOfParse | android/app/src/main/java/com/reactnativevideoplayer/view/VideoPlayer.java:678-686 | the converse: every well-formed time text is the padded rendering of the numbers its fields read as |
| TimeText.TimeTextRoundTrip | android/app/src/main/java/com/reactnativevideoplayer/view/VideoPlayer.java:676-687 | for every non-negative position, the text is well formed and reads back as the whole second ms/1000 |
| TimeText.TimeTextFromParse | android/app/src/main/java/com/reactnativevideoplayer/view/VideoPlayer.java:676-687 | every well-formed time text whose second fits in an int is produced from the start of that second |
| TimeText.TimeTextSameSecond | android/app/src/main/java/com/reactnativevideoplayer/view/VideoPlayer.java:676-687 | two non-negative positions show the same text if and only if they fall in the same second |
| TimeText.TimeTextNearZero | android/app/src/main/java/com/reactnativevideoplayer/view/VideoPlayer.java:676-687 | every position strictly between -1000 and 1000 ms, including the unknown duration -1, shows "00:00" |
| TimeText.NegativeTimeTextMalformed | android/app/src/main/java/com/reactnativevideoplayer/view/VideoPlayer.java:676-687 | a position at or below -1000 ms never yields a well-formed time text: truncation carries the sign into a field |
| ViewIds.NextId | android/app/src/main/java/com/reactnativevideoplayer/view/VideoPlayer.java:692-693 | the next counter value is the successor, or 1 past 0x00FFFFFF; it stays in 1..0x00FFFFFF |
| ViewIds.IdGenerator.constructor | android/app/src/main/java/com/reactnativevideoplayer/view/VideoPlayer.java:40 | the counter starts at 10000 |
| ViewIds.IdGenerator.GenerateId | android/app/src/main/java/com/reactnativevideoplayer/view/VideoPlayer.java:689-698 | returns the current value and advances the counter by NextId, keeping it in range |
| ViewIds.IdAfterClosedForm | android/app/src/main/java/com/reactnativevideoplayer/view/VideoPlayer.java:689-698 | the k-th id from a start value is the start rotated by k in the cycle 1..0x00FFFFFF |
| ViewIds.IdsDistinct | android/app/src/main/java/com/reactnativevideoplayer/view/VideoPlayer.java:689-698 | fewer than 0x00FFFFFF consecutive calls never return the same id twice |
| ViewIds.StaticViewIds | android/app/src/main/java/com/reactnativevideoplayer/view/VideoPlayer.java:40-43 | SF_VIEW_ID is 10000 and PLAY_BTN_ID is 10001, so the click handler can tell them apart |
| Layout.BottomFrameCovers | android/app/src/main/java/com/reactnativevideoplayer/view/VideoPlayer.java:309 | a control bar no taller than the player covers a pixel of the player if and only if the pixel is in the bottom `childHeight` rows, so it spans the full width and leaves the band above it free |
| Layout.CenteredSpan | android/app/src/main/java/com/reactnativevideoplayer/view/VideoPlayer.java:304-305 | along one axis, a child that fits keeps its size and its margins differ by at most one pixel, the extra pixel after it; a larger child overhangs both sides equally |
| Layout.CenteredFrameCentres | android/app/src/main/java/com/reactnativevideoplayer/view/VideoPlayer.java:302-305 | the play button and the spinner are centred on both axes in that sense |
| Player.VideoPlayer.constructor | android/app/src/main/java/com/reactnativevideoplayer/view/VideoPlayer.java:59-69 | the initial field values; no decoder, empty source, stretch mode |
| Player.VideoPlayer.SetResizeMode | android/app/src/main/java/com/reactnativevideoplayer/view/VideoPlayer.java:375-383 | the mode is stored; an unchanged mode does nothing; the layout task reruns if and only if the mode changed, a decoder holds a valid video and a task exists; a released decoder throws after the store |
| Player.VideoPlayer.EnableAuto | android/app/src/main/java/com/reactnativevideoplayer/view/VideoPlayer.java:388-390 | autoplay becomes enabled |
| Player.VideoPlayer.SetUrl | android/app/src/main/java/com/reactnativevideoplayer/view/VideoPlayer.java:397-404 | the source becomes uri; the video is new if and only if uri differs from the old source; a null uri throws and changes nothing |
| Player.VideoPlayer.StartListenProgress | android/app/src/main/java/com/reactnativevideoplayer/view/VideoPlayer.java:414-419 | polling is on afterwards; the task is posted if and only if it was not running |
| Player.VideoPlayer.StopListenProgress | android/app/src/main/java/com/reactnativevideoplayer/view/VideoPlayer.java:421-426 | polling is off afterwards; the task is removed if and only if it was running |
| Player.VideoPlayer.Play | android/app/src/main/java/com/reactnativevideoplayer/view/VideoPlayer.java:543-550 | with a decoder: Start is called, playing, not new, not finished, polling on, auto-hide armed as observed; without one: throws and changes nothing |
| Player.VideoPlayer.Pause | android/app/src/main/java/com/reactnativevideoplayer/view/VideoPlayer.java:585-590 | the bar can no longer auto-hide; with a decoder Pause is called, playing and polling stop; without one it throws after the first step |
| Player.VideoPlayer.ResetPlayer | android/app/src/main/java/com/reactnativevideoplayer/view/VideoPlayer.java:496-502 | polling stops; with a decoder Stop is called and playback is finished; without one it throws after stopping polling |
| Player.VideoPlayer.Stop | android/app/src/main/java/com/reactnativevideoplayer/view/VideoPlayer.java:445-449 | a player that is not playing is untouched; a playing one is reset as above |
| Player.VideoPlayer.Recycle | android/app/src/main/java/com/reactnativevideoplayer/view/VideoPlayer.java:454-471 | polling stops, a live decoder gets Reset then Release and is dropped; the playback flags are kept |
| Player.VideoPlayer.OnDetachedFromWindow | android/app/src/main/java/com/reactnativevideoplayer/view/VideoPlayer.java:437-440 | the same as recycle |
| Player.VideoPlayer.PrepareNewVideo | android/app/src/main/java/com/reactnativevideoplayer/view/VideoPlayer.java:623-635 | nothing before the surface exists; otherwise Reset, SetDataSource(source) and, unless the source was rejected, PrepareAsync |
| Player.VideoPlayer.PrepareOldVideo | android/app/src/main/java/com/reactnativevideoplayer/view/VideoPlayer.java:654-661 | the decoder is prepared again synchronously |
| Player.VideoPlayer.SurfaceCreated | android/app/src/main/java/com/reactnativevideoplayer/view/VideoPlayer.java:474-481 | a fresh decoder and initialisation; with autoplay the exact prepare-then-start call sequence and the playing state |
| Player.VideoPlayer.OnCompletion | android/app/src/main/java/com/reactnativevideoplayer/view/VideoPlayer.java:492-494 | playback finishes: not playing, finished, polling off, Stop called |
| Player.VideoPlayer.OnPrepared | android/app/src/main/java/com/reactnativevideoplayer/view/VideoPlayer.java:638-652 | ignored unless the video is new; an empty picture clears mCanPlay for good; otherwise the layout task reruns if one exists and playback starts |
| Player.VideoPlayer.OnError | android/app/src/main/java/com/reactnativevideoplayer/view/VideoPlayer.java:670-674 | mCanPlay is cleared and the error is reported handled |
| Player.VideoPlayer.PressPlay | android/app/src/main/java/com/reactnativevideoplayer/view/VideoPlayer.java:598-613 | all four branches: nothing to play, pause (leaving the new and finished flags alone), prepare a new video only, or play (preparing a finished video again first), with the call sequence and the exceptions of each |
| Player.VideoPlayer.OnSeekBarTouch | android/app/src/main/java/com/reactnativevideoplayer/view/VideoPlayer.java:254-264 | a press while playing stops polling; the touch is consumed if and only if not playing |
| Player.VideoPlayer.OnProgressChanged | android/app/src/main/java/com/reactnativevideoplayer/view/VideoPlayer.java:237-242 | a change made by the user keeps the control bar from auto-hiding; other changes leave it |
| Player.VideoPlayer.OnStopTrackingTouch | android/app/src/main/java/com/reactnativevideoplayer/view/VideoPlayer.java:249-252 | the decoder seeks to the bar's position and polling resumes |
| Player.VideoPlayer.LayoutSurface | android/app/src/main/java/com/reactnativevideoplayer/view/VideoPlayer.java:353-364 | stretch fills the parent; contain and cover fill it and create the layout task only the first time before a valid video is known; other modes leave the surface alone |
| Player.VideoPlayer.OnLayout | android/app/src/main/java/com/reactnativevideoplayer/view/VideoPlayer.java:295-312 | every child gets its frame in order (centred, surface or bottom bar); the call throws if and only if the mode is contain or cover, the decoder was released and a surface child exists, and then it stops at the first surface child; the layout task is created at most once |
| VideoPlayerModule.ResizeModeOf | android/app/src/main/java/com/reactnativevideoplayer/rctmodule/VideoPlayerModule.java:71-82 | a mode is selected if and only if the property is one of "cover", "contain", "stretch", and that name maps back to it |
| VideoPlayerModule.ResizeModeNamesRoundTrip | android/app/src/main/java/com/reactnativevideoplayer/rctmodule/VideoPlayerModule.java:75-81 | the three names and the three modes correspond one to one |
| VideoPlayerModule.CommandsMap | android/app/src/main/java/com/reactnativevideoplayer/rctmodule/VideoPlayerModule.java:93-96 | exactly the commands "recycle" and "stop", with distinct ids |
| VideoPlayerModule.CommandOf | android/app/src/main/java/com/reactnativevideoplayer/rctmodule/VideoPlayerModule.java:99-113 | an id is accepted if and only if the commands map contains it, the command accepted has that id, and any other id gets the exact error message |
| VideoPlayerModule.CommandsMapRoundTrip | android/app/src/main/java/com/reactnativevideoplayer/rctmodule/VideoPlayerModule.java:93-113 | dispatching the id the map gives a command's name runs that command |
| VideoPlayerModule.SetUrl | android/app/src/main/java/com/reactnativevideoplayer/rctmodule/VideoPlayerModule.java:65-68 | the uri property reaches the player's setUrl unchanged |
| VideoPlayerModule.SetResizeMode | android/app/src/main/java/com/reactnativevideoplayer/rctmodule/VideoPlayerModule.java:70-82 | a known name sets its mode and passes on the player's outcome: a NullPointerException if and only if the mode changed after the decoder was released, a relayout if and only if the mode changed with a valid video and a layout task; null or an unknown name leaves the player untouched |
| VideoPlayerModule.SetAutoPlay | android/app/src/main/java/com/reactnativevideoplayer/rctmodule/VideoPlayerModule.java:84-89 | autoplay afterwards is the old value or the property, so the property can never turn it off |
| VideoPlayerModule.ReceiveCommand | android/app/src/main/java/com/reactnativevideoplayer/rctmodule/VideoPlayerModule.java:98-113 | id 0 recycles, id 1 stops (including its NullPointerException after recycle), and any other id throws IllegalArgumentException without touching the player |

## Left out

- MediaPlayer internals: the decoder is modelled only by the calls made on it and by what it reports. Its own state machine, and the IllegalStateException it throws on calls in a wrong state, are not modelled.
- `LayoutSurfaceTask.run` fits the surface to the video's aspect ratio in floating point. That is not modelled: each place it would run is reported as a `relayout` result.
- `onMeasure`: it uses measure specs and the decoder's video size, and it sizes the play button and the animator listeners. It only feeds the measured sizes that `onLayout` takes as inputs.
- Timers and animators are not modelled: the three-second auto-hide `Timer`, the control bar animators, and their cancellation in `recycle`. Only the `mCanHideControlBar` flag is kept, and the auto-hide arming is taken from the observation.
- `onClick` dispatches on view ids to show or hide the control bar or to call `pressPlay`. Only the ids it compares are modelled (`ViewIds.StaticViewIds`).
- Toasts, view visibility, button images and text, the seek bar's maximum, progress and secondary progress are not modelled. This covers `initProgress`, `refreshViewIn*`, `onBufferingUpdate` and the loading spinner.
- The progress task's body: it reads the position and reposts itself every second. Only whether it is posted is modelled.
- ViewIds.IdGenerator.GenerateId: the AtomicInteger compare-and-set retry loop is modelled as its first, successful round. Concurrent callers are not modelled.
- The IOException from `prepareOldVideo`'s `prepare()` only skips `initProgress`. It is not distinguished from success.
- Player.VideoPlayer.SurfaceCreated: a second `surfaceCreated` replaces a live decoder without releasing it. The model logs the new `Create` but does not track the leaked decoder.
- Layout.CenteredSpan: sums such as `width + childSize` are taken as unbounded integers, so 32-bit overflow of view sizes is not modelled.
- Player.VideoPlayer.OnLayout: for the surface child it states only "not laid out, or laid out over the full frame". The exact choice is `LayoutSurface`'s contract.
- The JavaScript component, `TestActivity`, and the React package registration (`getName`, `createViewInstance`, the constructor taking a context) are not part of this model.
- `surfaceChanged`, `surfaceDestroyed` and `onStartTrackingTouch` have empty bodies and are not modelled.
