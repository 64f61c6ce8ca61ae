/** `VideoPlayerModule.RCTVideoPlayerManager`: the bridge adapter that turns
    properties and commands sent from JavaScript into calls on a
    `VideoPlayer`. It holds no state of its own: each entry point decodes its
    input into at most one player call, or throws. */
module VideoPlayerModule {
  import opened Java
  import Player
  import TimeText

  const COMMAND_RECYCLE: int := 0
  const COMMAND_STOP: int := 1

  /** The two imperative commands the bridge exposes. */
  datatype Command = RecycleCommand | StopCommand

  /** The `resizeMode` strings the JavaScript component declares. */
  const RESIZE_MODE_NAMES: set<string> := {"cover", "contain", "stretch"}

  /** The player mode a `resizeMode` property selects; `None` when the
      property is null or not one of the known names, in which case the
      player is not called. */
  function ResizeModeOf(resizeMode: Option<string>): (mode: Option<int>)
    ensures mode.Some? <==> resizeMode.Some? && resizeMode.value in RESIZE_MODE_NAMES
    ensures mode.Some? ==> ResizeModeName(mode.value) == resizeMode
  {
    if resizeMode.None? then None
    else if resizeMode.value == "contain" then Some(Player.RESIZE_MODE_CONTAIN)
    else if resizeMode.value == "stretch" then Some(Player.RESIZE_MODE_STRETCH)
    else if resizeMode.value == "cover" then Some(Player.RESIZE_MODE_COVER)
    else None
  }

  /** The JavaScript name of a player mode. */
  function ResizeModeName(mode: int): (name: Option<string>)
    ensures name.Some? ==> name.value in RESIZE_MODE_NAMES
  {
    if mode == Player.RESIZE_MODE_CONTAIN then Some("contain")
    else if mode == Player.RESIZE_MODE_STRETCH then Some("stretch")
    else if mode == Player.RESIZE_MODE_COVER then Some("cover")
    else None
  }

  /** Every player mode has a name, and the name selects that mode again:
      the three names and the three modes are in one-to-one correspondence. */
  lemma ResizeModeNamesRoundTrip(mode: int)
    ensures ResizeModeName(mode).Some?
            <==> mode in {Player.RESIZE_MODE_STRETCH, Player.RESIZE_MODE_CONTAIN, Player.RESIZE_MODE_COVER}
    ensures ResizeModeName(mode).Some? ==> ResizeModeOf(ResizeModeName(mode)) == Some(mode)
  {
  }

  /** `getCommandsMap`: the command names JavaScript may dispatch, with their ids. */
  function CommandsMap(): (commands: map<string, int>)
    ensures commands.Keys == {"recycle", "stop"}
    ensures commands["recycle"] != commands["stop"]
  {
    map["recycle" := COMMAND_RECYCLE, "stop" := COMMAND_STOP]
  }

  function CommandName(command: Command): string
  {
    match command
    case RecycleCommand => "recycle"
    case StopCommand => "stop"
  }

  /** The message of the exception thrown for an unknown command id (Java's
      `%d` with `Locale.US` renders the id as `Integer.toString` does). */
  function UnsupportedCommandMessage(commandId: Int32): string
  {
    "Unsupported command " + TimeText.DecimalString(commandId) + " received by RCTVideoPlayerManager."
  }

  /** The `switch` of `receiveCommand`: a known id selects its command,
      any other id is refused with an `IllegalArgumentException` message. */
  function CommandOf(commandId: Int32): (r: Result<Command, string>)
    ensures r.Success? <==> commandId in CommandsMap().Values
    ensures r.Success? ==> CommandsMap()[CommandName(r.value)] == commandId
    ensures r.Failure? ==> r.error == UnsupportedCommandMessage(commandId)
  {
    assert CommandsMap()["recycle"] == COMMAND_RECYCLE && CommandsMap()["stop"] == COMMAND_STOP;
    if commandId == COMMAND_RECYCLE then Success(RecycleCommand)
    else if commandId == COMMAND_STOP then Success(StopCommand)
    else Failure(UnsupportedCommandMessage(commandId))
  }

  /** Dispatching a command by the id the commands map gives its name runs
      that command: the map and the switch agree. */
  lemma CommandsMapRoundTrip(command: Command)
    ensures CommandName(command) in CommandsMap()
    ensures CommandOf(CommandsMap()[CommandName(command)]) == Success(command)
  {
    match command
    case RecycleCommand =>
      assert CommandsMap()["recycle"] == COMMAND_RECYCLE;
    case StopCommand =>
      assert CommandsMap()["stop"] == COMMAND_STOP;
  }

  /** The `uri` property: handed to `VideoPlayer.setUrl` unchanged. */
  method SetUrl(player: Player.VideoPlayer, uri: Option<string>) returns (o: Outcome)
    requires player.Valid()
    modifies player`isNewVideo, player`dataSource
    ensures player.Valid()
    ensures uri.None? ==> o == NullPointerException && unchanged(player)
    ensures uri.Some? ==> o == Returned && player.dataSource == uri.value
                          && (player.isNewVideo <==> uri.value != old(player.dataSource))
  {
    o := player.SetUrl(uri);
  }

  /** The `resizeMode` property: a known name sets the matching mode; null or
      an unknown name leaves the player untouched. */
  method SetResizeMode(player: Player.VideoPlayer, resizeMode: Option<string>, obs: Player.Observation)
    returns (o: Outcome, relayout: bool)
    requires player.Valid()
    modifies player`resizeMode
    ensures player.Valid()
    ensures o == Returned || o == NullPointerException
    ensures ResizeModeOf(resizeMode).None? ==> o == Returned && !relayout && unchanged(player)
    ensures ResizeModeOf(resizeMode).Some? ==> player.resizeMode == ResizeModeOf(resizeMode).value
    ensures ResizeModeOf(resizeMode).Some? ==>
              (o == NullPointerException <==> ResizeModeOf(resizeMode).value != old(player.resizeMode)
                                              && player.alreadyInitPlayer && !player.hasDecoder)
    ensures ResizeModeOf(resizeMode).Some? ==>
              (relayout <==> ResizeModeOf(resizeMode).value != old(player.resizeMode) && player.hasDecoder
                             && !obs.InvalidVideo() && player.layoutTask.Some?)
  {
    o, relayout := Returned, false;
    match ResizeModeOf(resizeMode) {
      case None =>
      case Some(mode) =>
        o, relayout := player.SetResizeMode(mode, obs);
    }
  }

  /** The `autoPlay` property: `true` enables autoplay, `false` does nothing,
      so the property can never turn autoplay off. */
  method SetAutoPlay(player: Player.VideoPlayer, isEnable: bool)
    requires player.Valid()
    modifies player`isAutoPlay
    ensures player.Valid()
    ensures player.isAutoPlay <==> old(player.isAutoPlay) || isEnable
  {
    if isEnable {
      player.EnableAuto();
    }
  }

  /** `receiveCommand`: id 0 recycles the player, id 1 stops it, and any
      other id throws without touching the player. */
  method ReceiveCommand(player: Player.VideoPlayer, commandId: Int32) returns (o: Outcome)
    requires player.Valid()
    modifies player`startListenProgress, player`hasDecoder, player`isPlayFinished,
             player`isPlaying, player`decoderCalls
    ensures player.Valid()
    ensures CommandOf(commandId).Failure? ==>
              o == IllegalArgumentException(UnsupportedCommandMessage(commandId)) && unchanged(player)
    ensures CommandOf(commandId) == Success(RecycleCommand) ==>
              o == Returned && !player.startListenProgress && !player.hasDecoder
              && player.isPlaying == old(player.isPlaying)
              && player.isPlayFinished == old(player.isPlayFinished)
              && player.decoderCalls == old(player.decoderCalls)
                   + if old(player.hasDecoder) then [Player.Reset, Player.Release] else []
    ensures CommandOf(commandId) == Success(StopCommand) ==>
              player.hasDecoder == old(player.hasDecoder)
              && (!old(player.isPlaying) ==> o == Returned && unchanged(player))
              && (old(player.isPlaying) && player.hasDecoder ==>
                    o == Returned && !player.isPlaying && player.isPlayFinished
                    && !player.startListenProgress
                    && player.decoderCalls == old(player.decoderCalls) + [Player.MediaCall.Stop])
              && (old(player.isPlaying) && !player.hasDecoder ==>
                    o == NullPointerException && player.isPlaying
                    && player.decoderCalls == old(player.decoderCalls))
  {
    match CommandOf(commandId) {
      case Failure(message) =>
        o := IllegalArgumentException(message);
      case Success(RecycleCommand) =>
        player.Recycle();
        o := Returned;
      case Success(StopCommand) =>
        o := player.Stop();
    }
  }
}
