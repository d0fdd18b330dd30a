/**
 * The per-instance callback logic of `LibretroContext`: the environment
 * callback `core_environment`, the audio callbacks `audio_write` and
 * `core_audio_sample`, `core_input_state`, `video_set_pixel_format`, and the
 * frame-time step of the run loop.
 *
 * Environment commands are modelled by name, each carrying the part of its
 * `data` argument the host reads; what the host writes back through `data` is
 * a `Reply`.
 */
module Libretro {
  import opened Wrappers
  import opened Audio
  import opened Variables

  /** `enum retro_pixel_format`. */
  const RETRO_PIXEL_FORMAT_0RGB1555: nat := 0
  const RETRO_PIXEL_FORMAT_XRGB8888: nat := 1
  const RETRO_PIXEL_FORMAT_RGB565: nat := 2

  /** The device classes `core_input_state` answers for. */
  const RETRO_DEVICE_JOYPAD: nat := 1
  const RETRO_DEVICE_ANALOG: nat := 5

  // ---------------------------------------------------------------------------
  // Pixel formats.

  /** The GL upload format chosen for a pixel format. */
  datatype GlPixelFormat = UnsignedShort5551 | UnsignedInt8888Rev | UnsignedShort565
  /** The GL channel order chosen for a pixel format. */
  datatype GlPixelType = Bgra | Rgb

  /** `g_video.pixfmt`, `g_video.pixtype` and `g_video.bpp`. */
  datatype VideoFormat = VideoFormat(pixfmt: GlPixelFormat, pixtype: GlPixelType, bpp: nat)

  /** Bytes per pixel of a libretro pixel format: 16-bit formats take 2, XRGB8888 takes 4. */
  function BytesPerPixel(format: nat): (bpp: nat)
    requires format <= RETRO_PIXEL_FORMAT_RGB565
    ensures bpp == 4 <==> format == RETRO_PIXEL_FORMAT_XRGB8888
    ensures bpp == 2 <==> format != RETRO_PIXEL_FORMAT_XRGB8888
  {
    if format == RETRO_PIXEL_FORMAT_XRGB8888 then 4 else 2
  }

  /** The three cases of `video_set_pixel_format`'s switch. */
  function VideoFormatFor(format: nat): (v: VideoFormat)
    requires format <= RETRO_PIXEL_FORMAT_RGB565
    ensures v.bpp == BytesPerPixel(format)
    ensures v.pixtype == Rgb <==> format == RETRO_PIXEL_FORMAT_RGB565
  {
    if format == RETRO_PIXEL_FORMAT_0RGB1555 then VideoFormat(UnsignedShort5551, Bgra, 2)
    else if format == RETRO_PIXEL_FORMAT_XRGB8888 then VideoFormat(UnsignedInt8888Rev, Bgra, 4)
    else VideoFormat(UnsignedShort565, Rgb, 2)
  }

  /** Distinct pixel formats select distinct GL formats, so negotiation loses nothing. */
  lemma VideoFormatForInjective(a: nat, b: nat)
    requires a <= RETRO_PIXEL_FORMAT_RGB565 && b <= RETRO_PIXEL_FORMAT_RGB565
    ensures VideoFormatFor(a) == VideoFormatFor(b) ==> a == b
  {
  }

  // ---------------------------------------------------------------------------
  // Frame time.

  /**
   * The argument passed to the frame-time callback, as the run loop computes
   * it: `delta` is the core's reference interval on the first frame
   * (`last == 0`) and `current - last` after that, and the callback gets
   * `delta * 1000`.  The clock is `SDL_GetTicks`, in milliseconds, so the
   * factor converts the clock delta to microseconds; the reference interval is
   * already in microseconds and is scaled as well.
   */
  function FrameTimeArgumentAsWritten(last: int, reference: int, current: int): (usec: int)
    ensures last == 0 ==> usec == reference * 1000
    ensures last != 0 ==> usec == (current - last) * 1000
  {
    (if last == 0 then reference else current - last) * 1000
  }

  /** The first frame of a 60 Hz core reports 16.667 seconds instead of 16.667 milliseconds. */
  lemma FrameTimeFirstFrameScaledTwice()
    ensures FrameTimeArgumentAsWritten(0, 16667, 5) == 16667000
    ensures FrameTimeArgumentAsWritten(0, 16667, 5) != 16667
  {
  }

  /** The frame-time argument in microseconds: the reference interval, or the clock delta in microseconds. */
  function FrameTimeArgument(last: int, reference: int, current: int): (usec: int)
    ensures last == 0 ==> usec == reference
    ensures last != 0 ==> usec == (current - last) * 1000
  {
    if last == 0 then reference else (current - last) * 1000
  }

  /** The arguments of successive frame-time callbacks for clock readings `times`, starting from `last`. */
  function FrameTimeArguments(last: int, reference: int, times: seq<int>): (args: seq<int>)
    ensures |args| == |times|
    decreases |times|
  {
    if times == [] then []
    else [FrameTimeArgument(last, reference, times[0])] + FrameTimeArguments(times[0], reference, times[1..])
  }

  function Sum(s: seq<int>): int
    decreases |s|
  {
    if s == [] then 0 else s[0] + Sum(s[1..])
  }

  /**
   * From a running clock, the reported intervals add up: after the first frame
   * (which reports the reference interval) the core has been told exactly the
   * elapsed clock time, in microseconds.  Readings of 0 are excluded because
   * `last == 0` is what marks "no previous frame".
   */
  lemma {:induction false} FrameTimeArgumentsTelescope(last: int, reference: int, times: seq<int>)
    requires last != 0
    requires forall i :: 0 <= i < |times| ==> times[i] != 0
    ensures times != [] ==> Sum(FrameTimeArguments(last, reference, times)) == (times[|times| - 1] - last) * 1000
    decreases |times|
  {
    if |times| > 1 {
      FrameTimeArgumentsTelescope(times[0], reference, times[1..]);
      assert times[1..][|times[1..]| - 1] == times[|times| - 1];
    }
  }

  /** The whole sequence from the start of the run loop: the reference interval plus the elapsed clock time. */
  lemma FrameTimeArgumentsFromStart(reference: int, times: seq<int>)
    requires times != []
    requires forall i :: 0 <= i < |times| ==> times[i] != 0
    ensures FrameTimeArguments(0, reference, times)[0] == reference
    ensures Sum(FrameTimeArguments(0, reference, times)) == reference + (times[|times| - 1] - times[0]) * 1000
  {
    FrameTimeArgumentsTelescope(times[0], reference, times[1..]);
    if |times| > 1 {
      assert times[1..][|times[1..]| - 1] == times[|times| - 1];
    }
  }

  // ---------------------------------------------------------------------------
  // Environment commands.

  /** `struct retro_hw_render_callback`: the rendering context a core asks for. */
  datatype HwRender = HwRender(contextType: nat, versionMajor: nat, versionMinor: nat)

  /**
   * A `retro_frame_time_callback` as the core passes it: whether its callback
   * pointer is non-null, and the reference frame interval in microseconds.
   */
  datatype FrameTimeCallback = FrameTimeCallback(present: bool, reference: int)

  /** A `RETRO_ENVIRONMENT_*` command with the part of its `data` the host reads. */
  datatype EnvCommand =
    | GetVariable(key: string)
    | GetVariableUpdate
    | SetVariables(vars: seq<RetroVariable>)
    | SetCoreOptions
    | GetLogInterface
    | GetCanDupe
    | SetPixelFormat(format: nat)
    | SetHwRender(hw: HwRender)
    | SetFrameTimeCallback(callback: FrameTimeCallback)
    | SetAudioCallback(present: bool)
    | GetSaveDirectory
    | GetSystemDirectory
    | GetLanguage
    | GetAudioVideoEnable
    | SetInputDescriptors
    | GetPreferredHwRender
    | SetHwSharedContext
    | SetHwRenderContextNegotiationInterface
    | Unhandled(cmd: nat)

  /** What the host writes back through `data`. */
  datatype Reply =
    | NoReply
    | VariableValue(value: string)
    | LogCallback
    | CanDupe(dupe: bool)
    | Directory(path: string)
    | LanguageEnglish
    | PreferredOpenGlCore

  /** The commands whose case ends in `return false` or falls out of the switch. */
  predicate RefusedCommand(cmd: EnvCommand)
  {
    cmd.GetVariableUpdate? || cmd.SetFrameTimeCallback? || cmd.GetAudioVideoEnable? || cmd.Unhandled?
  }

  /** The commands whose answer is written back through `data`. */
  predicate QueryCommand(cmd: EnvCommand)
  {
    || cmd.GetVariable? || cmd.GetLogInterface? || cmd.GetCanDupe? || cmd.GetSaveDirectory?
    || cmd.GetSystemDirectory? || cmd.GetLanguage? || cmd.GetPreferredHwRender?
  }

  /**
   * What `core_environment` returns: false exactly for the refused commands,
   * for `GET_VARIABLE` of a key with no setting and for a pixel format above
   * RGB565.
   */
  function EnvironmentReturn(cmd: EnvCommand, settings: map<string, string>): (ok: bool)
    ensures !ok <==> RefusedCommand(cmd)
                     || (cmd.GetVariable? && cmd.key !in settings)
                     || (cmd.SetPixelFormat? && cmd.format > RETRO_PIXEL_FORMAT_RGB565)
  {
    match cmd
    case GetVariable(key) => key in settings
    case GetVariableUpdate => false
    case SetVariables(_) => true
    case SetCoreOptions => true
    case GetLogInterface => true
    case GetCanDupe => true
    case SetPixelFormat(format) => format <= RETRO_PIXEL_FORMAT_RGB565
    case SetHwRender(_) => true
    case SetFrameTimeCallback(_) => false
    case SetAudioCallback(_) => true
    case GetSaveDirectory => true
    case GetSystemDirectory => true
    case GetLanguage => true
    case GetAudioVideoEnable => false
    case SetInputDescriptors => true
    case GetPreferredHwRender => true
    case SetHwSharedContext => true
    case SetHwRenderContextNegotiationInterface => true
    case Unhandled(_) => false
  }

  /**
   * What `core_environment` writes back through `data`: only queries answer,
   * and a `GET_VARIABLE` answers exactly when it succeeds.
   */
  function EnvironmentReply(cmd: EnvCommand, settings: map<string, string>,
                            saveDirectory: string, systemDirectory: string): (r: Reply)
    ensures !QueryCommand(cmd) ==> r == NoReply
    ensures cmd.GetVariable? ==> (r != NoReply <==> EnvironmentReturn(cmd, settings))
    ensures cmd.GetVariable? && cmd.key in settings ==> r == VariableValue(settings[cmd.key])
    ensures cmd.GetSaveDirectory? ==> r == Directory(saveDirectory)
    ensures cmd.GetSystemDirectory? ==> r == Directory(systemDirectory)
    ensures QueryCommand(cmd) && !cmd.GetVariable? ==> r != NoReply && EnvironmentReturn(cmd, settings)
  {
    match cmd
    case GetVariable(key) => if key in settings then VariableValue(settings[key]) else NoReply
    case GetLogInterface => LogCallback
    case GetCanDupe => CanDupe(true)
    case GetSaveDirectory => Directory(saveDirectory)
    case GetSystemDirectory => Directory(systemDirectory)
    case GetLanguage => LanguageEnglish
    case GetPreferredHwRender => PreferredOpenGlCore
    case _ => NoReply
  }

  /**
   * An instance's callback state.  `queue` is the audio queue the sound wave
   * drains; `frameTime` holds the last frame-time callback the core
   * registered, whose callback may be null.
   */
  class Context {
    var running: bool
    const queue: AudioQueue
    var settings: map<string, string>
    var video: Option<VideoFormat>
    var hw: Option<HwRender>
    var usingOpenGL: bool
    var frameTime: FrameTimeCallback
    var frameTimeLast: int
    var audioCallback: bool
    var negotiationInterface: bool
    const saveDirectory: string
    const systemDirectory: string
    var joy: seq<Int16>
    var analog: seq<seq<Int16>>

    ghost predicate Valid()
      reads this, queue
    {
      queue.Valid()
    }

    constructor (queue: AudioQueue, saveDirectory: string, systemDirectory: string)
      requires queue.Valid()
      ensures Valid() && running
      ensures this.queue == queue && this.saveDirectory == saveDirectory && this.systemDirectory == systemDirectory
      ensures settings == map[] && video.None? && hw.None? && !usingOpenGL
      ensures !frameTime.present && frameTimeLast == 0 && !audioCallback && !negotiationInterface
    {
      running := true;
      this.queue := queue;
      settings := map[];
      video := None;
      hw := None;
      usingOpenGL := false;
      frameTime := FrameTimeCallback(false, 0);
      frameTimeLast := 0;
      audioCallback := false;
      negotiationInterface := false;
      this.saveDirectory := saveDirectory;
      this.systemDirectory := systemDirectory;
      joy := [];
      analog := [];
    }

    /**
     * `audio_write`: while running, enqueue frames in order until the queue
     * refuses one or all `frames` are in, and report how many went in; when
     * stopped, claim all of them and enqueue nothing.
     */
    method AudioWrite(buf: seq<Int16>, frames: nat) returns (n: nat)
      requires Valid() && 2 * frames <= |buf|
      modifies queue
      ensures Valid()
      ensures !running ==> n == frames && queue.items == old(queue.items)
      ensures running ==> n <= frames && queue.items == old(queue.items) + Frames(buf, frames)[..n]
      ensures running ==> n == if frames <= queue.capacity - |old(queue.items)| then frames
                               else queue.capacity - |old(queue.items)|
    {
      if running {
        n := 0;
        var accepted := true;
        while n < frames && accepted
          invariant 0 <= n <= frames
          invariant queue.Valid()
          invariant queue.items == old(queue.items) + Frames(buf, frames)[..n]
          invariant !accepted ==> |queue.items| == queue.capacity
          decreases frames - n, if accepted then 1 else 0
        {
          accepted := queue.Enqueue(PackFrame(buf[2 * n], buf[2 * n + 1]));
          if accepted {
            assert Frames(buf, frames)[..n + 1] == Frames(buf, frames)[..n] + [PackFrame(buf[2 * n], buf[2 * n + 1])];
            n := n + 1;
          }
        }
      } else {
        n := frames;
      }
    }

    /** `core_audio_sample`: one frame through `audio_write`. */
    method AudioSample(left: Int16, right: Int16)
      requires Valid()
      modifies queue
      ensures Valid()
      ensures !running ==> queue.items == old(queue.items)
      ensures running ==> (queue.items ==
        if |old(queue.items)| < queue.capacity then old(queue.items) + [PackFrame(left, right)] else old(queue.items))
    {
      var _ := AudioWrite([left, right], 1);
    }

    /**
     * `core_input_state`: only port 0 has a device; its joypad and analog
     * state are read directly, every other device reads 0.
     */
    function InputState(port: nat, device: nat, index: nat, id: nat): (v: Int16)
      reads this
      requires port == 0 && device == RETRO_DEVICE_ANALOG ==> id < |analog| && index < |analog[id]|
      requires port == 0 && device == RETRO_DEVICE_JOYPAD ==> id < |joy|
      ensures port != 0 ==> v == 0
      ensures port == 0 && device == RETRO_DEVICE_ANALOG ==> v == analog[id][index]
      ensures port == 0 && device == RETRO_DEVICE_JOYPAD ==> v == joy[id]
      ensures device != RETRO_DEVICE_ANALOG && device != RETRO_DEVICE_JOYPAD ==> v == 0
    {
      if port != 0 then 0
      else if device == RETRO_DEVICE_ANALOG then analog[id][index]
      else if device == RETRO_DEVICE_JOYPAD then joy[id]
      else 0
    }

    /** `video_set_pixel_format` on a format it has a case for. */
    method VideoSetPixelFormat(format: nat) returns (ok: bool)
      requires format <= RETRO_PIXEL_FORMAT_RGB565
      modifies this`video
      ensures ok && video == Some(VideoFormatFor(format))
    {
      video := Some(VideoFormatFor(format));
      ok := true;
    }

    /**
     * The `SET_VARIABLES` case: a do-while over the declaration array that
     * stores each key's parsed default, up to the null-key terminator.
     */
    method DeclareVariables(vars: seq<RetroVariable>)
      requires WellFormedDeclarations(vars)
      modifies this`settings
      ensures settings == Declare(old(settings), Declarations(vars))
    {
      ghost var ds := Declarations(vars);
      var i := 0;
      var more := true;
      while more
        invariant 0 <= i <= DeclaredCount(vars)
        invariant more <==> i < DeclaredCount(vars)
        invariant settings == Declare(old(settings), ds[..i])
        decreases DeclaredCount(vars) - i
      {
        var d := ParseDefault(vars[i].value);
        DeclareNext(old(settings), ds, i);
        NextKeyContinues(vars, i);
        settings := settings[vars[i].key.value := d];
        i := i + 1;
        more := vars[i].key.Some?;
      }
      assert ds[..i] == ds;
    }

    /**
     * `core_environment`: the return value and reply of `cmd`, and the state
     * its case stores.
     */
    method CoreEnvironment(cmd: EnvCommand) returns (ok: bool, reply: Reply)
      requires cmd.SetVariables? ==> WellFormedDeclarations(cmd.vars)
      modifies this`settings, this`video, this`hw, this`usingOpenGL, this`frameTime,
               this`audioCallback, this`negotiationInterface
      ensures ok == EnvironmentReturn(cmd, old(settings))
      ensures reply == EnvironmentReply(cmd, old(settings), saveDirectory, systemDirectory)
      ensures settings == if cmd.SetVariables? then Declare(old(settings), Declarations(cmd.vars)) else old(settings)
      ensures video == if cmd.SetPixelFormat? && cmd.format <= RETRO_PIXEL_FORMAT_RGB565
                       then Some(VideoFormatFor(cmd.format)) else old(video)
      ensures hw == (if cmd.SetHwRender? then Some(cmd.hw) else old(hw))
      ensures usingOpenGL == (cmd.SetHwRender? || old(usingOpenGL))
      ensures frameTime == (if cmd.SetFrameTimeCallback? then cmd.callback else old(frameTime))
      ensures audioCallback == (if cmd.SetAudioCallback? then cmd.present else old(audioCallback))
      ensures negotiationInterface == (cmd.SetHwRenderContextNegotiationInterface? || old(negotiationInterface))
    {
      reply := NoReply;
      match cmd {
        case GetVariable(key) =>
          if key in settings {
            reply := VariableValue(settings[key]);
            ok := true;
          } else {
            ok := false;
          }
        case GetVariableUpdate =>
          ok := false;
        case SetVariables(vars) =>
          DeclareVariables(vars);
          ok := true;
        case SetCoreOptions =>
          ok := true;
        case GetLogInterface =>
          reply := LogCallback;
          ok := true;
        case GetCanDupe =>
          reply := CanDupe(true);
          ok := true;
        case SetPixelFormat(format) =>
          if format > RETRO_PIXEL_FORMAT_RGB565 {
            ok := false;
          } else {
            ok := VideoSetPixelFormat(format);
          }
        case SetHwRender(request) =>
          hw := Some(request);
          usingOpenGL := true;
          ok := true;
        case SetFrameTimeCallback(callback) =>
          frameTime := callback;
          ok := false;
        case SetAudioCallback(present) =>
          audioCallback := present;
          ok := true;
        case GetSaveDirectory =>
          reply := Directory(saveDirectory);
          ok := true;
        case GetSystemDirectory =>
          reply := Directory(systemDirectory);
          ok := true;
        case GetLanguage =>
          reply := LanguageEnglish;
          ok := true;
        case GetAudioVideoEnable =>
          ok := false;
        case SetInputDescriptors =>
          ok := true;
        case GetPreferredHwRender =>
          reply := PreferredOpenGlCore;
          ok := true;
        case SetHwSharedContext =>
          ok := true;
        case SetHwRenderContextNegotiationInterface =>
          negotiationInterface := true;
          ok := true;
        case Unhandled(_) =>
          ok := false;
      }
    }

    /**
     * One frame-time step of the run loop, taken only while the stored
     * callback is non-null: the argument passed to the callback, in
     * microseconds, and the clock reading remembered for the next frame.
     */
    method FrameTimeTick(current: int) returns (usec: int)
      requires frameTime.present
      modifies this`frameTimeLast
      ensures frameTimeLast == current
      ensures usec == FrameTimeArgument(old(frameTimeLast), frameTime.reference, current)
    {
      var delta := current - frameTimeLast;
      if frameTimeLast == 0 {
        usec := frameTime.reference;
      } else {
        usec := delta * 1000;
      }
      frameTimeLast := current;
    }
  }
}
