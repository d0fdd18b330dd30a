/**
 * `ULibretroCoreInstance`, the engine component that launches and drives one
 * libretro instance: defaulting of the ROM and core names, the launch checks,
 * the not-launched guard, and the save-RAM and save-state operations it
 * schedules on the ordered I/O chain.
 *
 * Paths come from path helpers of the plugin module; they and the file-system
 * queries are parameters here.  The running instance is a value that records
 * what the component hands it: the save-RAM load to run once the core has
 * loaded, the pause requests, and the tasks enqueued on its thread.
 */
module CoreInstance {
  import opened Wrappers
  import opened OrderedIo

  type Byte = x: int | 0 <= x < 0x100

  const DEFAULT_ROM: string := "MAZE"
  const DEFAULT_CORE: string := "emux_chip8_libretro.dll"

  /** The ROM name `Launch` uses: the configured one, or "MAZE" when none is configured. */
  function DefaultRom(rom: string): (r: string)
    ensures r != []
    ensures rom != [] ==> r == rom
    ensures rom == [] ==> r == DEFAULT_ROM
  {
    if rom == [] then DEFAULT_ROM else rom
  }

  /** The core name `Launch` uses: the configured one, or the CHIP-8 core when none is configured. */
  function DefaultCore(core: string): (r: string)
    ensures r != []
    ensures core != [] ==> r == core
    ensures core == [] ==> r == DEFAULT_CORE
  {
    if core == [] then DEFAULT_CORE else core
  }

  /** A task enqueued on the instance thread. */
  datatype Task =
    /** Runs the ordered save-state read `op`. */
    | LoadSaveState(op: nat)
    /** Serializes the core into the shared buffer, then unlocks the held file write `write`. */
    | SerializeState(write: nat)
    /** Runs the ordered save-RAM write `op`. */
    | SaveSram(op: nat)

  /**
   * A launched instance: the paths it was launched with, the ordered save-RAM
   * load its loaded callback runs, the pause requests it received and the
   * tasks enqueued on it, in order.
   */
  datatype Instance = Instance(corePath: string, romPath: string, loadSram: nat,
                               pauseRequests: seq<bool>, tasks: seq<Task>)

  /** What the save-state read does to the core. */
  datatype LoadOutcome = NoOp | Unserialize(data: seq<Byte>, sizeMismatch: bool)

  /**
   * The I/O body of `LoadState`: no file (or an unreadable one) does nothing;
   * otherwise the whole file is passed to `unserialize`, and a size that
   * differs from `serialize_size` only adds a warning.
   */
  function LoadStateBody(file: Option<seq<Byte>>, serializeSize: nat): (r: LoadOutcome)
    ensures file.None? <==> r.NoOp?
    ensures file.Some? ==> r.data == file.value
    ensures file.Some? ==> (r.sizeMismatch <==> |file.value| != serializeSize)
  {
    match file
    case None => NoOp
    case Some(data) => Unserialize(data, |data| != serializeSize)
  }

  /**
   * One task on the instance thread: an ordered read or write runs when its
   * predecessor on the path is done; serialization unlocks its held write.
   */
  method PerformTask(io: IoScheduler, t: Task) returns (ran: bool)
    requires io.Valid()
    modifies io
    ensures io.Valid()
    ensures io.ops == old(io.ops) && io.lastIOTask == old(io.lastIOTask)
    ensures t.SerializeState? ==>
      ran && io.unlocked == old(io.unlocked) + {t.write} && io.completed == old(io.completed)
    ensures !t.SerializeState? ==>
      && io.unlocked == old(io.unlocked)
      && ran == old(io.Ready(t.op))
      && io.completed == if ran then old(io.completed) + {t.op} else old(io.completed)
  {
    match t {
      case LoadSaveState(op) =>
        ran := io.Run(op);
      case SerializeState(write) =>
        io.Unlock(write);
        ran := true;
      case SaveSram(op) =>
        ran := io.Run(op);
    }
  }

  /** The component.  `Rom` and `Core` are its configured names. */
  class LibretroCoreInstance {
    var rom: string
    var core: string
    var paused: bool
    var coreInstance: Option<Instance>
    /** Instances handed to `LibretroContext::Shutdown`, with what was still queued on them. */
    var shutDown: seq<Instance>

    constructor (rom: string, core: string)
      ensures this.rom == rom && this.core == core && !paused && coreInstance.None? && shutDown == []
    {
      this.rom := rom;
      this.core := core;
      paused := false;
      coreInstance := None;
      shutDown := [];
    }

    /** `Pause`: behind the guard, forwards the request to the instance and records it. */
    method Pause(shouldPause: bool)
      modifies this
      ensures old(coreInstance).None? ==> paused == old(paused) && coreInstance == old(coreInstance)
      ensures old(coreInstance).Some? ==>
        && paused == shouldPause
        && coreInstance == Some(old(coreInstance).value.(pauseRequests := old(coreInstance).value.pauseRequests + [shouldPause]))
      ensures rom == old(rom) && core == old(core) && shutDown == old(shutDown)
    {
      if coreInstance.None? {
        return;
      }
      var inst := coreInstance.value;
      coreInstance := Some(inst.(pauseRequests := inst.pauseRequests + [shouldPause]));
      paused := shouldPause;
    }

    /** `Shutdown`: behind the guard, hands the instance to `LibretroContext::Shutdown` and drops it. */
    method Shutdown()
      modifies this
      ensures coreInstance.None?
      ensures shutDown == old(shutDown) + if old(coreInstance).Some? then [old(coreInstance).value] else []
      ensures rom == old(rom) && core == old(core) && paused == old(paused)
    {
      if coreInstance.None? {
        return;
      }
      shutDown := shutDown + [coreInstance.value];
      coreInstance := None;
    }

    /**
     * `Launch`: shut down any running instance, default the names, and launch
     * only when the core file exists and the ROM is a file or a directory; a
     * launch first schedules the ordered save-RAM load on `sramPath`.
     */
    method Launch(io: IoScheduler, corePath: string -> string, romPath: string -> string,
                  fileExists: string -> bool, directoryExists: string -> bool, sramPath: string)
      requires io.Valid()
      modifies this, io
      ensures io.Valid()
      ensures rom == DefaultRom(old(rom)) && core == DefaultCore(old(core)) && paused == old(paused)
      ensures shutDown == old(shutDown) + if old(coreInstance).Some? then [old(coreInstance).value] else []
      ensures io.completed == old(io.completed) && io.unlocked == old(io.unlocked)
      ensures !(fileExists(corePath(core)) && (fileExists(romPath(rom)) || directoryExists(romPath(rom)))) ==>
        coreInstance.None? && io.ops == old(io.ops) && io.lastIOTask == old(io.lastIOTask)
      ensures fileExists(corePath(core)) && (fileExists(romPath(rom)) || directoryExists(romPath(rom))) ==>
        && io.ops == old(io.ops) + [Op(sramPath, Lookup(old(io.lastIOTask), sramPath), false)]
        && io.lastIOTask == old(io.lastIOTask)[sramPath := |old(io.ops)|]
        && coreInstance == Some(Instance(corePath(core), romPath(rom), |old(io.ops)|, [], []))
    {
      Shutdown();
      rom := DefaultRom(rom);
      core := DefaultCore(core);
      var corePathName := corePath(core);
      var romPathName := romPath(rom);
      if !fileExists(corePathName) {
        return;
      } else if !fileExists(romPathName) && !directoryExists(romPathName) {
        return;
      }
      var loadSram := io.MakeOrderedFileAccessOperation(sramPath);
      coreInstance := Some(Instance(corePathName, romPathName, loadSram, [], []));
    }

    /** `LoadState`: behind the guard, an ordered read of `path` enqueued on the instance. */
    method LoadState(io: IoScheduler, path: string)
      requires io.Valid()
      modifies this, io
      ensures io.Valid()
      ensures rom == old(rom) && core == old(core) && paused == old(paused) && shutDown == old(shutDown)
      ensures io.completed == old(io.completed) && io.unlocked == old(io.unlocked)
      ensures old(coreInstance).None? ==>
        coreInstance == old(coreInstance) && io.ops == old(io.ops) && io.lastIOTask == old(io.lastIOTask)
      ensures old(coreInstance).Some? ==>
        && io.ops == old(io.ops) + [Op(path, Lookup(old(io.lastIOTask), path), false)]
        && io.lastIOTask == old(io.lastIOTask)[path := |old(io.ops)|]
        && coreInstance == Some(old(coreInstance).value.(tasks := old(coreInstance).value.tasks + [LoadSaveState(|old(io.ops)|)]))
    {
      if coreInstance.None? {
        return;
      }
      var op := io.MakeOrderedFileAccessOperation(path);
      var inst := coreInstance.value;
      coreInstance := Some(inst.(tasks := inst.tasks + [LoadSaveState(op)]));
    }

    /**
     * `SaveState`: behind the guard, a held write of `path` chained after the
     * path's last operation, and the serialization task that unlocks it
     * enqueued on the instance.
     */
    method SaveState(io: IoScheduler, path: string)
      requires io.Valid()
      modifies this, io
      ensures io.Valid()
      ensures rom == old(rom) && core == old(core) && paused == old(paused) && shutDown == old(shutDown)
      ensures io.completed == old(io.completed) && io.unlocked == old(io.unlocked)
      ensures old(coreInstance).None? ==>
        coreInstance == old(coreInstance) && io.ops == old(io.ops) && io.lastIOTask == old(io.lastIOTask)
      ensures old(coreInstance).Some? ==>
        && io.ops == old(io.ops) + [Op(path, Lookup(old(io.lastIOTask), path), true)]
        && io.lastIOTask == old(io.lastIOTask)[path := |old(io.ops)|]
        && coreInstance == Some(old(coreInstance).value.(tasks := old(coreInstance).value.tasks + [SerializeState(|old(io.ops)|)]))
    {
      if coreInstance.None? {
        return;
      }
      var write := io.ScheduleHeldWrite(path);
      var inst := coreInstance.value;
      coreInstance := Some(inst.(tasks := inst.tasks + [SerializeState(write)]));
    }

    /**
     * `BeginDestroy`: a launched instance gets an ordered save-RAM write enqueued
     * before it is shut down.
     */
    method BeginDestroy(io: IoScheduler, sramPath: string)
      requires io.Valid()
      modifies this, io
      ensures io.Valid()
      ensures coreInstance.None?
      ensures rom == old(rom) && core == old(core) && paused == old(paused)
      ensures io.completed == old(io.completed) && io.unlocked == old(io.unlocked)
      ensures old(coreInstance).None? ==>
        shutDown == old(shutDown) && io.ops == old(io.ops) && io.lastIOTask == old(io.lastIOTask)
      ensures old(coreInstance).Some? ==>
        && io.ops == old(io.ops) + [Op(sramPath, Lookup(old(io.lastIOTask), sramPath), false)]
        && io.lastIOTask == old(io.lastIOTask)[sramPath := |old(io.ops)|]
        && shutDown == old(shutDown) + [old(coreInstance).value.(tasks := old(coreInstance).value.tasks + [SaveSram(|old(io.ops)|)])]
    {
      if coreInstance.Some? {
        var op := io.MakeOrderedFileAccessOperation(sramPath);
        var inst := coreInstance.value;
        coreInstance := Some(inst.(tasks := inst.tasks + [SaveSram(op)]));
      }
      Shutdown();
    }
  }
}
