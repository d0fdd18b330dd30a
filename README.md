# UnrealLibretro host runtime, modelled in Dafny

UnrealLibretro hosts libretro cores (emulators built as DLLs with a C callback
interface) inside Unreal Engine. It runs many instances at once, including
several instances of the same core binary. This project models the host-side
bookkeeping that makes that work, and proves properties of the model:

- **Instance allocation** (`allocation.dfy`, module `InstanceAllocation`).
  - Each instance gets one of 100 callback-trampoline slots and one of 64 copy
    indexes of its core.
  - A copy index above 0 loads a duplicate of the core DLL, under a name built
    from the original's base name, the index and the extension.
  - The two bitmaps live in class `Allocator`. A launch takes the lowest clear
    bit of each, and teardown clears exactly those two bits.
- **Audio hand-off** (`audio.dfy`, module `Audio`, and `Context.AudioWrite`).
  - A frame is an interleaved pair of 16-bit samples, read as one 32-bit word.
  - The bounded queue is a FIFO class that refuses an enqueue when full.
- **Core variables** (`variables.dfy`, module `Variables`, and
  `Context.DeclareVariables`).
  - A core declares its options as an array of key/value pairs.
  - The default of each option is parsed from its value string
    `"Description; default|alt|..."`.
  - The defaults go into the settings map that `GET_VARIABLE` reads.
- **The environment callback and the small callbacks** (`context.dfy`, module
  `Libretro`, class `Context`).
  - The command dispatch of `core_environment` and pixel-format negotiation.
  - `core_input_state`.
  - The frame-time step of the run loop.
- **RGB565 to BGRA conversion** (`texture.dfy`, module `Texture`): the nested
  loop of `Update16BitTexture`, filling a fresh byte array through the two
  widening lookup tables.
- **The ordered per-path I/O chain** (`ordered_io.dfy`, module `OrderedIo`,
  class `IoScheduler`).
  - The global `LastIOTask` map.
  - Scheduling swaps an operation's completion event in and keeps the previous
    one as its prerequisite.
  - The task graph is modelled sequentially: an operation runs only after the
    one it waits for.
  - Proved: operations on one path run in scheduling order.
- **The engine component** (`core_instance.dfy`, module `CoreInstance`, class
  `LibretroCoreInstance`).
  - `Launch` with its defaults and existence checks.
  - The not-launched guard of `Pause`, `Shutdown`, `LoadState` and `SaveState`.
  - The save-state and save-RAM operations that `LoadState`, `SaveState`,
    `Launch` and `BeginDestroy` schedule.

All source paths below are relative to the repository root.

## Notes on the source

- **Frame time.**
  - `retro_usec_t`, the frame-time callback's argument, is in microseconds. The comment on `cpu_features_get_time_usec` (`Source/UnrealLibretro/Private/sdlarch.cpp:740-746`) says it returns microseconds too.
  - Its body (lines 751-752) returns `SDL_GetTicks()`, which counts milliseconds. The run loop compensates by multiplying each clock delta by 1000.
  - On the first frame the run loop substitutes the core's reference interval, which is already in microseconds, and multiplies it by 1000 as well.
  - `FrameTimeArgumentAsWritten` models that as written. The run-loop step `Context.FrameTimeTick` uses the corrected `FrameTimeArgument` (see Findings and "Left out").
- **Variable strings.**
  - By the libretro convention a variable's value reads `"Description; default|alternative|..."`.
  - The parser at lines 455-458 needs a `;` before the first `|`. The model makes that a precondition (`WellFormedValue`).

## Model

| member | source | states |
|---|---|---|
| InstanceAllocation.FirstZero | Source/UnrealLibretro/Private/sdlarch.cpp:821-822 | the result is the lowest clear bit; none exactly when every bit is set |
| Wrappers.Lookup | Source/UnrealLibretro/Private/sdlarch.cpp:434-440 | a map lookup: found exactly when the key is present, with its value. It is the settings read of `GET_VARIABLE` and the `LastIOTask` entry found at LibretroCoreInstance.cpp:42 (none for a new, null entry) |
| InstanceAllocation.FindAndSetFirstZeroBit | Source/UnrealLibretro/Private/sdlarch.cpp:821-822 | returns the lowest clear index and sets it; INDEX_NONE exactly when all bits are set, and then the bitmap is unchanged |
| InstanceAllocation.EmptyCoreBitmap | Source/UnrealLibretro/Private/sdlarch.cpp:820 | a new core's bitmap has 64 bits, all clear |
| InstanceAllocation.FindOrAdd | Source/UnrealLibretro/Private/sdlarch.cpp:820 | the core gets an entry; existing entries are kept; a new core gets an all-clear bitmap |
| InstanceAllocation.FirstZeroAt | Source/UnrealLibretro/Private/sdlarch.cpp:821-822 | a clear bit with every bit below it set is the lowest clear bit |
| InstanceAllocation.FindOrAddKeepsValid | Source/UnrealLibretro/Private/sdlarch.cpp:820 | adding a new core's all-clear bitmap keeps the allocation invariant |
| InstanceAllocation.CommitKeepsValid | Source/UnrealLibretro/Private/sdlarch.cpp:821-822 | taking a clear slot bit and a clear copy bit for a new allocation keeps every live allocation's bits set and their slots and copies distinct; the allocation was not live before |
| InstanceAllocation.Allocator.constructor | Source/UnrealLibretro/Private/sdlarch.cpp:788-792 | the tables start with 100 clear slots, no core seen and no live allocation |
| InstanceAllocation.Allocator.Acquire | Source/UnrealLibretro/Private/sdlarch.cpp:818-824 | on success: took the lowest clear copy index and the lowest clear slot and set exactly those bits, and the new allocation shares its slot with no live allocation and its copy index with no live allocation of the same core. On failure: nothing is committed, and the error names the full bitmap |
| InstanceAllocation.Allocator.Release | Source/UnrealLibretro/Private/sdlarch.cpp:917-922 | clears exactly the slot bit and the core-copy bit of the released allocation; the invariant is kept |
| InstanceAllocation.LaunchCheckAsWritten | Source/UnrealLibretro/Private/sdlarch.cpp:824 | the check as written fails only when BOTH indexes are INDEX_NONE |
| InstanceAllocation.AsWrittenCheckPassesWithFullCore | Source/UnrealLibretro/Private/sdlarch.cpp:820-824 | with all 64 copies of a core taken and a free slot, the check passes with copy index INDEX_NONE |
| InstanceAllocation.AsWrittenCheckPassesWithFullTable | Source/UnrealLibretro/Private/sdlarch.cpp:820-824 | with all 100 slots taken and a new core, the check passes with instance number INDEX_NONE |
| InstanceAllocation.ExtensionDot | Source/UnrealLibretro/Private/sdlarch.cpp:828 | the extension starts at the last '.' of the path that has no separator after it; with no extension, every '.' has a separator after it |
| InstanceAllocation.BaseFilename | Source/UnrealLibretro/Private/sdlarch.cpp:828 | `GetBaseFilename(core, false)` is a prefix of the path. When it is shorter, the path continues with a dot, and neither a dot nor a separator follows; with no extension dot it is the whole path |
| InstanceAllocation.Extension | Source/UnrealLibretro/Private/sdlarch.cpp:828 | `GetExtension` is a suffix of the path (shorter than it unless both are empty) that holds no dot and no separator; when it is non-empty, a dot precedes it |
| InstanceAllocation.Decimal | Source/UnrealLibretro/Private/sdlarch.cpp:828 | `%d` of a natural is a non-empty digit string, one digit exactly below 10 |
| InstanceAllocation.DigitChar | Source/UnrealLibretro/Private/sdlarch.cpp:828 | the character of a digit is a decimal digit standing for that digit |
| InstanceAllocation.DecimalSpells | Source/UnrealLibretro/Private/sdlarch.cpp:828 | the digits `%d` prints, read most significant first, are the number printed |
| InstanceAllocation.DecimalInjective | Source/UnrealLibretro/Private/sdlarch.cpp:828 | distinct numbers print differently |
| InstanceAllocation.BaseAndExtension | Source/UnrealLibretro/Private/sdlarch.cpp:828 | a path is its base filename, a dot and its extension (or its base alone when it has no extension) |
| InstanceAllocation.InstancedCorePath | Source/UnrealLibretro/Private/sdlarch.cpp:815-828 | copy 0 loads the core's own path. A copy above 0 loads the base filename, then decimal digits whose value is the copy index, then a dot and the core's extension |
| InstanceAllocation.CopyPathLonger | Source/UnrealLibretro/Private/sdlarch.cpp:826-829 | a duplicate's path is longer than the original core path |
| InstanceAllocation.CopyPathsInjective | Source/UnrealLibretro/Private/sdlarch.cpp:826-829 | two copy indexes above 0 with the same path are equal |
| InstanceAllocation.InstancedPathsDistinct | Source/UnrealLibretro/Private/sdlarch.cpp:815-829 | distinct copy indexes of a core load distinct files, so two live instances of one core never share a DLL |
| InstanceAllocation.CopyPathCollidesAcrossCores | Source/UnrealLibretro/Private/sdlarch.cpp:826-829 | copy 1 of "foo.dll" is named "foo1.dll", which is the path of copy 0 of another core "foo1.dll" |
| Audio.PackFrame | Source/UnrealLibretro/Private/sdlarch.cpp:381 | the low 16 bits of the packed word are the left sample |
| Audio.UnpackPack | Source/UnrealLibretro/Private/sdlarch.cpp:381 | both samples are recovered from the packed word |
| Audio.PackUnpack | Source/UnrealLibretro/Private/sdlarch.cpp:381 | every 32-bit word is the packing of its two halves |
| Audio.Frames | Source/UnrealLibretro/Private/sdlarch.cpp:381 | frame i of the buffer is the packing of samples 2i and 2i+1 |
| Audio.AudioQueue.constructor | Source/UnrealLibretro/Private/sdlarch.cpp:714 | a new queue is empty, with the given capacity |
| Audio.AudioQueue.Enqueue | Source/UnrealLibretro/Private/sdlarch.cpp:381 | succeeds exactly when the queue is not full, and then appends the word; otherwise nothing changes |
| Audio.AudioQueue.Dequeue | Source/UnrealLibretro/Private/sdlarch.cpp:714-715 | the consumer gets the oldest word, or nothing from an empty queue |
| Libretro.Context.constructor | Source/UnrealLibretro/Private/sdlarch.cpp:799 | a new context is running and holds the given audio queue and directories, with no settings, no pixel format, no render context, no OpenGL, no audio callback, no negotiation interface, and a null frame-time callback with no previous clock reading |
| Libretro.Context.AudioWrite | Source/UnrealLibretro/Private/sdlarch.cpp:378-391 | running: returns n <= frames, and the queue becomes the old queue followed by exactly the first n frames, in order. n is min(frames, free space), so n < frames only when the queue filled up. Stopped: returns frames and leaves the queue untouched |
| Libretro.Context.AudioSample | Source/UnrealLibretro/Private/sdlarch.cpp:583-586 | one frame: enqueued when running and there is room, otherwise the queue is unchanged |
| Variables.IndexOf | Source/UnrealLibretro/Private/sdlarch.cpp:456-457 | `strchr` as an index: the first occurrence, or the length when absent |
| Variables.SkipSpaces | Source/UnrealLibretro/Private/sdlarch.cpp:455-456 | stops at the first non-space at or after the start, skipping only spaces |
| Variables.SkipSpacesStops | Source/UnrealLibretro/Private/sdlarch.cpp:455-456 | the scan stops exactly at the first non-space after a run of spaces |
| Variables.DefaultOf | Source/UnrealLibretro/Private/sdlarch.cpp:455-458 | the parsed default contains no '\|' and does not start with a space |
| Variables.ParseDefault | Source/UnrealLibretro/Private/sdlarch.cpp:455-458 | the three scanning loops compute DefaultOf |
| Variables.DefaultFromLayout | Source/UnrealLibretro/Private/sdlarch.cpp:455-458 | in a value laid out as ';', spaces, default and '\|', the parser takes exactly the default |
| Variables.DefaultOfDeclaration | Source/UnrealLibretro/Private/sdlarch.cpp:455-458 | a value written as description, ';', spaces, default, '\|' and alternatives parses back to that default |
| Variables.TerminatorFrom | Source/UnrealLibretro/Private/sdlarch.cpp:450-463 | finds the first null-key entry at or after a position |
| Variables.DeclaredCount | Source/UnrealLibretro/Private/sdlarch.cpp:450-463 | the do-while processes the first entry and every entry before the first later null key |
| Variables.DoWhileTakesNullFirstKey | Source/UnrealLibretro/Private/sdlarch.cpp:448-463 | as written: on an array whose first entry is the null terminator, the do-while still processes entry 0 |
| Variables.DeclaredCountGuarded | Source/UnrealLibretro/Private/sdlarch.cpp:448-463 | corrected: testing the key before each entry processes exactly the entries before the first null key |
| Variables.GuardedCountOfEmptyArray | Source/UnrealLibretro/Private/sdlarch.cpp:448-463 | corrected: an array that starts with the terminator declares nothing |
| Variables.GuardedCountMatchesDoWhile | Source/UnrealLibretro/Private/sdlarch.cpp:448-463 | with a non-null first key, the guarded loop and the do-while process the same entries |
| Variables.Declarations | Source/UnrealLibretro/Private/sdlarch.cpp:450-463 | one (key, parsed default) pair per processed entry, in array order |
| Variables.LastDeclared | Source/UnrealLibretro/Private/sdlarch.cpp:461 | the value of the last pair naming the key; none exactly when no pair names it |
| Variables.Declare | Source/UnrealLibretro/Private/sdlarch.cpp:461 | after the stores, a key is present exactly when it was already set or some pair declares it, and the last pair's key holds the last pair's value |
| Variables.DeclareLookup | Source/UnrealLibretro/Private/sdlarch.cpp:434-461 | after the stores, a declared key holds its last declaration and any other key is as before |
| Variables.LookupAfterDeclare | Source/UnrealLibretro/Private/sdlarch.cpp:434-461 | after the stores, a declared key holds the value of a declaration with no later declaration of it; a key neither declared nor set is absent |
| Variables.GetAfterSetVariables | Source/UnrealLibretro/Private/sdlarch.cpp:429-466 | after SET_VARIABLES, GET_VARIABLE of a declared key finds the default of its last declaration; a key neither declared nor set before is not found |
| Libretro.Context.DeclareVariables | Source/UnrealLibretro/Private/sdlarch.cpp:447-466 | the do-while leaves the settings equal to the old settings with every declared pair stored in order; nothing else changes |
| Libretro.BytesPerPixel | Source/UnrealLibretro/Private/sdlarch.cpp:241-254 | XRGB8888 takes 4 bytes, and 0RGB1555 and RGB565 take 2 |
| Libretro.VideoFormatFor | Source/UnrealLibretro/Private/sdlarch.cpp:240-255 | the chosen format has that byte count, and RGB order exactly for RGB565 |
| Libretro.VideoFormatForInjective | Source/UnrealLibretro/Private/sdlarch.cpp:240-255 | distinct pixel formats select distinct GL formats |
| Libretro.Context.VideoSetPixelFormat | Source/UnrealLibretro/Private/sdlarch.cpp:234-261 | stores the format's GL format and byte count, returns true, and changes nothing else |
| Libretro.EnvironmentReturn | Source/UnrealLibretro/Private/sdlarch.cpp:425-561 | false exactly for the refused commands, for GET_VARIABLE of a key with no setting, and for a pixel format above RGB565 |
| Libretro.EnvironmentReply | Source/UnrealLibretro/Private/sdlarch.cpp:425-561 | only queries write a reply. GET_VARIABLE replies exactly when it succeeds, with the setting; the directory queries reply with the directories; every other query succeeds with a reply |
| Libretro.Context.CoreEnvironment | Source/UnrealLibretro/Private/sdlarch.cpp:425-561 | false for unknown commands, GET_VARIABLE_UPDATE, GET_AUDIO_VIDEO_ENABLE and SET_FRAME_TIME_CALLBACK (which still stores the callback struct, null or not). GET_VARIABLE succeeds exactly when the key is set, and replies with its value. SET_PIXEL_FORMAT succeeds exactly for formats up to RGB565 and changes nothing otherwise. Every other command returns true. Each command changes only its own state and writes its reply |
| Libretro.Context.InputState | Source/UnrealLibretro/Private/sdlarch.cpp:569-580 | other ports read 0. On port 0, ANALOG reads analog[id][index], JOYPAD reads joy[id], and other devices read 0 |
| Libretro.FrameTimeArgumentAsWritten | Source/UnrealLibretro/Private/sdlarch.cpp:868-876 | as written: the reference interval times 1000 on the first frame, the clock delta times 1000 after that |
| Libretro.FrameTimeFirstFrameScaledTwice | Source/UnrealLibretro/Private/sdlarch.cpp:868-876 | a 16667 us reference interval reaches the core as 16667000 |
| Libretro.FrameTimeArgument | Source/UnrealLibretro/Private/sdlarch.cpp:868-876 | corrected: the reference interval on the first frame, the millisecond clock delta in microseconds after that |
| Libretro.FrameTimeArguments | Source/UnrealLibretro/Private/sdlarch.cpp:863-876 | one callback argument per clock reading |
| Libretro.FrameTimeArgumentsTelescope | Source/UnrealLibretro/Private/sdlarch.cpp:863-876 | with a previous reading, the arguments sum to the elapsed clock time, in microseconds |
| Libretro.FrameTimeArgumentsFromStart | Source/UnrealLibretro/Private/sdlarch.cpp:863-876 | from the start of the run loop: the first argument is the reference interval, and the sum is it plus the elapsed time |
| Libretro.Context.FrameTimeTick | Source/UnrealLibretro/Private/sdlarch.cpp:868-876 | taken only when the stored callback is non-null: passes the corrected argument and remembers the current reading; nothing else changes |
| Texture.Blue | Source/UnrealLibretro/Private/sdlarch.cpp:320 | the blue channel is below 32 |
| Texture.Green | Source/UnrealLibretro/Private/sdlarch.cpp:321 | the green channel is below 64 |
| Texture.Red | Source/UnrealLibretro/Private/sdlarch.cpp:322 | the red channel is below 32 |
| Texture.ChannelsDeterminePixel | Source/UnrealLibretro/Private/sdlarch.cpp:320-322 | the three channels are the whole 16-bit pixel |
| Texture.EarlierPixelBefore | Source/UnrealLibretro/Private/sdlarch.cpp:318-323 | a pixel earlier in row-major order ends its four bytes before a later pixel starts |
| Texture.PixelInBuffer | Source/UnrealLibretro/Private/sdlarch.cpp:315-323 | every pixel's four bytes lie inside the 4*w*h buffer |
| Texture.StorePixel | Source/UnrealLibretro/Private/sdlarch.cpp:320-323 | the four stores leave every byte outside the pixel unchanged |
| Texture.ConvertedKept | Source/UnrealLibretro/Private/sdlarch.cpp:318-325 | a converted pixel stays converted when only bytes after it change |
| Texture.StorePixelAdvances | Source/UnrealLibretro/Private/sdlarch.cpp:318-325 | one iteration converts its pixel and keeps every earlier one converted |
| Texture.WritePixel | Source/UnrealLibretro/Private/sdlarch.cpp:320-323 | the four byte stores of one iteration leave the buffer equal to StorePixel of the old buffer |
| Texture.RowDone | Source/UnrealLibretro/Private/sdlarch.cpp:318-325 | a finished row is everything before the next row |
| Texture.Update16BitTexture | Source/UnrealLibretro/Private/sdlarch.cpp:311-325 | returns a fresh 4*w*h array. For every pixel, bytes 0-2 are LUT5 of blue, LUT6 of green and LUT5 of red of the source pixel at x + pitch/2*y, and byte 3 is 255 |
| Texture.LutsRoundToNearest | Source/UnrealLibretro/Private/sdlarch.cpp:316-317 | entry i is i*255/31 (five bits) or i*255/63 (six bits), rounded to nearest |
| Texture.LutsMonotone | Source/UnrealLibretro/Private/sdlarch.cpp:316-317 | both tables map 0 to 0 and the maximum to 255, and are strictly increasing |
| OrderedIo.PreviousIsPredecessor | Source/UnrealLibretro/Private/LibretroCoreInstance.cpp:34-42 | the map entry is exactly the latest operation on the path, or none when the path has none |
| OrderedIo.ScheduleKeepsInvariant | Source/UnrealLibretro/Private/LibretroCoreInstance.cpp:34-42 | scheduling on a path keeps the map pointing at each path's last operation, and every operation chained to its predecessor |
| OrderedIo.RunKeepsOrdered | Source/UnrealLibretro/Private/LibretroCoreInstance.cpp:45-51 | running a ready operation keeps the log ordered: each run once, after its prerequisite, and held ones only after their unlock |
| OrderedIo.SamePathRunsInOrder | Source/UnrealLibretro/Private/LibretroCoreInstance.cpp:45-51 | when an operation runs, every earlier operation on its path has already run |
| OrderedIo.CompletedInOrder | Source/UnrealLibretro/Private/LibretroCoreInstance.cpp:45-51 | in a reachable state, a completed operation's earlier operations on the same path are completed |
| OrderedIo.IoScheduler.constructor | Source/UnrealLibretro/Private/LibretroCoreInstance.cpp:34 | the map starts empty, with nothing scheduled |
| OrderedIo.IoScheduler.Replace | Source/UnrealLibretro/Private/LibretroCoreInstance.cpp:21-26 | the entry now holds the new event and its old value is returned |
| OrderedIo.IoScheduler.MakeOrderedFileAccessOperation | Source/UnrealLibretro/Private/LibretroCoreInstance.cpp:36-53 | the new operation waits for the path's previous entry and becomes its entry. Every other path's entry is unchanged, and the invariant is kept |
| OrderedIo.IoScheduler.ScheduleHeldWrite | Source/UnrealLibretro/Private/LibretroCoreInstance.cpp:204-219 | the held file write waits for the path's current entry and then replaces it; other paths are unchanged |
| OrderedIo.IoScheduler.Unlock | Source/UnrealLibretro/Private/LibretroCoreInstance.cpp:230 | marks the held write unlocked and nothing else |
| OrderedIo.IoScheduler.Run | Source/UnrealLibretro/Private/LibretroCoreInstance.cpp:45-51 | runs an operation exactly when it has not run, its prerequisite has run, and (if held) it is unlocked; records the completion |
| CoreInstance.DefaultRom | Source/UnrealLibretro/Private/LibretroCoreInstance.cpp:93 | "MAZE" for an empty ROM, the ROM otherwise; never empty |
| CoreInstance.DefaultCore | Source/UnrealLibretro/Private/LibretroCoreInstance.cpp:94 | "emux_chip8_libretro.dll" for an empty core, the core otherwise; never empty |
| CoreInstance.LoadStateBody | Source/UnrealLibretro/Private/LibretroCoreInstance.cpp:175-187 | a missing file does nothing. Otherwise the whole file is unserialized, and a size mismatch is flagged exactly when the length differs from serialize_size |
| CoreInstance.PerformTask | Source/UnrealLibretro/Private/LibretroCoreInstance.cpp:191-231 | serialization unlocks its write; an ordered read or write runs exactly when ready |
| CoreInstance.LibretroCoreInstance.constructor | Source/UnrealLibretro/Private/LibretroCoreInstance.cpp:55-61 | not launched, not paused |
| CoreInstance.LibretroCoreInstance.Pause | Source/UnrealLibretro/Private/LibretroCoreInstance.cpp:151-157 | no effect when not launched; otherwise forwards the request and sets Paused |
| CoreInstance.LibretroCoreInstance.Shutdown | Source/UnrealLibretro/Private/LibretroCoreInstance.cpp:159-165 | no effect when not launched; otherwise hands the instance to shutdown and clears it |
| CoreInstance.LibretroCoreInstance.Launch | Source/UnrealLibretro/Private/LibretroCoreInstance.cpp:89-149 | shuts down first and defaults ROM and core. It launches, after scheduling the ordered save-RAM load, exactly when the core file exists and the ROM is a file or a directory; otherwise the I/O chain is untouched |
| CoreInstance.LibretroCoreInstance.LoadState | Source/UnrealLibretro/Private/LibretroCoreInstance.cpp:168-198 | no effect when not launched; otherwise an ordered read chained on the path, enqueued on the instance |
| CoreInstance.LibretroCoreInstance.SaveState | Source/UnrealLibretro/Private/LibretroCoreInstance.cpp:200-233 | no effect when not launched. Otherwise a held write chained after the path's entry and replacing it, plus the serialization task that unlocks it, enqueued on the instance |
| CoreInstance.LibretroCoreInstance.BeginDestroy | Source/UnrealLibretro/Private/LibretroCoreInstance.cpp:267-296 | a launched instance gets an ordered save-RAM write enqueued, then is shut down; otherwise nothing changes but the guard |

## Left out

- OpenGL/SDL windows, contexts, framebuffers and textures, and the render-thread commands are not modelled: they are foreign graphics calls. This covers `video_refresh`, `Update32BitTexture` and `UpdateTextureRegions`; `Update16BitTexture` is modelled up to the filled buffer.
- `resize_to_aspect` and the sleep-based frame pacing are not modelled: they use doubles and the wall clock.
- DLL loading, symbol resolution, the physical DLL copy and the `retro_*` calls into the core are not modelled: they are foreign calls. Only the copy-index bookkeeping and the duplicate's file name are modelled.
- Threads, the task graph and blocking waits are not modelled as concurrency. `IoScheduler.Run` refuses an operation whose prerequisite has not run, instead of blocking on it.
- File contents of save RAM and save states are not modelled, and neither are the reads and writes themselves: they are I/O. `LoadStateBody` takes the file as a parameter.
- `core_log` formatting is not modelled: it is printf-style logging.
- Controller and input-component binding, the editor pause delegates, `InitializeComponent` and `BeginPlay` are not modelled: they are engine integration.
- The trampoline table `func_wrap_table` is represented only by the instance number that indexes it.
- `LibretroContext::Launch`, `Shutdown`, `Pause` and `EnqueueTask`, which the component calls, are not part of this model. The running instance is a record of what the component hands it.
- The plugin module's path helpers (`CorePath`, `ROMPath`, `SaveStatePath`, `SRAMPath`) are not part of this model. They and the file-system existence queries are parameters.
- Libretro command codes are modelled by name (`Libretro.EnvCommand`), since libretro.h is not part of this model. The pixel-format and device numbers are the libretro API values.
- What `SET_HW_RENDER` writes back into the core's struct (host callbacks) is not modelled; only the stored request and the OpenGL flag are. The `SET_INPUT_DESCRIPTORS` logging loop is modelled as returning true with no state change.
- Libretro.Context.CoreEnvironment: the `checkNoEntry` of `SET_CORE_OPTIONS` is a debug assertion and is not modelled; only its `return true` is.
- Libretro.Context.VideoSetPixelFormat: requires a format up to RGB565, because any other format reaches a fatal log that terminates the process. The fatal log when a texture already exists is not modelled.
- Libretro.Context.InputState: requires the indexes to be inside the joypad and analog arrays, because the source reads them unchecked.
- Variables.WellFormedDeclarations: requires a non-null first key, so `SET_VARIABLES` with an array holding only the terminator is outside the model. The source's do-while builds `std::string` from that null key before testing it, which is undefined behaviour (third Findings row). `Context.DeclareVariables` and `Context.CoreEnvironment` inherit this requirement.
- InstanceAllocation.InstancedPathsDistinct: proves that copy paths are distinct only among the copies of one core. Across cores they can collide (`CopyPathCollidesAcrossCores`). Copy 1 of "foo.dll" is "foo1.dll", so launching it while a core "foo1.dll" runs makes `CopyFile` fail, and the check at sdlarch.cpp:830 passes because the file exists. Both instances then share one loaded image. The model does not track which files other cores have loaded.
- Variables.ParseDefault: requires a ';' before the first '|', because the source otherwise reads through a null pointer or builds a string of negative length.
- Audio.AudioQueue: models the engine's circular queue as a FIFO with an abstract capacity. Its actual buffer size and its one-slot reserve are not modelled.
- Libretro.Context.AudioWrite: reading a sample pair as one 32-bit word assumes a little-endian target.
- Texture.Update16BitTexture: does not model the 32-bit wrap-around of `4 * width * height` for very large frames, because `unsigned` arithmetic cannot overflow for real frame sizes.
- InstanceAllocation.FindOrAdd, InstanceAllocation.Allocator.Acquire: compare core paths with exact case. The source's `TMap<FString, …>` (sdlarch.cpp:791) compares `FString` keys ignoring case, so two core paths that differ only in case share one copy-index bitmap in the source but get two in the model.
- OrderedIo.IoScheduler.MakeOrderedFileAccessOperation, OrderedIo.IoScheduler.ScheduleHeldWrite: compare save paths with exact case. The source's `LastIOTask` (LibretroCoreInstance.cpp:34) is a `TMap<FString, …>` that ignores case, so two save paths that differ only in case chain their operations in the source but are independent in the model.
- Libretro.Context.constructor: the field defaults of `LibretroContext` come from its class declaration, and that header is not part of this model. The constructor states the initial state that the code in sdlarch.cpp relies on. The audio queue (line 713) and the directories (lines 782-783) become parameters.
- Libretro.Context.FrameTimeTick: passes the corrected argument of the second Findings row (`FrameTimeArgument`), that is, the unscaled reference interval on the first frame. It does not pass the source's `reference * 1000`, which `FrameTimeArgumentAsWritten` models. It does not model the 64-bit range of `retro_time_t`. Like the source, it treats a previous clock reading of 0 as "no previous frame".

## Findings

| source | as written | input that shows it | evidently intended | confidence | as-written member | corrected member |
|---|---|---|---|---|---|---|
| Source/UnrealLibretro/Private/sdlarch.cpp:824 | `check(CoreInstanceNumber != INDEX_NONE \|\| InstanceNumber != INDEX_NONE)` fails only when both bitmaps are full; both bits are already taken before the check | all 64 copies of one core live, with free slots: the check passes with copy index INDEX_NONE (-1), so the launch loads the original DLL that copy 0 already holds, and teardown clears bit -1; with all 100 slots live, it passes with instance number -1 and indexes the trampoline table at -1 | refuse the launch when either index is INDEX_NONE, and take neither bit | not executed | InstanceAllocation.LaunchCheckAsWritten | InstanceAllocation.Allocator.Acquire |
| Source/UnrealLibretro/Private/sdlarch.cpp:868-876 | the first frame passes `reference * 1000`, because the reference interval is scaled like the millisecond clock delta | a core with a 16667 us reference interval is told its first frame lasted 16667000 us | pass the reference interval unscaled; scale only the clock delta | not executed | Libretro.FrameTimeArgumentAsWritten | Libretro.FrameTimeArgument |
| Source/UnrealLibretro/Private/sdlarch.cpp:448-463 | the `do { ... } while ((++arr_var)->key)` loop processes the first entry before testing its key | an array whose first entry is `{NULL, NULL}`: `std::string key(NULL)` is built from a null pointer | test the key before the first entry as well, so an empty declaration list stores nothing | not executed | Variables.DoWhileTakesNullFirstKey | Variables.DeclaredCountGuarded |
