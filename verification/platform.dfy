/** The platform gate and what the module exports (index.js:18-32, 117-135):
    on a supported platform the native addon is loaded; elsewhere an inert stub
    takes its place, whose operations answer `null` (or `false` for
    `isSupportedCPU`). The host's `process.platform` and `process.arch` are
    parameters here. */
module Platform {
  import opened Js
  import opened Discovery

  /** `isSupportedPlatform()` (index.js:117-120). */
  predicate IsSupportedPlatform(platform: string, arch: string)
    ensures IsSupportedPlatform(platform, arch) ==> platform in {"darwin", "linux", "win32"}
    ensures platform == "win32" ==> (IsSupportedPlatform(platform, arch) <==> arch == "ia32" || arch == "x64")
  {
    platform == "darwin" || platform == "linux" ||
    (platform == "win32" && arch in ["ia32", "x64"])
  }

  /** Stated case by case: macOS and Linux on any CPU, Windows only on 32- and
      64-bit x86, nothing else. */
  lemma SupportedCases(platform: string, arch: string)
    ensures platform == "darwin" || platform == "linux" ==> IsSupportedPlatform(platform, arch)
    ensures platform == "win32" ==> (IsSupportedPlatform(platform, arch) <==> arch == "ia32" || arch == "x64")
    ensures platform !in {"darwin", "linux", "win32"} ==> !IsSupportedPlatform(platform, arch)
  {
  }

  /** Which implementation the module loaded. */
  datatype Backend = Native | Stub

  /** The choice made once, at load time (index.js:18-32). */
  function LoadBackend(platform: string, arch: string): (b: Backend)
    ensures b == Native <==> IsSupportedPlatform(platform, arch)
  {
    if IsSupportedPlatform(platform, arch) then Native else Stub
  }

  /** The addon's operations other than `find`. */
  datatype Operation = Version | IsSupportedCPU | Initialize | Destroy | Send | Receive | Routing

  /** What an operation answers. What the native addon returns is not part of
      this model; it is only recorded that the native code answered. */
  datatype Reply = Null | False | FromNative(op: Operation) | FromNativeFind(call: Dispatch)

  predicate Falsy(r: Reply) {
    r == Null || r == False
  }

  /** Calling one of the exported operations. */
  function Call(b: Backend, op: Operation): (r: Reply)
    ensures b == Stub ==> Falsy(r)
    ensures b == Stub ==> (r == False <==> op == IsSupportedCPU)
    ensures b == Native ==> r == FromNative(op)
  {
    match b
    case Native => FromNative(op)
    case Stub => if op == IsSupportedCPU then False else Null
  }

  /** On an unsupported platform every operation is an inert no-op:
      `isSupportedCPU()` is false and the rest answer null. */
  lemma UnsupportedIsInert(platform: string, arch: string, op: Operation)
    requires !IsSupportedPlatform(platform, arch)
    ensures Call(LoadBackend(platform, arch), IsSupportedCPU) == False
    ensures op != IsSupportedCPU ==> Call(LoadBackend(platform, arch), op) == Null
  {
  }

  /** The stub's `find` as written (index.js:31): an object with an `apply`
      method, so `addon.find.apply(null, args)` answers null but the bare call
      `addon.find()` that `find` makes with no arguments (index.js:107) is a
      call of a non-function and throws. */
  function StubFindAsWritten(d: Dispatch): (r: Completion<Reply>)
    ensures r.Throw? <==> d == Direct
    ensures r.Normal? ==> r.value == Null
  {
    match d
    case Direct => Throw(TypeError(NotAFunction))
    case Apply(_, _) => Normal(Null)
  }

  /** The stub's `find` as evidently intended: null for every way of calling it. */
  function StubFind(d: Dispatch): (r: Completion<Reply>)
    ensures r == Normal(Null)
    ensures d.Apply? ==> r == StubFindAsWritten(d)
  {
    Normal(Null)
  }

  /** The inconsistency: with an options object the stub answers null, without
      one it throws. */
  lemma StubFindZeroArgumentsThrows(o: OptionsValue)
    ensures StubFindAsWritten(Apply(o, 1)) == Normal(Null)
    ensures StubFindAsWritten(Direct) == Throw(TypeError(NotAFunction))
    ensures StubFind(Direct) == Normal(Null)
  {
  }

  /** The backend's answer to what `find` dispatched. */
  function FindReply(b: Backend, d: Dispatch): (r: Completion<Reply>)
    ensures b == Stub ==> r == Normal(Null)
    ensures b == Native ==> r == Normal(FromNativeFind(d))
  {
    match b
    case Native => Normal(FromNativeFind(d))
    case Stub => StubFind(d)
  }

  /** The exported `find` on a given platform: normalise and dispatch, then
      let the loaded backend answer. On an unsupported platform the only
      errors are the normalisation's own, and otherwise the answer is null. */
  method FindOn(platform: string, arch: string, args: seq<Options?>) returns (r: Completion<Reply>)
    modifies if |args| > 0 && args[0] != null then {args[0]} else {}
    ensures |args| > 0 && args[0] != null ==> args[0].Value() == Normalise(old(args[0].Value())).after
    ensures !IsSupportedPlatform(platform, arch) && r.Normal? ==> r.value == Null
    ensures r.Throw? ==> r.error in {TypeError(ReduceOfEmptyArray), TypeError(ReadPropertyOfNullish)}
    ensures |args| == 0 ==> r == FindReply(LoadBackend(platform, arch), Direct)
    ensures |args| > 0 && args[0] == null ==> r == Throw(TypeError(ReadPropertyOfNullish))
    ensures |args| > 0 && args[0] != null ==>
      var n := Normalise(old(args[0].Value()));
      r == (if n.error.Some? then Throw(n.error.value)
            else FindReply(LoadBackend(platform, arch), Apply(n.after, |args|)))
  {
    var d := Find(args);
    if d.Throw? {
      if |args| > 0 && args[0] != null {
        NormaliseFails(old(args[0].Value()));
      }
      return Throw(d.error);
    }
    r := FindReply(LoadBackend(platform, arch), d.value);
  }

  /** The constant tables defined in index.js. */
  datatype Table = FourCCTable | ColorFormatTable | BandwidthTable | FrameTypeTable | AudioFormatTable

  function TableName(t: Table): string {
    match t
    case FourCCTable => "FourCC"
    case ColorFormatTable => "ColorFormat"
    case BandwidthTable => "Bandwidth"
    case FrameTypeTable => "FrameType"
    case AudioFormatTable => "AudioFormat"
  }

  /** The keys of `module.exports` (index.js:122-135). */
  const ExportedNames: set<string> := {
    "version", "isSupportedCPU", "initialize", "destroy", "find", "receive", "send", "routing",
    "ColorFormat", "FrameType", "FourCC", "Bandwidth"
  }

  /** Every table is exported except `AudioFormat`. */
  lemma AudioFormatNotExported(t: Table)
    ensures TableName(t) in ExportedNames <==> t != AudioFormatTable
  {
  }
}
