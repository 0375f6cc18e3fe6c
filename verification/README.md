# grandiose binding layer, modelled in Dafny

grandiose exposes the NDI video/audio-over-IP library to Node.js. Everything
that moves frames, discovers sources or keeps time lives in the closed native
addon. What the JavaScript entry point `index.js` adds on top is a small layer,
and this project models that layer:

- **FourCC packing** (`FourCC`): `NDI_LIB_FOURCC` packs four one-character
  strings into a signed 32-bit integer, the first character in the lowest byte.
  The model follows JavaScript for every string a Dafny `string` can hold.
  `charCodeAt(0)` yields a UTF-16 code unit, or NaN for an empty string. A
  JavaScript string that starts with a lone surrogate cannot be represented. `<<` and `|` work on 32-bit two's-complement
  patterns (module `Js`). The twelve `FOURCC_*` constants are a datatype `Tag`.
- **Constant tables** (`Constants`): `ColorFormat`, `Bandwidth`, `FrameType` and
  `AudioFormat` become datatypes. Each has its integer encoding and a decoder
  that inverts it. `Bandwidth` also carries the content sets its comments give.
- **Discovery options** (`Discovery`): `find` rewrites `groups` and `extraIPs`
  in place on the caller's `Options` object. An array becomes one
  comma-joined string through `reduce`. The result is then handed to the
  backend.
- **Platform gate** (`Platform`): `isSupportedPlatform` chooses between the
  native addon and an inert stub. The module's exports are modelled too.

The host's `process.platform` and `process.arch` are parameters. What the native
addon answers is not modelled; the model only records that it was called and
with what.

Two behaviours of `index.js` are easy to miss:
- index.d.ts:116-120 declares `find` as returning `Promise<Source[]>`. On an
  unsupported platform the stub at index.js:31 answers `null` (not a promise)
  when given options. Without arguments the call throws (see Findings).
- `find` joins an array in `groups` or `extraIPs` with commas and writes the
  string back into the caller's own options object (index.js:108-113). An empty
  array makes `reduce` throw a TypeError. When only `extraIPs` is empty, that
  happens after `groups` has already been rewritten.

## Model

| member | source | states |
|---|---|---|
| `Js.CharCodeAt0` | index.js:35 | `charCodeAt(0)` is NaN exactly for the empty string; otherwise it is the first UTF-16 code unit of the first character: the character's own code below 65536, its high surrogate above |
| `Js.ShiftLeft` | index.js:35 | `a << n` is a signed 32-bit integer whose bit pattern is a's pattern times 2^(n mod 32), cut to 32 bits |
| `Js.BitOr` | index.js:35 | `a \| b` is a signed 32-bit integer whose bit pattern is the bitwise or of the two patterns |
| `FourCC.PackCodes` | index.js:34-35 | `NDI_LIB_FOURCC` on character codes always yields a signed 32-bit integer; its value is stated by `FourCC.PackPattern` and `FourCC.PackValue` |
| `FourCC.Pack` | index.js:34-35 | `NDI_LIB_FOURCC` on four strings, each contributing `charCodeAt(0)`, yields a signed 32-bit integer; the round trip is `FourCC.CharsRoundTrip` |
| `FourCC.Value` | index.js:37-48 | each `FOURCC_*` constant is a signed 32-bit integer; `FourCC.ValueDecodes` and `FourCC.ValueTable` give its exact value |
| `Js.OrDisjoint` | index.js:35 | or-ing a value into bits that are all zero is addition, so the shifted characters never interfere while their codes fit a byte |
| `Js.SignedFromPattern` | index.js:35 | a signed 32-bit result is its bit pattern read as two's complement |
| `FourCC.PackPattern` | index.js:34-35 | for codes below 256 the packed bit pattern is c0 + 256·c1 + 65536·c2 + 16777216·c3 |
| `FourCC.PackValue` | index.js:34-35 | the signed result is that number when the last code is below 128, and that number less 2^32 otherwise |
| `FourCC.RoundTrip` | index.js:34-35 | decoding the four bytes of the packed value gives back the four codes, whenever each is below 256 |
| `FourCC.Injective` | index.js:34-35 | packing byte-sized codes is injective |
| `FourCC.CharsRoundTrip` | index.js:34-35 | the round trip stated for one-character string arguments, as the constants use them |
| `FourCC.CharsInjective` | index.js:34-35 | different characters below 256 never pack to the same tag |
| `FourCC.WideCodesCollide` | index.js:34-35 | beyond one byte the codes overlap: a code of 256 in the first place packs like a code of 1 in the second |
| `FourCC.HighLastCharacterIsNegative` | index.js:35 | whatever byte-sized characters come first, a last character from 128 to 255 sets the sign bit, making the tag negative |
| `FourCC.ValueSpellsName` | index.js:37-62 | each `FOURCC_*` constant packs the four ASCII characters of its own field name |
| `FourCC.ValueDecodes` | index.js:37-48 | every constant is non-negative and decodes to the characters of its name |
| `FourCC.ValuesDistinct` | index.js:37-48 | the twelve constants are pairwise distinct |
| `FourCC.ValueTable` | index.js:37-48 | the constants' values, e.g. `UYVY` = 0x59565955 and `FLTp` = 0x70544C46 |
| `FourCC.FromValue` | index.js:50-63 | the decoder from an integer to a tag only answers a tag whose constant is that integer |
| `FourCC.FromValueOfValue` | index.js:50-63 | decoding a constant gives back its tag |
| `Constants.ColorFormatToInt` | index.js:65-78 | every colour format encodes as one of 0, 1, 2, 3, 100, 101, 200 |
| `Constants.ColorFormatFromInt` | index.js:65-78 | the decoder only answers a format that encodes as the given number |
| `Constants.ColorFormatCoding` | index.js:65-78 | n decodes to a colour format exactly when that format encodes as n |
| `Constants.ColorFormatDistinct` | index.js:65-78 | distinct colour formats have distinct values |
| `Constants.BandwidthToInt` | index.js:80-85 | every tier encodes as one of -10, 0, 10, 100 |
| `Constants.BandwidthFromInt` | index.js:80-85 | the decoder only answers a tier that encodes as the given number |
| `Constants.BandwidthCoding` | index.js:80-85 | n decodes to a bandwidth tier exactly when that tier encodes as n |
| `Constants.BandwidthDistinct` | index.js:80-85 | distinct tiers have distinct values |
| `Constants.VideoResolution` | index.js:83-84 | a tier has a video resolution exactly when it receives video |
| `Constants.BandwidthChain` | index.js:81-84 | every tier carries metadata; metadata ⊂ metadata+audio ⊂ metadata+audio+video; Lowest and Highest carry the same streams, at reduced and full resolution |
| `Constants.ContentOrderIsNotNumeric` | index.js:81-83 | `AudioOnly` has the larger value (10 > 0) but receives strictly less than `Lowest` |
| `Constants.FrameTypeToInt` | index.js:87-92 | every frame type encodes as a number from 0 to 3 |
| `Constants.FrameTypeFromInt` | index.js:87-92 | the decoder only answers a frame type that encodes as the given number |
| `Constants.FrameTypeCoding` | index.js:87-92 | n decodes to a frame type exactly when that type encodes as n |
| `Constants.FrameTypeDistinct` | index.js:87-92 | distinct frame types have distinct values |
| `Constants.AudioFormatToInt` | index.js:94-104 | every audio format encodes as a number from 0 to 2 |
| `Constants.AudioFormatFromInt` | index.js:94-104 | the decoder only answers an audio format that encodes as the given number |
| `Constants.AudioFormatCoding` | index.js:94-104 | n decodes to an audio format exactly when that format encodes as n |
| `Constants.AudioFormatDistinct` | index.js:94-104 | distinct audio formats have distinct values |
| `Discovery.Options.constructor` | index.js:106-113 | a new options object holds the given `showLocalSources`, `groups` and `extraIPs` |
| `Discovery.ReduceJoin` | index.js:109 | `reduce((x, y) => x + ',' + y)` throws a TypeError on an empty array and otherwise yields the elements joined by commas, in order |
| `Discovery.FoldIsJoined` | index.js:109 | the left fold that `reduce` performs equals the right-recursive comma join |
| `Discovery.JoinedLength` | index.js:109 | the joined length is the sum of the element lengths plus one comma per neighbouring pair |
| `Discovery.JoinedSingle` | index.js:109 | a one-element array yields that element unchanged |
| `Discovery.SplitJoined` | index.js:108-113 | splitting the joined string at commas gives back the array when no element contains a comma |
| `Discovery.JoinedSplit` | index.js:108-113 | joining the pieces of any string split at commas gives back the string |
| `Discovery.NormaliseField` | index.js:108-113 | a non-empty array field becomes the string of its elements joined by commas, an empty array throws, and any other field is left alone |
| `Discovery.Normalise` | index.js:108-113 | the pass over both fields keeps `showLocalSources`, throws exactly when `groups` or `extraIPs` is an empty array, and leaves no array behind when it succeeds |
| `Discovery.Find` | index.js:106-115 | no arguments dispatch `addon.find()` with no options; a nullish first argument throws; otherwise the caller's object is rewritten in place and a throw stops the pass |
| `Discovery.NormaliseFails` | index.js:108-113 | the pass throws exactly when `groups` or `extraIPs` is an empty array, and then with the reduce TypeError |
| `Discovery.NormalisePartial` | index.js:108-113 | an empty `groups` throws before anything is written; an empty `extraIPs` throws after `groups` was rewritten |
| `Discovery.NormaliseResult` | index.js:108-113 | after a successful pass neither field is an array, each array field holds its comma join, non-array fields and `showLocalSources` are unchanged |
| `Discovery.NormaliseKeepsOtherFields` | index.js:108-113 | `showLocalSources` is never touched, whether or not the pass throws |
| `Discovery.NormaliseIndependent` | index.js:108-113 | `groups` and `extraIPs` are normalised independently of each other |
| `Discovery.NormaliseIdempotent` | index.js:107-114 | a second pass over a successfully normalised object changes nothing and does not throw |
| `Discovery.ListFiltersLikeString` | index.js:108-110 | a `groups` array gives the backend exactly what its literal comma-joined string gives |
| `Discovery.TwoGroupsExample` | index.js:109 | `["a", "b"]` joins to `"a,b"` |
| `Platform.IsSupportedPlatform` | index.js:117-120 | only darwin, linux and win32 can be supported, and win32 exactly on ia32 or x64 |
| `Platform.SupportedCases` | index.js:117-120 | supported exactly on darwin and linux (any CPU) and on win32 with ia32 or x64 |
| `Platform.LoadBackend` | index.js:18-32 | the native addon is loaded exactly when the platform is supported |
| `Platform.Call` | index.js:23-30 | the stub's answers are all falsy, `false` only for `isSupportedCPU`; a native call is passed to the native addon |
| `Platform.UnsupportedIsInert` | index.js:18-30 | on an unsupported platform `isSupportedCPU()` is false and every other operation answers null |
| `Platform.StubFind` | index.js:31 | the corrected stub `find` answers null however it is called, and agrees with the code whenever options are passed |
| `Platform.StubFindAsWritten` | index.js:31 | the stub `find` as written throws exactly when called bare, and answers null through `apply` |
| `Platform.StubFindZeroArgumentsThrows` | index.js:31 | the stub `find` as written answers null through `apply` but throws when called bare, which `find()` does |
| `Platform.FindReply` | index.js:107-114 | the stub answers null to any dispatch; the native addon receives the dispatch itself |
| `Platform.FindOn` | index.js:106-120 | the exported `find` on a platform: options are normalised in place; a nullish first argument throws; a failed normalisation throws its error; otherwise the loaded backend answers the dispatch `apply(null, args)` with the normalised options; an unsupported platform answers null |
| `Platform.AudioFormatNotExported` | index.js:122-135 | every constant table is exported except `AudioFormat` |

## Findings

| source | as written | input that shows it | evidently intended | confidence | as-written member | corrected member |
|---|---|---|---|---|---|---|
| index.js:31 | the stub's `find` is an object with an `apply` method, yet `find()` with no arguments calls `addon.find()` directly (index.js:107) | `find()` with no arguments where `process.platform` is `"freebsd"`: TypeError, `addon.find` is not a function | the stub answers null, as it does for `find({})` and as every other stub operation does | high (not executed) | `Platform.StubFindAsWritten`, `Platform.StubFindZeroArgumentsThrows` | `Platform.StubFind` |

## Left out

- The native addon (`require('bindings')`) is not part of this model. Its `find`, `receive`, `send`, `routing`, `initialize`, `destroy`, `version` and `isSupportedCPU` do discovery, transport and timing in closed code. Their answers appear only as `FromNative` / `FromNativeFind` markers.
- scripts/ndi.mjs is not part of this model. It downloads and unpacks the SDK, which is process and file-system I/O. Its platform check repeats `isSupportedPlatform`.
- index.d.ts holds type declarations only. Its enum literals agree with the tables modelled in `Constants`.
- Promises, `Buffer` payloads and floating-point frame fields are not modelled. They belong to the native frame API.
- Reading `process.platform` and `process.arch` at module load is not modelled. Both are parameters instead.
- The tables are exported as classes whose values are instance fields, so `FourCC.UYVY` on the export itself is `undefined` and the values need `new FourCC()`. The model gives the values and not this property-access behaviour.
- `Discovery.Find`: array elements are strings. JavaScript's `+` would also coerce numbers or objects, and would skip holes in sparse arrays. Arguments after the first are forwarded without being inspected and are modelled only by their count.
- `Discovery.Field`: a field holds nothing, a string or an array of strings. Other JavaScript values pass through `find` untouched just as a string does.
- `Discovery.Find`: the first argument is an options object or nullish. A primitive such as a string has no `groups` property, so `find` would forward it unchanged; the model does not represent that case.
- `Platform.FindOn`: "the only errors are normalisation errors" holds on a supported platform only because the native `find` is modelled as never throwing. What the native addon does is not part of this model.
- `Platform.FindOn` and `Platform.FindReply` use the corrected stub `find` (`Platform.StubFind`). The code as written is `Platform.StubFindAsWritten`.
