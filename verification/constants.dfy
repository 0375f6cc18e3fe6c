/** The closed constant tables of the binding: `ColorFormat`, `Bandwidth`,
    `FrameType` and `AudioFormat` (index.js:65-104). Each becomes a datatype
    with its integer encoding and the decoder that inverts it. */
module Constants {
  import opened Optional

  /** Pixel layouts a receiver can ask for (index.js:65-78). */
  datatype ColorFormat = BGRX_BGRA | UYVY_BGRA | RGBX_RGBA | UYVY_RGBA | Fastest | Best | BGRX_BGRA_FLIPPED

  function ColorFormatToInt(c: ColorFormat): (r: int)
    ensures r in {0, 1, 2, 3, 100, 101, 200}
  {
    match c
    case BGRX_BGRA => 0
    case UYVY_BGRA => 1
    case RGBX_RGBA => 2
    case UYVY_RGBA => 3
    case Fastest => 100
    case Best => 101
    case BGRX_BGRA_FLIPPED => 200
  }

  function ColorFormatFromInt(n: int): (r: Option<ColorFormat>)
    ensures r.Some? ==> ColorFormatToInt(r.value) == n
  {
    if n == 0 then Some(BGRX_BGRA)
    else if n == 1 then Some(UYVY_BGRA)
    else if n == 2 then Some(RGBX_RGBA)
    else if n == 3 then Some(UYVY_RGBA)
    else if n == 100 then Some(Fastest)
    else if n == 101 then Some(Best)
    else if n == 200 then Some(BGRX_BGRA_FLIPPED)
    else None
  }

  /** The decoder and the encoding are inverse: n decodes to c exactly when c encodes as n. */
  lemma ColorFormatCoding(c: ColorFormat, n: int)
    ensures ColorFormatFromInt(n) == Some(c) <==> ColorFormatToInt(c) == n
  {
  }

  /** Distinct formats have distinct values. */
  lemma ColorFormatDistinct(c: ColorFormat, d: ColorFormat)
    requires c != d
    ensures ColorFormatToInt(c) != ColorFormatToInt(d)
  {
    ColorFormatCoding(c, ColorFormatToInt(c));
    ColorFormatCoding(d, ColorFormatToInt(c));
  }

  /** How much a receiver pulls (index.js:80-85). */
  datatype Bandwidth = MetadataOnly | AudioOnly | Lowest | Highest

  function BandwidthToInt(b: Bandwidth): (r: int)
    ensures r in {-10, 0, 10, 100}
  {
    match b
    case MetadataOnly => -10
    case AudioOnly => 10
    case Lowest => 0
    case Highest => 100
  }

  function BandwidthFromInt(n: int): (r: Option<Bandwidth>)
    ensures r.Some? ==> BandwidthToInt(r.value) == n
  {
    if n == -10 then Some(MetadataOnly)
    else if n == 10 then Some(AudioOnly)
    else if n == 0 then Some(Lowest)
    else if n == 100 then Some(Highest)
    else None
  }

  lemma BandwidthCoding(b: Bandwidth, n: int)
    ensures BandwidthFromInt(n) == Some(b) <==> BandwidthToInt(b) == n
  {
  }

  lemma BandwidthDistinct(b: Bandwidth, c: Bandwidth)
    requires b != c
    ensures BandwidthToInt(b) != BandwidthToInt(c)
  {
    BandwidthCoding(b, BandwidthToInt(b));
    BandwidthCoding(c, BandwidthToInt(b));
  }

  /** The streams a tier carries, as the comments on index.js:81-84 give them. */
  datatype Payload = Metadata | Audio | Video

  function Receives(b: Bandwidth): set<Payload> {
    match b
    case MetadataOnly => {Metadata}
    case AudioOnly => {Metadata, Audio}
    case Lowest => {Metadata, Audio, Video}
    case Highest => {Metadata, Audio, Video}
  }

  datatype Resolution = Reduced | Full

  /** The video resolution of a tier; none for the tiers without video. */
  function VideoResolution(b: Bandwidth): (r: Option<Resolution>)
    ensures r.Some? <==> Video in Receives(b)
  {
    match b
    case MetadataOnly => None
    case AudioOnly => None
    case Lowest => Some(Reduced)
    case Highest => Some(Full)
  }

  /** The tiers form a chain: metadata, then metadata and audio, then all three
      at reduced and then at full resolution. Every tier carries metadata. */
  lemma BandwidthChain(b: Bandwidth)
    ensures Metadata in Receives(b)
    ensures Receives(MetadataOnly) < Receives(AudioOnly) < Receives(Lowest)
    ensures Receives(Lowest) == Receives(Highest)
    ensures VideoResolution(Lowest) == Some(Reduced) && VideoResolution(Highest) == Some(Full)
  {
    assert Audio !in Receives(MetadataOnly);
    assert Video !in Receives(AudioOnly);
  }

  /** The content order does not follow the numbers: AudioOnly has the larger
      value but receives strictly less than Lowest. */
  lemma ContentOrderIsNotNumeric()
    ensures BandwidthToInt(AudioOnly) > BandwidthToInt(Lowest)
    ensures Receives(AudioOnly) < Receives(Lowest)
  {
    BandwidthChain(AudioOnly);
  }

  /** Field structure of a video frame (index.js:87-92). */
  datatype FrameType = Progressive | Interlaced | Field0 | Field1

  function FrameTypeToInt(f: FrameType): (r: int)
    ensures 0 <= r <= 3
  {
    match f
    case Progressive => 1
    case Interlaced => 0
    case Field0 => 2
    case Field1 => 3
  }

  function FrameTypeFromInt(n: int): (r: Option<FrameType>)
    ensures r.Some? ==> FrameTypeToInt(r.value) == n
  {
    if n == 1 then Some(Progressive)
    else if n == 0 then Some(Interlaced)
    else if n == 2 then Some(Field0)
    else if n == 3 then Some(Field1)
    else None
  }

  lemma FrameTypeCoding(f: FrameType, n: int)
    ensures FrameTypeFromInt(n) == Some(f) <==> FrameTypeToInt(f) == n
  {
  }

  lemma FrameTypeDistinct(f: FrameType, g: FrameType)
    requires f != g
    ensures FrameTypeToInt(f) != FrameTypeToInt(g)
  {
    FrameTypeCoding(f, FrameTypeToInt(f));
    FrameTypeCoding(g, FrameTypeToInt(f));
  }

  /** Sample layouts (index.js:94-104). */
  datatype AudioFormat = Float32Separate | Float32Interleaved | Int16Interleaved

  function AudioFormatToInt(a: AudioFormat): (r: int)
    ensures 0 <= r <= 2
  {
    match a
    case Float32Separate => 0
    case Float32Interleaved => 1
    case Int16Interleaved => 2
  }

  function AudioFormatFromInt(n: int): (r: Option<AudioFormat>)
    ensures r.Some? ==> AudioFormatToInt(r.value) == n
  {
    if n == 0 then Some(Float32Separate)
    else if n == 1 then Some(Float32Interleaved)
    else if n == 2 then Some(Int16Interleaved)
    else None
  }

  lemma AudioFormatCoding(a: AudioFormat, n: int)
    ensures AudioFormatFromInt(n) == Some(a) <==> AudioFormatToInt(a) == n
  {
  }

  lemma AudioFormatDistinct(a: AudioFormat, b: AudioFormat)
    requires a != b
    ensures AudioFormatToInt(a) != AudioFormatToInt(b)
  {
    AudioFormatCoding(a, AudioFormatToInt(a));
    AudioFormatCoding(b, AudioFormatToInt(a));
  }
}
