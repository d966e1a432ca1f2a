/** Small decisions the synchronisation logic is built on: which clock is the
    master, and how sample formats of the decoder library and of the audio
    device correspond. */
module Decisions {

  /** The clock the other streams are synchronised to. */
  datatype SyncType = AudioMaster | VideoMaster | ExternalClock

  /** The master clock actually used: the requested one, falling back when its
      stream is missing (video falls back to audio, audio to the external clock). */
  function GetMasterSyncType(requested: SyncType, videoValid: bool, audioValid: bool): (r: SyncType)
    ensures r == VideoMaster <==> requested == VideoMaster && videoValid
    ensures r == AudioMaster <==> (requested == AudioMaster && audioValid) || (requested == VideoMaster && !videoValid)
    ensures r == ExternalClock <==> requested == ExternalClock || (requested == AudioMaster && !audioValid)
  {
    match requested
    case VideoMaster => if videoValid then VideoMaster else AudioMaster
    case AudioMaster => if audioValid then AudioMaster else ExternalClock
    case ExternalClock => ExternalClock
  }

  /** As long as the media has at least one stream, the master is a clock that
      is actually driven: video only with a video stream, audio only with an
      audio stream. (With no stream at all a video request would fall back to
      audio although there is none.) */
  lemma MasterHasStream(requested: SyncType, videoValid: bool, audioValid: bool)
    requires videoValid || audioValid
    ensures var r := GetMasterSyncType(requested, videoValid, audioValid);
      (r == VideoMaster ==> videoValid) && (r == AudioMaster ==> audioValid)
  {
  }

  /** Applying the fallback to its own result changes nothing more. */
  lemma MasterIsStable(requested: SyncType, videoValid: bool, audioValid: bool)
    requires videoValid || audioValid
    ensures var r := GetMasterSyncType(requested, videoValid, audioValid);
      GetMasterSyncType(r, videoValid, audioValid) == r
  {
  }

  /** Sample formats of the audio device layer. */
  datatype AudioFormatType =
    | FormatNone | FormatU8 | FormatS16 | FormatS24 | FormatS32 | FormatS64 | FormatF32 | FormatF64

  /** Sample formats of the decoder library; the `P` variants store one plane
      per channel. */
  datatype SampleFormat =
    | SampleNone
    | SampleU8 | SampleS16 | SampleS32 | SampleFlt | SampleDbl
    | SampleU8P | SampleS16P | SampleS32P | SampleFltP | SampleDblP
    | SampleS64 | SampleS64P

  /** Device formats the mapping to the decoder library supports (interleaved only). */
  predicate IsConvertibleFormat(f: AudioFormatType) {
    f in {FormatU8, FormatS16, FormatS32, FormatF32, FormatF64}
  }

  /** The interleaved decoder-library format for a device format, or none. */
  function MapAudioFormatType(f: AudioFormatType): (r: SampleFormat)
    ensures r == SampleNone <==> !IsConvertibleFormat(f)
    ensures !IsPlanarSampleFormat(r)
  {
    match f
    case FormatU8 => SampleU8
    case FormatS16 => SampleS16
    case FormatS32 => SampleS32
    case FormatF32 => SampleFlt
    case FormatF64 => SampleDbl
    case _ => SampleNone
  }

  /** The device format for a decoder-library format, planar or not. */
  function MapAVSampleFormat(s: SampleFormat): (r: AudioFormatType)
    ensures r == FormatNone <==> s == SampleNone
    ensures r != FormatS24
  {
    match s
    case SampleU8 | SampleU8P => FormatU8
    case SampleS16 | SampleS16P => FormatS16
    case SampleS32 | SampleS32P => FormatS32
    case SampleS64 | SampleS64P => FormatS64
    case SampleFlt | SampleFltP => FormatF32
    case SampleDbl | SampleDblP => FormatF64
    case SampleNone => FormatNone
  }

  /** Whether a decoder-library format stores one plane per channel. */
  predicate IsPlanarSampleFormat(s: SampleFormat): (b: bool)
    ensures b ==> s != SampleNone && MapAVSampleFormat(s) != FormatNone
  {
    match s
    case SampleU8P | SampleS16P | SampleS32P | SampleS64P | SampleFltP | SampleDblP => true
    case _ => false
  }

  /** Every supported device format survives the trip to the decoder library and back. */
  lemma DeviceFormatRoundTrip(f: AudioFormatType)
    requires IsConvertibleFormat(f)
    ensures MapAVSampleFormat(MapAudioFormatType(f)) == f
  {
  }

  /** Going from a decoder format to the device and back gives the interleaved
      counterpart: not planar, and of the same sample type. Only 64-bit integer
      samples have no way back. */
  lemma SampleFormatRoundTrip(s: SampleFormat)
    requires s != SampleNone && s != SampleS64 && s != SampleS64P
    ensures var r := MapAudioFormatType(MapAVSampleFormat(s));
      !IsPlanarSampleFormat(r) && MapAVSampleFormat(r) == MapAVSampleFormat(s)
      && (!IsPlanarSampleFormat(s) ==> r == s)
  {
  }

  /** Apart from 64-bit integer samples, which have no way back from the
      device, a format is planar exactly when the trip to the device and back
      changes it (into its interleaved counterpart). */
  lemma PlanarIffRoundTripChanges(s: SampleFormat)
    requires s != SampleS64
    ensures IsPlanarSampleFormat(s) <==> s != SampleNone && MapAudioFormatType(MapAVSampleFormat(s)) != s
  {
  }

  /** The planar and the interleaved variant of a sample type map to the same
      device format, and exactly one of the two is planar. */
  lemma PlanarPairs(s: SampleFormat, t: SampleFormat)
    requires s != t && s != SampleNone && t != SampleNone
    requires MapAVSampleFormat(s) == MapAVSampleFormat(t)
    ensures IsPlanarSampleFormat(s) != IsPlanarSampleFormat(t)
  {
  }
}
