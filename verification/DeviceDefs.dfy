/** What a device is: its identity, encodings, network configuration and endpoints. */
module DeviceDefs {

  type Uint32 = x: int | 0 <= x < 0x1_0000_0000
  type Uint64 = x: int | 0 <= x < 0x1_0000_0000_0000_0000
  type Int64 = x: int | -0x8000_0000_0000_0000 <= x < 0x8000_0000_0000_0000

  datatype Option<+T> = None | Some(value: T)

  /** The two kinds of exceptions the driver throws. */
  datatype Error = InvalidArgument | RuntimeFailure

  datatype Result<+T> = Ok(value: T) | Err(error: Error) {
    predicate IsFailure() { Err? }

    function PropagateFailure<U>(): Result<U>
      requires Err?
    {
      Err(error)
    }

    function Extract(): T
      requires Ok?
    {
      value
    }
  }

  datatype DeviceType = Sender | Receiver

  datatype ChannelLayout = Multitrack | Mono | Stereo

  datatype Interface = Aggregate | AudioSource | AudioRepair | AudioControl

  datatype Subformat =
    | SInt8 | UInt8
    | SInt16 | SInt16Le | SInt16Be | UInt16 | UInt16Le | UInt16Be
    | SInt24 | SInt24Le | SInt24Be | UInt24 | UInt24Le | UInt24Be
    | SInt32 | SInt32Le | SInt32Be | UInt32 | UInt32Le | UInt32Be
    | SInt64 | SInt64Le | SInt64Be | UInt64 | UInt64Le | UInt64Be
    | Float32 | Float32Le | Float32Be | Float64 | Float64Le | Float64Be

  datatype Format = NoFormat | Pcm

  datatype FecEncoding = FecDisable | FecDefault | FecRs8m | FecLdpcStaircase

  datatype LatencyTunerBackend = TunerDefault | TunerNiq

  datatype LatencyTunerProfile =
    | ProfileDefault | ProfileIntact | ProfileResponsive | ProfileGradual | ProfileSecondOrder

  datatype ResamplerBackend = ResamplerDefault | ResamplerBuiltin | ResamplerSpeex | ResamplerSpeexDec

  datatype ResamplerProfile = QualityDefault | QualityHigh | QualityMedium | QualityLow

  datatype MediaEncoding = MediaEncoding(
    format: Format, subformat: Subformat, rate: Uint32, channels: ChannelLayout, tracks: Uint32)

  datatype PacketEncoding = PacketEncoding(id: Uint32, spec: MediaEncoding)

  datatype SenderConfig = SenderConfig(
    packetEncoding: Option<PacketEncoding>,
    packetLengthNs: Uint64,
    fecEncoding: FecEncoding,
    fecBlockSourcePackets: Uint32,
    fecBlockRepairPackets: Uint32,
    tunerBackend: LatencyTunerBackend,
    tunerProfile: LatencyTunerProfile,
    resamplerBackend: ResamplerBackend,
    resamplerProfile: ResamplerProfile,
    targetLatencyNs: Int64,
    latencyToleranceNs: Int64,
    maxPacketSize: Uint32)

  const DEFAULT_SENDER: SenderConfig := SenderConfig(
    None, 0, FecRs8m, 0, 0, TunerDefault, ProfileDefault, ResamplerDefault, QualityDefault, 0, 0, 0)

  datatype ReceiverConfig = ReceiverConfig(
    packetEncodings: seq<PacketEncoding>,
    tunerBackend: LatencyTunerBackend,
    tunerProfile: LatencyTunerProfile,
    resamplerBackend: ResamplerBackend,
    resamplerProfile: ResamplerProfile,
    targetLatencyNs: Int64,
    latencyToleranceNs: Int64,
    noPlaybackTimeoutNs: Int64,
    choppyPlaybackTimeoutNs: Int64,
    maxPacketSize: Uint32)

  const DEFAULT_RECEIVER: ReceiverConfig := ReceiverConfig(
    [], TunerDefault, ProfileDefault, ResamplerDefault, QualityDefault, 0, 0, 0, 0, 0)

  datatype Endpoint = Endpoint(slot: Uint32, iface: Interface, uri: string)

  datatype LocalEncoding = LocalEncoding(
    sampleRate: Uint32, channelLayout: ChannelLayout, bufferLengthNs: Int64, channelCount: nat, bufferSamples: nat)

  const DEFAULT_ENCODING: LocalEncoding := LocalEncoding(44100, Stereo, 60_000_000, 0, 0)

  datatype DeviceInfo = DeviceInfo(
    kind: DeviceType,
    index: Uint32,
    uid: string,
    name: string,
    enabled: bool,
    deviceEncoding: LocalEncoding,
    senderConfig: Option<SenderConfig>,
    receiverConfig: Option<ReceiverConfig>,
    localEndpoints: seq<Endpoint>,
    remoteEndpoints: seq<Endpoint>)

  // ---------------------------------------------------------------- well-formed values

  const MIN_TRACK_COUNT := 1
  const MAX_TRACK_COUNT := 1024

  predicate TracksOk(layout: ChannelLayout, tracks: int) {
    if layout == Multitrack then MIN_TRACK_COUNT <= tracks <= MAX_TRACK_COUNT else tracks == 0
  }

  predicate EncodingOk(e: PacketEncoding) {
    && 1 <= e.id <= 254 && e.spec.rate != 0 && e.spec.format == Pcm
    && TracksOk(e.spec.channels, e.spec.tracks)
  }

  predicate EndpointOk(e: Endpoint) {
    e.uri != ""
  }

  predicate EndpointsOk(es: seq<Endpoint>) {
    forall i :: 0 <= i < |es| ==> EndpointOk(es[i])
  }

  predicate ConfigOk(x: DeviceInfo) {
    match x.kind
    case Sender =>
      x.senderConfig.Some? && x.receiverConfig.None?
      && (x.senderConfig.value.packetEncoding.Some? ==> EncodingOk(x.senderConfig.value.packetEncoding.value))
    case Receiver =>
      x.receiverConfig.Some? && x.senderConfig.None?
      && forall i :: 0 <= i < |x.receiverConfig.value.packetEncodings| ==>
           EncodingOk(x.receiverConfig.value.packetEncodings[i])
  }

  /** Exactly the infos a message can be converted to: identity fields may still be unset, nothing is derived yet. */
  predicate Accepted(x: DeviceInfo) {
    && x.deviceEncoding.sampleRate != 0
    && TracksOk(x.deviceEncoding.channelLayout, x.deviceEncoding.channelCount)
    && x.deviceEncoding.bufferSamples == 0
    && ConfigOk(x)
    && EndpointsOk(x.localEndpoints) && EndpointsOk(x.remoteEndpoints)
  }

  // ---------------------------------------------------------------- derived fields

  function ChannelCount(layout: ChannelLayout): Result<nat> {
    match layout
    case Mono => Ok(1)
    case Stereo => Ok(2)
    case Multitrack => Err(InvalidArgument)
  }

  /** Nanoseconds times the rate, rounded half up; a buffer length must be positive. */
  function BufferSamples(lengthNs: Int64, rate: Uint32): Result<nat> {
    if lengthNs <= 0 then Err(InvalidArgument)
    else Ok((2 * lengthNs * rate + 1_000_000_000) / 2_000_000_000)
  }

  /**
   A buffer of positive length has at least one sample exactly when it lasts half a sample or more;
   a shorter one is accepted too, and has none.
   */
  lemma SomeSamplesExactly(lengthNs: Int64, rate: Uint32)
    requires lengthNs > 0
    ensures BufferSamples(lengthNs, rate).Ok?
    ensures BufferSamples(lengthNs, rate).value > 0 <==> 2 * lengthNs * rate >= 1_000_000_000
  {
  }

  function Digits(n: nat): string {
    if n < 10 then [('0' as int + n) as char] else Digits(n / 10) + [('0' as int + n % 10) as char]
  }

  /** The number a string of decimal digits stands for. */
  function Number(s: string): nat
    requires forall k :: 0 <= k < |s| ==> '0' <= s[k] <= '9'
  {
    if s == [] then 0 else 10 * Number(s[..|s| - 1]) + (s[|s| - 1] as int - '0' as int)
  }

  /** The digits of a number are digits, without leading zeros, and stand for that number. */
  lemma {:induction false} DigitsExactly(n: nat)
    ensures Digits(n) != [] && forall k :: 0 <= k < |Digits(n)| ==> '0' <= Digits(n)[k] <= '9'
    ensures Digits(n)[0] == '0' <==> n == 0
    ensures Number(Digits(n)) == n
  {
    if n < 10 {
      assert Digits(n)[..0] == [];
    } else {
      DigitsExactly(n / 10);
      assert Digits(n)[..|Digits(n)| - 1] == Digits(n / 10);
    }
  }

  function DefaultName(index: nat): string {
    "Roc Virtual Device #" + Digits(index)
  }

  /** Fills in identity and derived fields, as creating a device does. */
  function Completed(x: DeviceInfo, index: Uint32, freshUid: string): Result<DeviceInfo> {
    var count :- if x.deviceEncoding.channelLayout == Multitrack then Ok(x.deviceEncoding.channelCount)
                 else ChannelCount(x.deviceEncoding.channelLayout);
    var samples :- BufferSamples(x.deviceEncoding.bufferLengthNs, x.deviceEncoding.sampleRate);
    Ok(x.(index := index,
          uid := if x.uid == "" then freshUid else x.uid,
          name := if x.name == "" then DefaultName(index) else x.name,
          deviceEncoding := x.deviceEncoding.(channelCount := count, bufferSamples := samples)))
  }

  /** The info without what creating the device derives. */
  function Underived(x: DeviceInfo): DeviceInfo {
    x.(deviceEncoding := x.deviceEncoding.(
         channelCount := if x.deviceEncoding.channelLayout == Multitrack then x.deviceEncoding.channelCount else 0,
         bufferSamples := 0))
  }

  /** A complete info: identified, named, and with the derived fields its encoding implies. */
  predicate Complete(x: DeviceInfo) {
    && x.index != 0 && x.uid != "" && x.name != ""
    && Accepted(Underived(x))
    && Completed(Underived(x), x.index, x.uid) == Ok(x)
  }

  /** The sample count is length times rate, to the nearest whole. */
  lemma SamplesNearest(lengthNs: Int64, rate: Uint32)
    requires lengthNs > 0
    ensures BufferSamples(lengthNs, rate).Ok?
    ensures var n := BufferSamples(lengthNs, rate).value;
            -1_000_000_000 < 2_000_000_000 * n - 2 * lengthNs * rate <= 1_000_000_000
  {
    var p: int := 2 * lengthNs * rate + 1_000_000_000;
    assert p == 2_000_000_000 * (p / 2_000_000_000) + p % 2_000_000_000;
  }

  /** What completing an info fills in, and that it changes nothing else. */
  lemma CompletedFields(x: DeviceInfo, index: Uint32, freshUid: string)
    ensures Completed(x, index, freshUid).Ok? <==> x.deviceEncoding.bufferLengthNs > 0
    ensures x.deviceEncoding.bufferLengthNs > 0 ==>
              var y := Completed(x, index, freshUid).value;
              var e := y.deviceEncoding;
              && y.index == index && y.kind == x.kind && y.enabled == x.enabled
              && y.uid == (if x.uid == "" then freshUid else x.uid)
              && y.name == (if x.name == "" then "Roc Virtual Device #" + Digits(index) else x.name)
              && y.senderConfig == x.senderConfig && y.receiverConfig == x.receiverConfig
              && y.localEndpoints == x.localEndpoints && y.remoteEndpoints == x.remoteEndpoints
              && e.sampleRate == x.deviceEncoding.sampleRate && e.channelLayout == x.deviceEncoding.channelLayout
              && e.bufferLengthNs == x.deviceEncoding.bufferLengthNs
              && (e.channelLayout == Mono ==> e.channelCount == 1)
              && (e.channelLayout == Stereo ==> e.channelCount == 2)
              && (e.channelLayout == Multitrack ==> e.channelCount == x.deviceEncoding.channelCount)
              && BufferSamples(e.bufferLengthNs, e.sampleRate) == Ok(e.bufferSamples)
  {
    hide BufferSamples;
    if x.deviceEncoding.bufferLengthNs > 0 {
      SamplesNearest(x.deviceEncoding.bufferLengthNs, x.deviceEncoding.sampleRate);
    } else {
      NoLengthNoSamples(x.deviceEncoding.bufferLengthNs, x.deviceEncoding.sampleRate);
    }
  }

  lemma NoLengthNoSamples(lengthNs: Int64, rate: Uint32)
    requires lengthNs <= 0
    ensures BufferSamples(lengthNs, rate) == Err(InvalidArgument)
  {
  }

  /** There are complete infos without a single buffer sample: one nanosecond at any rate below half a gigahertz. */
  lemma EmptyBufferIsComplete(x: DeviceInfo, freshUid: string)
    requires Accepted(x) && x.index != 0 && freshUid != "" && x.deviceEncoding.bufferLengthNs == 1
    requires 2 * x.deviceEncoding.sampleRate < 1_000_000_000
    ensures Completed(x, x.index, freshUid).Ok?
    ensures Complete(Completed(x, x.index, freshUid).value)
    ensures Completed(x, x.index, freshUid).value.deviceEncoding.bufferSamples == 0
  {
    SomeSamplesExactly(1, x.deviceEncoding.sampleRate);
    CompletedIsComplete(x, x.index, freshUid);
  }

  /** Completing an accepted info gives a complete one, and forgetting the derived fields undoes it. */
  lemma CompletedIsComplete(x: DeviceInfo, index: Uint32, freshUid: string)
    requires Accepted(x) && index != 0 && freshUid != ""
    requires Completed(x, index, freshUid).Ok?
    ensures Complete(Completed(x, index, freshUid).value)
    ensures var y := Completed(x, index, freshUid).value;
            Underived(y) == x.(index := y.index, uid := y.uid, name := y.name)
  {
  }
}
