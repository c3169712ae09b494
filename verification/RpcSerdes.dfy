/**
 Conversion between device infos and protocol messages, in both directions. Durations
 travel as whole nanoseconds; wire enumerations are plain numbers.
 */
module RpcSerdes {
  import opened DeviceDefs
  import opened EnumTables

  // ---------------------------------------------------------------- messages

  datatype RvPacketEncoding = RvPacketEncoding(
    encodingId: Uint32, sampleRate: Uint32, sampleFormat: int, channelLayout: int, trackCount: Option<Uint32>)

  datatype RvSenderConfig = RvSenderConfig(
    packetEncoding: Option<RvPacketEncoding>,
    packetLength: Option<Int64>,
    fecEncoding: Option<int>,
    fecBlockSourcePackets: Option<Uint32>,
    fecBlockRepairPackets: Option<Uint32>,
    tunerBackend: Option<int>,
    tunerProfile: Option<int>,
    resamplerBackend: Option<int>,
    resamplerProfile: Option<int>,
    targetLatency: Option<Int64>,
    latencyTolerance: Option<Int64>,
    maxPacketSize: Option<Uint32>)

  datatype RvReceiverConfig = RvReceiverConfig(
    packetEncodings: seq<RvPacketEncoding>,
    tunerBackend: Option<int>,
    tunerProfile: Option<int>,
    resamplerBackend: Option<int>,
    resamplerProfile: Option<int>,
    targetLatency: Option<Int64>,
    latencyTolerance: Option<Int64>,
    noPlaybackTimeout: Option<Int64>,
    choppyPlaybackTimeout: Option<Int64>,
    maxPacketSize: Option<Uint32>)

  /** At most one of the two configurations is present. */
  datatype RvNetworkConfig = NoConfig | ForSender(sender: RvSenderConfig) | ForReceiver(receiver: RvReceiverConfig)

  datatype RvEndpointInfo = RvEndpointInfo(slot: Option<Uint32>, iface: int, uri: string)

  datatype RvDeviceEncoding = RvDeviceEncoding(
    sampleRate: Option<Uint32>, channelLayout: Option<int>, trackCount: Option<Uint32>, bufferLength: Option<Int64>)

  datatype RvDeviceInfo = RvDeviceInfo(
    kind: int,
    index: Option<Uint32>,
    uid: Option<string>,
    name: Option<string>,
    enabled: Option<bool>,
    deviceEncoding: RvDeviceEncoding,
    config: RvNetworkConfig,
    localEndpoints: seq<RvEndpointInfo>,
    remoteEndpoints: seq<RvEndpointInfo>)

  const WIRE_SENDER: int := 0
  const WIRE_RECEIVER: int := 1
  const DEFAULT_SLOT: Uint32 := 0

  // ---------------------------------------------------------------- helpers

  function Or<T>(field: Option<T>, default: T): T {
    if field.Some? then field.value else default
  }

  function EnumOr<E>(table: EnumMap<E>, field: Option<int>, default: E): Result<E> {
    if field.Some? then FromRpc(table, field.value) else Ok(default)
  }

  /** Converts every element, or fails with the first failure. */
  function MapResult<A, B>(f: A -> Result<B>, xs: seq<A>): (r: Result<seq<B>>)
    ensures r.Ok? ==> |r.value| == |xs| && forall i :: 0 <= i < |xs| ==> f(xs[i]) == Ok(r.value[i])
  {
    if xs == [] then Ok([])
    else
      var y :- f(xs[0]);
      var ys :- MapResult(f, xs[1..]);
      Ok([y] + ys)
  }

  lemma {:induction false} MapResultOk<A, B>(f: A -> Result<B>, xs: seq<A>, ys: seq<B>)
    requires |xs| == |ys| && forall i :: 0 <= i < |xs| ==> f(xs[i]) == Ok(ys[i])
    ensures MapResult(f, xs) == Ok(ys)
  {
    if xs == [] {
    } else {
      forall i | 0 <= i < |xs| - 1
        ensures f(xs[1..][i]) == Ok(ys[1..][i])
      {
        assert xs[1..][i] == xs[i + 1] && ys[1..][i] == ys[i + 1];
      }
      MapResultOk(f, xs[1..], ys[1..]);
      assert [ys[0]] + ys[1..] == ys;
    }
  }

  /** A list converts exactly if all its elements do. */
  lemma MapResultExactly<A, B>(f: A -> Result<B>, xs: seq<A>)
    ensures MapResult(f, xs).Ok? <==> forall i :: 0 <= i < |xs| ==> f(xs[i]).Ok?
  {
    if forall i :: 0 <= i < |xs| ==> f(xs[i]).Ok? {
      var ys := seq(|xs|, i requires 0 <= i < |xs| => f(xs[i]).value);
      MapResultOk(f, xs, ys);
    }
  }

  lemma {:induction false} MapResultErr<A, B>(f: A -> Result<B>, xs: seq<A>, i: nat)
    requires i < |xs| && f(xs[i]).Err? && forall j :: 0 <= j < i ==> f(xs[j]).Ok?
    ensures MapResult(f, xs) == Err(f(xs[i]).error)
  {
    if i == 0 {
    } else {
      forall j | 0 <= j < i - 1
        ensures f(xs[1..][j]).Ok?
      {
        assert xs[1..][j] == xs[j + 1];
      }
      MapResultErr(f, xs[1..], i - 1);
    }
  }

  /** If `back` undoes `to` on every element, it does so on the list. */
  lemma MapRoundTrip<A, B>(to: A -> Result<B>, back: B -> Result<A>, xs: seq<A>)
    requires forall i :: 0 <= i < |xs| ==> to(xs[i]).Ok? && back(to(xs[i]).value) == Ok(xs[i])
    ensures MapResult(to, xs).Ok? && MapResult(back, MapResult(to, xs).value) == Ok(xs)
  {
    var ys := seq(|xs|, i requires 0 <= i < |xs| => to(xs[i]).value);
    MapResultOk(to, xs, ys);
    MapResultOk(back, ys, xs);
  }

  /** A 64-bit value read as signed, and as unsigned. */
  function ToSigned(u: Uint64): Int64 {
    if u < 0x8000_0000_0000_0000 then u else u - 0x1_0000_0000_0000_0000
  }

  function ToUnsigned(i: Int64): Uint64 {
    if 0 <= i then i else i + 0x1_0000_0000_0000_0000
  }

  /** The field carries the number of `e`. */
  ghost predicate NumberWritten<E>(table: EnumMap<E>, field: Option<int>, e: E) {
    field.Some? && FromRpc(table, field.value) == Ok(e)
  }

  /** `e` is what the field says, or the default if it is absent. */
  ghost predicate NumberRead<E>(table: EnumMap<E>, field: Option<int>, default: E, e: E) {
    if field.Some? then FromRpc(table, field.value) == Ok(e) else e == default
  }

  /** If the field is there it is a known number. */
  ghost predicate Known<E>(table: EnumMap<E>, field: Option<int>) {
    field.Some? ==> FromRpc(table, field.value).Ok?
  }

  ghost predicate FieldRead<T>(field: Option<T>, default: T, value: T) {
    field == Some(value) || (field.None? && value == default)
  }

  // ---------------------------------------------------------------- packet encodings

  function TracksFromRpc(layout: ChannelLayout, count: Option<Uint32>): Result<Uint32> {
    if layout == Multitrack then
      if count.None? then Err(InvalidArgument)
      else if count.value < MIN_TRACK_COUNT || count.value > MAX_TRACK_COUNT then Err(InvalidArgument)
      else Ok(count.value)
    else if count.Some? then Err(InvalidArgument)
    else Ok(0)
  }

  function TracksToRpc(layout: ChannelLayout, count: nat): Option<Uint32> {
    if layout == Multitrack then Some(count % 0x1_0000_0000) else None
  }

  /** Track counts survive exactly when they suit the layout. */
  lemma TracksRoundTrip(layout: ChannelLayout, count: Uint32)
    ensures TracksFromRpc(layout, TracksToRpc(layout, count)) == Ok(count)
            <==> if layout == Multitrack then 1 <= count <= 1024 else count == 0
  {
  }

  function PacketEncodingFromRpc(m: RvPacketEncoding): Result<PacketEncoding> {
    if m.encodingId <= 0 || m.encodingId >= 255 then Err(InvalidArgument)
    else if m.sampleRate == 0 then Err(InvalidArgument)
    else
      var subformat :- FromRpc(SAMPLE_FORMAT_MAP, m.sampleFormat);
      var channels :- FromRpc(CHANNEL_LAYOUT_MAP, m.channelLayout);
      var tracks :- TracksFromRpc(channels, m.trackCount);
      Ok(PacketEncoding(m.encodingId, MediaEncoding(Pcm, subformat, m.sampleRate, channels, tracks)))
  }

  function PacketEncodingToRpc(e: PacketEncoding): Result<RvPacketEncoding> {
    var format :- ToRpc(SAMPLE_FORMAT_MAP, e.spec.subformat);
    var layout :- ToRpc(CHANNEL_LAYOUT_MAP, e.spec.channels);
    Ok(RvPacketEncoding(e.id, e.spec.rate, format, layout, TracksToRpc(e.spec.channels, e.spec.tracks)))
  }

  /** A packet encoding survives the round trip exactly when it is well formed. */
  lemma PacketEncodingRoundTrip(e: PacketEncoding)
    ensures PacketEncodingToRpc(e).Ok?
    ensures PacketEncodingFromRpc(PacketEncodingToRpc(e).value) == Ok(e) <==> EncodingOk(e)
    ensures EncodingOk(e) <==>
              && 1 <= e.id <= 254 && e.spec.rate != 0 && e.spec.format == Pcm
              && (if e.spec.channels == Multitrack then 1 <= e.spec.tracks <= 1024 else e.spec.tracks == 0)
  {
    SubformatRoundTrip(e.spec.subformat);
    ChannelLayoutRoundTrip(e.spec.channels);
    TracksRoundTrip(e.spec.channels, e.spec.tracks);
  }

  /** Whatever a message converts to is well formed. */
  lemma PacketEncodingAccepted(m: RvPacketEncoding)
    ensures PacketEncodingFromRpc(m).Ok? ==> EncodingOk(PacketEncodingFromRpc(m).value)
  {
  }

  lemma TracksWritten(layout: ChannelLayout, count: Uint32)
    ensures TracksToRpc(layout, count) == if layout == Multitrack then Some(count) else None
  {
  }

  lemma PacketEncodingWritten(e: PacketEncoding)
    ensures PacketEncodingToRpc(e).Ok?
    ensures var m := PacketEncodingToRpc(e).value;
            && m.encodingId == e.id && m.sampleRate == e.spec.rate
            && FromRpc(SAMPLE_FORMAT_MAP, m.sampleFormat) == Ok(e.spec.subformat)
            && FromRpc(CHANNEL_LAYOUT_MAP, m.channelLayout) == Ok(e.spec.channels)
            && m.trackCount == if e.spec.channels == Multitrack then Some(e.spec.tracks) else None
  {
    hide TracksToRpc;
    TracksWritten(e.spec.channels, e.spec.tracks);
    SubformatRoundTrip(e.spec.subformat);
    ChannelLayoutRoundTrip(e.spec.channels);
  }

  /** Which messages are packet encodings, and which encoding each of them is. */
  lemma PacketEncodingRead(m: RvPacketEncoding)
    ensures PacketEncodingFromRpc(m).Ok? <==>
              && 1 <= m.encodingId <= 254 && m.sampleRate != 0
              && FromRpc(SAMPLE_FORMAT_MAP, m.sampleFormat).Ok? && FromRpc(CHANNEL_LAYOUT_MAP, m.channelLayout).Ok?
              && (if FromRpc(CHANNEL_LAYOUT_MAP, m.channelLayout).value == Multitrack
                  then m.trackCount.Some? && 1 <= m.trackCount.value <= 1024
                  else m.trackCount.None?)
    ensures PacketEncodingFromRpc(m).Ok? ==>
              var e := PacketEncodingFromRpc(m).value;
              && e.id == m.encodingId && e.spec.rate == m.sampleRate && e.spec.format == Pcm
              && Ok(e.spec.subformat) == FromRpc(SAMPLE_FORMAT_MAP, m.sampleFormat)
              && Ok(e.spec.channels) == FromRpc(CHANNEL_LAYOUT_MAP, m.channelLayout)
              && FieldRead(m.trackCount, 0, e.spec.tracks)
  {
  }

  // ---------------------------------------------------------------- endpoints

  function EndpointFromRpc(m: RvEndpointInfo): Result<Endpoint> {
    var iface :- FromRpc(INTERFACE_MAP, m.iface);
    if m.uri == "" then Err(InvalidArgument) else Ok(Endpoint(Or(m.slot, DEFAULT_SLOT), iface, m.uri))
  }

  function EndpointToRpc(e: Endpoint): Result<RvEndpointInfo> {
    var iface :- ToRpc(INTERFACE_MAP, e.iface);
    Ok(RvEndpointInfo(Some(e.slot), iface, e.uri))
  }

  lemma EndpointRoundTrip(e: Endpoint)
    ensures EndpointToRpc(e).Ok?
    ensures EndpointFromRpc(EndpointToRpc(e).value) == Ok(e) <==> EndpointOk(e)
  {
    InterfaceRoundTrip(e.iface);
  }

  lemma EndpointWritten(e: Endpoint)
    ensures EndpointToRpc(e).Ok?
    ensures var m := EndpointToRpc(e).value;
            m.slot == Some(e.slot) && FromRpc(INTERFACE_MAP, m.iface) == Ok(e.iface) && m.uri == e.uri
  {
    InterfaceRoundTrip(e.iface);
  }

  /** Which messages are endpoints, and which endpoint each of them is; an absent slot is slot zero. */
  lemma EndpointRead(m: RvEndpointInfo)
    ensures EndpointFromRpc(m).Ok? <==> FromRpc(INTERFACE_MAP, m.iface).Ok? && m.uri != ""
    ensures EndpointFromRpc(m).Ok? ==>
              var e := EndpointFromRpc(m).value;
              FieldRead(m.slot, 0, e.slot) && Ok(e.iface) == FromRpc(INTERFACE_MAP, m.iface) && e.uri == m.uri
  {
  }

  function EndpointsFromRpc(ms: seq<RvEndpointInfo>): Result<seq<Endpoint>> {
    MapResult((m: RvEndpointInfo) => EndpointFromRpc(m), ms)
  }

  function EndpointsToRpc(es: seq<Endpoint>): Result<seq<RvEndpointInfo>> {
    MapResult((e: Endpoint) => EndpointToRpc(e), es)
  }

  lemma EndpointsRoundTrip(es: seq<Endpoint>)
    requires EndpointsOk(es)
    ensures EndpointsToRpc(es).Ok? && EndpointsFromRpc(EndpointsToRpc(es).value) == Ok(es)
  {
    forall i | 0 <= i < |es|
      ensures EndpointToRpc(es[i]).Ok? && EndpointFromRpc(EndpointToRpc(es[i]).value) == Ok(es[i])
    {
      EndpointRoundTrip(es[i]);
    }
    MapRoundTrip((e: Endpoint) => EndpointToRpc(e), (m: RvEndpointInfo) => EndpointFromRpc(m), es);
  }

  lemma EndpointsAccepted(ms: seq<RvEndpointInfo>)
    ensures EndpointsFromRpc(ms).Ok? ==> EndpointsOk(EndpointsFromRpc(ms).value)
  {
  }

  // ---------------------------------------------------------------- network configurations

  function OptionalEncodingFromRpc(m: Option<RvPacketEncoding>): Result<Option<PacketEncoding>> {
    if m.None? then Ok(None)
    else
      var e :- PacketEncodingFromRpc(m.value);
      Ok(Some(e))
  }

  function OptionalEncodingToRpc(e: Option<PacketEncoding>): Result<Option<RvPacketEncoding>> {
    if e.None? then Ok(None)
    else
      var m :- PacketEncodingToRpc(e.value);
      Ok(Some(m))
  }

  function SenderFromRpc(m: RvSenderConfig): Result<SenderConfig> {
    var encoding :- OptionalEncodingFromRpc(m.packetEncoding);
    var fec :- EnumOr(FEC_ENCODING_MAP, m.fecEncoding, DEFAULT_SENDER.fecEncoding);
    var tunerBackend :- EnumOr(TUNER_BACKEND_MAP, m.tunerBackend, DEFAULT_SENDER.tunerBackend);
    var tunerProfile :- EnumOr(TUNER_PROFILE_MAP, m.tunerProfile, DEFAULT_SENDER.tunerProfile);
    var resamplerBackend :- EnumOr(RESAMPLER_BACKEND_MAP, m.resamplerBackend, DEFAULT_SENDER.resamplerBackend);
    var resamplerProfile :- EnumOr(RESAMPLER_PROFILE_MAP, m.resamplerProfile, DEFAULT_SENDER.resamplerProfile);
    Ok(SenderConfig(
         encoding,
         if m.packetLength.Some? then ToUnsigned(m.packetLength.value) else DEFAULT_SENDER.packetLengthNs,
         fec,
         Or(m.fecBlockSourcePackets, DEFAULT_SENDER.fecBlockSourcePackets),
         Or(m.fecBlockRepairPackets, DEFAULT_SENDER.fecBlockRepairPackets),
         tunerBackend, tunerProfile, resamplerBackend, resamplerProfile,
         Or(m.targetLatency, DEFAULT_SENDER.targetLatencyNs),
         Or(m.latencyTolerance, DEFAULT_SENDER.latencyToleranceNs),
         Or(m.maxPacketSize, DEFAULT_SENDER.maxPacketSize)))
  }

  function SenderToRpc(c: SenderConfig): Result<RvSenderConfig> {
    var encoding :- OptionalEncodingToRpc(c.packetEncoding);
    var fec :- ToRpc(FEC_ENCODING_MAP, c.fecEncoding);
    var tunerBackend :- ToRpc(TUNER_BACKEND_MAP, c.tunerBackend);
    var tunerProfile :- ToRpc(TUNER_PROFILE_MAP, c.tunerProfile);
    var resamplerBackend :- ToRpc(RESAMPLER_BACKEND_MAP, c.resamplerBackend);
    var resamplerProfile :- ToRpc(RESAMPLER_PROFILE_MAP, c.resamplerProfile);
    Ok(RvSenderConfig(
         encoding, Some(ToSigned(c.packetLengthNs)), Some(fec),
         Some(c.fecBlockSourcePackets), Some(c.fecBlockRepairPackets),
         Some(tunerBackend), Some(tunerProfile), Some(resamplerBackend), Some(resamplerProfile),
         Some(c.targetLatencyNs), Some(c.latencyToleranceNs), Some(c.maxPacketSize)))
  }

  lemma OptionalEncodingRoundTrip(e: Option<PacketEncoding>)
    requires e.Some? ==> EncodingOk(e.value)
    ensures OptionalEncodingToRpc(e).Ok? && OptionalEncodingFromRpc(OptionalEncodingToRpc(e).value) == Ok(e)
  {
    if e.Some? {
      PacketEncodingRoundTrip(e.value);
    }
  }

  lemma SignRoundTrip(u: Uint64)
    ensures ToUnsigned(ToSigned(u)) == u
  {
  }

  /** Every field of the message is the field of that name. */
  lemma SenderWritten(c: SenderConfig)
    requires c.packetEncoding.Some? ==> EncodingOk(c.packetEncoding.value)
    ensures SenderToRpc(c).Ok?
    ensures var m := SenderToRpc(c).value;
            && m.packetEncoding.Some? == c.packetEncoding.Some?
            && (m.packetEncoding.Some? ==> Ok(m.packetEncoding.value) == PacketEncodingToRpc(c.packetEncoding.value))
            && m.packetLength == Some(if c.packetLengthNs < 0x8000_0000_0000_0000 then c.packetLengthNs
                                      else c.packetLengthNs - 0x1_0000_0000_0000_0000)
            && NumberWritten(FEC_ENCODING_MAP, m.fecEncoding, c.fecEncoding)
            && m.fecBlockSourcePackets == Some(c.fecBlockSourcePackets)
            && m.fecBlockRepairPackets == Some(c.fecBlockRepairPackets)
            && NumberWritten(TUNER_BACKEND_MAP, m.tunerBackend, c.tunerBackend)
            && NumberWritten(TUNER_PROFILE_MAP, m.tunerProfile, c.tunerProfile)
            && NumberWritten(RESAMPLER_BACKEND_MAP, m.resamplerBackend, c.resamplerBackend)
            && NumberWritten(RESAMPLER_PROFILE_MAP, m.resamplerProfile, c.resamplerProfile)
            && m.targetLatency == Some(c.targetLatencyNs)
            && m.latencyTolerance == Some(c.latencyToleranceNs)
            && m.maxPacketSize == Some(c.maxPacketSize)
  {
    OptionalEncodingRoundTrip(c.packetEncoding);
    FecEncodingRoundTrip(c.fecEncoding);
    LatencyTunerBackendRoundTrip(c.tunerBackend);
    LatencyTunerProfileRoundTrip(c.tunerProfile);
    ResamplerBackendRoundTrip(c.resamplerBackend);
    ResamplerProfileRoundTrip(c.resamplerProfile);
  }

  /** Every field of the configuration is the field of that name, or has its default if that is absent. */
  lemma SenderRead(m: RvSenderConfig)
    ensures SenderFromRpc(m).Ok? <==>
              && (m.packetEncoding.Some? ==> PacketEncodingFromRpc(m.packetEncoding.value).Ok?)
              && Known(FEC_ENCODING_MAP, m.fecEncoding)
              && Known(TUNER_BACKEND_MAP, m.tunerBackend) && Known(TUNER_PROFILE_MAP, m.tunerProfile)
              && Known(RESAMPLER_BACKEND_MAP, m.resamplerBackend) && Known(RESAMPLER_PROFILE_MAP, m.resamplerProfile)
    ensures SenderFromRpc(m).Ok? ==>
              var c := SenderFromRpc(m).value;
              && m.packetEncoding.Some? == c.packetEncoding.Some?
              && (m.packetEncoding.Some? ==>
                    PacketEncodingFromRpc(m.packetEncoding.value) == Ok(c.packetEncoding.value))
              && (m.packetLength.None? ==> c.packetLengthNs == 0)
              && (m.packetLength.Some? ==>
                    c.packetLengthNs == if 0 <= m.packetLength.value then m.packetLength.value
                                        else m.packetLength.value + 0x1_0000_0000_0000_0000)
              && NumberRead(FEC_ENCODING_MAP, m.fecEncoding, FecRs8m, c.fecEncoding)
              && FieldRead(m.fecBlockSourcePackets, 0, c.fecBlockSourcePackets)
              && FieldRead(m.fecBlockRepairPackets, 0, c.fecBlockRepairPackets)
              && NumberRead(TUNER_BACKEND_MAP, m.tunerBackend, TunerDefault, c.tunerBackend)
              && NumberRead(TUNER_PROFILE_MAP, m.tunerProfile, ProfileDefault, c.tunerProfile)
              && NumberRead(RESAMPLER_BACKEND_MAP, m.resamplerBackend, ResamplerDefault, c.resamplerBackend)
              && NumberRead(RESAMPLER_PROFILE_MAP, m.resamplerProfile, QualityDefault, c.resamplerProfile)
              && FieldRead(m.targetLatency, 0, c.targetLatencyNs)
              && FieldRead(m.latencyTolerance, 0, c.latencyToleranceNs)
              && FieldRead(m.maxPacketSize, 0, c.maxPacketSize)
  {
  }

  lemma SenderRoundTrip(c: SenderConfig)
    requires c.packetEncoding.Some? ==> EncodingOk(c.packetEncoding.value)
    ensures SenderToRpc(c).Ok? && SenderFromRpc(SenderToRpc(c).value) == Ok(c)
  {
    SenderWritten(c);
    OptionalEncodingRoundTrip(c.packetEncoding);
    SignRoundTrip(c.packetLengthNs);
  }

  function EncodingsFromRpc(ms: seq<RvPacketEncoding>): Result<seq<PacketEncoding>> {
    MapResult((m: RvPacketEncoding) => PacketEncodingFromRpc(m), ms)
  }

  function EncodingsToRpc(es: seq<PacketEncoding>): Result<seq<RvPacketEncoding>> {
    MapResult((e: PacketEncoding) => PacketEncodingToRpc(e), es)
  }

  lemma EncodingsRoundTrip(es: seq<PacketEncoding>)
    requires forall i :: 0 <= i < |es| ==> EncodingOk(es[i])
    ensures EncodingsToRpc(es).Ok? && EncodingsFromRpc(EncodingsToRpc(es).value) == Ok(es)
  {
    forall i | 0 <= i < |es|
      ensures PacketEncodingToRpc(es[i]).Ok? && PacketEncodingFromRpc(PacketEncodingToRpc(es[i]).value) == Ok(es[i])
    {
      PacketEncodingRoundTrip(es[i]);
    }
    MapRoundTrip((e: PacketEncoding) => PacketEncodingToRpc(e), (m: RvPacketEncoding) => PacketEncodingFromRpc(m), es);
  }

  lemma EncodingsAccepted(ms: seq<RvPacketEncoding>)
    requires EncodingsFromRpc(ms).Ok?
    ensures forall i :: 0 <= i < |EncodingsFromRpc(ms).value| ==> EncodingOk(EncodingsFromRpc(ms).value[i])
  {
    forall i | 0 <= i < |ms|
      ensures EncodingOk(EncodingsFromRpc(ms).value[i])
    {
      PacketEncodingAccepted(ms[i]);
    }
  }

  function ReceiverFromRpc(m: RvReceiverConfig): Result<ReceiverConfig> {
    var encodings :- EncodingsFromRpc(m.packetEncodings);
    var tunerBackend :- EnumOr(TUNER_BACKEND_MAP, m.tunerBackend, DEFAULT_RECEIVER.tunerBackend);
    var tunerProfile :- EnumOr(TUNER_PROFILE_MAP, m.tunerProfile, DEFAULT_RECEIVER.tunerProfile);
    var resamplerBackend :- EnumOr(RESAMPLER_BACKEND_MAP, m.resamplerBackend, DEFAULT_RECEIVER.resamplerBackend);
    var resamplerProfile :- EnumOr(RESAMPLER_PROFILE_MAP, m.resamplerProfile, DEFAULT_RECEIVER.resamplerProfile);
    Ok(ReceiverConfig(
         encodings, tunerBackend, tunerProfile, resamplerBackend, resamplerProfile,
         Or(m.targetLatency, DEFAULT_RECEIVER.targetLatencyNs),
         Or(m.latencyTolerance, DEFAULT_RECEIVER.latencyToleranceNs),
         Or(m.noPlaybackTimeout, DEFAULT_RECEIVER.noPlaybackTimeoutNs),
         Or(m.choppyPlaybackTimeout, DEFAULT_RECEIVER.choppyPlaybackTimeoutNs),
         Or(m.maxPacketSize, DEFAULT_RECEIVER.maxPacketSize)))
  }

  function ReceiverToRpc(c: ReceiverConfig): Result<RvReceiverConfig> {
    var encodings :- EncodingsToRpc(c.packetEncodings);
    var tunerBackend :- ToRpc(TUNER_BACKEND_MAP, c.tunerBackend);
    var tunerProfile :- ToRpc(TUNER_PROFILE_MAP, c.tunerProfile);
    var resamplerBackend :- ToRpc(RESAMPLER_BACKEND_MAP, c.resamplerBackend);
    var resamplerProfile :- ToRpc(RESAMPLER_PROFILE_MAP, c.resamplerProfile);
    Ok(RvReceiverConfig(
         encodings, Some(tunerBackend), Some(tunerProfile), Some(resamplerBackend), Some(resamplerProfile),
         Some(c.targetLatencyNs), Some(c.latencyToleranceNs),
         Some(c.noPlaybackTimeoutNs), Some(c.choppyPlaybackTimeoutNs), Some(c.maxPacketSize)))
  }

  /** Every field of the message is the field of that name. */
  lemma ReceiverWritten(c: ReceiverConfig)
    requires forall i :: 0 <= i < |c.packetEncodings| ==> EncodingOk(c.packetEncodings[i])
    ensures ReceiverToRpc(c).Ok?
    ensures var m := ReceiverToRpc(c).value;
            && EncodingsToRpc(c.packetEncodings) == Ok(m.packetEncodings)
            && NumberWritten(TUNER_BACKEND_MAP, m.tunerBackend, c.tunerBackend)
            && NumberWritten(TUNER_PROFILE_MAP, m.tunerProfile, c.tunerProfile)
            && NumberWritten(RESAMPLER_BACKEND_MAP, m.resamplerBackend, c.resamplerBackend)
            && NumberWritten(RESAMPLER_PROFILE_MAP, m.resamplerProfile, c.resamplerProfile)
            && m.targetLatency == Some(c.targetLatencyNs)
            && m.latencyTolerance == Some(c.latencyToleranceNs)
            && m.noPlaybackTimeout == Some(c.noPlaybackTimeoutNs)
            && m.choppyPlaybackTimeout == Some(c.choppyPlaybackTimeoutNs)
            && m.maxPacketSize == Some(c.maxPacketSize)
  {
    EncodingsRoundTrip(c.packetEncodings);
    LatencyTunerBackendRoundTrip(c.tunerBackend);
    LatencyTunerProfileRoundTrip(c.tunerProfile);
    ResamplerBackendRoundTrip(c.resamplerBackend);
    ResamplerProfileRoundTrip(c.resamplerProfile);
  }

  /** Every field of the configuration is the field of that name, or has its default if that is absent. */
  lemma ReceiverRead(m: RvReceiverConfig)
    ensures ReceiverFromRpc(m).Ok? <==>
              && EncodingsFromRpc(m.packetEncodings).Ok?
              && Known(TUNER_BACKEND_MAP, m.tunerBackend) && Known(TUNER_PROFILE_MAP, m.tunerProfile)
              && Known(RESAMPLER_BACKEND_MAP, m.resamplerBackend) && Known(RESAMPLER_PROFILE_MAP, m.resamplerProfile)
    ensures ReceiverFromRpc(m).Ok? ==>
              var c := ReceiverFromRpc(m).value;
              && EncodingsFromRpc(m.packetEncodings) == Ok(c.packetEncodings)
              && NumberRead(TUNER_BACKEND_MAP, m.tunerBackend, TunerDefault, c.tunerBackend)
              && NumberRead(TUNER_PROFILE_MAP, m.tunerProfile, ProfileDefault, c.tunerProfile)
              && NumberRead(RESAMPLER_BACKEND_MAP, m.resamplerBackend, ResamplerDefault, c.resamplerBackend)
              && NumberRead(RESAMPLER_PROFILE_MAP, m.resamplerProfile, QualityDefault, c.resamplerProfile)
              && FieldRead(m.targetLatency, 0, c.targetLatencyNs)
              && FieldRead(m.latencyTolerance, 0, c.latencyToleranceNs)
              && FieldRead(m.noPlaybackTimeout, 0, c.noPlaybackTimeoutNs)
              && FieldRead(m.choppyPlaybackTimeout, 0, c.choppyPlaybackTimeoutNs)
              && FieldRead(m.maxPacketSize, 0, c.maxPacketSize)
  {
  }

  lemma ReceiverRoundTrip(c: ReceiverConfig)
    requires forall i :: 0 <= i < |c.packetEncodings| ==> EncodingOk(c.packetEncodings[i])
    ensures ReceiverToRpc(c).Ok? && ReceiverFromRpc(ReceiverToRpc(c).value) == Ok(c)
  {
    EncodingsRoundTrip(c.packetEncodings);
    ReceiverWritten(c);
  }

  // ---------------------------------------------------------------- devices

  function KindFromRpc(m: RvDeviceInfo): Result<DeviceType> {
    if m.kind == WIRE_SENDER then
      if m.config.ForReceiver? then Err(InvalidArgument) else Ok(Sender)
    else if m.kind == WIRE_RECEIVER then
      if m.config.ForSender? then Err(InvalidArgument) else Ok(Receiver)
    else Err(InvalidArgument)
  }

  function IndexFromRpc(field: Option<Uint32>): Result<Uint32> {
    if field == Some(0) then Err(InvalidArgument) else Ok(Or(field, 0))
  }

  function TextFromRpc(field: Option<string>): Result<string> {
    if field == Some("") then Err(InvalidArgument) else Ok(Or(field, ""))
  }

  function DeviceEncodingFromRpc(m: RvDeviceEncoding): Result<LocalEncoding> {
    var layout :- EnumOr(CHANNEL_LAYOUT_MAP, m.channelLayout, DEFAULT_ENCODING.channelLayout);
    var tracks :- TracksFromRpc(layout, m.trackCount);
    Ok(LocalEncoding(
         if m.sampleRate.Some? && m.sampleRate.value != 0 then m.sampleRate.value else DEFAULT_ENCODING.sampleRate,
         layout,
         Or(m.bufferLength, DEFAULT_ENCODING.bufferLengthNs),
         tracks,
         DEFAULT_ENCODING.bufferSamples))
  }

  function DeviceEncodingToRpc(e: LocalEncoding): Result<RvDeviceEncoding> {
    var layout :- ToRpc(CHANNEL_LAYOUT_MAP, e.channelLayout);
    Ok(RvDeviceEncoding(
         Some(e.sampleRate), Some(layout), TracksToRpc(e.channelLayout, e.channelCount), Some(e.bufferLengthNs)))
  }

  /** A sender always has a sender configuration, a receiver a receiver one; absent means default. */
  function ConfigFromRpc(kind: DeviceType, m: RvNetworkConfig): Result<(Option<SenderConfig>, Option<ReceiverConfig>)> {
    match kind
    case Sender =>
      if m.ForSender? then
        var c :- SenderFromRpc(m.sender);
        Ok((Some(c), None))
      else Ok((Some(DEFAULT_SENDER), None))
    case Receiver =>
      if m.ForReceiver? then
        var c :- ReceiverFromRpc(m.receiver);
        Ok((None, Some(c)))
      else Ok((None, Some(DEFAULT_RECEIVER)))
  }

  /** The receiver configuration is written last, so it is the one that stays if there are two. */
  function ConfigToRpc(x: DeviceInfo): Result<RvNetworkConfig> {
    var sender :- if x.senderConfig.Some? then SenderToRpc(x.senderConfig.value) else Ok(EMPTY_SENDER);
    var receiver :- if x.receiverConfig.Some? then ReceiverToRpc(x.receiverConfig.value) else Ok(EMPTY_RECEIVER);
    Ok(if x.kind == Receiver || x.receiverConfig.Some? then ForReceiver(receiver) else ForSender(sender))
  }

  const EMPTY_SENDER: RvSenderConfig :=
    RvSenderConfig(None, None, None, None, None, None, None, None, None, None, None, None)

  const EMPTY_RECEIVER: RvReceiverConfig := RvReceiverConfig([], None, None, None, None, None, None, None, None, None)

  function DeviceFromRpc(m: RvDeviceInfo): Result<DeviceInfo> {
    var kind :- KindFromRpc(m);
    var index :- IndexFromRpc(m.index);
    var uid :- TextFromRpc(m.uid);
    var name :- TextFromRpc(m.name);
    var encoding :- DeviceEncodingFromRpc(m.deviceEncoding);
    var configs :- ConfigFromRpc(kind, m.config);
    var locals :- EndpointsFromRpc(m.localEndpoints);
    var remotes :- EndpointsFromRpc(m.remoteEndpoints);
    Ok(DeviceInfo(kind, index, uid, name, Or(m.enabled, true), encoding, configs.0, configs.1, locals, remotes))
  }

  function DeviceToRpc(x: DeviceInfo): Result<RvDeviceInfo> {
    var encoding :- DeviceEncodingToRpc(x.deviceEncoding);
    var config :- ConfigToRpc(x);
    var locals :- EndpointsToRpc(x.localEndpoints);
    var remotes :- EndpointsToRpc(x.remoteEndpoints);
    Ok(RvDeviceInfo(
         if x.kind == Sender then WIRE_SENDER else WIRE_RECEIVER,
         Some(x.index), Some(x.uid), Some(x.name), Some(x.enabled), encoding, config, locals, remotes))
  }

  /** Whatever a message converts to is an acceptable info. */
  lemma DeviceAccepted(m: RvDeviceInfo)
    ensures DeviceFromRpc(m).Ok? ==> Accepted(DeviceFromRpc(m).value)
  {
    if DeviceFromRpc(m).Ok? {
      EndpointsAccepted(m.localEndpoints);
      EndpointsAccepted(m.remoteEndpoints);
      if m.config.ForSender? && m.config.sender.packetEncoding.Some? {
        PacketEncodingAccepted(m.config.sender.packetEncoding.value);
      }
      if m.config.ForReceiver? && m.kind == WIRE_RECEIVER {
        EncodingsAccepted(m.config.receiver.packetEncodings);
      }
    }
  }

  lemma DeviceEncodingRoundTrip(e: LocalEncoding)
    requires e.sampleRate != 0 && (e.channelLayout == Multitrack ==> TracksOk(Multitrack, e.channelCount))
    ensures DeviceEncodingToRpc(e).Ok?
    ensures DeviceEncodingFromRpc(DeviceEncodingToRpc(e).value)
         == Ok(e.(channelCount := if e.channelLayout == Multitrack then e.channelCount else 0, bufferSamples := 0))
  {
    ChannelLayoutRoundTrip(e.channelLayout);
  }

  lemma ConfigRoundTrip(x: DeviceInfo)
    requires ConfigOk(x)
    ensures ConfigToRpc(x).Ok?
    ensures ConfigToRpc(x).value.ForReceiver? == (x.kind == Receiver)
    ensures ConfigFromRpc(x.kind, ConfigToRpc(x).value) == Ok((x.senderConfig, x.receiverConfig))
  {
    match x.kind
    case Sender => SenderRoundTrip(x.senderConfig.value);
    case Receiver => ReceiverRoundTrip(x.receiverConfig.value);
  }

  /** `Accepted` is exact: every such info is what some message converts to, and no other is. */
  lemma AcceptedExactly(x: DeviceInfo)
    ensures Accepted(x) <==> exists m: RvDeviceInfo :: DeviceFromRpc(m) == Ok(x)
  {
    if Accepted(x) {
      assert DeviceFromRpc(MessageFor(x)) == Ok(x) by {
        MessageConverts(x);
      }
    }
    if m: RvDeviceInfo :| DeviceFromRpc(m) == Ok(x) {
      DeviceAccepted(m);
    }
  }

  /** A message that leaves out whatever is not set. */
  function MessageFor(x: DeviceInfo): RvDeviceInfo
    requires Accepted(x)
  {
    DeviceEncodingRoundTrip(x.deviceEncoding);
    ConfigRoundTrip(x);
    EndpointsRoundTrip(x.localEndpoints);
    EndpointsRoundTrip(x.remoteEndpoints);
    RvDeviceInfo(
      if x.kind == Sender then WIRE_SENDER else WIRE_RECEIVER,
      if x.index == 0 then None else Some(x.index),
      if x.uid == "" then None else Some(x.uid),
      if x.name == "" then None else Some(x.name),
      Some(x.enabled), DeviceEncodingToRpc(x.deviceEncoding).value, ConfigToRpc(x).value,
      EndpointsToRpc(x.localEndpoints).value, EndpointsToRpc(x.remoteEndpoints).value)
  }

  lemma MessageConverts(x: DeviceInfo)
    requires Accepted(x)
    ensures DeviceFromRpc(MessageFor(x)) == Ok(x)
  {
    hide DeviceEncodingFromRpc, DeviceEncodingToRpc, ConfigFromRpc, ConfigToRpc, EndpointsFromRpc, EndpointsToRpc;
    DeviceEncodingRoundTrip(x.deviceEncoding);
    ConfigRoundTrip(x);
    EndpointsRoundTrip(x.localEndpoints);
    EndpointsRoundTrip(x.remoteEndpoints);
  }

  /**
   The round trip: every complete info can be written, and reading it back gives the same
   info without its derived fields; completing that restores it.
   */
  lemma DeviceRoundTrip(x: DeviceInfo, freshUid: string)
    requires Complete(x)
    ensures DeviceToRpc(x).Ok?
    ensures DeviceFromRpc(DeviceToRpc(x).value) == Ok(Underived(x))
    ensures Completed(Underived(x), x.index, freshUid) == Ok(x)
  {
    hide DeviceEncodingFromRpc, DeviceEncodingToRpc, ConfigFromRpc, ConfigToRpc, EndpointsFromRpc, EndpointsToRpc;
    DeviceEncodingRoundTrip(x.deviceEncoding);
    ConfigRoundTrip(x);
    EndpointsRoundTrip(x.localEndpoints);
    EndpointsRoundTrip(x.remoteEndpoints);
  }

  // ---------------------------------------------------------------- field by field

  lemma DeviceEncodingWritten(e: LocalEncoding)
    ensures DeviceEncodingToRpc(e).Ok?
    ensures var m := DeviceEncodingToRpc(e).value;
            && m.sampleRate == Some(e.sampleRate) && m.bufferLength == Some(e.bufferLengthNs)
            && NumberWritten(CHANNEL_LAYOUT_MAP, m.channelLayout, e.channelLayout)
            && (e.channelLayout != Multitrack ==> m.trackCount == None)
            && (e.channelLayout == Multitrack && e.channelCount <= 1024 ==> m.trackCount == Some(e.channelCount))
  {
    ChannelLayoutRoundTrip(e.channelLayout);
  }

  /** An absent rate, or one of zero, an absent layout and an absent length have their defaults. */
  lemma DeviceEncodingRead(m: RvDeviceEncoding)
    ensures DeviceEncodingFromRpc(m).Ok? <==>
              && Known(CHANNEL_LAYOUT_MAP, m.channelLayout)
              && (if m.channelLayout.Some? && FromRpc(CHANNEL_LAYOUT_MAP, m.channelLayout.value) == Ok(Multitrack)
                  then m.trackCount.Some? && 1 <= m.trackCount.value <= 1024
                  else m.trackCount.None?)
    ensures DeviceEncodingFromRpc(m).Ok? ==>
              var e := DeviceEncodingFromRpc(m).value;
              && FieldRead(if m.sampleRate == Some(0) then None else m.sampleRate, 44100, e.sampleRate)
              && NumberRead(CHANNEL_LAYOUT_MAP, m.channelLayout, Stereo, e.channelLayout)
              && FieldRead(m.bufferLength, 60_000_000, e.bufferLengthNs)
              && FieldRead(m.trackCount, 0, e.channelCount)
              && (e.channelLayout == Multitrack <==> m.trackCount.Some?)
              && (m.trackCount.Some? ==> 1 <= m.trackCount.value <= 1024)
              && e.bufferSamples == 0
  {
  }

  /** The list of messages is the list of endpoints, one by one. */
  ghost predicate EndpointsWritten(es: seq<Endpoint>, ms: seq<RvEndpointInfo>) {
    |ms| == |es| && forall i :: 0 <= i < |es| ==> EndpointToRpc(es[i]) == Ok(ms[i])
  }

  ghost predicate EndpointsRead(ms: seq<RvEndpointInfo>, es: seq<Endpoint>) {
    |es| == |ms| && forall i :: 0 <= i < |ms| ==> EndpointFromRpc(ms[i]) == Ok(es[i])
  }

  /** Every field of the message is the field of that name. */
  lemma DeviceWritten(x: DeviceInfo)
    requires Complete(x)
    ensures DeviceToRpc(x).Ok?
    ensures var m := DeviceToRpc(x).value;
            && m.kind == (match x.kind case Sender => 0 case Receiver => 1)
            && m.index == Some(x.index) && m.uid == Some(x.uid) && m.name == Some(x.name)
            && m.enabled == Some(x.enabled)
            && DeviceEncodingToRpc(x.deviceEncoding) == Ok(m.deviceEncoding)
            && (x.kind == Sender ==>
                  x.senderConfig.Some? && m.config.ForSender?
                  && SenderToRpc(x.senderConfig.value) == Ok(m.config.sender))
            && (x.kind == Receiver ==>
                  x.receiverConfig.Some? && m.config.ForReceiver?
                  && ReceiverToRpc(x.receiverConfig.value) == Ok(m.config.receiver))
            && EndpointsWritten(x.localEndpoints, m.localEndpoints)
            && EndpointsWritten(x.remoteEndpoints, m.remoteEndpoints)
  {
    hide DeviceEncodingFromRpc, DeviceEncodingToRpc, ConfigFromRpc, SenderToRpc, ReceiverToRpc, EndpointToRpc;
    DeviceEncodingRoundTrip(x.deviceEncoding);
    ConfigRoundTrip(x);
    EndpointsRoundTrip(x.localEndpoints);
    EndpointsRoundTrip(x.remoteEndpoints);
  }

  /** Every field of the info is the field of that name; absent ones are left to be filled in, a device is enabled. */
  lemma DeviceRead(m: RvDeviceInfo)
    ensures DeviceFromRpc(m).Ok? <==>
              && ((m.kind == 0 && !m.config.ForReceiver?) || (m.kind == 1 && !m.config.ForSender?))
              && m.index != Some(0) && m.uid != Some("") && m.name != Some("")
              && DeviceEncodingFromRpc(m.deviceEncoding).Ok?
              && (m.config.ForSender? ==> SenderFromRpc(m.config.sender).Ok?)
              && (m.config.ForReceiver? ==> ReceiverFromRpc(m.config.receiver).Ok?)
              && EndpointsFromRpc(m.localEndpoints).Ok? && EndpointsFromRpc(m.remoteEndpoints).Ok?
    ensures DeviceFromRpc(m).Ok? ==>
              var x := DeviceFromRpc(m).value;
              && m.kind == (match x.kind case Sender => 0 case Receiver => 1)
              && FieldRead(m.index, 0, x.index) && FieldRead(m.uid, "", x.uid) && FieldRead(m.name, "", x.name)
              && m.index != Some(0) && m.uid != Some("") && m.name != Some("")
              && FieldRead(m.enabled, true, x.enabled)
              && DeviceEncodingFromRpc(m.deviceEncoding) == Ok(x.deviceEncoding)
              && (x.kind == Sender ==> !m.config.ForReceiver? && x.senderConfig.Some? && x.receiverConfig.None?)
              && (x.kind == Receiver ==> !m.config.ForSender? && x.receiverConfig.Some? && x.senderConfig.None?)
              && (m.config.ForSender? ==> SenderFromRpc(m.config.sender) == Ok(x.senderConfig.value))
              && (m.config.ForReceiver? ==> ReceiverFromRpc(m.config.receiver) == Ok(x.receiverConfig.value))
              && EndpointsRead(m.localEndpoints, x.localEndpoints)
              && EndpointsRead(m.remoteEndpoints, x.remoteEndpoints)
  {
    hide DeviceEncodingFromRpc, SenderFromRpc, ReceiverFromRpc, EndpointFromRpc;
  }

  /** Without a configuration a sender sends with Reed-Solomon correction, and all else is left to the defaults. */
  lemma AbsentConfigRead(m: RvDeviceInfo)
    requires DeviceFromRpc(m).Ok? && m.config.NoConfig?
    ensures var x := DeviceFromRpc(m).value;
            && (x.kind == Sender ==> x.senderConfig == Some(SenderConfig(
                  None, 0, FecRs8m, 0, 0, TunerDefault, ProfileDefault, ResamplerDefault, QualityDefault, 0, 0, 0)))
            && (x.kind == Receiver ==> x.receiverConfig == Some(ReceiverConfig(
                  [], TunerDefault, ProfileDefault, ResamplerDefault, QualityDefault, 0, 0, 0, 0, 0)))
  {
    hide DeviceEncodingFromRpc, SenderFromRpc, ReceiverFromRpc, EndpointsFromRpc;
  }

  // ---------------------------------------------------------------- device lists

  function DevicesFromRpc(ms: seq<RvDeviceInfo>): Result<seq<DeviceInfo>> {
    MapResult((m: RvDeviceInfo) => DeviceFromRpc(m), ms)
  }

  function DevicesToRpc(xs: seq<DeviceInfo>): Result<seq<RvDeviceInfo>> {
    MapResult((x: DeviceInfo) => DeviceToRpc(x), xs)
  }

  method DeviceListFromRpc(ms: seq<RvDeviceInfo>) returns (r: Result<seq<DeviceInfo>>)
    ensures r == DevicesFromRpc(ms)
  {
    var out: seq<DeviceInfo> := [];
    for i := 0 to |ms|
      invariant |out| == i && forall j :: 0 <= j < i ==> DeviceFromRpc(ms[j]) == Ok(out[j])
    {
      var info := DeviceFromRpc(ms[i]);
      if info.Err? {
        MapResultErr((m: RvDeviceInfo) => DeviceFromRpc(m), ms, i);
        return Err(info.error);
      }
      out := out + [info.value];
    }
    MapResultOk((m: RvDeviceInfo) => DeviceFromRpc(m), ms, out);
    return Ok(out);
  }

  method DeviceListToRpc(xs: seq<DeviceInfo>) returns (r: Result<seq<RvDeviceInfo>>)
    ensures r == DevicesToRpc(xs)
  {
    var out: seq<RvDeviceInfo> := [];
    for i := 0 to |xs|
      invariant |out| == i && forall j :: 0 <= j < i ==> DeviceToRpc(xs[j]) == Ok(out[j])
    {
      var m := DeviceToRpc(xs[i]);
      if m.Err? {
        MapResultErr((x: DeviceInfo) => DeviceToRpc(x), xs, i);
        return Err(m.error);
      }
      out := out + [m.value];
    }
    MapResultOk((x: DeviceInfo) => DeviceToRpc(x), xs, out);
    return Ok(out);
  }

  function Underiveds(xs: seq<DeviceInfo>): (ys: seq<DeviceInfo>)
    ensures |ys| == |xs|
  {
    seq(|xs|, i requires 0 <= i < |xs| => Underived(xs[i]))
  }

  /** A list of complete infos survives storage, up to the derived fields. */
  lemma DevicesRoundTrip(xs: seq<DeviceInfo>)
    requires forall i :: 0 <= i < |xs| ==> Complete(xs[i])
    ensures DevicesToRpc(xs).Ok?
    ensures DevicesFromRpc(DevicesToRpc(xs).value) == Ok(Underiveds(xs))
  {
    var ms := seq(|xs|, i requires 0 <= i < |xs| => (DeviceRoundTrip(xs[i], xs[i].uid); DeviceToRpc(xs[i]).value));
    var ys := Underiveds(xs);
    forall i | 0 <= i < |xs|
      ensures DeviceToRpc(xs[i]) == Ok(ms[i]) && DeviceFromRpc(ms[i]) == Ok(ys[i])
    {
      DeviceRoundTrip(xs[i], xs[i].uid);
    }
    MapResultOk((x: DeviceInfo) => DeviceToRpc(x), xs, ms);
    MapResultOk((m: RvDeviceInfo) => DeviceFromRpc(m), ms, ys);
  }
}
