/**
 The translation tables between the numbers of the wire protocol and the driver's own
 enumerations. Wire enumerations are open: any number can arrive.
 */
module EnumTables {
  import opened DeviceDefs

  type EnumMap<E> = seq<(int, E)>

  /** The entry of the first row whose wire number is `x`. */
  function FromRpc<E>(table: EnumMap<E>, x: int): Result<E> {
    if table == [] then Err(InvalidArgument)
    else if table[0].0 == x then Ok(table[0].1)
    else FromRpc(table[1..], x)
  }

  /** The wire number of the first row whose entry is `e`. */
  function ToRpc<E(==)>(table: EnumMap<E>, e: E): Result<int> {
    if table == [] then Err(RuntimeFailure)
    else if table[0].1 == e then Ok(table[0].0)
    else ToRpc(table[1..], e)
  }

  method EnumFromRpc<E(0)>(table: EnumMap<E>, x: int) returns (r: Result<E>)
    ensures r == FromRpc(table, x)
    ensures r.Ok? ==>
              exists i :: 0 <= i < |table| && table[i] == (x, r.value) && forall j :: 0 <= j < i ==> table[j].0 != x
    ensures r.Err? ==> r.error == InvalidArgument && forall j :: 0 <= j < |table| ==> table[j].0 != x
  {
    var i := 0;
    while i < |table|
      invariant i <= |table|
      invariant forall j :: 0 <= j < i ==> table[j].0 != x
      invariant FromRpc(table, x) == FromRpc(table[i..], x)
    {
      if table[i].0 == x {
        return Ok(table[i].1);
      }
      assert table[i..][1..] == table[i + 1..];
      i := i + 1;
    }
    return Err(InvalidArgument);
  }

  method EnumToRpc<E(==)>(table: EnumMap<E>, e: E) returns (r: Result<int>)
    ensures r == ToRpc(table, e)
    ensures r.Ok? ==>
              exists i :: 0 <= i < |table| && table[i] == (r.value, e) && forall j :: 0 <= j < i ==> table[j].1 != e
    ensures r.Err? ==> r.error == RuntimeFailure && forall j :: 0 <= j < |table| ==> table[j].1 != e
  {
    var i := 0;
    while i < |table|
      invariant i <= |table|
      invariant forall j :: 0 <= j < i ==> table[j].1 != e
      invariant ToRpc(table, e) == ToRpc(table[i..], e)
    {
      if table[i].1 == e {
        return Ok(table[i].0);
      }
      assert table[i..][1..] == table[i + 1..];
      i := i + 1;
    }
    return Err(RuntimeFailure);
  }

  /** No number and no entry stands in two rows. */
  ghost predicate DistinctColumns<E(!new)>(table: EnumMap<E>) {
    forall i, j :: 0 <= i < j < |table| ==> table[i].0 != table[j].0 && table[i].1 != table[j].1
  }

  lemma {:induction false} FromRpcRow<E>(table: EnumMap<E>, x: int, i: nat)
    requires i < |table| && table[i].0 == x
    requires forall j :: 0 <= j < i ==> table[j].0 != x
    ensures FromRpc(table, x) == Ok(table[i].1)
  {
    if i == 0 {
    } else {
      assert table[1..][i - 1] == table[i];
      FromRpcRow(table[1..], x, i - 1);
    }
  }

  lemma {:induction false} ToRpcRow<E>(table: EnumMap<E>, e: E, i: nat)
    requires i < |table| && table[i].1 == e
    requires forall j :: 0 <= j < i ==> table[j].1 != e
    ensures ToRpc(table, e) == Ok(table[i].0)
  {
    if i == 0 {
    } else {
      assert table[1..][i - 1] == table[i];
      ToRpcRow(table[1..], e, i - 1);
    }
  }

  lemma {:induction false} RowOfFromRpc<E>(table: EnumMap<E>, x: int) returns (i: nat)
    requires FromRpc(table, x).Ok?
    ensures i < |table| && table[i] == (x, FromRpc(table, x).value)
  {
    if table[0].0 == x {
      i := 0;
    } else {
      var k := RowOfFromRpc(table[1..], x);
      i := k + 1;
    }
  }

  lemma {:induction false} RowOfToRpc<E>(table: EnumMap<E>, e: E) returns (i: nat)
    requires ToRpc(table, e).Ok?
    ensures i < |table| && table[i] == (ToRpc(table, e).value, e)
  {
    if table[0].1 == e {
      i := 0;
    } else {
      var k := RowOfToRpc(table[1..], e);
      i := k + 1;
    }
  }

  /** With distinct columns the two first-match lookups are inverse to each other. */
  lemma LookupsAreInverse<E(!new)>(table: EnumMap<E>, x: int, e: E)
    requires DistinctColumns(table)
    ensures FromRpc(table, x) == Ok(e) <==> ToRpc(table, e) == Ok(x)
  {
    if FromRpc(table, x) == Ok(e) {
      var i := RowOfFromRpc(table, x);
      ToRpcRow(table, e, i);
    }
    if ToRpc(table, e) == Ok(x) {
      var i := RowOfToRpc(table, e);
      FromRpcRow(table, x, i);
    }
  }

  /** Every entry has a row. */
  ghost predicate Covers<E(!new)>(table: EnumMap<E>) {
    forall e: E :: ToRpc(table, e).Ok?
  }

  /** A table between all entries and as many wire numbers, one to one. */
  ghost predicate OneToOne<E(!new)>(table: EnumMap<E>) {
    DistinctColumns(table) && Covers(table)
  }

  /** Any driver value survives the way to the wire and back. */
  lemma EnumRoundTrip<E(!new)>(table: EnumMap<E>, e: E)
    requires OneToOne(table)
    ensures ToRpc(table, e).Ok? && FromRpc(table, ToRpc(table, e).value) == Ok(e)
  {
    LookupsAreInverse(table, ToRpc(table, e).value, e);
  }

  // ---------------------------------------------------------------- the tables

  const INTERFACE_MAP: EnumMap<Interface> := [
    (0, Aggregate), (1, AudioSource), (2, AudioRepair), (3, AudioControl)]

  const SAMPLE_FORMAT_MAP: EnumMap<Subformat> := [
    (40, SInt8), (41, UInt8), (0, SInt16), (51, SInt16Le), (52, SInt16Be), (53, UInt16), (54, UInt16Le),
    (55, UInt16Be), (60, SInt24), (61, SInt24Le), (62, SInt24Be), (63, UInt24), (64, UInt24Le),
    (65, UInt24Be), (70, SInt32), (71, SInt32Le), (72, SInt32Be), (73, UInt32), (74, UInt32Le),
    (75, UInt32Be), (80, SInt64), (81, SInt64Le), (82, SInt64Be), (83, UInt64), (84, UInt64Le),
    (85, UInt64Be), (90, Float32), (91, Float32Le), (92, Float32Be), (93, Float64), (94, Float64Le),
    (95, Float64Be)]

  const CHANNEL_LAYOUT_MAP: EnumMap<ChannelLayout> := [
    (2, Multitrack), (0, Mono), (1, Stereo)]

  const FEC_ENCODING_MAP: EnumMap<FecEncoding> := [
    (0, FecDisable), (1, FecDefault), (2, FecRs8m), (3, FecLdpcStaircase)]

  const TUNER_BACKEND_MAP: EnumMap<LatencyTunerBackend> := [
    (0, TunerDefault), (2, TunerNiq)]

  const TUNER_PROFILE_MAP: EnumMap<LatencyTunerProfile> := [
    (0, ProfileDefault), (1, ProfileIntact), (2, ProfileResponsive), (3, ProfileGradual),
    (4, ProfileSecondOrder)]

  const RESAMPLER_BACKEND_MAP: EnumMap<ResamplerBackend> := [
    (0, ResamplerDefault), (1, ResamplerBuiltin), (2, ResamplerSpeex), (3, ResamplerSpeexDec)]

  const RESAMPLER_PROFILE_MAP: EnumMap<ResamplerProfile> := [
    (0, QualityDefault), (1, QualityHigh), (2, QualityMedium), (3, QualityLow)]

  lemma InterfaceMapOneToOne()
    ensures OneToOne(INTERFACE_MAP)
  {
    forall e: Interface
      ensures ToRpc(INTERFACE_MAP, e).Ok?
    {
      match e
      case Aggregate => ToRpcRow(INTERFACE_MAP, e, 0);
      case AudioSource => ToRpcRow(INTERFACE_MAP, e, 1);
      case AudioRepair => ToRpcRow(INTERFACE_MAP, e, 2);
      case AudioControl => ToRpcRow(INTERFACE_MAP, e, 3);
    }
  }

  lemma ChannelLayoutMapOneToOne()
    ensures OneToOne(CHANNEL_LAYOUT_MAP)
  {
    forall e: ChannelLayout
      ensures ToRpc(CHANNEL_LAYOUT_MAP, e).Ok?
    {
      match e
      case Multitrack => ToRpcRow(CHANNEL_LAYOUT_MAP, e, 0);
      case Mono => ToRpcRow(CHANNEL_LAYOUT_MAP, e, 1);
      case Stereo => ToRpcRow(CHANNEL_LAYOUT_MAP, e, 2);
    }
  }

  lemma FecEncodingMapOneToOne()
    ensures OneToOne(FEC_ENCODING_MAP)
  {
    forall e: FecEncoding
      ensures ToRpc(FEC_ENCODING_MAP, e).Ok?
    {
      match e
      case FecDisable => ToRpcRow(FEC_ENCODING_MAP, e, 0);
      case FecDefault => ToRpcRow(FEC_ENCODING_MAP, e, 1);
      case FecRs8m => ToRpcRow(FEC_ENCODING_MAP, e, 2);
      case FecLdpcStaircase => ToRpcRow(FEC_ENCODING_MAP, e, 3);
    }
  }

  lemma TunerBackendMapOneToOne()
    ensures OneToOne(TUNER_BACKEND_MAP)
  {
    forall e: LatencyTunerBackend
      ensures ToRpc(TUNER_BACKEND_MAP, e).Ok?
    {
      match e
      case TunerDefault => ToRpcRow(TUNER_BACKEND_MAP, e, 0);
      case TunerNiq => ToRpcRow(TUNER_BACKEND_MAP, e, 1);
    }
  }

  lemma TunerProfileMapOneToOne()
    ensures OneToOne(TUNER_PROFILE_MAP)
  {
    forall e: LatencyTunerProfile
      ensures ToRpc(TUNER_PROFILE_MAP, e).Ok?
    {
      match e
      case ProfileDefault => ToRpcRow(TUNER_PROFILE_MAP, e, 0);
      case ProfileIntact => ToRpcRow(TUNER_PROFILE_MAP, e, 1);
      case ProfileResponsive => ToRpcRow(TUNER_PROFILE_MAP, e, 2);
      case ProfileGradual => ToRpcRow(TUNER_PROFILE_MAP, e, 3);
      case ProfileSecondOrder => ToRpcRow(TUNER_PROFILE_MAP, e, 4);
    }
  }

  lemma ResamplerBackendMapOneToOne()
    ensures OneToOne(RESAMPLER_BACKEND_MAP)
  {
    forall e: ResamplerBackend
      ensures ToRpc(RESAMPLER_BACKEND_MAP, e).Ok?
    {
      match e
      case ResamplerDefault => ToRpcRow(RESAMPLER_BACKEND_MAP, e, 0);
      case ResamplerBuiltin => ToRpcRow(RESAMPLER_BACKEND_MAP, e, 1);
      case ResamplerSpeex => ToRpcRow(RESAMPLER_BACKEND_MAP, e, 2);
      case ResamplerSpeexDec => ToRpcRow(RESAMPLER_BACKEND_MAP, e, 3);
    }
  }

  lemma ResamplerProfileMapOneToOne()
    ensures OneToOne(RESAMPLER_PROFILE_MAP)
  {
    forall e: ResamplerProfile
      ensures ToRpc(RESAMPLER_PROFILE_MAP, e).Ok?
    {
      match e
      case QualityDefault => ToRpcRow(RESAMPLER_PROFILE_MAP, e, 0);
      case QualityHigh => ToRpcRow(RESAMPLER_PROFILE_MAP, e, 1);
      case QualityMedium => ToRpcRow(RESAMPLER_PROFILE_MAP, e, 2);
      case QualityLow => ToRpcRow(RESAMPLER_PROFILE_MAP, e, 3);
    }
  }

  /** The row of a sample format. */
  function FormatRow(f: Subformat): nat {
    match f
    case SInt8 => 0
    case UInt8 => 1
    case SInt16 => 2
    case SInt16Le => 3
    case SInt16Be => 4
    case UInt16 => 5
    case UInt16Le => 6
    case UInt16Be => 7
    case SInt24 => 8
    case SInt24Le => 9
    case SInt24Be => 10
    case UInt24 => 11
    case UInt24Le => 12
    case UInt24Be => 13
    case SInt32 => 14
    case SInt32Le => 15
    case SInt32Be => 16
    case UInt32 => 17
    case UInt32Le => 18
    case UInt32Be => 19
    case SInt64 => 20
    case SInt64Le => 21
    case SInt64Be => 22
    case UInt64 => 23
    case UInt64Le => 24
    case UInt64Be => 25
    case Float32 => 26
    case Float32Le => 27
    case Float32Be => 28
    case Float64 => 29
    case Float64Le => 30
    case Float64Be => 31
  }

  /** The row of a wire number: 16-bit signed stands out of order, the others come in blocks of six. */
  function WireRow(x: int): int {
    if x == 0 then 2
    else if x < 50 then x - 40
    else if x < 60 then x - 48
    else x / 10 * 6 + x % 10 - 28
  }

  lemma FormatRowIsRight(f: Subformat)
    ensures FormatRow(f) < |SAMPLE_FORMAT_MAP| && SAMPLE_FORMAT_MAP[FormatRow(f)].1 == f
  {
  }

  lemma WireRowIsRight(i: nat)
    requires i < |SAMPLE_FORMAT_MAP|
    ensures WireRow(SAMPLE_FORMAT_MAP[i].0) == i
  {
  }

  lemma FormatOfLowRow(i: nat)
    requires i < 14
    ensures FormatRow(SAMPLE_FORMAT_MAP[i].1) == i
  {
  }

  lemma FormatOfMiddleRow(i: nat)
    requires 14 <= i < 23
    ensures FormatRow(SAMPLE_FORMAT_MAP[i].1) == i
  {
  }

  lemma FormatOfHighRow(i: nat)
    requires 23 <= i < |SAMPLE_FORMAT_MAP|
    ensures FormatRow(SAMPLE_FORMAT_MAP[i].1) == i
  {
  }

  lemma FormatOfRow(i: nat)
    requires i < |SAMPLE_FORMAT_MAP|
    ensures FormatRow(SAMPLE_FORMAT_MAP[i].1) == i
  {
    if i < 14 {
      FormatOfLowRow(i);
    } else if i < 23 {
      FormatOfMiddleRow(i);
    } else {
      FormatOfHighRow(i);
    }
  }

  lemma SampleFormatMapOneToOne()
    ensures OneToOne(SAMPLE_FORMAT_MAP)
  {
    forall i, j | 0 <= i < j < |SAMPLE_FORMAT_MAP|
      ensures SAMPLE_FORMAT_MAP[i].0 != SAMPLE_FORMAT_MAP[j].0 && SAMPLE_FORMAT_MAP[i].1 != SAMPLE_FORMAT_MAP[j].1
    {
      WireRowIsRight(i);
      WireRowIsRight(j);
      FormatOfRow(i);
      FormatOfRow(j);
    }
    forall f: Subformat
      ensures ToRpc(SAMPLE_FORMAT_MAP, f).Ok?
    {
      FormatRowIsRight(f);
      ToRpcRow(SAMPLE_FORMAT_MAP, f, FormatRow(f));
    }
  }

  // ---------------------------------------------------------------- the numbers of the protocol

  lemma InterfaceNumbers()
    ensures ToRpc(INTERFACE_MAP, Aggregate) == Ok(0)
    ensures ToRpc(INTERFACE_MAP, AudioSource) == Ok(1)
    ensures ToRpc(INTERFACE_MAP, AudioRepair) == Ok(2)
    ensures ToRpc(INTERFACE_MAP, AudioControl) == Ok(3)
  {
    ToRpcRow(INTERFACE_MAP, Aggregate, 0);
    ToRpcRow(INTERFACE_MAP, AudioSource, 1);
    ToRpcRow(INTERFACE_MAP, AudioRepair, 2);
    ToRpcRow(INTERFACE_MAP, AudioControl, 3);
  }

  lemma ChannelLayoutNumbers()
    ensures ToRpc(CHANNEL_LAYOUT_MAP, Multitrack) == Ok(2)
    ensures ToRpc(CHANNEL_LAYOUT_MAP, Mono) == Ok(0)
    ensures ToRpc(CHANNEL_LAYOUT_MAP, Stereo) == Ok(1)
  {
    ToRpcRow(CHANNEL_LAYOUT_MAP, Multitrack, 0);
    ToRpcRow(CHANNEL_LAYOUT_MAP, Mono, 1);
    ToRpcRow(CHANNEL_LAYOUT_MAP, Stereo, 2);
  }

  lemma FecEncodingNumbers()
    ensures ToRpc(FEC_ENCODING_MAP, FecDisable) == Ok(0)
    ensures ToRpc(FEC_ENCODING_MAP, FecDefault) == Ok(1)
    ensures ToRpc(FEC_ENCODING_MAP, FecRs8m) == Ok(2)
    ensures ToRpc(FEC_ENCODING_MAP, FecLdpcStaircase) == Ok(3)
  {
    ToRpcRow(FEC_ENCODING_MAP, FecDisable, 0);
    ToRpcRow(FEC_ENCODING_MAP, FecDefault, 1);
    ToRpcRow(FEC_ENCODING_MAP, FecRs8m, 2);
    ToRpcRow(FEC_ENCODING_MAP, FecLdpcStaircase, 3);
  }

  lemma TunerBackendNumbers()
    ensures ToRpc(TUNER_BACKEND_MAP, TunerDefault) == Ok(0)
    ensures ToRpc(TUNER_BACKEND_MAP, TunerNiq) == Ok(2)
  {
    ToRpcRow(TUNER_BACKEND_MAP, TunerDefault, 0);
    ToRpcRow(TUNER_BACKEND_MAP, TunerNiq, 1);
  }

  lemma TunerProfileNumbers()
    ensures ToRpc(TUNER_PROFILE_MAP, ProfileDefault) == Ok(0)
    ensures ToRpc(TUNER_PROFILE_MAP, ProfileIntact) == Ok(1)
    ensures ToRpc(TUNER_PROFILE_MAP, ProfileResponsive) == Ok(2)
    ensures ToRpc(TUNER_PROFILE_MAP, ProfileGradual) == Ok(3)
    ensures ToRpc(TUNER_PROFILE_MAP, ProfileSecondOrder) == Ok(4)
  {
    ToRpcRow(TUNER_PROFILE_MAP, ProfileDefault, 0);
    ToRpcRow(TUNER_PROFILE_MAP, ProfileIntact, 1);
    ToRpcRow(TUNER_PROFILE_MAP, ProfileResponsive, 2);
    ToRpcRow(TUNER_PROFILE_MAP, ProfileGradual, 3);
    ToRpcRow(TUNER_PROFILE_MAP, ProfileSecondOrder, 4);
  }

  lemma ResamplerBackendNumbers()
    ensures ToRpc(RESAMPLER_BACKEND_MAP, ResamplerDefault) == Ok(0)
    ensures ToRpc(RESAMPLER_BACKEND_MAP, ResamplerBuiltin) == Ok(1)
    ensures ToRpc(RESAMPLER_BACKEND_MAP, ResamplerSpeex) == Ok(2)
    ensures ToRpc(RESAMPLER_BACKEND_MAP, ResamplerSpeexDec) == Ok(3)
  {
    ToRpcRow(RESAMPLER_BACKEND_MAP, ResamplerDefault, 0);
    ToRpcRow(RESAMPLER_BACKEND_MAP, ResamplerBuiltin, 1);
    ToRpcRow(RESAMPLER_BACKEND_MAP, ResamplerSpeex, 2);
    ToRpcRow(RESAMPLER_BACKEND_MAP, ResamplerSpeexDec, 3);
  }

  lemma ResamplerProfileNumbers()
    ensures ToRpc(RESAMPLER_PROFILE_MAP, QualityDefault) == Ok(0)
    ensures ToRpc(RESAMPLER_PROFILE_MAP, QualityHigh) == Ok(1)
    ensures ToRpc(RESAMPLER_PROFILE_MAP, QualityMedium) == Ok(2)
    ensures ToRpc(RESAMPLER_PROFILE_MAP, QualityLow) == Ok(3)
  {
    ToRpcRow(RESAMPLER_PROFILE_MAP, QualityDefault, 0);
    ToRpcRow(RESAMPLER_PROFILE_MAP, QualityHigh, 1);
    ToRpcRow(RESAMPLER_PROFILE_MAP, QualityMedium, 2);
    ToRpcRow(RESAMPLER_PROFILE_MAP, QualityLow, 3);
  }

  /** The number the protocol gives to a sample format. */
  function FormatNumber(f: Subformat): int {
    match f
    case SInt8 => 40
    case UInt8 => 41
    case SInt16 => 0
    case SInt16Le => 51
    case SInt16Be => 52
    case UInt16 => 53
    case UInt16Le => 54
    case UInt16Be => 55
    case SInt24 => 60
    case SInt24Le => 61
    case SInt24Be => 62
    case UInt24 => 63
    case UInt24Le => 64
    case UInt24Be => 65
    case SInt32 => 70
    case SInt32Le => 71
    case SInt32Be => 72
    case UInt32 => 73
    case UInt32Le => 74
    case UInt32Be => 75
    case SInt64 => 80
    case SInt64Le => 81
    case SInt64Be => 82
    case UInt64 => 83
    case UInt64Le => 84
    case UInt64Be => 85
    case Float32 => 90
    case Float32Le => 91
    case Float32Be => 92
    case Float64 => 93
    case Float64Le => 94
    case Float64Be => 95
  }

  lemma FormatRowNumber(f: Subformat)
    ensures SAMPLE_FORMAT_MAP[FormatRow(f)].0 == FormatNumber(f)
  {
  }

  /** Every sample format travels under its own number. */
  lemma SampleFormatNumbers(f: Subformat)
    ensures ToRpc(SAMPLE_FORMAT_MAP, f) == Ok(FormatNumber(f))
    ensures FromRpc(SAMPLE_FORMAT_MAP, FormatNumber(f)) == Ok(f)
  {
    FormatRowIsRight(f);
    FormatRowNumber(f);
    forall j | 0 <= j < FormatRow(f)
      ensures SAMPLE_FORMAT_MAP[j].1 != f
    {
      FormatOfRow(j);
    }
    ToRpcRow(SAMPLE_FORMAT_MAP, f, FormatRow(f));
    SampleFormatMapOneToOne();
    LookupsAreInverse(SAMPLE_FORMAT_MAP, FormatNumber(f), f);
  }

  // ---------------------------------------------------------------- every entry survives

  lemma InterfaceRoundTrip(e: Interface)
    ensures ToRpc(INTERFACE_MAP, e).Ok? && FromRpc(INTERFACE_MAP, ToRpc(INTERFACE_MAP, e).value) == Ok(e)
  {
    InterfaceMapOneToOne();
    EnumRoundTrip(INTERFACE_MAP, e);
  }

  lemma SubformatRoundTrip(e: Subformat)
    ensures ToRpc(SAMPLE_FORMAT_MAP, e).Ok? && FromRpc(SAMPLE_FORMAT_MAP, ToRpc(SAMPLE_FORMAT_MAP, e).value) == Ok(e)
  {
    SampleFormatMapOneToOne();
    EnumRoundTrip(SAMPLE_FORMAT_MAP, e);
  }

  lemma ChannelLayoutRoundTrip(e: ChannelLayout)
    ensures ToRpc(CHANNEL_LAYOUT_MAP, e).Ok? && FromRpc(CHANNEL_LAYOUT_MAP, ToRpc(CHANNEL_LAYOUT_MAP, e).value) == Ok(e)
  {
    ChannelLayoutMapOneToOne();
    EnumRoundTrip(CHANNEL_LAYOUT_MAP, e);
  }

  lemma FecEncodingRoundTrip(e: FecEncoding)
    ensures ToRpc(FEC_ENCODING_MAP, e).Ok? && FromRpc(FEC_ENCODING_MAP, ToRpc(FEC_ENCODING_MAP, e).value) == Ok(e)
  {
    FecEncodingMapOneToOne();
    EnumRoundTrip(FEC_ENCODING_MAP, e);
  }

  lemma LatencyTunerBackendRoundTrip(e: LatencyTunerBackend)
    ensures ToRpc(TUNER_BACKEND_MAP, e).Ok? && FromRpc(TUNER_BACKEND_MAP, ToRpc(TUNER_BACKEND_MAP, e).value) == Ok(e)
  {
    TunerBackendMapOneToOne();
    EnumRoundTrip(TUNER_BACKEND_MAP, e);
  }

  lemma LatencyTunerProfileRoundTrip(e: LatencyTunerProfile)
    ensures ToRpc(TUNER_PROFILE_MAP, e).Ok? && FromRpc(TUNER_PROFILE_MAP, ToRpc(TUNER_PROFILE_MAP, e).value) == Ok(e)
  {
    TunerProfileMapOneToOne();
    EnumRoundTrip(TUNER_PROFILE_MAP, e);
  }

  lemma ResamplerBackendRoundTrip(e: ResamplerBackend)
    ensures ToRpc(RESAMPLER_BACKEND_MAP, e).Ok?
    ensures FromRpc(RESAMPLER_BACKEND_MAP, ToRpc(RESAMPLER_BACKEND_MAP, e).value) == Ok(e)
  {
    ResamplerBackendMapOneToOne();
    EnumRoundTrip(RESAMPLER_BACKEND_MAP, e);
  }

  lemma ResamplerProfileRoundTrip(e: ResamplerProfile)
    ensures ToRpc(RESAMPLER_PROFILE_MAP, e).Ok?
    ensures FromRpc(RESAMPLER_PROFILE_MAP, ToRpc(RESAMPLER_PROFILE_MAP, e).value) == Ok(e)
  {
    ResamplerProfileMapOneToOne();
    EnumRoundTrip(RESAMPLER_PROFILE_MAP, e);
  }
}
