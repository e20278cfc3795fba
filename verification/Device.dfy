/** SETUP packets, and a device's answers to requests for its descriptors. */
module Device {
  import opened Options
  import opened Words
  import opened Descriptors
  import UsbDriver

  datatype SetupPacket = SetupPacket(requestType: Byte, request: Byte, value: U16, index: U16, length: U16)

  function SetupBytes(s: SetupPacket): (b: Bytes)
    ensures |b| == 8
  {
    [s.requestType, s.request] + Le16(s.value) + Le16(s.index) + Le16(s.length)
  }

  function ParseSetup(b: Bytes): SetupPacket
    requires |b| == 8
  {
    SetupPacket(b[0], b[1], FromLe16(b[2..4]), FromLe16(b[4..6]), FromLe16(b[6..8]))
  }

  lemma SetupRoundTrip(s: SetupPacket)
    ensures ParseSetup(SetupBytes(s)) == s
  {
    var b := SetupBytes(s);
    assert b[2..4] == Le16(s.value) && b[4..6] == Le16(s.index) && b[6..8] == Le16(s.length);
    Le16RoundTrip(s.value);
    Le16RoundTrip(s.index);
    Le16RoundTrip(s.length);
  }

  datatype Direction = HostToDevice | DeviceToHost
  datatype RequestType = Standard | Class | Vendor | Reserved
  datatype Recipient = ToDevice | ToInterface | ToEndpoint | ToOther

  function DirectionOf(b: Byte): Direction {
    if b < 0x80 then HostToDevice else DeviceToHost
  }

  function TypeOf(s: SetupPacket): RequestType {
    match s.requestType / 0x20 % 4
    case 0 => Standard
    case 1 => Class
    case 2 => Vendor
    case _ => Reserved
  }

  function RecipientOf(s: SetupPacket): Recipient {
    match s.requestType % 0x20
    case 0 => ToDevice
    case 1 => ToInterface
    case 2 => ToEndpoint
    case _ => ToOther
  }

  const GET_STATUS: Byte := 0
  const CLEAR_FEATURE: Byte := 1
  const SET_FEATURE: Byte := 3
  const SET_ADDRESS: Byte := 5
  const GET_DESCRIPTOR: Byte := 6
  const GET_CONFIGURATION: Byte := 8
  const SET_CONFIGURATION: Byte := 9

  /** What a handler asks of the USB driver. */
  datatype Call =
    | Write(endpoint: nat, data: Bytes)
    | WriteRequested(endpoint: nat, length: nat, data: Bytes)
    | StallIn(endpoint: nat)
    | StallOut(endpoint: nat)
    | Prime(endpoint: nat)
    | SetAddress(address: nat)
    | ClearHalt(endpoint: nat, direction: Direction)

  /** A handler returns, handing back a packet it could not handle, or panics on a bad index. */
  datatype Outcome = Returned(unhandled: Option<SetupPacket>) | Panicked

  datatype Reply = Reply(calls: seq<Call>, outcome: Outcome)

  datatype Microsoft10 = Microsoft10(text: Bytes, compatibleId: Bytes, extendedProperties: Bytes)

  datatype DescriptorSet = DescriptorSet(
    speed: UsbDriver.Speed, device: DeviceDescriptor, configuration: Configuration, languages: seq<U16>,
    strings: seq<seq<Scalar>>, qualifier: Option<DeviceQualifier>, otherSpeed: Option<Configuration>,
    microsoft10: Option<Microsoft10>)

  const MICROSOFT_STRING: nat := 0xEE

  function SetTotalLengths(ds: DescriptorSet): DescriptorSet {
    ds.(configuration := SetTotalLength(ds.configuration),
        otherSpeed := if ds.otherSpeed.None? then None else Some(SetTotalLength(ds.otherSpeed.value)))
  }

  function Take(b: Bytes, n: nat): Bytes {
    if |b| <= n then b else b[..n]
  }

  /** The descriptor a GetDescriptor request names, if the device has it. */
  function Descriptor(ds: DescriptorSet, value: U16): Option<Bytes> {
    var (number, kind) := (value % 0x100, value / 0x100);
    if kind == DEVICE && number == 0 then Some(DeviceBytes(ds.device))
    else if kind == CONFIGURATION then Some(ConfigurationBytes(ds.configuration))
    else if kind == DEVICE_QUALIFIER && ds.speed.High? && ds.qualifier.Some? then
      Some(QualifierBytes(ds.qualifier.value))
    else if kind == OTHER_SPEED_CONFIGURATION && ds.otherSpeed.Some? then Some(ConfigurationBytes(ds.otherSpeed.value))
    else if kind == STRING && number == 0 then Some(LanguageBytes(ds.languages))
    else if kind == STRING && number != MICROSOFT_STRING && number <= |ds.strings| then
      Some(StringBytes(ds.strings[number - 1]))
    else None
  }

  /** The answer: the descriptor cut to the requested length, or what is done in its place. */
  function WriteDescriptor(ds: DescriptorSet, endpoint: nat, s: SetupPacket): Reply {
    var (number, kind, descriptor) := (s.value % 0x100, s.value / 0x100, Descriptor(ds, s.value));
    if descriptor.Some? then
      Reply([WriteRequested(endpoint, s.length, Take(descriptor.value, s.length))], Returned(None))
    else if kind == DEVICE_QUALIFIER || kind == OTHER_SPEED_CONFIGURATION then
      Reply([Write(endpoint, [])], Returned(None))
    else if kind == STRING && number == MICROSOFT_STRING then
      if ds.microsoft10.Some? then
        Reply([WriteRequested(endpoint, s.length, ds.microsoft10.value.text)], Returned(None))
      else Reply([StallIn(endpoint)], Returned(Some(s)))
    else if kind == STRING && number - 1 == |ds.strings| then Reply([], Panicked)
    else Reply([], Returned(Some(s)))
  }

  /**
    What is offered is the beginning of the descriptor, as much as was asked for; only the
    Microsoft string is sent whole, and nothing else is sent for a requested length.
  */
  lemma OffersDescriptor(ds: DescriptorSet, endpoint: nat, s: SetupPacket, b: Bytes)
    ensures var whole := Descriptor(ds, s.value);
      WriteRequested(endpoint, s.length, b) in WriteDescriptor(ds, endpoint, s).calls <==>
      || (whole.Some? && b <= whole.value && |b| == if |whole.value| < s.length then |whole.value| else s.length)
      || (s.value == 0x100 * STRING + MICROSOFT_STRING && ds.microsoft10.Some? && b == ds.microsoft10.value.text)
  {
    var whole := Descriptor(ds, s.value);
    if whole.Some? && b <= whole.value && |b| == (if |whole.value| < s.length then |whole.value| else s.length) {
      assert b == whole.value[..|b|] && whole.value[..|whole.value|] == whole.value;
      assert b == Take(whole.value, s.length);
    }
  }

  // ---- What a host makes of the answers ----

  /** The reply sends the beginning of `whole`, as much as was asked for, and nothing else. */
  predicate Sends(r: Reply, endpoint: nat, length: nat, whole: Bytes) {
    && |r.calls| == 1 && r.calls[0].WriteRequested? && r.outcome == Returned(None)
    && r.calls[0].endpoint == endpoint && r.calls[0].length == length
    && r.calls[0].data <= whole && |r.calls[0].data| == if |whole| < length then |whole| else length
  }

  lemma CutSends(endpoint: nat, length: nat, whole: Bytes)
    ensures var r := Reply([WriteRequested(endpoint, length, Take(whole, length))], Returned(None));
      Sends(r, endpoint, length, whole)
  {
    assert whole[..|whole|] == whole;
  }

  /** Value 0x0100 (USB 2.0, tables 9-5 and 9-8): the host reads the device descriptor. */
  lemma HostReadsDevice(ds: DescriptorSet, endpoint: nat, s: SetupPacket) returns (whole: Bytes)
    requires s.value == 0x0100
    ensures Sends(WriteDescriptor(ds, endpoint, s), endpoint, s.length, whole)
    ensures |whole| == 18 && ReadDevice(whole) == ds.device
  {
    whole := DeviceBytes(ds.device);
    DeviceRoundTrip(ds.device);
    CutSends(endpoint, s.length, whole);
    hide DeviceBytes, Sends;
  }

  /** Type 2: the host reads the configuration, with all its interfaces and endpoints. */
  lemma HostReadsConfiguration(ds: DescriptorSet, endpoint: nat, s: SetupPacket) returns (whole: Bytes)
    requires s.value / 0x100 == 2 && WellFormed(ds.configuration)
    ensures Sends(WriteDescriptor(ds, endpoint, s), endpoint, s.length, whole)
    ensures ReadConfiguration(whole) == Some(ds.configuration)
  {
    whole := ConfigurationBytes(ds.configuration);
    ConfigurationRoundTrip(ds.configuration);
    CutSends(endpoint, s.length, whole);
    hide ConfigurationBytes, ReadConfiguration, Sends;
  }

  /** Type 7: the same for the other speed, if there is one. */
  lemma HostReadsOtherSpeed(ds: DescriptorSet, endpoint: nat, s: SetupPacket) returns (whole: Bytes)
    requires s.value / 0x100 == 7 && ds.otherSpeed.Some? && WellFormed(ds.otherSpeed.value)
    ensures Sends(WriteDescriptor(ds, endpoint, s), endpoint, s.length, whole)
    ensures ReadConfiguration(whole) == Some(ds.otherSpeed.value)
  {
    whole := ConfigurationBytes(ds.otherSpeed.value);
    ConfigurationRoundTrip(ds.otherSpeed.value);
    CutSends(endpoint, s.length, whole);
    hide ConfigurationBytes, ReadConfiguration, Sends;
  }

  /** Type 6: the qualifier, of a high-speed device that has one. */
  lemma HostReadsQualifier(ds: DescriptorSet, endpoint: nat, s: SetupPacket) returns (whole: Bytes)
    requires s.value / 0x100 == 6 && ds.speed.High? && ds.qualifier.Some?
    ensures Sends(WriteDescriptor(ds, endpoint, s), endpoint, s.length, whole)
    ensures |whole| == 10 && ReadQualifier(whole) == ds.qualifier.value
  {
    whole := QualifierBytes(ds.qualifier.value);
    QualifierRoundTrip(ds.qualifier.value);
    CutSends(endpoint, s.length, whole);
    hide QualifierBytes, Sends;
  }

  lemma NamedString(ds: DescriptorSet, value: U16) returns (whole: Bytes)
    requires 0x0300 <= value <= 0x0300 + |ds.strings| && value != 0x03EE && value < 0x0400
    ensures whole == if value == 0x0300 then LanguageBytes(ds.languages) else StringBytes(ds.strings[value - 0x0301])
    ensures Descriptor(ds, value) == Some(whole)
  {
    hide StringBytes, LanguageBytes, DeviceBytes, ConfigurationBytes, QualifierBytes;
    whole := if value == 0x0300 then LanguageBytes(ds.languages) else StringBytes(ds.strings[value - 0x0301]);
  }

  /** Type 3: the languages as string 0, the device's strings as those from 1 on. */
  lemma HostReadsString(ds: DescriptorSet, endpoint: nat, s: SetupPacket) returns (whole: Bytes)
    requires 0x0300 <= s.value <= 0x0300 + |ds.strings| && s.value != 0x03EE && s.value < 0x0400
    ensures Sends(WriteDescriptor(ds, endpoint, s), endpoint, s.length, whole) && |whole| >= 2
    ensures s.value == 0x0300 ==> ReadUnits(whole[2..]) == ds.languages
    ensures s.value > 0x0300 ==> DecodeUtf16(ReadUnits(whole[2..])) == ds.strings[s.value - 0x0301]
  {
    hide StringBytes, LanguageBytes, Sends, DecodeUtf16, ReadUnits;
    whole := NamedString(ds, s.value);
    assert |whole| >= 2;
    StringsRoundTrip(if s.value == 0x0300 then [] else ds.strings[s.value - 0x0301], ds.languages);
    hide Descriptor;
    CutSends(endpoint, s.length, whole);
  }

  /**
    What a device is built from keeps everything but the total lengths; each configuration then
    announces its own length in its first nine bytes, exactly if that fits 16 bits.
  */
  lemma AnnouncedLengths(ds: DescriptorSet)
    ensures var d := SetTotalLengths(ds);
      && d == ds.(configuration := d.configuration, otherSpeed := d.otherSpeed)
      && d.configuration.tail == ds.configuration.tail && (d.otherSpeed.Some? <==> ds.otherSpeed.Some?)
      && Announces(d.configuration)
      && (d.otherSpeed.Some? ==> Announces(d.otherSpeed.value) && d.otherSpeed.value.tail == ds.otherSpeed.value.tail)
  {
    TotalLengthExact(ds.configuration);
    if ds.otherSpeed.Some? {
      TotalLengthExact(ds.otherSpeed.value);
    }
  }

  predicate Announces(c: Configuration) {
    var whole := ConfigurationBytes(c);
    ReadHeader(whole[..9]).wTotalLength == |whole| <==> 9 + TailLength(c.tail) <= 0xFFFF
  }

  /**
    Requests nobody answers: another kind or device number, a string beyond the one after the
    last, or no Microsoft string.
  */
  predicate NotOffered(ds: DescriptorSet, value: U16) {
    var (number, kind) := (value % 0x100, value / 0x100);
    if kind == DEVICE then number != 0
    else if kind == STRING then
      if number == MICROSOFT_STRING then ds.microsoft10.None? else number > |ds.strings| + 1
    else kind != CONFIGURATION && kind != DEVICE_QUALIFIER && kind != OTHER_SPEED_CONFIGURATION
  }

  /** Other speeds and qualifiers the device does not have are answered with an empty packet, and nothing else is. */
  lemma AbsentAnsweredEmptyIff(ds: DescriptorSet, endpoint: nat, s: SetupPacket)
    ensures WriteDescriptor(ds, endpoint, s) == Reply([Write(endpoint, [])], Returned(None)) <==>
      || (s.value / 0x100 == 6 && (!ds.speed.High? || ds.qualifier.None?))
      || (s.value / 0x100 == 7 && ds.otherSpeed.None?)
  {
  }

  /** A request that is handed back is left alone, but for the Microsoft string, which is stalled as well. */
  lemma HandedBackCalls(ds: DescriptorSet, endpoint: nat, s: SetupPacket)
    requires WriteDescriptor(ds, endpoint, s).outcome == Returned(Some(s))
    ensures WriteDescriptor(ds, endpoint, s).calls == if s.value == 0x03EE then [StallIn(endpoint)] else []
  {
  }

  /** A descriptor request is handed back exactly when nobody answers it. */
  lemma HandedBackIff(ds: DescriptorSet, endpoint: nat, s: SetupPacket)
    ensures WriteDescriptor(ds, endpoint, s).outcome == Returned(Some(s)) <==> NotOffered(ds, s.value)
  {
  }

  /** A descriptor request panics exactly when it asks for the string just after the last one. */
  lemma PanicsExactly(ds: DescriptorSet, endpoint: nat, s: SetupPacket)
    ensures WriteDescriptor(ds, endpoint, s).outcome.Panicked? <==>
      s.value / 0x100 == STRING && s.value % 0x100 == |ds.strings| + 1 && s.value % 0x100 != MICROSOFT_STRING
  {
  }
}
