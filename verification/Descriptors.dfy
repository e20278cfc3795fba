/**
  USB descriptors as structures, as the bytes a device sends, and as what a host reads back
  (USB 2.0, sections 9.6.1 to 9.6.7).
*/
module Descriptors {
  import opened Options
  import opened Seqs
  import opened Words

  type Bytes = seq<Byte>

  type U16 = n: nat | n < 0x1_0000

  const DEVICE: Byte := 1
  const CONFIGURATION: Byte := 2
  const STRING: Byte := 3
  const INTERFACE: Byte := 4
  const ENDPOINT: Byte := 5
  const DEVICE_QUALIFIER: Byte := 6
  const OTHER_SPEED_CONFIGURATION: Byte := 7
  const CLASS_SPECIFIC: Byte := 0x24

  function Le16(n: U16): (b: Bytes)
    ensures |b| == 2
  {
    [n % 0x100, n / 0x100]
  }

  function FromLe16(b: Bytes): U16
    requires |b| == 2
  {
    var (lo: nat, hi: nat) := (b[0], b[1]);
    lo + 0x100 * hi
  }

  lemma Le16RoundTrip(n: U16)
    ensures FromLe16(Le16(n)) == n
  {
  }

  // ---- Structures ----

  datatype DeviceDescriptor = DeviceDescriptor(
    bLength: Byte, bDescriptorType: Byte, bcdUSB: U16, bDeviceClass: Byte, bDeviceSubClass: Byte,
    bDeviceProtocol: Byte, bMaxPacketSize: Byte, idVendor: U16, idProduct: U16, bcdDevice: U16,
    iManufacturer: Byte, iProduct: Byte, iSerialNumber: Byte, bNumConfigurations: Byte)

  datatype DeviceQualifier = DeviceQualifier(
    bLength: Byte, bDescriptorType: Byte, bcdUSB: U16, bDeviceClass: Byte, bDeviceSubClass: Byte,
    bDeviceProtocol: Byte, bMaxPacketSize0: Byte, bNumConfigurations: Byte, bReserved: Byte)

  datatype ConfigurationHeader = ConfigurationHeader(
    bLength: Byte, bDescriptorType: Byte, wTotalLength: U16, bNumInterfaces: Byte,
    bConfigurationValue: Byte, iConfiguration: Byte, bmAttributes: Byte, bMaxPower: Byte)

  datatype InterfaceHeader = InterfaceHeader(
    bLength: Byte, bDescriptorType: Byte, bInterfaceNumber: Byte, bAlternateSetting: Byte, bNumEndpoints: Byte,
    bInterfaceClass: Byte, bInterfaceSubClass: Byte, bInterfaceProtocol: Byte, iInterface: Byte)

  datatype ClassSpecific = ClassSpecific(bLength: Byte, bDescriptorType: Byte, bDescriptorSubtype: Byte, bmRaw: U16)

  datatype Endpoint = Endpoint(
    bLength: Byte, bDescriptorType: Byte, bEndpointAddress: Byte, bmAttributes: Byte, wMaxPacketSize: U16,
    bInterval: Byte)

  datatype Interface = Interface(head: InterfaceHeader, specifics: seq<ClassSpecific>, endpoints: seq<Endpoint>)

  datatype Configuration = Configuration(head: ConfigurationHeader, tail: seq<Interface>)

  /** The counts are truncated to a byte, as the constructors do. */
  function NewInterface(head: InterfaceHeader, specifics: seq<ClassSpecific>, endpoints: seq<Endpoint>): Interface {
    Interface(head.(bLength := 9, bNumEndpoints := |endpoints| % 0x100), specifics, endpoints)
  }

  function NewConfiguration(head: ConfigurationHeader, tail: seq<Interface>): Configuration {
    Configuration(head.(bLength := 9, bNumInterfaces := |tail| % 0x100), tail)
  }

  // ---- Serialisation ----

  function DeviceBytes(d: DeviceDescriptor): (b: Bytes)
    ensures |b| == 18
  {
    [d.bLength, d.bDescriptorType] + Le16(d.bcdUSB) +
    [d.bDeviceClass, d.bDeviceSubClass, d.bDeviceProtocol, d.bMaxPacketSize] +
    Le16(d.idVendor) + Le16(d.idProduct) + Le16(d.bcdDevice) +
    [d.iManufacturer, d.iProduct, d.iSerialNumber, d.bNumConfigurations]
  }

  function QualifierBytes(d: DeviceQualifier): (b: Bytes)
    ensures |b| == 10
  {
    [d.bLength, d.bDescriptorType] + Le16(d.bcdUSB) +
    [d.bDeviceClass, d.bDeviceSubClass, d.bDeviceProtocol, d.bMaxPacketSize0, d.bNumConfigurations, d.bReserved]
  }

  function HeaderBytes(h: ConfigurationHeader): (b: Bytes)
    ensures |b| == 9
  {
    [h.bLength, h.bDescriptorType] + Le16(h.wTotalLength) +
    [h.bNumInterfaces, h.bConfigurationValue, h.iConfiguration, h.bmAttributes, h.bMaxPower]
  }

  function InterfaceHeaderBytes(h: InterfaceHeader): (b: Bytes)
    ensures |b| == 9
  {
    [h.bLength, h.bDescriptorType, h.bInterfaceNumber, h.bAlternateSetting, h.bNumEndpoints,
     h.bInterfaceClass, h.bInterfaceSubClass, h.bInterfaceProtocol, h.iInterface]
  }

  function SpecificBytes(c: ClassSpecific): (b: Bytes)
    ensures |b| == 5
  {
    [c.bLength, c.bDescriptorType, c.bDescriptorSubtype] + Le16(c.bmRaw)
  }

  function EndpointBytes(e: Endpoint): (b: Bytes)
    ensures |b| == 7
  {
    [e.bLength, e.bDescriptorType, e.bEndpointAddress, e.bmAttributes] + Le16(e.wMaxPacketSize) + [e.bInterval]
  }

  function SpecificsBytes(cs: seq<ClassSpecific>): (b: Bytes)
    ensures |b| == 5 * |cs|
  {
    if cs == [] then [] else SpecificBytes(cs[0]) + SpecificsBytes(cs[1..])
  }

  function EndpointsBytes(es: seq<Endpoint>): (b: Bytes)
    ensures |b| == 7 * |es|
  {
    if es == [] then [] else EndpointBytes(es[0]) + EndpointsBytes(es[1..])
  }

  function InterfaceBytes(i: Interface): (b: Bytes)
    ensures |b| == InterfaceLength(i)
  {
    InterfaceHeaderBytes(i.head) + SpecificsBytes(i.specifics) + EndpointsBytes(i.endpoints)
  }

  function InterfacesBytes(tail: seq<Interface>): (b: Bytes)
    ensures |b| == TailLength(tail)
  {
    if tail == [] then [] else InterfaceBytes(tail[0]) + InterfacesBytes(tail[1..])
  }

  function ConfigurationBytes(c: Configuration): (b: Bytes)
    ensures |b| == 9 + TailLength(c.tail)
  {
    HeaderBytes(c.head) + InterfacesBytes(c.tail)
  }

  function InterfaceLength(i: Interface): nat {
    9 + 5 * |i.specifics| + 7 * |i.endpoints|
  }

  function TailLength(tail: seq<Interface>): nat {
    if tail == [] then 0 else InterfaceLength(tail[0]) + TailLength(tail[1..])
  }

  // ---- The host's reading ----

  predicate WellFormedInterface(i: Interface) {
    && i.head.bLength == 9 && i.head.bDescriptorType == INTERFACE
    && (forall k :: 0 <= k < |i.specifics| ==>
          i.specifics[k].bLength == 5 && i.specifics[k].bDescriptorType == CLASS_SPECIFIC)
    && (forall k :: 0 <= k < |i.endpoints| ==>
          i.endpoints[k].bLength == 7 && i.endpoints[k].bDescriptorType == ENDPOINT)
  }

  predicate WellFormed(c: Configuration) {
    c.head.bLength == 9 && forall k :: 0 <= k < |c.tail| ==> WellFormedInterface(c.tail[k])
  }

  /** Whether a descriptor of this length and type comes next. */
  predicate Next(b: Bytes, length: Byte, kind: Byte) {
    |b| >= 2 && b[0] == length && b[1] == kind && |b| >= length
  }

  function ReadSpecifics(b: Bytes): (r: (seq<ClassSpecific>, Bytes))
    ensures |r.1| <= |b|
    decreases |b|
  {
    if !Next(b, 5, CLASS_SPECIFIC) then ([], b)
    else
      var (cs, rest) := ReadSpecifics(b[5..]);
      ([ClassSpecific(b[0], b[1], b[2], FromLe16(b[3..5]))] + cs, rest)
  }

  function ReadEndpoints(b: Bytes): (r: (seq<Endpoint>, Bytes))
    ensures |r.1| <= |b|
    decreases |b|
  {
    if !Next(b, 7, ENDPOINT) then ([], b)
    else
      var (es, rest) := ReadEndpoints(b[7..]);
      ([Endpoint(b[0], b[1], b[2], b[3], FromLe16(b[4..6]), b[6])] + es, rest)
  }

  /** The rest of a configuration, interface by interface; None if something else turns up. */
  function ReadInterfaces(b: Bytes): Option<seq<Interface>>
    decreases |b|
  {
    if b == [] then Some([])
    else if !Next(b, 9, INTERFACE) then None
    else
      var head := InterfaceHeader(b[0], b[1], b[2], b[3], b[4], b[5], b[6], b[7], b[8]);
      var (specifics, rest1) := ReadSpecifics(b[9..]);
      var (endpoints, rest2) := ReadEndpoints(rest1);
      var others := ReadInterfaces(rest2);
      if others.None? then None else Some([Interface(head, specifics, endpoints)] + others.value)
  }

  function ReadHeader(b: Bytes): ConfigurationHeader
    requires |b| >= 9
  {
    ConfigurationHeader(b[0], b[1], FromLe16(b[2..4]), b[4], b[5], b[6], b[7], b[8])
  }

  function ReadConfiguration(b: Bytes): Option<Configuration> {
    if |b| < 9 || b[0] != 9 then None
    else
      var tail := ReadInterfaces(b[9..]);
      if tail.None? then None else Some(Configuration(ReadHeader(b), tail.value))
  }

  /** The fields at the offsets of USB 2.0, tables 9-8 and 9-9. */
  function ReadDevice(b: Bytes): DeviceDescriptor
    requires |b| == 18
  {
    DeviceDescriptor(b[0], b[1], FromLe16(b[2..4]), b[4], b[5], b[6], b[7], FromLe16(b[8..10]), FromLe16(b[10..12]),
                     FromLe16(b[12..14]), b[14], b[15], b[16], b[17])
  }

  function ReadQualifier(b: Bytes): DeviceQualifier
    requires |b| == 10
  {
    DeviceQualifier(b[0], b[1], FromLe16(b[2..4]), b[4], b[5], b[6], b[7], b[8], b[9])
  }

  lemma DeviceRoundTrip(d: DeviceDescriptor)
    ensures ReadDevice(DeviceBytes(d)) == d
  {
    var b := DeviceBytes(d);
    assert b[2..4] == Le16(d.bcdUSB) && b[8..10] == Le16(d.idVendor) && b[10..12] == Le16(d.idProduct)
      && b[12..14] == Le16(d.bcdDevice);
    Le16RoundTrip(d.bcdUSB);
    Le16RoundTrip(d.idVendor);
    Le16RoundTrip(d.idProduct);
    Le16RoundTrip(d.bcdDevice);
  }

  lemma QualifierRoundTrip(d: DeviceQualifier)
    ensures ReadQualifier(QualifierBytes(d)) == d
  {
    assert QualifierBytes(d)[2..4] == Le16(d.bcdUSB);
    Le16RoundTrip(d.bcdUSB);
  }

  lemma {:induction false} SpecificsRoundTrip(cs: seq<ClassSpecific>, more: Bytes)
    requires forall k :: 0 <= k < |cs| ==> cs[k].bLength == 5 && cs[k].bDescriptorType == CLASS_SPECIFIC
    requires !Next(more, 5, CLASS_SPECIFIC)
    ensures ReadSpecifics(SpecificsBytes(cs) + more) == (cs, more)
  {
    if cs == [] {
      assert SpecificsBytes(cs) + more == more;
    } else {
      var one, others := SpecificBytes(cs[0]), SpecificsBytes(cs[1..]) + more;
      assert SpecificsBytes(cs) + more == one + others;
      assert (one + others)[3..5] == Le16(cs[0].bmRaw) && (one + others)[5..] == others;
      Le16RoundTrip(cs[0].bmRaw);
      SpecificsRoundTrip(cs[1..], more);
      assert cs == [cs[0]] + cs[1..];
    }
  }

  lemma {:induction false} EndpointsRoundTrip(es: seq<Endpoint>, more: Bytes)
    requires forall k :: 0 <= k < |es| ==> es[k].bLength == 7 && es[k].bDescriptorType == ENDPOINT
    requires !Next(more, 7, ENDPOINT)
    ensures ReadEndpoints(EndpointsBytes(es) + more) == (es, more)
  {
    if es == [] {
      assert EndpointsBytes(es) + more == more;
    } else {
      var one, others := EndpointBytes(es[0]), EndpointsBytes(es[1..]) + more;
      assert EndpointsBytes(es) + more == one + others;
      assert (one + others)[4..6] == Le16(es[0].wMaxPacketSize) && (one + others)[7..] == others;
      Le16RoundTrip(es[0].wMaxPacketSize);
      EndpointsRoundTrip(es[1..], more);
      assert es == [es[0]] + es[1..];
    }
  }

  lemma InterfaceHead(h: InterfaceHeader, more: Bytes)
    requires h.bLength == 9 && h.bDescriptorType == INTERFACE
    ensures var b := InterfaceHeaderBytes(h) + more;
      && Next(b, 9, INTERFACE) && b[9..] == more
      && InterfaceHeader(b[0], b[1], b[2], b[3], b[4], b[5], b[6], b[7], b[8]) == h
      && !Next(b, 5, CLASS_SPECIFIC) && !Next(b, 7, ENDPOINT)
  {
  }

  lemma RegroupFour(a: Bytes, b: Bytes, c: Bytes, d: Bytes)
    ensures a + b + c + d == a + (b + (c + d))
  {
  }

  lemma NoSpecificFirst(es: seq<Endpoint>, more: Bytes)
    requires !Next(more, 5, CLASS_SPECIFIC)
    requires forall k :: 0 <= k < |es| ==> es[k].bLength == 7
    ensures !Next(EndpointsBytes(es) + more, 5, CLASS_SPECIFIC)
  {
    if es == [] {
      assert EndpointsBytes(es) + more == more;
    } else {
      assert (EndpointsBytes(es) + more)[0] == EndpointBytes(es[0])[0] == 7;
    }
  }

  lemma {:induction false} InterfacesRoundTrip(tail: seq<Interface>)
    requires forall k :: 0 <= k < |tail| ==> WellFormedInterface(tail[k])
    ensures ReadInterfaces(InterfacesBytes(tail)) == Some(tail)
  {
    hide InterfaceHeaderBytes, Next, ReadSpecifics, ReadEndpoints, SpecificsBytes, EndpointsBytes;
    if tail != [] {
      var i := tail[0];
      var others := InterfacesBytes(tail[1..]);
      var rest2 := EndpointsBytes(i.endpoints) + others;
      var rest1 := SpecificsBytes(i.specifics) + rest2;
      RegroupFour(InterfaceHeaderBytes(i.head), SpecificsBytes(i.specifics), EndpointsBytes(i.endpoints), others);
      NotInside(tail[1..]);
      InterfaceHead(i.head, rest1);
      NoSpecificFirst(i.endpoints, others);
      SpecificsRoundTrip(i.specifics, rest2);
      EndpointsRoundTrip(i.endpoints, others);
      InterfacesRoundTrip(tail[1..]);
      assert tail == [i] + tail[1..];
    }
  }

  lemma NotInside(tail: seq<Interface>)
    requires forall k :: 0 <= k < |tail| ==> WellFormedInterface(tail[k])
    ensures !Next(InterfacesBytes(tail), 5, CLASS_SPECIFIC) && !Next(InterfacesBytes(tail), 7, ENDPOINT)
  {
    assert !Next([], 5, CLASS_SPECIFIC) && !Next([], 7, ENDPOINT);
    hide InterfaceHeaderBytes, Next, SpecificsBytes, EndpointsBytes;
    if tail != [] {
      var i := tail[0];
      var specifics, endpoints := SpecificsBytes(i.specifics), EndpointsBytes(i.endpoints);
      var others := InterfacesBytes(tail[1..]);
      RegroupFour(InterfaceHeaderBytes(i.head), specifics, endpoints, others);
      InterfaceHead(i.head, specifics + (endpoints + others));
    }
  }

  /** A host that walks the bytes by length and type recovers the same tree, header fields included. */
  lemma ConfigurationRoundTrip(c: Configuration)
    requires WellFormed(c)
    ensures ReadConfiguration(ConfigurationBytes(c)) == Some(c)
  {
    var b := ConfigurationBytes(c);
    assert b[2..4] == Le16(c.head.wTotalLength) && b[9..] == InterfacesBytes(c.tail);
    Le16RoundTrip(c.head.wTotalLength);
    InterfacesRoundTrip(c.tail);
  }

  /** The counts in the headers are the counts of what follows exactly when they fit a byte. */
  lemma CountsExact(head: ConfigurationHeader, tail: seq<Interface>, ih: InterfaceHeader,
                    cs: seq<ClassSpecific>, es: seq<Endpoint>)
    ensures NewConfiguration(head, tail).head.bNumInterfaces == |tail| <==> |tail| < 0x100
    ensures NewInterface(ih, cs, es).head.bNumEndpoints == |es| <==> |es| < 0x100
  {
  }

  /** The constructors make their length byte true and keep the other fields, so that the result can be read back. */
  lemma ConstructorsKeep(head: ConfigurationHeader, tail: seq<Interface>, ih: InterfaceHeader, cs: seq<ClassSpecific>,
                         es: seq<Endpoint>)
    ensures var c := NewConfiguration(head, tail);
      && c.tail == tail && c.head == head.(bLength := 9, bNumInterfaces := c.head.bNumInterfaces)
      && ((forall k :: 0 <= k < |tail| ==> WellFormedInterface(tail[k])) ==> WellFormed(c))
    ensures var i := NewInterface(ih, cs, es);
      && i.specifics == cs && i.endpoints == es && i.head == ih.(bLength := 9, bNumEndpoints := i.head.bNumEndpoints)
  {
  }

  // ---- Total length ----

  function SetTotalLength(c: Configuration): Configuration {
    var n := |ConfigurationBytes(c)|;
    c.(head := c.head.(wTotalLength := if n <= 0xFFFF then n else 0xFFFF))
  }

  /**
    After set_total_length the first nine bytes tell a host the length of the whole, exactly
    when that length fits 16 bits; the structure and its length are otherwise unchanged.
  */
  lemma TotalLengthExact(c: Configuration)
    ensures var s := SetTotalLength(c);
      && |ConfigurationBytes(s)| == |ConfigurationBytes(c)| == 9 + TailLength(c.tail)
      && s.tail == c.tail && SetTotalLength(s) == s
      && (ReadHeader(ConfigurationBytes(s)[..9]).wTotalLength == |ConfigurationBytes(s)| <==>
            9 + TailLength(c.tail) <= 0xFFFF)
      && (WellFormed(c) ==> WellFormed(s))
  {
    var s := SetTotalLength(c);
    var b := ConfigurationBytes(s);
    assert b[..9][2..4] == Le16(s.head.wTotalLength);
    Le16RoundTrip(s.head.wTotalLength);
  }

  class ConfigurationDescriptor {
    var head: ConfigurationHeader
    const tail: seq<Interface>

    function Value(): Configuration
      reads this
    {
      Configuration(head, tail)
    }

    constructor (head: ConfigurationHeader, tail: seq<Interface>)
      ensures Value() == NewConfiguration(head, tail)
    {
      this.head := head.(bLength := 9, bNumInterfaces := |tail| % 0x100);
      this.tail := tail;
    }

    /** Counts the bytes of the whole descriptor and stores the count in its header. */
    method UpdateTotalLength() returns (total: nat)
      modifies this
      ensures Value() == SetTotalLength(old(Value())) && total == |ConfigurationBytes(Value())|
    {
      TotalLengthExact(Value());
      total := |ConfigurationBytes(Value())|;
      if total <= 0xFFFF {
        head := head.(wTotalLength := total);
      } else {
        head := head.(wTotalLength := 0xFFFF);
      }
    }
  }

  // ---- String descriptors ----

  /** A Unicode scalar value: any code point but a surrogate. */
  type Scalar = c: nat | c < 0xD800 || 0xE000 <= c < 0x11_0000

  function Utf8Length(c: Scalar): nat {
    if c < 0x80 then 1 else if c < 0x800 then 2 else if c < 0x1_0000 then 3 else 4
  }

  /** A code point in UTF-8 (RFC 3629, section 3), and as a reader finds it. */
  function Utf8(c: Scalar): seq<Byte> {
    if c < 0x80 then [c]
    else if c < 0x800 then [0xC0 + c / 0x40, 0x80 + c % 0x40]
    else if c < 0x1_0000 then [0xE0 + c / 0x1000, 0x80 + c / 0x40 % 0x40, 0x80 + c % 0x40]
    else [0xF0 + c / 0x4_0000, 0x80 + c / 0x1000 % 0x40, 0x80 + c / 0x40 % 0x40, 0x80 + c % 0x40]
  }

  /** The first byte tells how many there are. */
  lemma Utf8LengthExact(c: Scalar)
    ensures var b := Utf8(c);
      && |b| == Utf8Length(c)
      && (b[0] < 0x80 <==> |b| == 1) && (0xC0 <= b[0] < 0xE0 <==> |b| == 2)
      && (0xE0 <= b[0] < 0xF0 <==> |b| == 3) && (0xF0 <= b[0] < 0xF8 <==> |b| == 4)
  {
  }

  function Utf16(c: Scalar): (units: seq<U16>)
    ensures 1 <= |units| <= Utf8Length(c) && (|units| == Utf8Length(c) <==> c < 0x80)
  {
    if c < 0x1_0000 then [c]
    else [0xD800 + (c - 0x1_0000) / 0x400, 0xDC00 + (c - 0x1_0000) % 0x400]
  }

  function Utf8Size(text: seq<Scalar>): nat {
    if text == [] then 0 else Utf8Length(text[0]) + Utf8Size(text[1..])
  }

  function EncodeUtf16(text: seq<Scalar>): (units: seq<U16>)
    ensures |units| <= Utf8Size(text)
  {
    if text == [] then [] else Utf16(text[0]) + EncodeUtf16(text[1..])
  }

  function UnitBytes(units: seq<U16>): (b: Bytes)
    ensures |b| == 2 * |units|
  {
    if units == [] then [] else Le16(units[0]) + UnitBytes(units[1..])
  }

  /** The header's length is computed from the string's UTF-8 size and truncated to a byte. */
  function StringBytes(text: seq<Scalar>): (b: Bytes)
    ensures |b| == 2 + 2 * |EncodeUtf16(text)|
  {
    [(2 + 2 * Utf8Size(text)) % 0x100, STRING] + UnitBytes(EncodeUtf16(text))
  }

  lemma {:induction false} SizesAgree(text: seq<Scalar>)
    ensures |EncodeUtf16(text)| == Utf8Size(text) <==> forall k :: 0 <= k < |text| ==> text[k] < 0x80
  {
    if text != [] {
      SizesAgree(text[1..]);
      assert forall k :: 0 < k < |text| ==> text[k] == text[1..][k - 1];
    }
  }

  /**
    bLength tells the truth, for every text, exactly when fewer than 127 UTF-16 units are
    carried and the UTF-8 bytes counted in their place exceed them by a multiple of 128.
  */
  lemma StringLengthExact(text: seq<Scalar>)
    ensures StringBytes(text)[0] == |StringBytes(text)| <==>
      |EncodeUtf16(text)| < 127 && (Utf8Size(text) - |EncodeUtf16(text)|) % 128 == 0
  {
    hide EncodeUtf16, Utf8Size, UnitBytes;
    LengthByte(Utf8Size(text), |EncodeUtf16(text)|);
  }

  lemma LengthByte(counted: nat, carried: nat)
    ensures (2 + 2 * counted) % 0x100 == 2 + 2 * carried <==> carried < 127 && (counted - carried) % 128 == 0
  {
    var q := (1 + counted) / 128;
    var r := 1 + counted - 128 * q;
    assert 2 + 2 * counted == 0x100 * q + 2 * r;
    if carried < 127 && (counted - carried) % 128 == 0 {
      var k := (counted - carried) / 128;
      assert counted - carried == 128 * k;
    }
  }

  /** For a text whose counted length fits a byte that is to say: exactly for ASCII. */
  lemma ShortStringLengthExact(text: seq<Scalar>)
    requires 2 + 2 * Utf8Size(text) < 0x100
    ensures StringBytes(text)[0] == |StringBytes(text)| <==> forall k :: 0 <= k < |text| ==> text[k] < 0x80
  {
    StringLengthExact(text);
    hide EncodeUtf16, Utf8Size, UnitBytes, StringBytes;
    SizesAgree(text);
  }

  lemma {:induction false} SizesOfCopies(c: Scalar, n: nat)
    requires c < 0x1_0000
    ensures |EncodeUtf16(Repeat(c, n))| == n && Utf8Size(Repeat(c, n)) == n * Utf8Length(c)
  {
    if n > 0 {
      SizesOfCopies(c, n - 1);
      assert Repeat(c, n)[1..] == Repeat(c, n - 1);
    }
  }

  /**
    Neither half of "exactly for ASCII" survives longer texts: the length is wrong for 127 letters
    A and right for 64 ideographs.
  */
  lemma AsciiIsNotTheCondition()
    ensures var text := Repeat(0x41, 127); StringBytes(text)[0] != |StringBytes(text)|
    ensures var text := Repeat(0x4E2D, 64); StringBytes(text)[0] == |StringBytes(text)|
  {
    hide EncodeUtf16, Utf8Size, UnitBytes, StringBytes, Repeat;
    SizesOfCopies(0x41, 127);
    SizesOfCopies(0x4E2D, 64);
    StringLengthExact(Repeat(0x41, 127));
    StringLengthExact(Repeat(0x4E2D, 64));
  }

  function LanguageBytes(languages: seq<U16>): (b: Bytes)
    ensures |b| == 2 + 2 * |languages|
  {
    [(2 + 2 * |languages|) % 0x100, STRING] + UnitBytes(languages)
  }

  /** The language list's bLength is true exactly for fewer than 127 languages. */
  lemma LanguageLengthExact(languages: seq<U16>)
    ensures LanguageBytes(languages)[0] == |LanguageBytes(languages)| <==> |languages| < 127
  {
  }

  // ---- The host's reading of strings ----

  function ReadUnits(b: Bytes): seq<U16> {
    if |b| < 2 then [] else [FromLe16(b[..2])] + ReadUnits(b[2..])
  }

  lemma {:induction false} UnitsRoundTrip(units: seq<U16>)
    ensures ReadUnits(UnitBytes(units)) == units
  {
    if units != [] {
      var b := UnitBytes(units);
      assert b[..2] == Le16(units[0]) && b[2..] == UnitBytes(units[1..]);
      Le16RoundTrip(units[0]);
      UnitsRoundTrip(units[1..]);
    }
  }

  /** Code points of UTF-16 units: a high surrogate goes with the low one after it. */
  function DecodeUtf16(units: seq<U16>): seq<nat> {
    if units == [] then []
    else
      var (first: nat, second: nat) := (units[0], if |units| > 1 then units[1] else 0);
      if 0xD800 <= first < 0xDC00 && 0xDC00 <= second < 0xE000 then
        [0x1_0000 + (first - 0xD800) * 0x400 + (second - 0xDC00)] + DecodeUtf16(units[2..])
      else [first] + DecodeUtf16(units[1..])
  }

  lemma {:induction false} Utf16RoundTrip(text: seq<Scalar>)
    ensures DecodeUtf16(EncodeUtf16(text)) == text
  {
    if text != [] {
      var (c, rest) := (text[0], EncodeUtf16(text[1..]));
      Utf16RoundTrip(text[1..]);
      OneScalar(c, rest);
    }
  }

  lemma OneScalar(c: Scalar, rest: seq<U16>)
    ensures DecodeUtf16(Utf16(c) + rest) == [c] + DecodeUtf16(rest)
  {
    var units := Utf16(c) + rest;
    if c < 0x1_0000 {
      assert units[0] == c && units[1..] == rest;
    } else {
      var n := c - 0x1_0000;
      assert units[0] == 0xD800 + n / 0x400 && units[1] == 0xDC00 + n % 0x400 && units[2..] == rest;
      assert n / 0x400 < 0x400 && 0x400 * (n / 0x400) + n % 0x400 == n;
    }
  }

  /** After the two bytes of the header a host finds the languages of string 0, and the text of any other. */
  lemma StringsRoundTrip(text: seq<Scalar>, languages: seq<U16>)
    ensures DecodeUtf16(ReadUnits(StringBytes(text)[2..])) == text && StringBytes(text)[1] == 3
    ensures ReadUnits(LanguageBytes(languages)[2..]) == languages && LanguageBytes(languages)[1] == 3
  {
    assert StringBytes(text)[2..] == UnitBytes(EncodeUtf16(text));
    assert LanguageBytes(languages)[2..] == UnitBytes(languages);
    UnitsRoundTrip(EncodeUtf16(text));
    Utf16RoundTrip(text);
    UnitsRoundTrip(languages);
  }

  /** The byte iterator over UTF-16 units, with its one byte of look-back. */
  class Utf16ByteIterator {
    var units: seq<U16>
    var byte: Option<Byte>

    ghost function Remaining(): Bytes
      reads this
    {
      (if byte.Some? then [byte.value] else []) + UnitBytes(units)
    }

    constructor (units: seq<U16>)
      ensures Remaining() == UnitBytes(units)
    {
      this.units, byte := units, None;
    }

    method Next() returns (item: Option<Byte>)
      modifies this
      ensures old(Remaining()) == [] ==> item == None && Remaining() == []
      ensures old(Remaining()) != [] ==> item == Some(old(Remaining())[0]) && Remaining() == old(Remaining())[1..]
    {
      match byte
      case Some(b) =>
        item, byte := byte, None;
      case None =>
        if units == [] {
          item := None;
        } else {
          item, byte := Some(units[0] % 0x100), Some(units[0] / 0x100);
          units := units[1..];
        }
    }
  }
}
