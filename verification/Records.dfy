/** Resource records: their values, their validity, and their wire form (avahi-core/rr.c,
    avahi-core/dns.c, avahi-common/strlst.c; sections 3.2.1 and 4.1.3 of RFC 1035). */
module Records {
  import opened Bytes
  import opened Labels
  import opened NameCodec
  import opened NameDecoder
  import opened Domain

  const TYPE_A: uint16 := 0x01
  const TYPE_NS: uint16 := 0x02
  const TYPE_CNAME: uint16 := 0x05
  const TYPE_PTR: uint16 := 0x0C
  const TYPE_HINFO: uint16 := 0x0D
  const TYPE_TXT: uint16 := 0x10
  const TYPE_AAAA: uint16 := 0x1C
  const TYPE_SRV: uint16 := 0x21
  const TYPE_ANY: uint16 := 0xFF
  const CLASS_IN: uint16 := 0x01
  const CLASS_ANY: uint16 := 0xFF

  /** The cache-flush bit of responses and the unicast-response bit of questions. */
  const TOP_BIT: nat := 0x8000
  const DEFAULT_TTL: uint32 := 4500
  const TTL_UNSET: uint32 := 0xFFFF_FFFF

  datatype Key = Key(name: seq<byte>, clazz: uint16, kind: uint16)

  datatype RData =
    | NameData(target: seq<byte>)
    | Srv(priority: uint16, weight: uint16, port: uint16, target: seq<byte>)
    | Hinfo(cpu: seq<byte>, os: seq<byte>)
    | Txt(strings: seq<seq<byte>>)   // in list order: the string added last comes first
    | Address4(address: seq<byte>)
    | Address6(address: seq<byte>)
    | Generic(bytes: seq<byte>)

  datatype Record = Record(key: Key, ttl: uint32, data: RData)

  /** The union member selected by the record type, with the sizes its C type fixes. */
  predicate Typed(kind: uint16, d: RData) {
    if kind == TYPE_PTR || kind == TYPE_CNAME || kind == TYPE_NS then d.NameData?
    else if kind == TYPE_SRV then d.Srv?
    else if kind == TYPE_HINFO then d.Hinfo? && Bytes.Text(d.cpu) && Bytes.Text(d.os)
    else if kind == TYPE_TXT then d.Txt?
    else if kind == TYPE_A then d.Address4? && |d.address| == 4
    else if kind == TYPE_AAAA then d.Address6? && |d.address| == 16
    else d.Generic? && |d.bytes| < 0x1_0000
  }

  /** avahi_record_is_valid. */
  predicate ValidRecord(r: Record) {
    && ValidDomainName(r.key.name)
    && (r.data.NameData? ==> ValidDomainName(r.data.target))
    && (r.data.Srv? ==> ValidDomainName(r.data.target))
    && (r.data.Hinfo? ==> |r.data.cpu| <= 255 && |r.data.os| <= 255)
    && (r.data.Txt? ==> forall i :: 0 <= i < |r.data.strings| ==> 1 <= |r.data.strings[i]| <= 255)
  }

  /** avahi_dns_packet_append_string: a length byte and at most 255 bytes. */
  function StringWire(s: seq<byte>): seq<byte> {
    if |s| < 255 then [|s|] + s else [255] + s[..255]
  }

  /** The body of avahi_string_list_serialize after the list has been reversed. */
  function StringsWire(strings: seq<seq<byte>>): seq<byte> {
    if strings == [] then []
    else if strings[0] == [] then StringsWire(strings[1..])
    else StringWire(strings[0]) + StringsWire(strings[1..])
  }

  function Reverse<T>(s: seq<T>): (r: seq<T>)
    ensures |r| == |s|
  {
    if s == [] then [] else Reverse(s[1..]) + [s[0]]
  }

  /** avahi_string_list_serialize: first added first, and a single NUL for no strings. */
  function TxtWire(strings: seq<seq<byte>>): seq<byte> {
    var w := StringsWire(Reverse(strings));
    if w == [] then [0] else w
  }

  function Fixed(bytes: seq<byte>, table: NameTable, size: nat, limit: nat): Appended {
    if size + |bytes| <= limit then Done(bytes, table) else Rejected
  }

  /** append_rdata. The caller rolls back every failure, so the ones here are not told apart. */
  function AppendData(d: RData, table: NameTable, size: nat, limit: nat): Appended {
    match d
    case NameData(target) => Append(target, table, size, limit)
    case Srv(priority, weight, port, target) =>
      if size + 6 > limit then Rejected
      else After(Be16(priority) + Be16(weight) + Be16(port), Append(target, table, size + 6, limit))
    case Hinfo(cpu, os) => Fixed(StringWire(cpu) + StringWire(os), table, size, limit)
    case Txt(strings) => Fixed(TxtWire(strings), table, size, limit)
    case Address4(address) => Fixed(address, table, size, limit)
    case Address6(address) => Fixed(address, table, size, limit)
    case Generic(bytes) => Fixed(bytes, table, size, limit)
  }

  function WireClass(clazz: uint16, top: bool): uint16 {
    clazz % TOP_BIT + (if top then TOP_BIT else 0)
  }

  /** The TTL sent: capped when a cap is given. */
  function WireTtl(ttl: uint32, maxTtl: uint32): uint32 {
    if maxTtl != 0 && ttl > maxTtl then maxTtl else ttl
  }

  /** Type, class, TTL and the back-patched length. */
  function Fields(r: Record, flush: bool, maxTtl: uint32, length: uint16): (f: seq<byte>)
    ensures |f| == 10
  {
    Be16(r.key.kind) + Be16(WireClass(r.key.clazz, flush)) + Be32(WireTtl(r.ttl, maxTtl)) + Be16(length)
  }

  /** avahi_dns_packet_append_record; the length field is filled in last. */
  function AppendRecord(r: Record, flush: bool, maxTtl: uint32, table: NameTable, size: nat, limit: nat): Appended {
    var name := Append(r.key.name, table, size, limit);
    if !name.Done? || size + |name.bytes| + 10 > limit then Rejected else
    var data := AppendData(r.data, name.table, size + |name.bytes| + 10, limit);
    if !data.Done? then Rejected
    else Done(name.bytes + Fields(r, flush, maxTtl, |data.bytes| % 0x1_0000) + data.bytes, data.table)
  }

  lemma {:induction false} AppendWithin(name: seq<byte>, table: NameTable, size: nat, limit: nat)
    requires Append(name, table, size, limit).Done?
    ensures size + |Append(name, table, size, limit).bytes| <= limit
    decreases |name|
  {
    hide Unescape;
    if name != [] && !Compresses(name, table) {
      var u := Unescape(name, LABEL_MAX);
      AppendWithin(u.rest, Remember(table, name, size), size + |u.head| + 1, limit);
    }
  }

  /** An appended record takes at least its ten fixed bytes and stays within the packet. */
  lemma AppendRecordWithin(r: Record, flush: bool, maxTtl: uint32, table: NameTable, size: nat, limit: nat)
    requires AppendRecord(r, flush, maxTtl, table, size, limit).Done?
    ensures 10 <= |AppendRecord(r, flush, maxTtl, table, size, limit).bytes| <= limit - size
  {
    hide Append, StringWire, TxtWire, Fields;
    var n := Append(r.key.name, table, size, limit);
    var at := size + |n.bytes| + 10;
    AppendWithin(r.key.name, table, size, limit);
    match r.data {
      case NameData(target) => AppendWithin(target, n.table, at, limit);
      case Srv(_, _, _, target) => AppendWithin(target, n.table, at + 6, limit);
      case _ =>
    }
  }

  /** avahi_dns_packet_append_key. */
  function AppendKey(k: Key, unicast: bool, table: NameTable, size: nat, limit: nat): Appended {
    var name := Append(k.name, table, size, limit);
    if !name.Done? || size + |name.bytes| + 4 > limit then Rejected
    else Done(name.bytes + Be16(k.kind) + Be16(if unicast then WireClass(k.clazz, true) else k.clazz), name.table)
  }

  // ---------- reading ----------

  function Read16(data: seq<byte>, at: nat): uint16
    requires at + 2 <= |data|
  {
    Word(data[at], data[at + 1])
  }

  function Word(hi: nat, lo: nat): uint16
    requires hi < 0x100 && lo < 0x100
  {
    hi * 0x100 + lo
  }

  function Read32(data: seq<byte>, at: nat): uint32
    requires at + 4 <= |data|
  {
    DoubleWord(data[at], data[at + 1], data[at + 2], data[at + 3])
  }

  function DoubleWord(a: nat, b: nat, c: nat, d: nat): uint32
    requires a < 0x100 && b < 0x100 && c < 0x100 && d < 0x100
  {
    a * 0x100_0000 + b * 0x1_0000 + c * 0x100 + d
  }

  /** The C string a copied buffer holds: up to its first NUL. */
  function CString(s: seq<byte>): seq<byte> {
    if s == [] || s[0] == 0 then [] else [s[0]] + CString(s[1..])
  }

  /** Text or bytes read from a packet, and the index behind them. */
  datatype TextRead = NoText | TextAt(text: seq<byte>, end: nat)

  datatype DataRead = NoData | DataAt(value: RData, end: nat)

  /** avahi_dns_packet_consume_string followed by avahi_strdup. */
  function ReadString(data: seq<byte>, at: nat): TextRead {
    if at >= |data| || at + 1 + data[at] > |data| then NoText
    else TextAt(CString(data[at + 1..at + 1 + data[at]]), at + 1 + data[at])
  }

  /** avahi_dns_packet_consume_name into a buffer of `room` bytes. */
  function ReadName(data: seq<byte>, at: nat, room: nat): TextRead {
    match Decode(data, at, LABELS_MAX, room, true)
    case None => NoText
    case Some(name) => TextAt(name, at + Extent(data, at))
  }

  /** Whatever name the decoder hands out, normalizing it changes nothing or rejects it. */
  lemma DecodedNormalizes(data: seq<byte>, at: nat, room: nat)
    requires ReadName(data, at, room).TextAt?
    ensures var name := ReadName(data, at, room).text;
            |name| < room && (Normalize(name) == None || Normalize(name) == Some(name))
  {
    hide Decode, Extent, Reads, Normalize, Join;
    var ls, hops := DecodeSound(data, at, LABELS_MAX, room, true);
    EmptyJoin();
    assert Spelling(ls, true) == Join(ls);
    NormalizeSpelled(ls);
    DecodeReads(data, at, ls, hops, LABELS_MAX, room, true);
  }

  /** avahi_string_list_parse: strings are prepended as they are read, empty ones skipped. */
  function ParseStrings(data: seq<byte>, list: seq<seq<byte>>): Option<seq<seq<byte>>>
    decreases |data|
  {
    if data == [] then Some(list)
    else if 1 + data[0] > |data| then None
    else if data[0] == 0 then ParseStrings(data[1..], list)
    else ParseStrings(data[1 + data[0]..], [data[1..1 + data[0]]] + list)
  }

  function ReadBytes(data: seq<byte>, at: nat, n: nat): TextRead {
    if at + n > |data| then NoText else TextAt(data[at..at + n], at + n)
  }

  function ReadSrv(data: seq<byte>, at: nat): DataRead {
    if at + 6 > |data| then NoData else
    match ReadName(data, at + 6, DOMAIN_NAME_MAX)
    case NoText => NoData
    case TextAt(name, end) => DataAt(Srv(Read16(data, at), Read16(data, at + 2), Read16(data, at + 4), name), end)
  }

  function ReadHinfo(data: seq<byte>, at: nat): DataRead {
    match ReadString(data, at)
    case NoText => NoData
    case TextAt(cpu, mid) =>
      match ReadString(data, mid)
      case NoText => NoData
      case TextAt(os, end) => DataAt(Hinfo(cpu, os), end)
  }

  function ReadTxt(data: seq<byte>, at: nat, length: uint16): DataRead {
    match ReadBytes(data, at, length)
    case NoText => NoData
    case TextAt(bytes, end) =>
      match ParseStrings(bytes, [])
      case None => NoData
      case Some(list) => DataAt(Txt(list), end)
  }

  /** parse_rdata before its final length check: the value, and where reading stopped. */
  function ParseData(kind: uint16, data: seq<byte>, at: nat, length: uint16): DataRead {
    if kind == TYPE_PTR || kind == TYPE_CNAME || kind == TYPE_NS then
      match ReadName(data, at, DOMAIN_NAME_MAX)
      case NoText => NoData
      case TextAt(name, end) => DataAt(NameData(name), end)
    else if kind == TYPE_SRV then ReadSrv(data, at)
    else if kind == TYPE_HINFO then ReadHinfo(data, at)
    else if kind == TYPE_TXT then ReadTxt(data, at, length)
    else if kind == TYPE_A then
      match ReadBytes(data, at, 4)
      case NoText => NoData
      case TextAt(bytes, end) => DataAt(Address4(bytes), end)
    else if kind == TYPE_AAAA then
      match ReadBytes(data, at, 16)
      case NoText => NoData
      case TextAt(bytes, end) => DataAt(Address6(bytes), end)
    else
      match ReadBytes(data, at, length)
      case NoText => NoData
      case TextAt(bytes, end) => DataAt(Generic(bytes), end)
  }

  datatype Consumed = Consumed(record: Record, flush: bool, end: nat)

  /** avahi_record_new replaces the all-ones TTL by the default. */
  function StoredTtl(ttl: uint32): uint32 {
    if ttl == TTL_UNSET then DEFAULT_TTL else ttl
  }

  /** avahi_dns_packet_consume_record at `at`. */
  function ConsumeRecord(data: seq<byte>, at: nat): Option<Consumed> {
    match ReadName(data, at, DOMAIN_NAME_MAX)
    case NoText => None
    case TextAt(name, p) =>
      if p + 10 > |data| then None else
      var length := Read16(data, p + 8);
      if p + 10 + length > |data| then None else
      match Normalize(name)
      case None => None
      case Some(normal) =>
        match ParseData(Read16(data, p), data, p + 10, length)
        case NoData => None
        case DataAt(value, end) =>
          var clazz := Read16(data, p + 2);
          var r := Record(Key(normal, clazz % TOP_BIT, Read16(data, p)), StoredTtl(Read32(data, p + 4)), value);
          if end != p + 10 + length || !ValidRecord(r) then None
          else Some(Consumed(r, clazz >= TOP_BIT, end))
  }

  datatype ConsumedKey = ConsumedKey(key: Key, unicast: bool, end: nat)

  /** avahi_dns_packet_consume_key: its buffer holds 255 characters and a NUL. */
  function ConsumeKey(data: seq<byte>, at: nat): Option<ConsumedKey> {
    match ReadName(data, at, 256)
    case NoText => None
    case TextAt(name, p) =>
      if p + 4 > |data| then None else
      match Normalize(name)
      case None => None
      case Some(normal) =>
        var clazz := Read16(data, p + 2);
        if !ValidDomainName(normal) then None
        else Some(ConsumedKey(Key(normal, clazz % TOP_BIT, Read16(data, p)), clazz >= TOP_BIT, p + 4))
  }
}
