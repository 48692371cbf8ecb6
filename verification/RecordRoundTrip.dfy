/** A record or question appended to a packet and consumed from it comes back unchanged, for
    every record type, whatever compressed names the packet already holds. */
module RecordRoundTrip {
  import opened Bytes
  import opened Labels
  import opened NameCodec
  import opened NameDecoder
  import opened NameRollback
  import opened Domain
  import opened Records
  import Utf8

  /** A name the codec promises to give back: normal, of at most 63 labels, and short. */
  predicate Portable(name: seq<byte>) {
    Normal(name) && |LabelsOf(name).value| <= 63 && |name| < DOMAIN_NAME_MAX
  }

  predicate PortableData(d: RData) {
    && (d.NameData? ==> Portable(d.target))
    && (d.Srv? ==> Portable(d.target))
    && (d.Txt? ==> |TxtWire(d.strings)| < 0x1_0000)
  }

  /** Rdata of the right kind that passes avahi_record_is_valid and whose names are portable. */
  predicate SendableData(kind: uint16, d: RData) {
    && Typed(kind, d) && PortableData(d)
    && (d.Hinfo? ==> |d.cpu| <= 255 && |d.os| <= 255)
    && (d.Txt? ==> ShortStrings(d.strings))
  }

  /** The records the round trip is about: valid ones, whose names are portable. */
  predicate PortableRecord(r: Record) {
    && ValidRecord(r) && Typed(r.key.kind, r.data) && r.key.clazz < TOP_BIT
    && Portable(r.key.name) && PortableData(r.data)
  }

  lemma NameReads(name: seq<byte>, data: seq<byte>, table: NameTable, limit: nat, later: seq<byte>, room: nat)
    requires Normal(name) && |LabelsOf(name).value| <= 63 && |name| < room
    requires HEADER_SIZE <= |data| && SoundTable(data, table) && Append(name, table, |data|, limit).Done?
    ensures var a := Append(name, table, |data|, limit);
            && ReadName(data + a.bytes + later, |data|, room) == TextAt(name, |data| + |a.bytes|)
            && SoundTable(data + a.bytes, a.table)
  {
    hide Append, Decode, Extent, SoundTable, Join, LabelsOf;
    var ls := LabelsOf(name).value;
    var h := NameRoundTrip(ls, data, table, limit, later, room);
    h := AppendSoundTable(ls, data, table, limit);
  }

  lemma Slice(a: seq<byte>, b: seq<byte>, c: seq<byte>)
    ensures (a + b + c)[|a|..|a| + |b|] == b
  {
  }

  lemma Read16Be(a: seq<byte>, v: uint16, c: seq<byte>)
    ensures Read16(a + Be16(v) + c, |a|) == v
  {
    var d := a + Be16(v) + c;
    assert d[|a|] == v / 0x100 && d[|a| + 1] == v % 0x100;
  }

  lemma Read32Be(a: seq<byte>, v: uint32, c: seq<byte>)
    ensures Read32(a + Be32(v) + c, |a|) == v
  {
    DoubleWordBe(v);
    Be32Length(v);
    hide Be32, DoubleWord;
    var b := Be32(v);
    var d := a + b + c;
    assert d[|a|] == b[0] && d[|a| + 1] == b[1] && d[|a| + 2] == b[2] && d[|a| + 3] == b[3];
  }

  lemma DoubleWordBe(v: uint32)
    ensures |Be32(v)| == 4 && DoubleWord(Be32(v)[0], Be32(v)[1], Be32(v)[2], Be32(v)[3]) == v
  {
    var high, low := v / 0x1_0000, v % 0x1_0000;
    assert v / 0x100_0000 == high / 0x100;
    assert v / 0x100 % 0x100 == low / 0x100 && v % 0x100 == low % 0x100;
  }

  lemma {:induction false} CStringText(s: seq<byte>)
    requires Bytes.Text(s)
    ensures CString(s) == s
  {
    if s != [] {
      assert s[0] in s;
      CStringText(s[1..]);
    }
  }

  lemma StringReads(a: seq<byte>, s: seq<byte>, c: seq<byte>)
    requires Bytes.Text(s) && |s| <= 255
    ensures ReadString(a + StringWire(s) + c, |a|) == TextAt(s, |a| + |StringWire(s)|)
  {
    var w, d := StringWire(s), a + StringWire(s) + c;
    assert s[..|s|] == s;
    assert w == [|s|] + s;
    assert d[|a|] == |s|;
    assert d[|a| + 1..|a| + 1 + |s|] == s;
    CStringText(s);
  }

  lemma {:induction false} ReverseConcat<T>(s: seq<T>, t: seq<T>)
    ensures Reverse(s + t) == Reverse(t) + Reverse(s)
  {
    if s == [] {
      assert s + t == t;
      assert Reverse(t) + [] == Reverse(t);
    } else {
      calc {
        Reverse(s + t);
        { assert (s + t)[1..] == s[1..] + t; }
        Reverse(s[1..] + t) + [s[0]];
        { ReverseConcat(s[1..], t); }
        Reverse(t) + Reverse(s[1..]) + [s[0]];
        Reverse(t) + (Reverse(s[1..]) + [s[0]]);
      }
    }
  }

  lemma {:induction false} ReverseTwice<T>(s: seq<T>)
    ensures Reverse(Reverse(s)) == s
  {
    if s != [] {
      ReverseConcat(Reverse(s[1..]), [s[0]]);
      ReverseTwice(s[1..]);
    }
  }

  predicate ShortStrings(strings: seq<seq<byte>>) {
    forall i :: 0 <= i < |strings| ==> 1 <= |strings[i]| <= 255
  }

  lemma {:induction false} ReverseShort(strings: seq<seq<byte>>)
    requires ShortStrings(strings)
    ensures ShortStrings(Reverse(strings))
  {
    if strings != [] {
      ReverseShort(strings[1..]);
    }
  }

  /** Parsing a serialized list prepends its strings one by one. */
  lemma {:induction false} ParseWire(strings: seq<seq<byte>>, list: seq<seq<byte>>)
    requires ShortStrings(strings)
    ensures ParseStrings(StringsWire(strings), list) == Some(Reverse(strings) + list)
  {
    if strings == [] {
      assert Reverse(strings) + list == list;
    } else {
      var s, more := strings[0], StringsWire(strings[1..]);
      var d := StringWire(s) + more;
      calc {
        ParseStrings(d, list);
        { StringWireParts(s, more); }
        ParseStrings(more, [s] + list);
        { ParseWire(strings[1..], [s] + list); }
        Some(Reverse(strings[1..]) + ([s] + list));
        { assert Reverse(strings[1..]) + ([s] + list) == Reverse(strings[1..]) + [s] + list; }
        Some(Reverse(strings) + list);
      }
    }
  }

  lemma StringWireParts(s: seq<byte>, more: seq<byte>)
    requires 1 <= |s| <= 255
    ensures var d := StringWire(s) + more;
            d[0] == |s| && |d| >= 1 + |s| && d[1..1 + |s|] == s && d[1 + |s|..] == more
  {
    assert s[..|s|] == s;
    assert StringWire(s) == [|s|] + s;
  }

  /** A TXT list survives serializing and parsing, the empty list included. */
  lemma StringListRoundTrip(strings: seq<seq<byte>>)
    requires ShortStrings(strings)
    ensures ParseStrings(TxtWire(strings), []) == Some(strings)
  {
    var r := Reverse(strings);
    ReverseShort(strings);
    ReverseTwice(strings);
    ParseWire(r, []);
    assert strings + [] == strings;
    if StringsWire(r) == [] {
      assert strings == [];
      assert ParseStrings([], []) == Some([]);
      assert [0][1..] == [];
    }
  }

  /** What was appended for the rdata parses back to it and ends where it ended, and the
      packet is still sound. */
  ghost predicate DataReads(kind: uint16, d: RData, data: seq<byte>, a: Appended, later: seq<byte>)
    requires a.Done?
  {
    && |a.bytes| < 0x1_0000
    && ParseData(kind, data + a.bytes + later, |data|, |a.bytes|) == DataAt(d, |data| + |a.bytes|)
    && SoundTable(data + a.bytes, a.table)
  }

  lemma DataRoundTrip(kind: uint16, d: RData, data: seq<byte>, table: NameTable, limit: nat, later: seq<byte>)
    requires SendableData(kind, d) && HEADER_SIZE <= |data| && SoundTable(data, table)
    requires AppendData(d, table, |data|, limit).Done?
    ensures DataReads(kind, d, data, AppendData(d, table, |data|, limit), later)
  {
    hide Append, SoundTable, ParseData, DataReads, Portable, StringWire, TxtWire;
    if d.NameData? {
      TargetRoundTrip(kind, d, data, table, limit, later);
    } else if d.Srv? {
      SrvRoundTrip(d, data, table, limit, later);
    } else {
      var bytes := AppendData(d, table, |data|, limit).bytes;
      if d.Hinfo? {
        HinfoRoundTrip(d, data, later);
      } else {
        FixedRoundTrip(kind, d, data, bytes, later);
      }
      FixedReads(kind, d, data, bytes, table, later);
    }
  }

  lemma FixedReads(kind: uint16, d: RData, data: seq<byte>, bytes: seq<byte>, table: NameTable, later: seq<byte>)
    requires |bytes| < 0x1_0000 && SoundTable(data, table)
    requires ParseData(kind, data + bytes + later, |data|, |bytes|) == DataAt(d, |data| + |bytes|)
    ensures DataReads(kind, d, data, Done(bytes, table), later)
  {
    hide ParseData, SoundTable;
    SoundTableExtend(data, bytes, table);
  }

  lemma TargetRoundTrip(kind: uint16, d: RData, data: seq<byte>, table: NameTable, limit: nat, later: seq<byte>)
    requires Typed(kind, d) && d.NameData? && Portable(d.target) && HEADER_SIZE <= |data| && SoundTable(data, table)
    requires AppendData(d, table, |data|, limit).Done?
    ensures DataReads(kind, d, data, AppendData(d, table, |data|, limit), later)
  {
    hide Append, SoundTable, ReadName, Portable, Typed, ParseData;
    PortableParts(d.target);
    NameReads(d.target, data, table, limit, later, DOMAIN_NAME_MAX);
    AppendShort(d.target, table, |data|, limit);
    TargetParses(kind, d.target, data + Append(d.target, table, |data|, limit).bytes + later, |data|,
                 |Append(d.target, table, |data|, limit).bytes|);
  }

  lemma TargetParses(kind: uint16, target: seq<byte>, data: seq<byte>, at: nat, length: uint16)
    requires Typed(kind, NameData(target)) && ReadName(data, at, DOMAIN_NAME_MAX) == TextAt(target, at + length)
    ensures ParseData(kind, data, at, length) == DataAt(NameData(target), at + length)
  {
    hide ReadName, ReadBytes, ReadString, ParseStrings;
  }

  /** The kinds read as one block of bytes. */
  lemma FixedRoundTrip(kind: uint16, d: RData, data: seq<byte>, bytes: seq<byte>, later: seq<byte>)
    requires Typed(kind, d) && PortableData(d) && !d.NameData? && !d.Srv? && !d.Hinfo?
    requires d.Txt? ==> ShortStrings(d.strings)
    requires bytes == if d.Txt? then TxtWire(d.strings) else if d.Generic? then d.bytes else d.address
    ensures |bytes| < 0x1_0000
    ensures ParseData(kind, data + bytes + later, |data|, |bytes|) == DataAt(d, |data| + |bytes|)
  {
    hide ReadName, ReadString, TxtWire, ParseStrings, Read16;
    Slice(data, bytes, later);
    if d.Txt? {
      StringListRoundTrip(d.strings);
    }
  }

  /** A name never takes more bytes on the wire than its text and two more. */
  lemma {:induction false} AppendShort(name: seq<byte>, table: NameTable, size: nat, limit: nat)
    requires Append(name, table, size, limit).Done?
    ensures |Append(name, table, size, limit).bytes| <= 2 * |name| + 2
    decreases |name|
  {
    hide Unescape;
    if name != [] && !Compresses(name, table) {
      var u := Unescape(name, LABEL_MAX);
      AppendShort(u.rest, Remember(table, name, size), size + |u.head| + 1, limit);
      UnescapeShort(name);
    }
  }

  lemma UnescapeShort(name: seq<byte>)
    requires name != [] && Unescape(name, LABEL_MAX).Split?
    ensures |Unescape(name, LABEL_MAX).head| + |Unescape(name, LABEL_MAX).rest| <= |name|
  {
    hide Scan;
    ScanShort(name, LABEL_MAX);
  }

  lemma {:induction false} ScanShort(s: seq<byte>, room: nat)
    ensures Scan(s, room).Split? ==> |Scan(s, room).head| + |Scan(s, room).rest| <= |s|
    decreases room
  {
    hide Next;
    if room > 0 && Next(s).Byte? {
      ScanShort(s[Next(s).n..], room - 1);
    }
  }

  lemma SrvRoundTrip(d: RData, data: seq<byte>, table: NameTable, limit: nat, later: seq<byte>)
    requires d.Srv? && Portable(d.target) && HEADER_SIZE <= |data| && SoundTable(data, table)
    requires AppendData(d, table, |data|, limit).Done?
    ensures DataReads(TYPE_SRV, d, data, AppendData(d, table, |data|, limit), later)
  {
    hide *;
    var six := Six(d.priority, d.weight, d.port);
    var base := data + six;
    assert |base| == |data| + 6;
    var n := SrvAppended(d, table, |data|, limit);
    SoundTableExtend(data, six, table);
    PortableParts(d.target);
    NameReads(d.target, base, table, limit, later, DOMAIN_NAME_MAX);
    AppendShort(d.target, table, |base|, limit);
    Shift(data, six, n.bytes, later);
    NumbersRead(d.priority, d.weight, d.port, data, n.bytes + later);
    SrvParses(d, data + (six + n.bytes) + later, |data|, 6 + |n.bytes|);
    ReadsIs(TYPE_SRV, d, data, AppendData(d, table, |data|, limit), later);
  }

  lemma SrvAppended(d: RData, table: NameTable, size: nat, limit: nat) returns (n: Appended)
    requires d.Srv? && AppendData(d, table, size, limit).Done?
    ensures n == Append(d.target, table, size + 6, limit) && n.Done?
    ensures AppendData(d, table, size, limit) == Done(Six(d.priority, d.weight, d.port) + n.bytes, n.table)
  {
    hide Append, Be16;
    n := Append(d.target, table, size + 6, limit);
  }

  lemma SrvParses(d: RData, all: seq<byte>, at: nat, length: nat)
    requires d.Srv? && 6 <= length < 0x1_0000 && at + 6 <= |all|
    requires Read16(all, at) == d.priority && Read16(all, at + 2) == d.weight && Read16(all, at + 4) == d.port
    requires ReadName(all, at + 6, DOMAIN_NAME_MAX) == TextAt(d.target, at + length)
    ensures ParseData(TYPE_SRV, all, at, length) == DataAt(d, at + length)
  {
    hide ReadName, Read16;
  }

  lemma ReadsIs(kind: uint16, d: RData, data: seq<byte>, a: Appended, later: seq<byte>)
    requires a.Done? && |a.bytes| < 0x1_0000 && SoundTable(data + a.bytes, a.table)
    requires ParseData(kind, data + a.bytes + later, |data|, |a.bytes|) == DataAt(d, |data| + |a.bytes|)
    ensures DataReads(kind, d, data, a, later)
  {
    hide ParseData, SoundTable;
  }

  lemma Shift(a: seq<byte>, b: seq<byte>, c: seq<byte>, d: seq<byte>)
    ensures a + (b + c) == a + b + c
    ensures a + (b + c) + d == a + b + c + d
    ensures a + (b + c) + d == a + b + (c + d)
  {
  }

  function Six(priority: uint16, weight: uint16, port: uint16): (six: seq<byte>)
    ensures |six| == 6
  {
    Be16(priority) + Be16(weight) + Be16(port)
  }

  lemma NumbersRead(priority: uint16, weight: uint16, port: uint16, data: seq<byte>, later: seq<byte>)
    ensures var all := data + Six(priority, weight, port) + later;
            && |all| >= |data| + 6
            && Read16(all, |data|) == priority && Read16(all, |data| + 2) == weight && Read16(all, |data| + 4) == port
  {
    hide Read16, Be16;
    var p, w, q := Be16(priority), Be16(weight), Be16(port);
    Be16Length(priority);
    Be16Length(weight);
    Be16Length(port);
    var all := data + (p + w + q) + later;
    assert all == data + p + (w + q + later);
    Read16Be(data, priority, w + q + later);
    assert all == (data + p) + w + (q + later);
    Read16Be(data + p, weight, q + later);
    assert all == (data + p + w) + q + later;
    Read16Be(data + p + w, port, later);
  }

  lemma PortableParts(name: seq<byte>)
    requires Portable(name)
    ensures Normal(name) && |LabelsOf(name).value| <= 63 && |name| < DOMAIN_NAME_MAX == 1014
  {
  }

  lemma Be16Length(v: uint16)
    ensures |Be16(v)| == 2
  {
  }

  lemma HinfoRoundTrip(d: RData, data: seq<byte>, later: seq<byte>)
    requires d.Hinfo? && Bytes.Text(d.cpu) && Bytes.Text(d.os) && |d.cpu| <= 255 && |d.os| <= 255
    ensures var bytes := StringWire(d.cpu) + StringWire(d.os);
            && |bytes| < 0x1_0000
            && ParseData(TYPE_HINFO, data + bytes + later, |data|, |bytes|) == DataAt(d, |data| + |bytes|)
  {
    hide ReadString, Bytes.Text;
    var c, o := StringWire(d.cpu), StringWire(d.os);
    var all := data + (c + o) + later;
    assert all == data + c + (o + later);
    StringReads(data, d.cpu, o + later);
    assert all == (data + c) + o + later;
    StringReads(data + c, d.os, later);
  }

  /** What the receiver makes of the TTL the sender was given. */
  function Received(r: Record, maxTtl: uint32): Record {
    r.(ttl := StoredTtl(WireTtl(r.ttl, maxTtl)))
  }

  /** The ten bytes at `at` hold type, class with flush bit, capped TTL and length. */
  predicate FieldsAre(r: Record, flush: bool, maxTtl: uint32, length: uint16, all: seq<byte>, at: nat) {
    && at + 10 <= |all|
    && Read16(all, at) == r.key.kind && Read16(all, at + 2) == WireClass(r.key.clazz, flush)
    && Read32(all, at + 4) == WireTtl(r.ttl, maxTtl) && Read16(all, at + 8) == length
  }

  /** The ten fixed bytes read back, wherever they stand. */
  lemma FieldsRead(r: Record, flush: bool, maxTtl: uint32, length: uint16, pre: seq<byte>, post: seq<byte>)
    ensures FieldsAre(r, flush, maxTtl, length, pre + Fields(r, flush, maxTtl, length) + post, |pre|)
  {
    hide Read16, Read32, Be16, Be32, WireClass, WireTtl;
    var k, c, t, l := Be16(r.key.kind), Be16(WireClass(r.key.clazz, flush)), Be32(WireTtl(r.ttl, maxTtl)), Be16(length);
    Be16Length(r.key.kind);
    Be16Length(WireClass(r.key.clazz, flush));
    Be32Length(WireTtl(r.ttl, maxTtl));
    Be16Length(length);
    FieldsAt(pre, k, c, t, l, post);
    Read16Be(pre, r.key.kind, c + t + l + post);
    Read16Be(pre + k, WireClass(r.key.clazz, flush), t + l + post);
    Read32Be(pre + k + c, WireTtl(r.ttl, maxTtl), l + post);
    Read16Be(pre + k + c + t, length, post);
  }

  lemma Be32Length(v: uint32)
    ensures |Be32(v)| == 4
  {
  }

  lemma FieldsAt(pre: seq<byte>, k: seq<byte>, c: seq<byte>, t: seq<byte>, l: seq<byte>, post: seq<byte>)
    ensures var all := pre + (k + c + t + l) + post;
            && all == pre + k + (c + t + l + post)
            && all == pre + k + c + (t + l + post)
            && all == pre + k + c + t + (l + post)
            && all == pre + k + c + t + l + post
  {
  }

  lemma ClassSplits(clazz: uint16, top: bool)
    requires clazz < TOP_BIT
    ensures WireClass(clazz, top) % TOP_BIT == clazz && (WireClass(clazz, top) >= TOP_BIT) == top
  {
  }

  /** The bytes of an appended record: its name, its fixed fields and its rdata. */
  lemma RecordParts(r: Record, flush: bool, maxTtl: uint32, table: NameTable, data: seq<byte>, limit: nat, later: seq<byte>)
    returns (n: Appended, f: seq<byte>, v: Appended)
    requires AppendRecord(r, flush, maxTtl, table, |data|, limit).Done?
    requires PortableRecord(r) && HEADER_SIZE <= |data| && SoundTable(data, table)
    ensures n == Append(r.key.name, table, |data|, limit) && n.Done?
    ensures v.Done? && |v.bytes| < 0x1_0000 && f == Fields(r, flush, maxTtl, |v.bytes|)
    ensures AppendRecord(r, flush, maxTtl, table, |data|, limit) == Done(n.bytes + f + v.bytes, v.table)
    ensures DataReads(r.key.kind, r.data, data + n.bytes + f, v, later)
  {
    hide *;
    PortableRecordParts(r);
    PortableParts(r.key.name);
    n, v := AppendRecordParts(r, flush, maxTtl, table, |data|, limit);
    f := Fields(r, flush, maxTtl, |v.bytes| % 0x1_0000);
    NameReads(r.key.name, data, table, limit, [], DOMAIN_NAME_MAX);
    assert data + n.bytes + [] == data + n.bytes;
    SoundTableExtend(data + n.bytes, f, n.table);
    assert |data + n.bytes + f| == |data| + |n.bytes| + 10;
    DataRoundTrip(r.key.kind, r.data, data + n.bytes + f, n.table, limit, later);
    DataReadsShort(r.key.kind, r.data, data + n.bytes + f, v, later);
  }

  lemma PortableRecordParts(r: Record)
    requires PortableRecord(r)
    ensures Portable(r.key.name) && SendableData(r.key.kind, r.data)
    ensures r.key.clazz < TOP_BIT && ValidRecord(r)
  {
    hide ValidDomainName, Portable, Typed;
  }

  lemma AppendRecordParts(r: Record, flush: bool, maxTtl: uint32, table: NameTable, size: nat, limit: nat)
    returns (n: Appended, v: Appended)
    requires AppendRecord(r, flush, maxTtl, table, size, limit).Done?
    ensures n == Append(r.key.name, table, size, limit) && n.Done?
    ensures v == AppendData(r.data, n.table, size + |n.bytes| + 10, limit) && v.Done?
    ensures AppendRecord(r, flush, maxTtl, table, size, limit)
         == Done(n.bytes + Fields(r, flush, maxTtl, |v.bytes| % 0x1_0000) + v.bytes, v.table)
  {
    hide Append, AppendData, Fields;
    n := Append(r.key.name, table, size, limit);
    v := AppendData(r.data, n.table, size + |n.bytes| + 10, limit);
  }

  lemma DataReadsShort(kind: uint16, d: RData, data: seq<byte>, a: Appended, later: seq<byte>)
    requires a.Done? && DataReads(kind, d, data, a, later)
    ensures |a.bytes| < 0x1_0000 && |a.bytes| % 0x1_0000 == |a.bytes|
    ensures ParseData(kind, data + a.bytes + later, |data|, |a.bytes|) == DataAt(d, |data| + |a.bytes|)
    ensures SoundTable(data + a.bytes, a.table)
  {
    hide ParseData, SoundTable;
  }

  /** The round trip of whole records: appended to any sound packet and followed by
      anything, a portable record is consumed as itself, with its TTL capped, its
      cache-flush bit, and the read index right behind it; the packet stays sound. */
  lemma RecordComesBack(r: Record, flush: bool, maxTtl: uint32, data: seq<byte>, table: NameTable, limit: nat, later: seq<byte>)
    requires PortableRecord(r) && HEADER_SIZE <= |data| && SoundTable(data, table)
    requires AppendRecord(r, flush, maxTtl, table, |data|, limit).Done?
    ensures var a := AppendRecord(r, flush, maxTtl, table, |data|, limit);
            && ConsumeRecord(data + a.bytes + later, |data|)
               == Some(Consumed(Received(r, maxTtl), flush, |data| + |a.bytes|))
            && SoundTable(data + a.bytes, a.table)
  {
    hide *;
    PortableRecordParts(r);
    PortableParts(r.key.name);
    var n, f, v := RecordParts(r, flush, maxTtl, table, data, limit, later);
    var all := Spelled(data, n.bytes, f, v.bytes, later);
    var p := |data| + |n.bytes|;
    NameInPlace(r.key.name, data, table, limit, n, f, v.bytes, later);
    FieldsInPlace(r, flush, maxTtl, data, n.bytes, f, v.bytes, later);
    DataInPlace(r.key.kind, r.data, data, n.bytes, f, v, later);
    NormalIsFixed(r.key.name);
    StoredValid(r, maxTtl);
    RecordConsumed(r, flush, maxTtl, all, |data|, p, |v.bytes|);
    RecordSpelled(data, n.bytes, f, v.bytes, later);
  }

  /** A whole packet around a record of three parts. */
  function Spelled(data: seq<byte>, n: seq<byte>, f: seq<byte>, v: seq<byte>, later: seq<byte>): (all: seq<byte>)
    ensures |all| == |data| + |n| + |f| + |v| + |later|
  {
    data + (n + f + v) + later
  }

  lemma NameInPlace(name: seq<byte>, data: seq<byte>, table: NameTable, limit: nat, n: Appended, f: seq<byte>, v: seq<byte>, later: seq<byte>)
    requires Portable(name) && HEADER_SIZE <= |data| && SoundTable(data, table)
    requires n == Append(name, table, |data|, limit) && n.Done?
    ensures ReadName(Spelled(data, n.bytes, f, v, later), |data|, DOMAIN_NAME_MAX) == TextAt(name, |data| + |n.bytes|)
  {
    hide Append, SoundTable, ReadName, Portable;
    PortableParts(name);
    NameReads(name, data, table, limit, f + v + later, DOMAIN_NAME_MAX);
    RecordSpelled(data, n.bytes, f, v, later);
  }

  lemma FieldsInPlace(r: Record, flush: bool, maxTtl: uint32, data: seq<byte>, n: seq<byte>, f: seq<byte>, v: seq<byte>, later: seq<byte>)
    requires |v| < 0x1_0000 && f == Fields(r, flush, maxTtl, |v|)
    ensures FieldsAre(r, flush, maxTtl, |v|, Spelled(data, n, f, v, later), |data| + |n|)
  {
    hide Read16, Read32, WireClass, WireTtl, Fields;
    FieldsRead(r, flush, maxTtl, |v|, data + n, v + later);
    RecordSpelled(data, n, f, v, later);
  }

  lemma DataInPlace(kind: uint16, d: RData, data: seq<byte>, n: seq<byte>, f: seq<byte>, v: Appended, later: seq<byte>)
    requires v.Done? && DataReads(kind, d, data + n + f, v, later) && |f| == 10
    ensures |v.bytes| < 0x1_0000
    ensures ParseData(kind, Spelled(data, n, f, v.bytes, later), |data| + |n| + 10, |v.bytes|)
         == DataAt(d, |data| + |n| + 10 + |v.bytes|)
    ensures SoundTable(data + (n + f + v.bytes), v.table)
  {
    hide ParseData, SoundTable, DataReads;
    DataReadsShort(kind, d, data + n + f, v, later);
    RecordSpelled(data, n, f, v.bytes, later);
  }

  /** The reader's side: the parts in place make the record. */
  lemma RecordConsumed(r: Record, flush: bool, maxTtl: uint32, all: seq<byte>, at: nat, p: nat, length: uint16)
    requires r.key.clazz < TOP_BIT && ValidRecord(Received(r, maxTtl))
    requires ReadName(all, at, DOMAIN_NAME_MAX) == TextAt(r.key.name, p)
    requires Normalize(r.key.name) == Some(r.key.name)
    requires p + 10 + length <= |all| && FieldsAre(r, flush, maxTtl, length, all, p)
    requires ParseData(r.key.kind, all, p + 10, length) == DataAt(r.data, p + 10 + length)
    ensures ConsumeRecord(all, at) == Some(Consumed(Received(r, maxTtl), flush, p + 10 + length))
  {
    hide ReadName, Normalize, Read16, Read32, ParseData, ValidRecord, WireClass, WireTtl, StoredTtl;
    ClassSplits(r.key.clazz, flush);
  }

  lemma RecordSpelled(data: seq<byte>, n: seq<byte>, f: seq<byte>, v: seq<byte>, later: seq<byte>)
    ensures var all := Spelled(data, n, f, v, later);
            && all == data + (n + f + v) + later
            && all == data + n + (f + v + later)
            && all == data + n + f + (v + later)
            && all == data + n + f + v + later
    ensures data + (n + f + v) == data + n + f + v
  {
  }

  lemma StoredValid(r: Record, maxTtl: uint32)
    requires ValidRecord(r)
    ensures ValidRecord(Received(r, maxTtl))
  {
    hide ValidDomainName;
  }

  /** Questions come back too, but consume_key reads names into 256 bytes: a question is
      rejected exactly when its name is longer than 255 characters. */
  lemma KeyComesBack(k: Key, unicast: bool, data: seq<byte>, table: NameTable, limit: nat, later: seq<byte>)
    requires Portable(k.name) && k.clazz < TOP_BIT && HEADER_SIZE <= |data| && SoundTable(data, table)
    requires AppendKey(k, unicast, table, |data|, limit).Done?
    ensures var a := AppendKey(k, unicast, table, |data|, limit);
            && ConsumeKey(data + a.bytes + later, |data|)
               == (if |k.name| < 256 then Some(ConsumedKey(k, unicast, |data| + |a.bytes|)) else None)
            && SoundTable(data + a.bytes, a.table)
  {
    hide *;
    var n := KeyParts(k, unicast, table, data, limit);
    var f := KeyFields(k, unicast);
    var all := data + (n.bytes + f) + later;
    PortableParts(k.name);
    KeyNameReads(k.name, data, table, limit, f + later);
    KeySpelled(data, n.bytes, f, later);
    KeyFieldsRead(k, unicast, data + n.bytes, later);
    NormalIsFixed(k.name);
    NormalValid(k.name);
    SoundTableExtend(data + n.bytes, f, n.table);
    KeyConsumed(k, unicast, all, |data|, |data| + |n.bytes|);
  }

  /** A question with a portable name leaves the packet sound. */
  lemma KeyStaysSound(k: Key, unicast: bool, data: seq<byte>, table: NameTable, limit: nat)
    requires Portable(k.name) && HEADER_SIZE <= |data| && SoundTable(data, table)
    requires AppendKey(k, unicast, table, |data|, limit).Done?
    ensures var a := AppendKey(k, unicast, table, |data|, limit); SoundTable(data + a.bytes, a.table)
  {
    hide *;
    var n := KeyParts(k, unicast, table, data, limit);
    var f := KeyFields(k, unicast);
    PortableParts(k.name);
    KeyNameReads(k.name, data, table, limit, []);
    KeySpelled(data, n.bytes, f, []);
    SoundTableExtend(data + n.bytes, f, n.table);
  }

  function KeyFields(k: Key, unicast: bool): (f: seq<byte>)
    ensures |f| == 4
  {
    Be16(k.kind) + Be16(if unicast then WireClass(k.clazz, true) else k.clazz)
  }

  lemma KeyParts(k: Key, unicast: bool, table: NameTable, data: seq<byte>, limit: nat) returns (n: Appended)
    requires AppendKey(k, unicast, table, |data|, limit).Done?
    ensures n == Append(k.name, table, |data|, limit) && n.Done?
    ensures AppendKey(k, unicast, table, |data|, limit) == Done(n.bytes + KeyFields(k, unicast), n.table)
  {
    hide Append, WireClass;
    n := Append(k.name, table, |data|, limit);
    assert n.bytes + Be16(k.kind) + Be16(if unicast then WireClass(k.clazz, true) else k.clazz) == n.bytes + KeyFields(k, unicast);
  }

  lemma KeySpelled(data: seq<byte>, n: seq<byte>, f: seq<byte>, later: seq<byte>)
    ensures data + (n + f) + later == data + n + (f + later)
    ensures data + (n + f) + later == data + n + f + later
    ensures data + (n + f) == data + n + f
  {
  }

  /** Reading the name of a question: it fits 256 bytes or the read fails. */
  lemma KeyNameReads(name: seq<byte>, data: seq<byte>, table: NameTable, limit: nat, later: seq<byte>)
    requires Portable(name) && HEADER_SIZE <= |data| && SoundTable(data, table)
    requires Append(name, table, |data|, limit).Done?
    ensures var a := Append(name, table, |data|, limit);
            && ReadName(data + a.bytes + later, |data|, 256)
               == (if |name| < 256 then TextAt(name, |data| + |a.bytes|) else NoText)
            && SoundTable(data + a.bytes, a.table)
  {
    hide Append, Decode, Extent, SoundTable, Join, LabelsOf;
    var ls := LabelsOf(name).value;
    var h := NameRoundTrip(ls, data, table, limit, later, 256);
    h := AppendSoundTable(ls, data, table, limit);
  }

  /** The four bytes at `at` hold the type and the class with its unicast bit. */
  predicate KeyFieldsAre(k: Key, unicast: bool, all: seq<byte>, at: nat) {
    && at + 4 <= |all|
    && Read16(all, at) == k.kind
    && Read16(all, at + 2) == if unicast then WireClass(k.clazz, true) else k.clazz
  }

  lemma KeyFieldsRead(k: Key, unicast: bool, pre: seq<byte>, later: seq<byte>)
    ensures KeyFieldsAre(k, unicast, pre + KeyFields(k, unicast) + later, |pre|)
  {
    hide Read16, Be16, WireClass;
    var c := if unicast then WireClass(k.clazz, true) else k.clazz;
    Be16Length(k.kind);
    Be16Length(c);
    assert pre + (Be16(k.kind) + Be16(c)) + later == pre + Be16(k.kind) + (Be16(c) + later);
    Read16Be(pre, k.kind, Be16(c) + later);
    assert pre + Be16(k.kind) + (Be16(c) + later) == (pre + Be16(k.kind)) + Be16(c) + later;
    Read16Be(pre + Be16(k.kind), c, later);
  }

  lemma KeyConsumed(k: Key, unicast: bool, all: seq<byte>, at: nat, p: nat)
    requires k.clazz < TOP_BIT && ValidDomainName(k.name) && Normalize(k.name) == Some(k.name)
    requires ReadName(all, at, 256) == if |k.name| < 256 then TextAt(k.name, p) else NoText
    requires KeyFieldsAre(k, unicast, all, p)
    ensures ConsumeKey(all, at) == if |k.name| < 256 then Some(ConsumedKey(k, unicast, p + 4)) else None
  {
    hide ReadName, Normalize, ValidDomainName, Read16, WireClass;
    ClassSplits(k.clazz, unicast);
    ClassSplits(k.clazz, true);
  }

  // ---------- what does not come back ----------

  /** A record keeps its TTL exactly if that is not capped and not the value that stands for none. */
  lemma TtlKept(r: Record, maxTtl: uint32)
    ensures Received(r, maxTtl) == r <==> r.ttl != 0xFFFF_FFFF && (maxTtl == 0 || r.ttl <= maxTtl)
  {
  }

  /** A TTL of 2^32 - 1 comes back as 4500. */
  lemma UnsetTtlLost(r: Record, flush: bool, data: seq<byte>, table: NameTable, limit: nat, later: seq<byte>)
    requires PortableRecord(r) && r.ttl == 0xFFFF_FFFF && HEADER_SIZE <= |data| && SoundTable(data, table)
    requires AppendRecord(r, flush, 0, table, |data|, limit).Done?
    ensures var c := ConsumeRecord(data + AppendRecord(r, flush, 0, table, |data|, limit).bytes + later, |data|);
            c.Some? && c.value.record.ttl == 4500 && c.value.record != r
  {
    ReceivedUnset(r);
    hide *;
    RecordComesBack(r, flush, 0, data, table, limit, later);
  }

  lemma ReceivedUnset(r: Record)
    requires r.ttl == 0xFFFF_FFFF
    ensures Received(r, 0).ttl == 4500 && Received(r, 0) != r
  {
  }

  function Letters(): (l: Label)
    ensures |l| == 60 && forall i :: 0 <= i < |l| ==> l[i] == 97
  {
    seq(60, _ => 97)
  }

  function LetterLabels(k: nat): (ls: seq<Label>)
    ensures |ls| == k && forall i :: 0 <= i < k ==> ls[i] == Letters()
  {
    seq(k, _ => Letters())
  }

  lemma {:induction false} EscapedLetters(l: Label)
    requires forall i :: 0 <= i < |l| ==> l[i] == 97
    ensures |Escape(l)| == |l|
  {
    if l != [] {
      EscapedLetters(l[1..]);
    }
  }

  lemma {:induction false} LetterLengths(k: nat)
    ensures |Join(LetterLabels(k))| == if k == 0 then 0 else 61 * k - 1
    ensures WireSize(LetterLabels(k)) == 61 * k && FirstKnown(LetterLabels(k), map[]) == k
  {
    hide Escape;
    EscapedLetters(Letters());
    if k > 0 {
      LetterLengths(k - 1);
      assert LetterLabels(k)[1..] == LetterLabels(k - 1);
    }
  }

  lemma LettersGood(k: nat)
    ensures Good(LetterLabels(k))
  {
    Utf8.AsciiValid(Letters());
    assert GoodLabel(Letters());
  }

  lemma FiveLabels()
    ensures var name := Join(LetterLabels(5));
            |name| == 304 && Portable(name) && Append(name, map[], HEADER_SIZE, 400).Done? && |Append(name, map[], HEADER_SIZE, 400).bytes| == 306
  {
    hide *;
    var ls := LetterLabels(5);
    LettersGood(5);
    LetterLengths(5);
    LabelsOfJoin(ls);
    PortableIs(ls);
    HeaderIs();
    ShapeOf(ls, HEADER_SIZE, 400);
  }

  lemma HeaderIs()
    ensures HEADER_SIZE == 12
  {
  }

  lemma PortableIs(ls: seq<Label>)
    requires LabelsOf(Join(ls)) == Some(ls) && Normal(Join(ls)) && |ls| <= 63 && |Join(ls)| < 1014
    ensures Portable(Join(ls))
  {
    hide Normal, LabelsOf, Join;
  }

  lemma ShapeOf(ls: seq<Label>, size: nat, limit: nat)
    requires Good(ls) && FirstKnown(ls, map[]) == |ls| && size + WireSize(ls) + 1 <= limit
    ensures Append(Join(ls), map[], size, limit).Done? && |Append(Join(ls), map[], size, limit).bytes| == WireSize(ls) + 1
  {
    hide Append, Join, FirstKnown, WireSize, Good;
    AppendShape(ls, map[], size, limit);
    assert ls[..|ls|] == ls;
  }

  /** A question for five labels of 60 letters, 304 characters, can be asked and cannot be read. */
  lemma LongKeyLost(later: seq<byte>)
    ensures var k, data := Key(Join(LetterLabels(5)), CLASS_IN, TYPE_PTR), seq(HEADER_SIZE, _ => 0);
            var a := AppendKey(k, false, map[], HEADER_SIZE, 400);
            Portable(k.name) && a.Done? && ConsumeKey(data + a.bytes + later, HEADER_SIZE) == None
  {
    var k, data := Key(Join(LetterLabels(5)), CLASS_IN, TYPE_PTR), seq(HEADER_SIZE, _ => 0);
    FiveLabels();
    hide Append, Join, Portable, ConsumeKey, LetterLabels;
    KeyComesBack(k, false, data, map[], 400, later);
  }
}
