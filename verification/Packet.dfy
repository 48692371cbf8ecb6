/** The packet under construction or being read (avahi-core/dns.c). */
module Packets {
  import opened Bytes
  import opened Labels
  import opened NameCodec
  import opened NameDecoder
  import opened NameRollback
  import opened Domain
  import opened Records
  import opened RecordRoundTrip
  import opened StringLists

  const EXTRA_SIZE: nat := 48
  const RDATA_MAX: nat := 0xFFFF
  const SIZE_MAX: nat := HEADER_SIZE + 256 + 2 + 2 + 4 + 2 + RDATA_MAX

  /** The capacity avahi_dns_packet_new chooses for an MTU. */
  function Capacity(mtu: nat): (n: nat)
    ensures n >= HEADER_SIZE
  {
    var n := if mtu == 0 then SIZE_MAX else if mtu >= EXTRA_SIZE then mtu - EXTRA_SIZE else 0;
    if n < HEADER_SIZE then HEADER_SIZE else n
  }

  class Packet {
    const data: array<byte>
    var size: nat
    var rindex: nat
    var nameTable: NameTable

    function Content(): (c: seq<byte>)
      requires size <= data.Length
      reads this`size, data
      ensures |c| == size
    {
      data[..size]
    }

    /** Every remembered name can be pointed at. */
    ghost predicate Valid()
      reads this, data
    {
      HEADER_SIZE <= size <= data.Length && SoundTable(Content(), nameTable)
    }

    /** What an append needs of a packet: its names are inside. */
    ghost predicate Inside()
      reads this
    {
      size <= data.Length && forall n :: n in nameTable ==> nameTable[n] < size
    }

    lemma ValidInside()
      requires Valid()
      ensures Inside()
    {
      hide SoundTable;
      SoundInside(Content(), nameTable);
    }

    constructor (mtu: nat)
      ensures Valid() && fresh(data) && data.Length == Capacity(mtu)
      ensures Content() == seq(HEADER_SIZE, _ => 0) && rindex == HEADER_SIZE && nameTable == map[]
    {
      data := new byte[Capacity(mtu)](_ => 0);
      size, rindex, nameTable := HEADER_SIZE, HEADER_SIZE, map[];
    }

    /** avahi_dns_packet_extend: the start of the new bytes, if there is room for them. */
    method Extend(l: nat) returns (d: Option<nat>)
      requires size <= data.Length
      modifies this`size
      ensures size <= data.Length
      ensures if old(size) + l <= data.Length then d == Some(old(size)) && size == old(size) + l
              else d == None && size == old(size)
    {
      if size + l > data.Length {
        return None;
      }
      d := Some(size);
      size := size + l;
    }

    /** avahi_dns_packet_append_bytes. */
    method AppendBytes(b: seq<byte>) returns (ok: bool)
      requires size <= data.Length
      modifies this`size, data
      ensures size <= data.Length && ok == (old(size) + |b| <= data.Length)
      ensures Content() == if ok then old(Content()) + b else old(Content())
    {
      var d := Extend(|b|);
      if d.None? {
        return false;
      }
      Put(data, d.value, b);
      assert data[..size] == old(data[..size]) + b;
      ok := true;
    }

    /** avahi_dns_packet_append_uint16. */
    method AppendUint16(v: uint16) returns (ok: bool)
      requires size <= data.Length
      modifies this`size, data
      ensures size <= data.Length && ok == (old(size) + 2 <= data.Length)
      ensures Content() == if ok then old(Content()) + Be16(v) else old(Content())
    {
      var d := Extend(2);
      if d.None? {
        return false;
      }
      data[d.value], data[d.value + 1] := v / 0x100, v % 0x100;
      assert data[..size] == old(data[..size]) + [v / 0x100, v % 0x100];
      ok := true;
    }

    /** avahi_dns_packet_append_uint32. */
    method AppendUint32(v: uint32) returns (ok: bool)
      requires size <= data.Length
      modifies this`size, data
      ensures size <= data.Length && ok == (old(size) + 4 <= data.Length)
      ensures Content() == if ok then old(Content()) + Be32(v) else old(Content())
    {
      var d := Extend(4);
      if d.None? {
        return false;
      }
      var b := Be32(v);
      data[d.value], data[d.value + 1], data[d.value + 2], data[d.value + 3] := b[0], b[1], b[2], b[3];
      assert data[..size] == old(data[..size]) + b;
      ok := true;
    }

    /** avahi_dns_packet_append_string. */
    method AppendString(s: seq<byte>) returns (ok: bool)
      requires size <= data.Length
      modifies this`size, data
      ensures size <= data.Length && ok == (old(size) + |StringWire(s)| <= data.Length)
      ensures Content() == if ok then old(Content()) + StringWire(s) else old(Content())
    {
      var k: nat := if |s| >= 255 then 255 else |s|;
      var d := Extend(k + 1);
      if d.None? {
        return false;
      }
      data[d.value] := k;
      Put(data, d.value + 1, s[..k]);
      assert s[..k] == if |s| < 255 then s else s[..255];
      assert data[..size] == old(data[..size]) + [k] + s[..k];
      ok := true;
    }

    /** avahi_dns_packet_cleanup_name_table. */
    method CleanupNameTable()
      modifies this`nameTable
      ensures nameTable == Swept(old(nameTable), size)
    {
      nameTable := Swept(nameTable, size);
    }

    /** The failure paths: give up everything behind `saved`. */
    method Restore(saved: nat, ghost before: NameTable)
      requires saved <= size <= data.Length
      requires Kept(before, nameTable, saved) && forall name :: name in before ==> before[name] < saved
      modifies this`size, this`nameTable
      ensures size == saved && nameTable == before
      ensures Content() == old(Content())[..saved]
    {
      size := saved;
      CleanupNameTable();
      SweepUndoes(before, old(nameTable), saved);
    }

    /** avahi_dns_packet_append_name: the loop does what Append says; when it fails it restores
        the packet, but for the early return on a pointer that does not fit. */
    method AppendName(name: seq<byte>) returns (ok: bool)
      requires Bytes.Text(name) && size <= data.Length
      requires forall n :: n in nameTable ==> nameTable[n] < size
      modifies this`size, this`nameTable, data
      ensures size <= data.Length && ok == Append(name, old(nameTable), old(size), data.Length).Done?
      ensures var a := Append(name, old(nameTable), old(size), data.Length);
              if a.Rejected? then Content() == old(Content()) && nameTable == old(nameTable)
              else Content() == old(Content()) + a.bytes && nameTable == a.table
      ensures Kept(old(nameTable), nameTable, old(size))
      ensures forall n :: n in nameTable ==> nameTable[n] < size
    {
      hide *;
      var saved := size;
      var cursor := 0;
      var l := new byte[LABEL_MAX];
      ghost var whole := Append(name, nameTable, size, data.Length);
      ghost var written: seq<byte> := [];
      AfterNothing(whole);
      KeptAtFirst(nameTable, size);
      while cursor < |name|
        invariant 0 <= cursor <= |name| && old(size) <= size <= data.Length
        invariant Content() == old(Content()) + written
        invariant whole == After(written, Append(name[cursor..], nameTable, size, data.Length))
        invariant Kept(old(nameTable), nameTable, old(size))
        invariant forall n :: n in nameTable ==> nameTable[n] < size
        decreases |name| - cursor
      {
        var suffix := name[cursor..];
        var from := size;
        CompressesMeans(suffix, nameTable);
        TextSuffix(name, cursor);
        ghost var here, room := nameTable, data.Length;
        if Compresses(suffix, nameTable) {
          ok := AppendPointer(nameTable[suffix]);
          AppendKnown(suffix, here, from, room);
          AfterLast(written, PointerBytes(here[suffix]), here);
          Joined(old(Content()), written, PointerBytes(here[suffix]));
          return;
        }
        AppendUnknown(suffix, here, from, room);
        var good, next, length := UnescapeLabel(name, cursor, l);
        AfterLast(written, [], here);
        if !good {
          assert whole == Rejected;
          Restore(saved, old(nameTable));
          Unwritten(old(Content()), written);
          return false;
        }
        var text := l[..length];
        assert Unescape(suffix, LABEL_MAX) == Split(text, name[next..]);
        var fits := AppendString(text);
        ShortString(text);
        if !fits {
          assert whole == Rejected;
          Restore(saved, old(nameTable));
          Unwritten(old(Content()), written);
          return false;
        }
        UnescapeProgress(name, cursor, next);
        nameTable := Remember(nameTable, suffix, from);
        KeptRemember(old(nameTable), here, suffix, old(size), from);
        AfterTwice(written, Wire(text), Append(name[next..], nameTable, size, data.Length));
        Joined(old(Content()), written, Wire(text));
        written := written + Wire(text);
        cursor := next;
      }
      assert name[cursor..] == [];
      AppendEnd(nameTable, size, data.Length);
      AfterLast(written, [0], nameTable);
      ok := AppendBytes([0]);
      Joined(old(Content()), written, [0]);
      if !ok {
        Restore(saved, old(nameTable));
        Unwritten(old(Content()), written);
      }
    }

    /** The two bytes of a compressed name. */
    method AppendPointer(offset: nat) returns (ok: bool)
      requires size <= data.Length && offset < OFFSET_LIMIT
      modifies this`size, data
      ensures size <= data.Length && ok == (old(size) + 2 <= data.Length)
      ensures Content() == if ok then old(Content()) + PointerBytes(offset) else old(Content())
    {
      ok := AppendBytes(PointerBytes(offset));
    }

    /** The TXT case of append_rdata: measure, extend, then serialize in place. */
    method AppendStringList(strings: seq<seq<byte>>) returns (ok: bool)
      requires size <= data.Length
      modifies this`size, data
      ensures size <= data.Length && ok == (old(size) + |TxtWire(strings)| <= data.Length)
      ensures Content() == if ok then old(Content()) + TxtWire(strings) else old(Content())
    {
      hide TxtWire;
      var n := SerializedSize(strings);
      var d := Extend(n);
      if d.None? {
        return false;
      }
      SerializedWhole(strings, n);
      var used := SerializeInto(strings, data, d.value, n);
      ok := true;
    }

    /** The branch of append_rdata for SRV records. */
    method AppendSrv(priority: uint16, weight: uint16, port: uint16, target: seq<byte>) returns (ok: bool)
      requires size <= data.Length && TargetText(Srv(priority, weight, port, target))
      requires forall n :: n in nameTable ==> nameTable[n] < size
      modifies this`size, this`nameTable, data
      ensures size <= data.Length && old(Content()) <= Content()
      ensures ok == AppendData(Srv(priority, weight, port, target), old(nameTable), old(size), data.Length).Done?
      ensures ok ==> var a := AppendData(Srv(priority, weight, port, target), old(nameTable), old(size), data.Length);
                     Content() == old(Content()) + a.bytes && nameTable == a.table
      ensures Kept(old(nameTable), nameTable, old(size)) && forall n :: n in nameTable ==> nameTable[n] < size
    {
      hide *;
      ghost var before, table, from, limit := Content(), nameTable, size, data.Length;
      KeptAtFirst(table, from);
      DataCases(Srv(priority, weight, port, target), table, from, limit);
      Be16Sizes(priority, weight, port);
      ok := AppendUint16(priority);
      if ok {
        ok := AppendUint16(weight);
      }
      if ok {
        ok := AppendUint16(port);
      }
      if ok {
        SixBytes(before, priority, weight, port);
        ok := AppendName(target);
        KeptEarlier(table, nameTable, from, from + 6);
        AppendAfterSix(before, priority, weight, port, Append(target, table, from + 6, limit));
      }
    }

    /** append_rdata. When it fails the caller rolls back: nothing before is touched and no
        table entry is lost. */
    method AppendRdata(d: RData) returns (ok: bool)
      requires size <= data.Length && TargetText(d)
      requires forall n :: n in nameTable ==> nameTable[n] < size
      modifies this`size, this`nameTable, data
      ensures size <= data.Length && old(Content()) <= Content()
      ensures ok == AppendData(d, old(nameTable), old(size), data.Length).Done?
      ensures ok ==> var a := AppendData(d, old(nameTable), old(size), data.Length);
                     Content() == old(Content()) + a.bytes && nameTable == a.table
      ensures Kept(old(nameTable), nameTable, old(size)) && forall n :: n in nameTable ==> nameTable[n] < size
    {
      hide *;
      ghost var before, table, from, limit := Content(), nameTable, size, data.Length;
      KeptAtFirst(table, from);
      DataCases(d, table, from, limit);
      match d {
        case NameData(target) =>
          ok := AppendName(target);
        case Srv(priority, weight, port, target) =>
          ok := AppendSrv(priority, weight, port, target);
        case Hinfo(cpu, os) =>
          ok := AppendString(cpu);
          if ok {
            ok := AppendString(os);
            Joined(before, StringWire(cpu), StringWire(os));
          }
        case Txt(strings) =>
          ok := AppendStringList(strings);
        case Address4(address) =>
          ok := AppendBytes(address);
        case Address6(address) =>
          ok := AppendBytes(address);
        case Generic(bytes) =>
          ok := true;
          if |bytes| > 0 {
            ok := AppendBytes(bytes);
          }
      }
    }

    /** avahi_dns_packet_append_key: all of the question, or nothing of it. */
    method AppendKeyTo(k: Key, unicast: bool) returns (ok: bool)
      requires Inside() && Bytes.Text(k.name)
      modifies this`size, this`nameTable, data
      ensures Inside()
      ensures ok == AppendKey(k, unicast, old(nameTable), old(size), data.Length).Done?
      ensures !ok ==> Content() == old(Content()) && nameTable == old(nameTable)
      ensures ok ==> var a := AppendKey(k, unicast, old(nameTable), old(size), data.Length);
                     Content() == old(Content()) + a.bytes && nameTable == a.table
      ensures old(Valid()) && Portable(k.name) ==> Valid()
      ensures ok && old(Valid()) && Portable(k.name) && k.clazz < TOP_BIT ==>
                ConsumeKey(Content(), old(size)) == if |k.name| < 256 then Some(ConsumedKey(k, unicast, size)) else None
    {
      hide *;
      InsideIs();
      ValidIs();
      var saved := size;
      ghost var before, table, limit := Content(), nameTable, data.Length;
      var clazz := if unicast then WireClass(k.clazz, true) else k.clazz;
      KeyCases(k, unicast, table, saved, limit);
      Be16Sizes(k.kind, clazz, clazz);
      ok := AppendName(k.name);
      ghost var n := Append(k.name, table, saved, limit);
      if ok {
        ok := AppendUint16(k.kind);
      }
      if ok {
        ok := AppendUint16(clazz);
      }
      if !ok {
        Restore(saved, table);
        InsideIs();
        ValidIs();
        return;
      }
      KeyBytes(before, n.bytes, Be16(k.kind), Be16(clazz));
      InsideIs();
      KeyReadsBack(k, unicast, before, table, limit);
    }

    lemma InsideIs()
      ensures Inside() <==> size <= data.Length && forall n :: n in nameTable ==> nameTable[n] < size
    {
    }

    /** Why the invariant survives a completed question, and the question can be consumed. */
    lemma KeyReadsBack(k: Key, unicast: bool, before: seq<byte>, table: NameTable, limit: nat)
      requires size <= data.Length && AppendKey(k, unicast, table, |before|, limit).Done?
      requires var a := AppendKey(k, unicast, table, |before|, limit); Content() == before + a.bytes && nameTable == a.table
      ensures HEADER_SIZE <= |before| && SoundTable(before, table) && Portable(k.name) ==> Valid()
      ensures HEADER_SIZE <= |before| && SoundTable(before, table) && Portable(k.name) && k.clazz < TOP_BIT ==>
                ConsumeKey(Content(), |before|) == if |k.name| < 256 then Some(ConsumedKey(k, unicast, size)) else None
    {
      hide AppendKey, ConsumeKey, SoundTable, Portable;
      if HEADER_SIZE <= |before| && SoundTable(before, table) && Portable(k.name) {
        assert Content() + [] == Content();
        KeyStaysSound(k, unicast, before, table, limit);
        if k.clazz < TOP_BIT {
          KeyComesBack(k, unicast, before, table, limit, []);
        }
      }
    }

    /** avahi_dns_packet_append_record: all of the record with its length filled in
        afterwards, or nothing of it. The length must fit its field, as the source asserts. */
    method AppendRecordTo(r: Record, flush: bool, maxTtl: uint32) returns (ok: bool)
      requires Inside() && Bytes.Text(r.key.name) && TargetText(r.data) && RdataFits(r.data)
      modifies this`size, this`nameTable, data
      ensures Inside()
      ensures ok == AppendRecord(r, flush, maxTtl, old(nameTable), old(size), data.Length).Done?
      ensures !ok ==> Content() == old(Content()) && nameTable == old(nameTable)
      ensures ok ==> var a := AppendRecord(r, flush, maxTtl, old(nameTable), old(size), data.Length);
                     Content() == old(Content()) + a.bytes && nameTable == a.table
      ensures old(Valid()) && PortableRecord(r) ==>
                Valid() && (ok ==> ConsumeRecord(Content(), old(size)) == Some(Consumed(Received(r, maxTtl), flush, size)))
    {
      hide *;
      InsideIs();
      var saved := size;
      ghost var before, table, limit := Content(), nameTable, data.Length;
      ValidIs();
      RecordCases(r, flush, maxTtl, table, saved, limit);
      ok := AppendName(r.key.name);
      ghost var n := Append(r.key.name, table, saved, limit);
      ghost var from := size;
      if ok {
        ok := AppendFields(r, flush, maxTtl);
      }
      if !ok {
        Restore(saved, table);
        InsideIs();
        ValidIs();
        return;
      }
      var start := size;
      ghost var known := nameTable;
      ok := AppendRdata(r.data);
      KeptTrans(table, known, nameTable, saved, start);
      if !ok {
        Restore(saved, table);
        InsideIs();
        ValidIs();
        return;
      }
      InsideIs();
      ghost var v := AppendData(r.data, known, start, limit);
      RdataShort(r.data, known, start, limit);
      var length := size - start;
      PatchLength(start - 2, length, before + n.bytes, r, flush, maxTtl, v.bytes);
      RecordBytes(before, n.bytes, Fields(r, flush, maxTtl, length), v.bytes);
      ReadsBack(r, flush, maxTtl, before, table, limit);
    }

    lemma ValidIs()
      ensures Valid() <==> HEADER_SIZE <= size <= data.Length && SoundTable(Content(), nameTable)
    {
    }

    /** Why the invariant survives a completed record, and the record can be consumed. */
    lemma ReadsBack(r: Record, flush: bool, maxTtl: uint32, before: seq<byte>, table: NameTable, limit: nat)
      requires size <= data.Length && AppendRecord(r, flush, maxTtl, table, |before|, limit).Done?
      requires var a := AppendRecord(r, flush, maxTtl, table, |before|, limit);
               Content() == before + a.bytes && nameTable == a.table
      ensures HEADER_SIZE <= |before| && SoundTable(before, table) && PortableRecord(r) ==>
                Valid() && ConsumeRecord(Content(), |before|) == Some(Consumed(Received(r, maxTtl), flush, size))
    {
      hide AppendRecord, ConsumeRecord, SoundTable, PortableRecord, Received;
      if HEADER_SIZE <= |before| && SoundTable(before, table) && PortableRecord(r) {
        RecordComesBack(r, flush, maxTtl, before, table, limit, []);
        assert Content() + [] == Content();
      }
    }

    /** Type, class, TTL and an empty length field. */
    method AppendFields(r: Record, flush: bool, maxTtl: uint32) returns (ok: bool)
      requires size <= data.Length
      modifies this`size, data
      ensures size <= data.Length && old(Content()) <= Content()
      ensures ok == (old(size) + 10 <= data.Length)
      ensures ok ==> Content() == old(Content()) + Fields(r, flush, maxTtl, 0)
    {
      hide *;
      ghost var before := Content();
      Be16Sizes(r.key.kind, WireClass(r.key.clazz, flush), 0);
      Be32Length(WireTtl(r.ttl, maxTtl));
      ok := AppendUint16(r.key.kind);
      if ok {
        ok := AppendUint16(WireClass(r.key.clazz, flush));
      }
      if ok {
        ok := AppendUint32(WireTtl(r.ttl, maxTtl));
      }
      if ok {
        ok := AppendUint16(0);
      }
      FieldBytes(before, r, flush, maxTtl, 0);
    }

    /** The two stores that fill in the length once the rdata is in place. */
    method PatchLength(l: nat, length: nat, ghost before: seq<byte>, ghost r: Record, ghost flush: bool, ghost maxTtl: uint32, ghost v: seq<byte>)
      requires size <= data.Length && length < 0x1_0000 && |before| + 8 == l
      requires Content() == before + Fields(r, flush, maxTtl, 0) + v
      modifies data
      ensures Content() == before + Fields(r, flush, maxTtl, length) + v
    {
      hide Be32, WireClass, WireTtl;
      assert |Fields(r, flush, maxTtl, 0)| == 10;
      data[l] := length / 0x100;
      data[l + 1] := length % 0x100;
      PatchedFields(Content(), before, r, flush, maxTtl, length, v);
    }

    /** One label of consume_labels: the dot before it, and its escaped text. */
    method WriteLabel(text: Label, ret: array<byte>, at: nat, first: bool) returns (ok: bool, end: nat)
      requires text != [] && at + |text| < ret.Length
      modifies ret
      ensures end < ret.Length && ok == (at + |Shown(text, first)| < ret.Length)
      ensures ok ==> end == at + |Shown(text, first)| && ret[..end] == old(ret[..at]) + Shown(text, first)
    {
      hide Escape;
      var d := at;
      if !first {
        ret[at] := DOT;
        d := at + 1;
      }
      assert ret[..d] == old(ret[..at]) + if first then [] else [DOT];
      ok, end := EscapeLabel(text, ret, d);
      if ok {
        Joined(old(ret[..at]), if first then [] else [DOT], Escape(text));
      }
    }

    /** consume_labels: the loop does what Decode says, and reports how many bytes the name
        takes in place. */
    method ConsumeLabels(start: nat, ret: array<byte>) returns (used: int, length: nat)
      requires size <= data.Length && ret.Length > 0 && ret != data
      modifies ret
      ensures used < 0 <==> Decode(Content(), start, LABELS_MAX, ret.Length, true).None?
      ensures used >= 0 ==>
                && used == Extent(Content(), start) && length < ret.Length && ret[length] == 0
                && Decode(Content(), start, LABELS_MAX, ret.Length, true) == Some(ret[..length])
    {
      hide *;
      ghost var c := Content();
      ContentIs();
      Constants();
      var idx, i, first, compressed := start, 0, true, false;
      used, length := 0, 0;
      WithNothing(Decode(c, start, LABELS_MAX, ret.Length, true));
      assert ret[..0] == [];
      while i < LABELS_MAX
        invariant 0 <= i <= LABELS_MAX && 0 <= length < ret.Length && used >= 0 && idx >= 0
        invariant c == data[..size]
        invariant Decode(c, start, LABELS_MAX, ret.Length, true)
               == With(ret[..length], Decode(c, idx, LABELS_MAX - i, ret.Length - length, first))
        invariant Extent(c, start) == used + if compressed then 0 else Extent(c, idx)
      {
        ghost var text, room := ret[..length], ret.Length - length;
        DecodeCases(c, idx, LABELS_MAX - i, room, first);
        ExtentCases(c, idx);
        WithCases(text);
        if idx + 1 > size {
          return -1, length;
        }
        var n := data[idx];
        if n == 0 {
          ret[length] := 0;
          assert ret[..length] == text;
          used := if compressed then used else used + 1;
          return;
        } else if n < LABEL_MAX {
          if idx + 1 + n > size || n + 1 > ret.Length - length {
            return -1, length;
          }
          var l := data[idx + 1..idx + 1 + n];
          SliceIs(idx + 1, idx + 1 + n);
          var ok, end := WriteLabel(l, ret, length, first);
          if !ok {
            return -1, length;
          }
          WithWith(text, Shown(l, first), Decode(c, idx + 1 + n, LABELS_MAX - i - 1, room - |Shown(l, first)|, false));
          used := if compressed then used else used + 1 + n;
          length, idx, first := end, idx + 1 + n, false;
        } else if n >= 0xC0 {
          if idx + 2 > size {
            return -1, length;
          }
          var target := TargetOf(n, data[idx + 1]);
          if target < HEADER_SIZE || target >= idx {
            return -1, length;
          }
          used := if compressed then used else used + 2;
          idx, compressed := target, true;
        } else {
          return -1, length;
        }
        i := i + 1;
      }
      DecodeCases(c, idx, 0, ret.Length - length, first);
      WithCases(ret[..length]);
      return -1, length;
    }

    lemma ContentIs()
      requires size <= data.Length
      ensures Content() == data[..size]
    {
    }

    lemma SliceIs(i: nat, j: nat)
      requires i <= j <= size <= data.Length
      ensures data[i..j] == Content()[i..j]
    {
      assert forall k :: i <= k < j ==> data[..][k] == Content()[k];
    }
  }

  /** The text one label adds. */
  function Shown(l: Label, first: bool): seq<byte> {
    (if first then [] else [DOT]) + Escape(l)
  }

  function TargetOf(hi: byte, lo: byte): nat
    requires hi >= 0xC0
  {
    (hi - 0xC0) as int * 0x100 + lo
  }

  function With(text: seq<byte>, o: Option<seq<byte>>): Option<seq<byte>> {
    if o.None? then None else Some(text + o.value)
  }

  lemma WithNothing(o: Option<seq<byte>>)
    ensures With([], o) == o
  {
    if o.Some? {
      assert [] + o.value == o.value;
    }
  }

  lemma WithWith(p: seq<byte>, q: seq<byte>, o: Option<seq<byte>>)
    ensures With(p, With(q, o)) == With(p + q, o)
  {
    if o.Some? {
      assert p + (q + o.value) == p + q + o.value;
    }
  }

  lemma WithCases(p: seq<byte>)
    ensures With(p, None) == None && With(p, Some([])) == Some(p)
  {
    assert p + [] == p;
  }

  lemma Constants()
    ensures LABEL_MAX == 64 && LABELS_MAX == 127 && HEADER_SIZE == 12
  {
  }

  lemma ExtentCases(c: seq<byte>, at: nat)
    ensures at < |c| && c[at] == 0 ==> Extent(c, at) == 1
    ensures at < |c| && 0 < c[at] < 64 ==> Extent(c, at) == 1 + c[at] + Extent(c, at + 1 + c[at])
    ensures at < |c| && c[at] >= 64 ==> Extent(c, at) == 2
  {
  }

  lemma DecodeCases(c: seq<byte>, at: nat, steps: nat, room: nat, first: bool)
    ensures steps == 0 || at >= |c| ==> Decode(c, at, steps, room, first) == None
    ensures steps > 0 && at < |c| && c[at] == 0 && room > 0 ==> Decode(c, at, steps, room, first) == Some([])
    ensures steps > 0 && at < |c| && 0 < c[at] < 64 && (at + 1 + c[at] > |c| || c[at] + 1 > room) ==>
              Decode(c, at, steps, room, first) == None
    ensures steps > 0 && at < |c| && 0 < c[at] < 64 && at + 1 + c[at] <= |c| && c[at] + 1 <= room ==>
              var shown := Shown(c[at + 1..at + 1 + c[at]], first);
              Decode(c, at, steps, room, first)
              == if |shown| + 1 > room then None
                 else With(shown, Decode(c, at + 1 + c[at], steps - 1, room - |shown|, false))
    ensures steps > 0 && at < |c| && 64 <= c[at] && (c[at] < 0xC0 || at + 2 > |c|) ==>
              Decode(c, at, steps, room, first) == None
    ensures steps > 0 && at + 2 <= |c| && c[at] >= 0xC0 ==>
              Decode(c, at, steps, room, first)
              == if HEADER_SIZE <= TargetOf(c[at], c[at + 1]) < at
                 then Decode(c, TargetOf(c[at], c[at + 1]), steps - 1, room, first) else None
  {
    hide Escape;
  }

  lemma KeyCases(k: Key, unicast: bool, table: NameTable, size: nat, limit: nat)
    ensures var n := Append(k.name, table, size, limit);
            && (!n.Done? || size + |n.bytes| + 4 > limit ==> AppendKey(k, unicast, table, size, limit) == Rejected)
            && (n.Done? && size + |n.bytes| + 4 <= limit ==>
                  AppendKey(k, unicast, table, size, limit)
                  == Done(n.bytes + Be16(k.kind) + Be16(if unicast then WireClass(k.clazz, true) else k.clazz), n.table))
  {
    hide Append, WireClass, Be16;
  }

  lemma KeyBytes(a: seq<byte>, b: seq<byte>, c: seq<byte>, d: seq<byte>)
    ensures a + b + c + d == a + (b + c + d)
  {
  }

  /** The rdata cannot outgrow its 16-bit length field. Only a TXT list could. */
  predicate RdataFits(d: RData) {
    match d
    case NameData(target) => |target| < DOMAIN_NAME_MAX
    case Srv(_, _, _, target) => |target| < DOMAIN_NAME_MAX
    case Hinfo(_, _) => true
    case Txt(strings) => |TxtWire(strings)| <= RDATA_MAX
    case Address4(address) => |address| <= RDATA_MAX
    case Address6(address) => |address| <= RDATA_MAX
    case Generic(bytes) => |bytes| <= RDATA_MAX
  }

  lemma RdataShort(d: RData, table: NameTable, size: nat, limit: nat)
    requires RdataFits(d) && AppendData(d, table, size, limit).Done?
    ensures |AppendData(d, table, size, limit).bytes| <= RDATA_MAX < 0x1_0000
  {
    hide Append, TxtWire;
    match d {
      case NameData(target) => AppendShort(target, table, size, limit);
      case Srv(_, _, _, target) => AppendShort(target, table, size + 6, limit);
      case _ =>
    }
  }

  lemma RecordCases(r: Record, flush: bool, maxTtl: uint32, table: NameTable, size: nat, limit: nat)
    ensures var n := Append(r.key.name, table, size, limit);
            && (!n.Done? || size + |n.bytes| + 10 > limit ==> AppendRecord(r, flush, maxTtl, table, size, limit) == Rejected)
            && (n.Done? && size + |n.bytes| + 10 <= limit ==>
                  var v := AppendData(r.data, n.table, size + |n.bytes| + 10, limit);
                  && (!v.Done? ==> AppendRecord(r, flush, maxTtl, table, size, limit) == Rejected)
                  && (v.Done? ==> AppendRecord(r, flush, maxTtl, table, size, limit)
                                  == Done(n.bytes + Fields(r, flush, maxTtl, |v.bytes| % 0x1_0000) + v.bytes, v.table)))
  {
    hide Append, AppendData, Fields;
  }

  lemma FieldBytes(before: seq<byte>, r: Record, flush: bool, maxTtl: uint32, length: uint16)
    ensures before + Be16(r.key.kind) + Be16(WireClass(r.key.clazz, flush)) + Be32(WireTtl(r.ttl, maxTtl)) + Be16(length)
         == before + Fields(r, flush, maxTtl, length)
  {
    hide Be16, Be32, WireClass, WireTtl;
  }

  lemma PatchedFields(c: seq<byte>, before: seq<byte>, r: Record, flush: bool, maxTtl: uint32, length: uint16, v: seq<byte>)
    requires |c| == |before| + 10 + |v| && before <= c && c[|before| + 10..] == v
    requires c[|before|..|before| + 8] == Fields(r, flush, maxTtl, 0)[..8]
    requires c[|before| + 8] == length / 0x100 && c[|before| + 9] == length % 0x100
    ensures c == before + Fields(r, flush, maxTtl, length) + v
  {
    hide Be32, WireClass, WireTtl;
    var f, g := Fields(r, flush, maxTtl, 0), Fields(r, flush, maxTtl, length);
    assert g[..8] == f[..8];
    assert g[8..] == [length / 0x100, length % 0x100];
    assert c[|before|..|before| + 10] == g;
  }

  lemma RecordBytes(a: seq<byte>, b: seq<byte>, c: seq<byte>, d: seq<byte>)
    ensures a + b + c + d == a + (b + c + d)
  {
  }

  /** The names in rdata are C strings. */
  predicate TargetText(d: RData) {
    d.NameData? || d.Srv? ==> Bytes.Text(d.target)
  }

  /** The cases of AppendData. */
  lemma DataCases(d: RData, table: NameTable, size: nat, limit: nat)
    requires TargetText(d)
    ensures d.NameData? || d.Srv? ==> Bytes.Text(d.target)
    ensures d.NameData? ==> AppendData(d, table, size, limit) == Append(d.target, table, size, limit)
    ensures d.Srv? && size + 6 > limit ==> AppendData(d, table, size, limit) == Rejected
    ensures d.Srv? && size + 6 <= limit ==>
              AppendData(d, table, size, limit)
              == After(Six(d.priority, d.weight, d.port), Append(d.target, table, size + 6, limit))
    ensures d.Hinfo? ==> AppendData(d, table, size, limit) == Fixed(StringWire(d.cpu) + StringWire(d.os), table, size, limit)
    ensures d.Txt? ==> AppendData(d, table, size, limit) == Fixed(TxtWire(d.strings), table, size, limit)
    ensures d.Address4? || d.Address6? ==> AppendData(d, table, size, limit) == Fixed(d.address, table, size, limit)
    ensures d.Generic? ==> AppendData(d, table, size, limit) == Fixed(d.bytes, table, size, limit)
    ensures forall b: seq<byte> :: Fixed(b, table, size, limit) == if size + |b| <= limit then Done(b, table) else Rejected
  {
    hide Append, StringWire, TxtWire;
  }

  lemma Be16Sizes(a: uint16, b: uint16, c: uint16)
    ensures |Be16(a)| == |Be16(b)| == |Be16(c)| == 2
  {
  }

  lemma SixBytes(before: seq<byte>, a: uint16, b: uint16, c: uint16)
    ensures before + Be16(a) + Be16(b) + Be16(c) == before + Six(a, b, c)
  {
  }

  lemma AppendAfterSix(before: seq<byte>, a: uint16, b: uint16, c: uint16, n: Appended)
    ensures After(Six(a, b, c), n).Done? == n.Done?
    ensures n.Done? ==> After(Six(a, b, c), n).table == n.table
    ensures n.Done? ==> before + Six(a, b, c) + n.bytes == before + After(Six(a, b, c), n).bytes
  {
    hide Six;
  }

  lemma KeptEarlier(table: NameTable, now: NameTable, size: nat, later: nat)
    requires Kept(table, now, later) && size <= later
    ensures Kept(table, now, size)
  {
  }

  lemma KeptAtFirst(table: NameTable, size: nat)
    ensures Kept(table, table, size) && LABEL_MAX == 64
  {
  }

  lemma KeptRemember(table: NameTable, now: NameTable, name: seq<byte>, size: nat, at: nat)
    requires Kept(table, now, size) && size <= at
    ensures Kept(table, Remember(now, name, at), size)
    ensures (forall n :: n in now ==> now[n] < at) ==>
              forall n :: n in Remember(now, name, at) ==> Remember(now, name, at)[n] <= at
  {
  }

  lemma CompressesMeans(name: seq<byte>, table: NameTable)
    ensures Compresses(name, table) ==> name in table && table[name] < OFFSET_LIMIT
  {
  }

  lemma TextSuffix(name: seq<byte>, k: nat)
    requires k <= |name|
    ensures Bytes.Text(name) ==> Bytes.Text(name[k..])
  {
  }

  lemma Unwritten(s: seq<byte>, t: seq<byte>)
    ensures (s + t)[..|s|] == s
  {
  }

  lemma Joined(s: seq<byte>, t: seq<byte>, u: seq<byte>)
    ensures s + t + u == s + (t + u)
  {
  }

  lemma AfterNothing(a: Appended)
    ensures After([], a) == a
  {
    if !a.Rejected? {
      assert [] + a.bytes == a.bytes;
    }
  }

  lemma AfterTwice(p: seq<byte>, q: seq<byte>, a: Appended)
    ensures After(p, After(q, a)) == After(p + q, a)
  {
    if !a.Rejected? {
      assert p + (q + a.bytes) == p + q + a.bytes;
    }
  }

  lemma AfterLast(p: seq<byte>, q: seq<byte>, table: NameTable)
    ensures After(p, Done(q, table)) == Done(p + q, table)
    ensures After(p, Stuck([], table)) == Stuck(p, table)
    ensures After(p, Rejected) == Rejected
  {
    assert p + [] == p;
  }

  lemma AppendKnown(name: seq<byte>, table: NameTable, size: nat, limit: nat)
    requires name != [] && Compresses(name, table)
    ensures Append(name, table, size, limit)
         == if size + 2 > limit then Stuck([], table) else Done(PointerBytes(table[name]), table)
  {
  }

  lemma AppendUnknown(name: seq<byte>, table: NameTable, size: nat, limit: nat)
    requires name != [] && !Compresses(name, table)
    ensures var u := Unescape(name, LABEL_MAX);
            (Append(name, table, size, limit)
             == if u.Malformed? || size + |u.head| + 1 > limit then Rejected
                else After(Wire(u.head), Append(u.rest, Remember(table, name, size), size + |u.head| + 1, limit)))
  {
    hide Unescape;
  }

  lemma AppendEnd(table: NameTable, size: nat, limit: nat)
    ensures Append([], table, size, limit) == if size + 1 > limit then Rejected else Done([0], table)
  {
  }

  lemma ShortString(s: seq<byte>)
    requires |s| < LABEL_MAX
    ensures StringWire(s) == Wire(s) && |Wire(s)| == |s| + 1
  {
  }

  lemma UnescapeProgress(name: seq<byte>, start: nat, next: nat)
    requires start < |name| && next <= |name| && Unescape(name[start..], LABEL_MAX).Split?
    requires Unescape(name[start..], LABEL_MAX).rest == name[next..]
    ensures next > start
  {
    hide Unescape;
    assert |Unescape(name[start..], LABEL_MAX).rest| < |name[start..]|;
  }
}
