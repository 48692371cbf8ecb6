/** The consume functions of avahi-core/dns.c: they read at the packet's read index and move it. */
module PacketReader {
  import opened Bytes
  import opened Labels
  import opened NameCodec
  import opened NameDecoder
  import opened Domain
  import opened Normalizer
  import opened Records
  import opened StringLists
  import opened Packets

  /** avahi_dns_packet_consume_name followed by avahi_strdup of the buffer. */
  method ConsumeName(p: Packet, room: nat) returns (name: Option<seq<byte>>)
    requires p.size <= p.data.Length && room > 0
    modifies p`rindex
    ensures ReadName(p.Content(), old(p.rindex), room)
         == if name.Some? then TextAt(name.value, p.rindex) else NoText
  {
    var buf := new byte[room];
    var used, length := p.ConsumeLabels(p.rindex, buf);
    if used < 0 {
      return None;
    }
    p.rindex := p.rindex + used;
    name := Some(buf[..length]);
  }

  /** avahi_dns_packet_consume_uint16. */
  method ConsumeUint16(p: Packet) returns (v: Option<uint16>)
    requires p.size <= p.data.Length
    modifies p`rindex
    ensures v.Some? <==> old(p.rindex) + 2 <= p.size
    ensures v.Some? ==> p.rindex == old(p.rindex) + 2 && v.value == Read16(p.Content(), old(p.rindex))
  {
    if p.rindex + 2 > p.size {
      return None;
    }
    v := Some(Word(p.data[p.rindex], p.data[p.rindex + 1]));
    p.rindex := p.rindex + 2;
  }

  /** avahi_dns_packet_consume_uint32. */
  method ConsumeUint32(p: Packet) returns (v: Option<uint32>)
    requires p.size <= p.data.Length
    modifies p`rindex
    ensures v.Some? <==> old(p.rindex) + 4 <= p.size
    ensures v.Some? ==> p.rindex == old(p.rindex) + 4 && v.value == Read32(p.Content(), old(p.rindex))
  {
    if p.rindex + 4 > p.size {
      return None;
    }
    v := Some(DoubleWord(p.data[p.rindex], p.data[p.rindex + 1], p.data[p.rindex + 2], p.data[p.rindex + 3]));
    p.rindex := p.rindex + 4;
  }

  /** avahi_dns_packet_consume_bytes, and avahi_memdup with avahi_dns_packet_skip. */
  method ConsumeBytes(p: Packet, n: nat) returns (b: Option<seq<byte>>)
    requires p.size <= p.data.Length
    modifies p`rindex
    ensures ReadBytes(p.Content(), old(p.rindex), n)
         == if b.Some? then TextAt(b.value, p.rindex) else NoText
  {
    if p.rindex + n > p.size {
      return None;
    }
    b := Some(p.data[p.rindex..p.rindex + n]);
    assert b.value == p.Content()[p.rindex..p.rindex + n];
    p.rindex := p.rindex + n;
  }

  /** The C string in a buffer. */
  method UpToNul(s: seq<byte>) returns (t: seq<byte>)
    ensures t == CString(s)
  {
    hide CString;
    var i := 0;
    CStringFrom(s, 0);
    while i < |s| && s[i] != 0
      invariant 0 <= i <= |s|
      invariant |CString(s)| >= i && CString(s)[..i] == s[..i] && CString(s)[i..] == CString(s[i..])
    {
      CStringFrom(s, i);
      i := i + 1;
    }
    CStringFrom(s, i);
    return s[..i];
  }

  lemma CStringFrom(s: seq<byte>, i: nat)
    requires i <= |s|
    requires i > 0 ==> |CString(s)| >= i && CString(s)[..i] == s[..i] && CString(s)[i..] == CString(s[i..])
    ensures |CString(s)| >= i && CString(s)[..i] == s[..i] && CString(s)[i..] == CString(s[i..])
    ensures i < |s| && s[i] != 0 ==>
              |CString(s)| >= i + 1 && CString(s)[..i + 1] == s[..i + 1] && CString(s)[i + 1..] == CString(s[i + 1..])
    ensures i == |s| || s[i] == 0 ==> CString(s) == s[..i]
  {
    if i == 0 {
      assert s[0..] == s;
    }
    var c, t := CString(s), s[i..];
    if i < |s| && s[i] != 0 {
      assert t[1..] == s[i + 1..];
      assert c[i..] == [s[i]] + CString(s[i + 1..]);
      assert c[i] == c[i..][0] && c[i + 1..] == c[i..][1..];
    } else {
      assert c[i..] == [];
    }
  }

  /** avahi_dns_packet_consume_string followed by avahi_strdup of the buffer. */
  method ConsumeString(p: Packet) returns (s: Option<seq<byte>>)
    requires p.size <= p.data.Length
    modifies p`rindex
    ensures ReadString(p.Content(), old(p.rindex))
         == if s.Some? then TextAt(s.value, p.rindex) else NoText
  {
    hide CString;
    if p.rindex >= p.size {
      return None;
    }
    var k := p.data[p.rindex];
    if p.rindex + 1 + k > p.size {
      return None;
    }
    var text := UpToNul(p.data[p.rindex + 1..p.rindex + 1 + k]);
    assert p.data[p.rindex + 1..p.rindex + 1 + k] == p.Content()[p.rindex + 1..p.rindex + 1 + k];
    s := Some(text);
    p.rindex := p.rindex + 1 + k;
  }

  /** The SRV case of parse_rdata. */
  method ConsumeSrv(p: Packet) returns (d: Option<RData>)
    requires p.size <= p.data.Length
    modifies p`rindex
    ensures ReadSrv(p.Content(), old(p.rindex)) == if d.Some? then DataAt(d.value, p.rindex) else NoData
  {
    hide ReadName, Read16;
    ghost var c := p.Content();
    var priority := ConsumeUint16(p);
    if priority.None? {
      return None;
    }
    var weight := ConsumeUint16(p);
    if weight.None? {
      return None;
    }
    var port := ConsumeUint16(p);
    if port.None? {
      return None;
    }
    var name := ConsumeName(p, DOMAIN_NAME_MAX);
    if name.None? {
      return None;
    }
    d := Some(Srv(priority.value, weight.value, port.value, name.value));
  }

  /** The HINFO case of parse_rdata. */
  method ConsumeHinfo(p: Packet) returns (d: Option<RData>)
    requires p.size <= p.data.Length
    modifies p`rindex
    ensures ReadHinfo(p.Content(), old(p.rindex)) == if d.Some? then DataAt(d.value, p.rindex) else NoData
  {
    hide ReadString;
    var cpu := ConsumeString(p);
    if cpu.None? {
      return None;
    }
    var os := ConsumeString(p);
    if os.None? {
      return None;
    }
    d := Some(Hinfo(cpu.value, os.value));
  }

  /** The TXT case of parse_rdata. */
  method ConsumeTxt(p: Packet, length: uint16) returns (d: Option<RData>)
    requires p.size <= p.data.Length && p.rindex + length <= p.size
    modifies p`rindex
    ensures ReadTxt(p.Content(), old(p.rindex), length) == if d.Some? then DataAt(d.value, p.rindex) else NoData
  {
    hide ParseStrings;
    var list: seq<seq<byte>> := [];
    EmptyList();
    if length > 0 {
      var l := ParseList(p.data[p.rindex..p.rindex + length]);
      assert p.data[p.rindex..p.rindex + length] == p.Content()[p.rindex..p.rindex + length];
      if l.None? {
        return None;
      }
      list := l.value;
    } else {
      assert p.Content()[p.rindex..p.rindex] == [];
    }
    p.rindex := p.rindex + length;
    d := Some(Txt(list));
  }

  lemma EmptyList()
    ensures ParseStrings([], []) == Some([])
  {
  }

  /** parse_rdata, its final length check included. */
  method ParseRdata(p: Packet, kind: uint16, length: uint16) returns (d: Option<RData>)
    requires p.size <= p.data.Length && p.rindex + length <= p.size
    modifies p`rindex
    ensures var v := ParseData(kind, p.Content(), old(p.rindex), length);
            d == if v.DataAt? && v.end == old(p.rindex) + length then Some(v.value) else None
    ensures d.Some? ==> p.rindex == old(p.rindex) + length
  {
    hide ReadName, ReadSrv, ReadHinfo, ReadTxt;
    var start := p.rindex;
    if kind == TYPE_PTR || kind == TYPE_CNAME || kind == TYPE_NS {
      var name := ConsumeName(p, DOMAIN_NAME_MAX);
      d := if name.Some? then Some(NameData(name.value)) else None;
    } else if kind == TYPE_SRV {
      d := ConsumeSrv(p);
    } else if kind == TYPE_HINFO {
      d := ConsumeHinfo(p);
    } else if kind == TYPE_TXT {
      d := ConsumeTxt(p, length);
    } else if kind == TYPE_A {
      var b := ConsumeBytes(p, 4);
      d := if b.Some? then Some(Address4(b.value)) else None;
    } else if kind == TYPE_AAAA {
      var b := ConsumeBytes(p, 16);
      d := if b.Some? then Some(Address6(b.value)) else None;
    } else {
      var b := ConsumeBytes(p, length);
      d := if b.Some? then Some(Generic(b.value)) else None;
    }
    if d.Some? && p.rindex != start + length {
      d := None;
    }
  }

  /** The normalized copy avahi_key_new makes of a name that was just consumed. */
  method NormalCopy(name: seq<byte>, ghost data: seq<byte>, ghost at: nat, ghost room: nat) returns (r: Option<seq<byte>>)
    requires ReadName(data, at, room).TextAt? && ReadName(data, at, room).text == name && room <= DOMAIN_NAME_MAX
    ensures r == Normalize(name)
  {
    hide ReadName, Normalize, NormalizeInto;
    DecodedFits(data, at, room);
    DecodedNormalizes(data, at, room);
    NormalizeFits(name, DOMAIN_NAME_MAX);
    var t := new byte[DOMAIN_NAME_MAX];
    var code, length := NormalizeName(name, t);
    assert code != Asserted;
    r := if code == ReturnedText then Some(t[..length]) else None;
  }

  /** A decoded name is a C string that fits the buffer it is normalized into. */
  lemma DecodedFits(data: seq<byte>, at: nat, room: nat)
    requires ReadName(data, at, room).TextAt? && room <= DOMAIN_NAME_MAX
    ensures var name := ReadName(data, at, room).text;
            Bytes.Text(name) && !NormalizeInto(name, DOMAIN_NAME_MAX).Aborted?
  {
    hide Decode, Extent, Reads, Join, Bytes.Text, NormalizeFrom;
    var ls, hops := DecodeSound(data, at, LABELS_MAX, room, true);
    JoinEmpty();
    assert Spelling(ls, true) == Join(ls);
    DecodeReads(data, at, ls, hops, LABELS_MAX, room, true);
    SpelledText(ls);
    assert [] + ls == ls;
    SpelledFits([], true, ls, DOMAIN_NAME_MAX);
  }

  /** Normalizing a spelled name into a buffer that it fits does not run out of room. */
  lemma {:induction false} SpelledFits(done: seq<Label>, ended: bool, ls: seq<Label>, n: nat)
    requires forall i :: 0 <= i < |ls| ==> 1 <= |ls[i]| < LABEL_MAX
    requires |Join(done)| < n && |Join(done + ls)| < n
    ensures !NormalizeFrom(Join(done), done == [], ended, Join(ls), n).Aborted?
    decreases |ls|
  {
    hide Escape, Unescape, GoodLabel, Fitting, Join;
    if ls == [] {
      JoinEmpty();
    } else {
      var l, rest := ls[0], ls[1..];
      var tail := if rest == [] then [] else [DOT] + Join(rest);
      SpelledCons(ls, tail);
      SpelledLabel(l, tail);
      assert [l] + rest == ls;
      FullFits(done, l, rest, n);
      FittingWhole(l, n - |Normalizer.Dotted(Join(done), done == [])|);
      JoinNext(done, l);
      assert l[..|l|] == l;
      SpelledFits(done + [l], true, rest, n);
    }
  }

  lemma SpelledCons(ls: seq<Label>, tail: seq<byte>)
    requires ls != [] && tail == if ls[1..] == [] then [] else [DOT] + Join(ls[1..])
    ensures Join(ls) == Escape(ls[0]) + tail && (if tail == [] then [] else tail[1..]) == Join(ls[1..])
  {
    hide Escape;
  }

  lemma {:induction false} EscapeIsText(l: Label)
    ensures Bytes.Text(Escape(l))
  {
    if l != [] {
      EscapeIsText(l[1..]);
    }
  }

  lemma {:induction false} SpelledText(ls: seq<Label>)
    ensures Bytes.Text(Join(ls))
  {
    hide Escape;
    if ls != [] {
      EscapeIsText(ls[0]);
      SpelledText(ls[1..]);
    }
  }

  /** avahi_dns_packet_consume_record. */
  method ConsumeRecordFrom(p: Packet) returns (r: Option<Record>, flush: bool)
    requires p.size <= p.data.Length
    modifies p`rindex
    ensures ConsumeRecord(p.Content(), old(p.rindex))
         == if r.Some? then Some(Consumed(r.value, flush, p.rindex)) else None
  {
    hide ReadName, Normalize, ParseData, Read16, Read32, ValidRecord;
    ghost var c, at := p.Content(), p.rindex;
    flush := false;
    var name := ConsumeName(p, DOMAIN_NAME_MAX);
    if name.None? {
      return None, flush;
    }
    var kind := ConsumeUint16(p);
    if kind.None? {
      return None, flush;
    }
    var clazz := ConsumeUint16(p);
    if clazz.None? {
      return None, flush;
    }
    var ttl := ConsumeUint32(p);
    if ttl.None? {
      return None, flush;
    }
    var length := ConsumeUint16(p);
    if length.None? || p.rindex + length.value > p.size {
      return None, flush;
    }
    flush := clazz.value >= TOP_BIT;
    var normal := NormalCopy(name.value, c, at, DOMAIN_NAME_MAX);
    if normal.None? {
      return None, flush;
    }
    var d := ParseRdata(p, kind.value, length.value);
    if d.None? {
      return None, flush;
    }
    var record := Record(Key(normal.value, clazz.value % TOP_BIT, kind.value), StoredTtl(ttl.value), d.value);
    if !ValidRecord(record) {
      return None, flush;
    }
    r := Some(record);
  }

  /** avahi_dns_packet_consume_key. */
  method ConsumeKeyFrom(p: Packet) returns (k: Option<Key>, unicast: bool)
    requires p.size <= p.data.Length
    modifies p`rindex
    ensures ConsumeKey(p.Content(), old(p.rindex))
         == if k.Some? then Some(ConsumedKey(k.value, unicast, p.rindex)) else None
  {
    hide ReadName, Normalize, Read16, ValidDomainName;
    ghost var c, at := p.Content(), p.rindex;
    unicast := false;
    var name := ConsumeName(p, 256);
    if name.None? {
      return None, unicast;
    }
    var kind := ConsumeUint16(p);
    if kind.None? {
      return None, unicast;
    }
    var clazz := ConsumeUint16(p);
    if clazz.None? {
      return None, unicast;
    }
    unicast := clazz.value >= TOP_BIT;
    var normal := NormalCopy(name.value, c, at, 256);
    if normal.None? || !ValidDomainName(normal.value) {
      return None, unicast;
    }
    k := Some(Key(normal.value, clazz.value % TOP_BIT, kind.value));
  }
}
