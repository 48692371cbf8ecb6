/** Domain names on the wire with suffix compression (avahi-core/dns.c, sections 3.1
    and 4.1.4 of RFC 1035): what is appended, what is read back, and why they agree. */
module NameCodec {
  import opened Bytes
  import opened Labels

  const HEADER_SIZE: nat := 12
  const LABELS_MAX: nat := 127
  const OFFSET_LIMIT: nat := 0x4000

  /** Offsets of the names already in the packet, by presentation form. */
  type NameTable = map<seq<byte>, nat>

  /** What appending a name comes to. `Stuck` is the early return that leaves the bytes and
      table entries of the labels written so far in place. */
  datatype Appended =
    | Done(bytes: seq<byte>, table: NameTable)
    | Stuck(bytes: seq<byte>, table: NameTable)
    | Rejected

  function PointerBytes(offset: nat): seq<byte>
    requires offset < OFFSET_LIMIT
  {
    [0xC0 + offset / 0x100, offset % 0x100]
  }

  function Wire(l: Label): seq<byte>
    requires |l| < LABEL_MAX
  {
    [|l|] + l
  }

  predicate Compresses(name: seq<byte>, table: NameTable) {
    name in table && table[name] < OFFSET_LIMIT
  }

  /** avahi_hashmap_insert keeps the value already stored. */
  function Remember(table: NameTable, name: seq<byte>, offset: nat): NameTable {
    if name in table then table else table[name := offset]
  }

  function After(wire: seq<byte>, a: Appended): Appended {
    match a
    case Done(bytes, table) => Done(wire + bytes, table)
    case Stuck(bytes, table) => Stuck(wire + bytes, table)
    case Rejected => Rejected
  }

  /** avahi_dns_packet_append_name into a packet of `size` bytes that may grow to `limit`. */
  function Append(name: seq<byte>, table: NameTable, size: nat, limit: nat): Appended
    decreases |name|
  {
    if name == [] then
      if size + 1 > limit then Rejected else Done([0], table)
    else if Compresses(name, table) then
      if size + 2 > limit then Stuck([], table) else Done(PointerBytes(table[name]), table)
    else
      match Unescape(name, LABEL_MAX)
      case Malformed => Rejected
      case Split(l, rest) =>
        if size + |l| + 1 > limit then Rejected
        else After(Wire(l), Append(rest, Remember(table, name, size), size + |l| + 1, limit))
  }

  /** Starting at `at`, the bytes spell `ls` with exactly `hops` pointers followed, each of
      them to an earlier place past the header. */
  predicate Reads(data: seq<byte>, at: nat, ls: seq<Label>, hops: nat)
    decreases |ls| + hops
  {
    at < |data| &&
    if data[at] == 0 then
      ls == [] && hops == 0
    else if data[at] < LABEL_MAX then
      && ls != [] && at + 1 + data[at] <= |data|
      && ls[0] == data[at + 1..at + 1 + data[at]]
      && Reads(data, at + 1 + data[at], ls[1..], hops)
    else
      && data[at] >= 0xC0 && hops > 0 && at + 2 <= |data|
      && HEADER_SIZE <= Target(data, at) < at
      && Reads(data, Target(data, at), ls, hops - 1)
  }

  function Target(data: seq<byte>, at: nat): nat
    requires at + 2 <= |data| && data[at] >= 0xC0
  {
    (data[at] - 0xC0) as int * 0x100 + data[at + 1]
  }

  lemma {:induction false} ReadsExtend(data: seq<byte>, more: seq<byte>, at: nat, ls: seq<Label>, hops: nat)
    requires Reads(data, at, ls, hops)
    ensures Reads(data + more, at, ls, hops)
    decreases |ls| + hops
  {
    var d := data + more;
    assert d[at] == data[at];
    if data[at] == 0 {
    } else if data[at] < LABEL_MAX {
      assert d[at + 1..at + 1 + data[at]] == data[at + 1..at + 1 + data[at]];
      ReadsExtend(data, more, at + 1 + data[at], ls[1..], hops);
    } else {
      assert d[at + 1] == data[at + 1];
      ReadsExtend(data, more, Target(data, at), ls, hops - 1);
    }
  }

  /** The table entry `name -> at` is sound: a label of the packet that reads as `name`,
      with fewer hops than labels. */
  ghost predicate Sound(data: seq<byte>, name: seq<byte>, at: nat) {
    exists ls: seq<Label>, hops: nat ::
      Good(ls) && hops < |ls| && name == Join(ls) && HEADER_SIZE <= at && Reads(data, at, ls, hops)
  }

  /** Every entry for a name of at most `length` characters is sound. */
  ghost predicate SoundUpTo(data: seq<byte>, table: NameTable, length: nat) {
    forall name :: name in table && |name| <= length ==> Sound(data, name, table[name])
  }

  /** The invariant of a packet under construction. */
  ghost predicate SoundTable(data: seq<byte>, table: NameTable) {
    forall name :: name in table ==> Sound(data, name, table[name])
  }

  lemma SoundExtend(data: seq<byte>, more: seq<byte>, name: seq<byte>, at: nat)
    requires Sound(data, name, at)
    ensures Sound(data + more, name, at)
  {
    hide Reads, Good, Join;
    var ls: seq<Label>, hops: nat :|
      Good(ls) && hops < |ls| && name == Join(ls) && HEADER_SIZE <= at && Reads(data, at, ls, hops);
    ReadsExtend(data, more, at, ls, hops);
  }

  lemma SoundTableExtend(data: seq<byte>, more: seq<byte>, table: NameTable)
    requires SoundTable(data, table)
    ensures SoundTable(data + more, table)
  {
    hide Sound;
    forall name | name in table ensures Sound(data + more, name, table[name]) {
      SoundExtend(data, more, name, table[name]);
    }
  }

  lemma ReadsEnd(data: seq<byte>)
    ensures Reads(data + [0], |data|, [], 0)
  {
  }

  lemma ReadsLabel(data: seq<byte>, l: Label, tail: seq<byte>, ls: seq<Label>, hops: nat)
    requires GoodLabel(l) && Reads(data + Wire(l) + tail, |data| + 1 + |l|, ls, hops)
    ensures Reads(data + Wire(l) + tail, |data|, [l] + ls, hops)
  {
    var d := data + Wire(l) + tail;
    assert d[|data|] == |l|;
    assert d[|data| + 1..|data| + 1 + |l|] == l;
    assert ([l] + ls)[1..] == ls;
  }

  lemma ReadsPointer(data: seq<byte>, at: nat, ls: seq<Label>, hops: nat)
    requires HEADER_SIZE <= at < OFFSET_LIMIT && Reads(data, at, ls, hops)
    ensures at < |data| && Reads(data + PointerBytes(at), |data|, ls, hops + 1)
  {
    assert at < |data|;
    ReadsExtend(data, PointerBytes(at), at, ls, hops);
    PointerTarget(data, at);
  }

  lemma PointerTarget(data: seq<byte>, at: nat)
    requires at < OFFSET_LIMIT
    ensures var d := data + PointerBytes(at); d[|data|] >= 0xC0 && Target(d, |data|) == at
  {
  }

  /** How appending one name of `length` characters at `size` may change the table. */
  ghost predicate Grown(table: NameTable, now: NameTable, size: nat, length: nat) {
    && (forall name :: name in table ==> name in now && now[name] == table[name])
    && (forall name :: name in now && name !in table ==> now[name] >= size && |name| <= length)
  }

  lemma {:induction false} AppendGrows(name: seq<byte>, table: NameTable, size: nat, limit: nat)
    ensures var a := Append(name, table, size, limit);
            !a.Rejected? ==> Grown(table, a.table, size, |name|)
    decreases |name|
  {
    hide Unescape, Grown;
    var a := Append(name, table, size, limit);
    if name == [] || Compresses(name, table) {
      GrownRefl(table, size, |name|);
    } else if !a.Rejected? {
      var u := Unescape(name, LABEL_MAX);
      AppendGrows(u.rest, Remember(table, name, size), size + |u.head| + 1, limit);
      GrownStep(table, name, size, a.table, size + |u.head| + 1, |u.rest|);
    }
  }

  lemma GrownRefl(table: NameTable, size: nat, length: nat)
    ensures Grown(table, table, size, length)
  {
  }

  lemma GrownFrom(table: NameTable, now: NameTable, size: nat, earlier: nat, length: nat)
    requires Grown(table, now, size, length) && earlier <= size
    ensures Grown(table, now, earlier, length)
  {
  }

  lemma GrownStep(table: NameTable, name: seq<byte>, size: nat, now: NameTable, later: nat, shorter: nat)
    requires Grown(Remember(table, name, size), now, later, shorter) && size <= later && shorter <= |name|
    ensures Grown(table, now, size, |name|)
  {
  }

  /** The step of AppendReads that follows a pointer. */
  lemma PointerReads(ls: seq<Label>, data: seq<byte>, at: nat) returns (hops: nat)
    requires Good(ls) && Sound(data, Join(ls), at) && at < OFFSET_LIMIT
    ensures hops <= |ls| && Reads(data + PointerBytes(at), |data|, ls, hops)
  {
    hide Reads, Join, PointerBytes, Good, LabelsOf;
    var stored: seq<Label>, h: nat :|
      Good(stored) && h < |stored| && Join(ls) == Join(stored) && HEADER_SIZE <= at && Reads(data, at, stored, h);
    LabelsOfJoin(ls);
    LabelsOfJoin(stored);
    ReadsPointer(data, at, ls, h);
    hops := h + 1;
  }

  /** After the label of `name` is written, the shorter names are still sound. */
  lemma LabelKeepsShorter(data: seq<byte>, table: NameTable, name: seq<byte>, wire: seq<byte>, shorter: nat)
    requires SoundUpTo(data, table, |name|) && shorter < |name|
    ensures SoundUpTo(data + wire, Remember(table, name, |data|), shorter)
  {
    hide Sound;
    forall n | n in table && |n| <= shorter ensures Sound(data + wire, n, table[n]) {
      SoundExtend(data, wire, n, table[n]);
    }
  }

  /** Once the whole name is written, so is the name itself. */
  lemma LabelSound(data: seq<byte>, table: NameTable, ls: seq<Label>, hops: nat, bytes: seq<byte>, now: NameTable, shorter: nat)
    requires Good(ls) && hops < |ls| && HEADER_SIZE <= |data| && shorter < |Join(ls)|
    requires SoundUpTo(data, table, |Join(ls)|)
    requires Reads(data + bytes, |data|, ls, hops)
    requires SoundUpTo(data + bytes, now, shorter)
    requires Grown(Remember(table, Join(ls), |data|), now, |data|, shorter)
    ensures SoundUpTo(data + bytes, now, |Join(ls)|)
  {
    hide Reads, Join, Good;
    forall n | n in now && shorter < |n| <= |Join(ls)| ensures Sound(data + bytes, n, now[n]) {
      if n in table {
        SoundExtend(data, bytes, n, table[n]);
      }
    }
  }

  /** Appending a name makes the packet read as that name at the old end, with at most one
      pointer a label, and keeps the table sound for every name it could extend. */
  lemma {:induction false} AppendReads(ls: seq<Label>, data: seq<byte>, table: NameTable, limit: nat) returns (hops: nat)
    requires Good(ls) && HEADER_SIZE <= |data|
    requires SoundUpTo(data, table, |Join(ls)|)
    requires Append(Join(ls), table, |data|, limit).Done?
    ensures var a := Append(Join(ls), table, |data|, limit);
            && hops <= |ls| && Reads(data + a.bytes, |data|, ls, hops)
            && SoundUpTo(data + a.bytes, a.table, |Join(ls)|)
    decreases |ls|
  {
    hide Reads, Join, Good, Unescape, Sound, LabelsOf;
    var name := Join(ls);
    var a := Append(name, table, |data|, limit);
    if ls == [] {
      hops := 0;
      EmptyReads(data, table, limit);
    } else if Compresses(name, table) {
      JoinText(ls);
      hops := PointerReads(ls, data, table[name]);
      SoundUpToExtend(data, a.bytes, table, |name|);
    } else {
      hops := LabelReads(ls, data, table, limit);
    }
  }

  lemma EmptyReads(data: seq<byte>, table: NameTable, limit: nat)
    requires SoundUpTo(data, table, 0) && |data| < limit
    ensures Append(Join([]), table, |data|, limit) == Done([0], table)
    ensures Reads(data + [0], |data|, [], 0) && SoundUpTo(data + [0], table, |Join([])|)
  {
    hide Sound;
    SoundUpToExtend(data, [0], table, 0);
  }

  lemma SoundUpToExtend(data: seq<byte>, more: seq<byte>, table: NameTable, length: nat)
    requires SoundUpTo(data, table, length)
    ensures SoundUpTo(data + more, table, length)
  {
    hide Sound;
    forall n | n in table && |n| <= length ensures Sound(data + more, n, table[n]) {
      SoundExtend(data, more, n, table[n]);
    }
  }

  lemma {:induction false} LabelReads(ls: seq<Label>, data: seq<byte>, table: NameTable, limit: nat) returns (hops: nat)
    requires Good(ls) && HEADER_SIZE <= |data| && ls != []
    requires SoundUpTo(data, table, |Join(ls)|) && !Compresses(Join(ls), table)
    requires Append(Join(ls), table, |data|, limit).Done?
    ensures var a := Append(Join(ls), table, |data|, limit);
            && hops <= |ls| && Reads(data + a.bytes, |data|, ls, hops)
            && SoundUpTo(data + a.bytes, a.table, |Join(ls)|)
    decreases |ls|, 0
  {
    hide *;
    LabelParts(ls, table, |data|, limit);
    var l, rest, name := ls[0], Join(ls[1..]), Join(ls);
    var w, now := Wire(l), Remember(table, name, |data|);
    LabelKeepsShorter(data, table, name, w, |rest|);
    assert |data + w| == |data| + 1 + |l|;
    hops := AppendReads(ls[1..], data + w, now, limit);
    var inner := Append(rest, now, |data + w|, limit);
    AppendGrows(rest, now, |data + w|, limit);
    GrownFrom(now, inner.table, |data + w|, |data|, |rest|);
    assert data + w + inner.bytes == data + (w + inner.bytes);
    assert [l] + ls[1..] == ls;
    ReadsLabel(data, l, inner.bytes, ls[1..], hops);
    LabelSound(data, table, ls, hops, w + inner.bytes, inner.table, |rest|);
  }

  /** Appending a name of which nothing is known: its first label, and then the rest. */
  lemma LabelParts(ls: seq<Label>, table: NameTable, size: nat, limit: nat)
    requires Good(ls) && ls != [] && !Compresses(Join(ls), table) && Append(Join(ls), table, size, limit).Done?
    ensures GoodLabel(ls[0]) && Good(ls[1..]) && |ls[0]| < LABEL_MAX
    ensures |Wire(ls[0])| == 1 + |ls[0]| && |Join(ls[1..])| < |Join(ls)|
    ensures var a, inner := Append(Join(ls), table, size, limit), Append(Join(ls[1..]), Remember(table, Join(ls), size), size + 1 + |ls[0]|, limit);
            inner.Done? && a.bytes == Wire(ls[0]) + inner.bytes && a.table == inner.table
  {
    hide Join, Unescape, LabelsOf, GoodLabel, Remember;
    JoinSplit(ls);
    JoinText(ls);
    WireLength(ls[0]);
  }

  lemma WireLength(l: Label)
    requires GoodLabel(l)
    ensures |Wire(l)| == |l| + 1
  {
  }
}
