/** Reading a compressed name back (consume_labels in avahi-core/dns.c), and the round trip
    through compression. */
module NameDecoder {
  import opened Bytes
  import opened Labels
  import opened NameCodec

  /** What the decoder writes for `ls`: a dot goes before every label but the first. */
  function Spelling(ls: seq<Label>, first: bool): seq<byte> {
    if ls == [] then []
    else if first then Join(ls)
    else [DOT] + Join(ls)
  }

  /** consume_labels: at most `steps` labels and pointers, into `room` bytes. */
  function Decode(data: seq<byte>, at: nat, steps: nat, room: nat, first: bool): Option<seq<byte>>
    decreases steps
  {
    if steps == 0 || at >= |data| then None
    else if data[at] == 0 then
      if room < 1 then None else Some([])
    else if data[at] < LABEL_MAX then
      if at + 1 + data[at] > |data| || data[at] + 1 > room then None else
      var text := (if first then [] else [DOT]) + Escape(data[at + 1..at + 1 + data[at]]);
      if |text| + 1 > room then None else
      match Decode(data, at + 1 + data[at], steps - 1, room - |text|, false)
      case None => None
      case Some(more) => Some(text + more)
    else if data[at] < 0xC0 || at + 2 > |data| then None
    else if HEADER_SIZE <= Target(data, at) < at then
      Decode(data, Target(data, at), steps - 1, room, first)
    else None
  }

  /** Bytes of the name in place at `at`, up to its end or its first pointer. */
  function Extent(data: seq<byte>, at: nat): nat
    decreases if at < |data| then |data| - at else 0
  {
    if at >= |data| then 0
    else if data[at] == 0 then 1
    else if data[at] < LABEL_MAX then 1 + data[at] + Extent(data, at + 1 + data[at])
    else 2
  }

  lemma SpellingStep(ls: seq<Label>, first: bool)
    requires ls != []
    ensures Spelling(ls, first) == (if first then [] else [DOT]) + Escape(ls[0]) + Spelling(ls[1..], false)
  {
    hide Escape;
    var e := Escape(ls[0]);
    if |ls| == 1 {
      assert Join(ls) == e && Spelling(ls[1..], false) == [];
      Padded(e);
    } else {
      assert Join(ls) == e + [DOT] + Join(ls[1..]);
      Dotted(e, Join(ls[1..]));
    }
  }

  lemma Padded(e: seq<byte>)
    ensures [] + e + [] == e && [DOT] + e + [] == [DOT] + e
  {
  }

  lemma Dotted(e: seq<byte>, m: seq<byte>)
    ensures e + [DOT] + m == [] + e + ([DOT] + m)
    ensures [DOT] + (e + [DOT] + m) == [DOT] + e + ([DOT] + m)
  {
  }

  /** Where the bytes read as `ls`, decoding gives exactly its presentation form, or fails
      exactly when the step bound or the room is too small. */
  lemma {:induction false} DecodeReads(data: seq<byte>, at: nat, ls: seq<Label>, hops: nat, steps: nat, room: nat, first: bool)
    requires Reads(data, at, ls, hops)
    ensures Decode(data, at, steps, room, first)
         == if |ls| + hops < steps && |Spelling(ls, first)| < room then Some(Spelling(ls, first)) else None
    decreases steps
  {
    hide Reads, Spelling, Escape, Target;
    if steps == 0 {
    } else {
      ReadsCases(data, at, ls, hops);
      if data[at] == 0 {
        EmptySpelling(first);
      } else if data[at] < LABEL_MAX {
        DecodeReads(data, at + 1 + data[at], ls[1..], hops, steps - 1, Remaining(ls, room, first), false);
        DecodeLabel(data, at, ls, steps, room, first);
      } else {
        DecodeReads(data, Target(data, at), ls, hops - 1, steps - 1, room, first);
      }
    }
  }

  /** The converse: whatever the decoder accepts is a list of labels the bytes spell. */
  lemma {:induction false} DecodeSound(data: seq<byte>, at: nat, steps: nat, room: nat, first: bool)
    returns (ls: seq<Label>, hops: nat)
    requires Decode(data, at, steps, room, first).Some?
    ensures Reads(data, at, ls, hops) && |ls| + hops < steps
    ensures Decode(data, at, steps, room, first) == Some(Spelling(ls, first))
    ensures forall i :: 0 <= i < |ls| ==> 1 <= |ls[i]| < LABEL_MAX
    decreases steps
  {
    hide Spelling, Escape, Target;
    if data[at] == 0 {
      ls, hops := [], 0;
      EmptySpelling(first);
    } else if data[at] < LABEL_MAX {
      var l := data[at + 1..at + 1 + data[at]];
      var more: seq<Label>;
      more, hops := DecodeSound(data, at + 1 + data[at], steps - 1, room - |(if first then [] else [DOT]) + Escape(l)|, false);
      ls := [l] + more;
      assert ls[1..] == more;
      SpellingStep(ls, first);
    } else {
      ls, hops := DecodeSound(data, Target(data, at), steps - 1, room, first);
      hops := hops + 1;
    }
  }

  /** Room left after the first label of `ls` is written. */
  function Remaining(ls: seq<Label>, room: nat, first: bool): nat
    requires ls != []
  {
    var used := (if first then 0 else 1) + |Escape(ls[0])|;
    if used <= room then room - used else 0
  }

  lemma EmptySpelling(first: bool)
    ensures Spelling([], first) == []
  {
  }

  lemma ReadsCases(data: seq<byte>, at: nat, ls: seq<Label>, hops: nat)
    requires Reads(data, at, ls, hops)
    ensures at < |data|
    ensures data[at] == 0 ==> ls == [] && hops == 0
    ensures 0 < data[at] < LABEL_MAX ==>
              && ls != [] && at + 1 + data[at] <= |data|
              && ls[0] == data[at + 1..at + 1 + data[at]]
              && Reads(data, at + 1 + data[at], ls[1..], hops)
    ensures data[at] >= LABEL_MAX ==>
              && data[at] >= 0xC0 && hops > 0 && at + 2 <= |data|
              && HEADER_SIZE <= Target(data, at) < at
              && Reads(data, Target(data, at), ls, hops - 1)
  {
  }

  /** The label step of DecodeReads. */
  lemma DecodeLabel(data: seq<byte>, at: nat, ls: seq<Label>, steps: nat, room: nat, first: bool)
    requires at < |data| && 0 < data[at] < LABEL_MAX && steps > 0
    requires ls != [] && at + 1 + data[at] <= |data| && ls[0] == data[at + 1..at + 1 + data[at]]
    ensures var rest := Decode(data, at + 1 + data[at], steps - 1, Remaining(ls, room, first), false);
            var total := Spelling(ls, first);
            var head := (if first then [] else [DOT]) + Escape(ls[0]);
            && total == head + Spelling(ls[1..], false)
            && Decode(data, at, steps, room, first)
               == if |head| + 1 > room || rest.None? then None else Some(head + rest.value)
  {
    hide Spelling, Target;
    SpellingStep(ls, first);
  }

  /** The cases of an append that succeeds. */
  lemma AppendCases(ls: seq<Label>, table: NameTable, size: nat, limit: nat)
    requires Good(ls) && Append(Join(ls), table, size, limit).Done?
    ensures var a := Append(Join(ls), table, size, limit);
            if ls == [] then a.bytes == [0]
            else if Compresses(Join(ls), table) then |a.bytes| == 2 && a.bytes[0] >= 0xC0
            else
              && 0 < |ls[0]| < LABEL_MAX && GoodLabel(ls[0]) && Good(ls[1..])
              && var inner := Append(Join(ls[1..]), Remember(table, Join(ls), size), size + 1 + |ls[0]|, limit);
                 inner.Done? && a.bytes == Wire(ls[0]) + inner.bytes
  {
    hide Join, Unescape, LabelsOf, GoodLabel, Remember;
    if ls == [] {
      EmptyJoin();
    } else {
      JoinText(ls);
      JoinSplit(ls);
      GoodLabelSize(ls[0]);
    }
  }

  /** The extent of an appended name is what was appended. */
  lemma {:induction false} ExtentAppend(ls: seq<Label>, data: seq<byte>, table: NameTable, limit: nat, later: seq<byte>)
    requires Good(ls) && Append(Join(ls), table, |data|, limit).Done?
    ensures Extent(data + Append(Join(ls), table, |data|, limit).bytes + later, |data|)
         == |Append(Join(ls), table, |data|, limit).bytes|
    decreases |ls|
  {
    hide *;
    AppendCases(ls, table, |data|, limit);
    var bytes := Append(Join(ls), table, |data|, limit).bytes;
    if ls == [] || Compresses(Join(ls), table) {
      ExtentEnd(data, bytes, later);
    } else {
      var w, now := Wire(ls[0]), Remember(table, Join(ls), |data|);
      WireLength(ls[0]);
      assert |data + w| == |data| + 1 + |ls[0]|;
      ExtentAppend(ls[1..], data + w, now, limit, later);
      var inner := Append(Join(ls[1..]), now, |data + w|, limit).bytes;
      ExtentBehind(data, ls[0], inner + later);
      Regrouped(data, w, inner, later);
    }
  }

  lemma Regrouped(a: seq<byte>, b: seq<byte>, c: seq<byte>, d: seq<byte>)
    ensures a + (b + c) + d == a + b + c + d == a + b + (c + d)
  {
  }

  lemma ExtentEnd(data: seq<byte>, bytes: seq<byte>, later: seq<byte>)
    requires bytes == [0] || (|bytes| == 2 && bytes[0] >= 0xC0)
    ensures Extent(data + bytes + later, |data|) == |bytes|
  {
    hide Extent;
    var d := data + bytes + later;
    assert d[|data|] == bytes[0];
    ExtentStep(d, |data|);
  }

  lemma ExtentBehind(data: seq<byte>, l: Label, rest: seq<byte>)
    requires 0 < |l| < LABEL_MAX
    ensures Extent(data + Wire(l) + rest, |data|) == 1 + |l| + Extent(data + Wire(l) + rest, |data + Wire(l)|)
  {
    hide Extent;
    ExtentStep(data + Wire(l) + rest, |data|);
  }

  lemma ExtentStep(d: seq<byte>, at: nat)
    requires at < |d|
    ensures Extent(d, at) == if d[at] == 0 then 1
                             else if d[at] < LABEL_MAX then 1 + d[at] + Extent(d, at + 1 + d[at])
                             else 2
  {
  }

  lemma EmptyJoin()
    ensures Join([]) == []
  {
  }

  lemma GoodLabelSize(l: Label)
    requires GoodLabel(l)
    ensures 0 < |l| < LABEL_MAX
  {
  }

  lemma SoundTableUpTo(data: seq<byte>, table: NameTable, length: nat)
    requires SoundTable(data, table)
    ensures SoundUpTo(data, table, length)
  {
    hide Sound;
  }

  /** A completed append keeps the packet's invariant. */
  lemma AppendSoundTable(ls: seq<Label>, data: seq<byte>, table: NameTable, limit: nat) returns (hops: nat)
    requires Good(ls) && HEADER_SIZE <= |data| && SoundTable(data, table)
    requires Append(Join(ls), table, |data|, limit).Done?
    ensures var a := Append(Join(ls), table, |data|, limit);
            && SoundTable(data + a.bytes, a.table)
            && hops <= |ls| && Reads(data + a.bytes, |data|, ls, hops)
  {
    hide Sound, Join, Reads, Append, Good;
    var a := Append(Join(ls), table, |data|, limit);
    SoundTableUpTo(data, table, |Join(ls)|);
    hops := AppendReads(ls, data, table, limit);
    AppendGrows(Join(ls), table, |data|, limit);
    forall n | n in a.table && |n| > |Join(ls)| ensures Sound(data + a.bytes, n, a.table[n]) {
      SoundExtend(data, a.bytes, n, table[n]);
    }
  }

  /** The round trip: whatever sound packet a name is appended to and whatever follows it,
      the decoder gives the name back exactly when its labels and the pointers it goes
      through stay under the step bound and the text fits; it then stands right behind
      the appended bytes. Names of at most 63 labels always stay under the bound. */
  lemma NameRoundTrip(ls: seq<Label>, data: seq<byte>, table: NameTable, limit: nat, later: seq<byte>, room: nat) returns (hops: nat)
    requires Good(ls) && HEADER_SIZE <= |data| && SoundTable(data, table)
    requires Append(Join(ls), table, |data|, limit).Done?
    ensures var bytes := Append(Join(ls), table, |data|, limit).bytes;
            && hops <= |ls| && Reads(data + bytes, |data|, ls, hops)
            && Extent(data + bytes + later, |data|) == |bytes|
            && Decode(data + bytes + later, |data|, LABELS_MAX, room, true)
               == if |ls| + hops < LABELS_MAX && |Join(ls)| < room then Some(Join(ls)) else None
    ensures |ls| <= 63 && |Join(ls)| < room ==>
              Decode(data + Append(Join(ls), table, |data|, limit).bytes + later, |data|, LABELS_MAX, room, true) == Some(Join(ls))
  {
    hide Join, Reads, Append, Good, Decode, Extent, SoundTable;
    var bytes := Append(Join(ls), table, |data|, limit).bytes;
    hops := AppendSoundTable(ls, data, table, limit);
    ReadsExtend(data + bytes, later, |data|, ls, hops);
    DecodeReads(data + bytes + later, |data|, ls, hops, LABELS_MAX, room, true);
    ExtentAppend(ls, data, table, limit, later);
    assert Spelling(ls, true) == Join(ls) by { EmptyJoin(); }
  }
}
