/** How far the 63-label condition of the round trip reaches: a packet that already holds
    every proper suffix of a longer name, each appended by the same code, is a packet the
    decoder gives up on. */
module NameChain {
  import opened Bytes
  import opened Labels
  import opened NameCodec
  import opened NameDecoder
  import opened NameRollback

  /** Large enough for every chain below, and every offset is still a legal pointer. */
  const CHAIN_LIMIT: nat := 0x4000

  /** The packet after appending the suffixes of `ls`, shortest first: its bytes, its table
      and where the last name starts. */
  function Chain(ls: seq<Label>): (seq<byte>, NameTable, nat) {
    if ls == [] then
      (seq(HEADER_SIZE, _ => 0), map[], HEADER_SIZE)
    else
      var (data, table, _) := Chain(ls[1..]);
      match Append(Join(ls), table, |data|, CHAIN_LIMIT)
      case Done(bytes, now) => (data + bytes, now, |data|)
      case _ => (data, table, |data|)
  }

  /** The state of the chain: its last name is in the table and reads with one hop a label,
      and no name in the table is longer. */
  ghost predicate Linked(ls: seq<Label>, data: seq<byte>, table: NameTable, at: nat) {
    && HEADER_SIZE <= |data| <= HEADER_SIZE + 66 * |ls|
    && (forall n :: n in table ==> |n| <= |Join(ls)|)
    && (ls == [] ==> table == map[])
    && (ls != [] ==> Join(ls) in table && table[Join(ls)] == at && HEADER_SIZE <= at < |data|
                     && Reads(data, at, ls, |ls| - 1))
  }

  lemma JoinGrows(ls: seq<Label>)
    requires Good(ls) && ls != []
    ensures |Join(ls[1..])| < |Join(ls)|
  {
    JoinSplit(ls);
    JoinText(ls);
  }

  /** One label and then a pointer to the shorter name, or a NUL when there is none. */
  lemma {:induction false} AppendLinked(ls: seq<Label>, data: seq<byte>, table: NameTable, at: nat)
    requires Good(ls) && ls != [] && |ls| <= LABELS_MAX && Linked(ls[1..], data, table, at)
    ensures var tail := if |ls| == 1 then [0] else PointerBytes(at % OFFSET_LIMIT);
            Append(Join(ls), table, |data|, CHAIN_LIMIT) == Done(Wire(ls[0]) + tail, table[Join(ls) := |data|])
  {
    hide Join, Unescape, LabelsOf, GoodLabel, Reads, PointerBytes;
    var rest := Join(ls[1..]);
    JoinSplit(ls);
    JoinText(ls);
    JoinGrows(ls);
    GoodLabelSize(ls[0]);
    assert Join(ls) !in table;
    var now := table[Join(ls) := |data|];
    assert Remember(table, Join(ls), |data|) == now;
    assert Append(Join(ls), table, |data|, CHAIN_LIMIT)
        == After(Wire(ls[0]), Append(rest, now, |data| + |ls[0]| + 1, CHAIN_LIMIT));
    if |ls| == 1 {
      assert ls[1..] == [];
      EmptyJoin();
    } else {
      JoinText(ls[1..]);
      assert rest in now && now[rest] == at;
    }
  }

  lemma LinkedStep(ls: seq<Label>, data: seq<byte>, table: NameTable, at: nat)
    requires Good(ls) && ls != [] && |ls| <= LABELS_MAX && Linked(ls[1..], data, table, at)
    ensures var a := Append(Join(ls), table, |data|, CHAIN_LIMIT);
            a.Done? && Linked(ls, data + a.bytes, a.table, |data|)
  {
    hide *;
    AppendLinked(ls, data, table, at);
    JoinGrows(ls);
    FirstGood(ls);
    var tail := LinkReads(ls, data, table, at);
    LinkedAgain(ls, data, table, at, Wire(ls[0]) + tail);
  }

  lemma FirstGood(ls: seq<Label>)
    requires Good(ls) && ls != []
    ensures GoodLabel(ls[0]) && 0 < |ls[0]| < LABEL_MAX && |Wire(ls[0])| == 1 + |ls[0]| <= 64
  {
    WireLength(ls[0]);
    GoodLabelSize(ls[0]);
  }

  /** The label and the tail behind it read as the longer name, with a hop more. */
  lemma LinkReads(ls: seq<Label>, data: seq<byte>, table: NameTable, at: nat) returns (tail: seq<byte>)
    requires Good(ls) && ls != [] && |ls| <= LABELS_MAX && Linked(ls[1..], data, table, at) && |ls[0]| < LABEL_MAX
    ensures tail == (if |ls| == 1 then [0] else PointerBytes(at % OFFSET_LIMIT)) && |tail| <= 2 && |Wire(ls[0]) + tail| <= 66
    ensures Reads(data + (Wire(ls[0]) + tail), |data|, ls, |ls| - 1)
  {
    hide Join, Reads, GoodLabel, Wire, PointerBytes;
    FirstGood(ls);
    var w := Wire(ls[0]);
    assert [ls[0]] + ls[1..] == ls;
    if |ls| == 1 {
      tail := [0];
      ReadsEnd(data + w);
      assert data + w + tail == data + (w + tail);
      ReadsLabel(data, ls[0], tail, [], 0);
    } else {
      tail := PointerBytes(at);
      PointerLength(at);
      LinkReadsOn(ls, data, at);
    }
  }

  lemma LinkReadsOn(ls: seq<Label>, data: seq<byte>, at: nat)
    requires Good(ls) && 1 < |ls| <= LABELS_MAX && |ls[0]| < LABEL_MAX
    requires HEADER_SIZE <= at < |data| && at < OFFSET_LIMIT && Reads(data, at, ls[1..], |ls| - 2)
    ensures Reads(data + (Wire(ls[0]) + PointerBytes(at)), |data|, ls, |ls| - 1)
  {
    hide *;
    var w, tail := Wire(ls[0]), PointerBytes(at);
    FirstGood(ls);
    assert [ls[0]] + ls[1..] == ls;
    assert data + w + tail == data + (w + tail);
    ReadsExtend(data, w, at, ls[1..], |ls| - 2);
    ReadsPointer(data + w, at, ls[1..], |ls| - 2);
    ReadsLabel(data, ls[0], tail, ls[1..], |ls| - 1);
  }

  lemma LinkedAgain(ls: seq<Label>, data: seq<byte>, table: NameTable, at: nat, bytes: seq<byte>)
    requires ls != [] && Linked(ls[1..], data, table, at) && |Join(ls[1..])| < |Join(ls)| && 0 < |bytes| <= 66
    requires Reads(data + bytes, |data|, ls, |ls| - 1)
    ensures Linked(ls, data + bytes, table[Join(ls) := |data|], |data|)
  {
    hide Join, Reads;
  }

  lemma PointerLength(at: nat)
    requires at < OFFSET_LIMIT
    ensures |PointerBytes(at)| == 2
  {
  }

  lemma {:induction false} ChainLinked(ls: seq<Label>)
    requires Good(ls) && |ls| <= LABELS_MAX
    ensures var (data, table, at) := Chain(ls); Linked(ls, data, table, at)
  {
    hide Append, Reads;
    if ls != [] {
      ChainLinked(ls[1..]);
      var (data, table, at) := Chain(ls[1..]);
      hide Linked;
      LinkedStep(ls, data, table, at);
    }
  }

  /** Every name of 64 to 127 labels can be appended so that the decoder rejects it: the
      bound of 63 labels in NameRoundTrip cannot be raised. */
  lemma LongNameRejected(ls: seq<Label>, later: seq<byte>, room: nat)
    requires Good(ls) && 64 <= |ls| <= LABELS_MAX
    ensures var (data, table, at) := Chain(ls[1..]);
            var a := Append(Join(ls), table, |data|, CHAIN_LIMIT);
            && a.Done?
            && Reads(data + a.bytes, |data|, ls, |ls| - 1)
            && Decode(data + a.bytes + later, |data|, LABELS_MAX, room, true) == None
  {
    hide Append, Reads, Join, Decode, Chain;
    ChainLinked(ls[1..]);
    var (data, table, at) := Chain(ls[1..]);
    LinkedStep(ls, data, table, at);
    var a := Append(Join(ls), table, |data|, CHAIN_LIMIT);
    ReadsExtend(data + a.bytes, later, |data|, ls, |ls| - 1);
    DecodeReads(data + a.bytes + later, |data|, ls, |ls| - 1, LABELS_MAX, room, true);
  }

  /** A name of 127 labels or more is rejected wherever it stands. */
  lemma VeryLongNameRejected(ls: seq<Label>, data: seq<byte>, table: NameTable, limit: nat, later: seq<byte>, room: nat)
    requires Good(ls) && |ls| >= LABELS_MAX && HEADER_SIZE <= |data| && SoundTable(data, table)
    requires Append(Join(ls), table, |data|, limit).Done?
    ensures Decode(data + Append(Join(ls), table, |data|, limit).bytes + later, |data|, LABELS_MAX, room, true) == None
  {
    hide *;
    var hops := NameRoundTrip(ls, data, table, limit, later, room);
    LabelsBound();
  }

  lemma LabelsBound()
    ensures LABELS_MAX == 127
  {
  }

  /** And it can be written: a new packet takes any name whose labels it has room for. */
  lemma {:induction false} LongNameWritten(ls: seq<Label>, limit: nat)
    requires Good(ls) && HEADER_SIZE + WireSize(ls) + 1 <= limit
    ensures Append(Join(ls), map[], HEADER_SIZE, limit).Done?
    ensures SoundTable(seq(HEADER_SIZE, _ => 0), map[])
  {
    hide Append, Join, GoodLabel, WireSize;
    NothingKnown(ls);
    AppendShape(ls, map[], HEADER_SIZE, limit);
    assert ls[..|ls|] == ls;
  }

  lemma {:induction false} NothingKnown(ls: seq<Label>)
    ensures FirstKnown(ls, map[]) == |ls|
  {
    hide Join;
    if ls != [] {
      NothingKnown(ls[1..]);
    }
  }
}
