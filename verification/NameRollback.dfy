/** What a failed append leaves behind, and why resetting the size and sweeping the table
    (avahi_dns_packet_cleanup_name_table) undoes it. */
module NameRollback {
  import opened Bytes
  import opened Labels
  import opened NameCodec
  import opened NameDecoder

  /** The sweep: drop every entry that points at or behind the new end. */
  function Swept(table: NameTable, size: nat): NameTable {
    map name | name in table && table[name] < size :: table[name]
  }

  /** Nothing was dropped from the table or changed in it since the packet had `size` bytes. */
  ghost predicate Kept(table: NameTable, now: NameTable, size: nat) {
    && (forall name :: name in table ==> name in now && now[name] == table[name])
    && (forall name :: name in now && name !in table ==> now[name] >= size)
  }

  /** Resetting the size to `size` and sweeping undoes any growth that started there. */
  lemma SweepUndoes(table: NameTable, now: NameTable, size: nat)
    requires Kept(table, now, size)
    requires forall name :: name in table ==> table[name] < size
    ensures Swept(now, size) == table
  {
  }

  lemma KeptTrans(table: NameTable, mid: NameTable, now: NameTable, size: nat, later: nat)
    requires Kept(table, mid, size) && Kept(mid, now, later) && size <= later
    ensures Kept(table, now, size)
  {
  }

  /** In a sound packet every entry points into the packet. */
  lemma SoundInside(data: seq<byte>, table: NameTable)
    requires SoundTable(data, table)
    ensures forall name :: name in table ==> HEADER_SIZE <= table[name] < |data|
  {
    hide Reads, Join, Good;
    forall name | name in table ensures HEADER_SIZE <= table[name] < |data| {
      assert Sound(data, name, table[name]);
      var ls: seq<Label>, hops: nat :|
        Good(ls) && hops < |ls| && name == Join(ls) && HEADER_SIZE <= table[name] && Reads(data, table[name], ls, hops);
      ReadsCases(data, table[name], ls, hops);
    }
  }

  /** Labels written in full before the first suffix the table can stand in for. */
  function FirstKnown(ls: seq<Label>, table: NameTable): (j: nat)
    ensures j <= |ls|
  {
    if ls == [] || Compresses(Join(ls), table) then 0 else 1 + FirstKnown(ls[1..], table)
  }

  function WireSize(ls: seq<Label>): nat {
    if ls == [] then 0 else |ls[0]| + 1 + WireSize(ls[1..])
  }

  lemma {:induction false} FirstKnownIgnores(ls: seq<Label>, table: NameTable, name: seq<byte>, size: nat)
    requires Good(ls) && |Join(ls)| < |name|
    ensures FirstKnown(ls, Remember(table, name, size)) == FirstKnown(ls, table)
  {
    hide Join, GoodLabel;
    if ls != [] {
      JoinShrinks(ls);
      FirstKnownIgnores(ls[1..], table, name, size);
    }
  }

  lemma JoinShrinks(ls: seq<Label>)
    requires Good(ls) && ls != []
    ensures |Join(ls[1..])| < |Join(ls)|
  {
    JoinSplit(ls);
    JoinText(ls);
  }

  /** The outcome of an append, read off the sizes alone: `j` labels are written in full and
      then a pointer or the final NUL. */
  ghost predicate Shape(ls: seq<Label>, table: NameTable, size: nat, limit: nat, a: Appended) {
    var j := FirstKnown(ls, table);
    var written := size + WireSize(ls[..j]);
    if j == |ls| then
      if written + 1 <= limit then a.Done? && size + |a.bytes| == written + 1 else a.Rejected?
    else if written > limit then a.Rejected?
    else if written + 2 > limit then a.Stuck? && size + |a.bytes| == written
    else a.Done? && size + |a.bytes| == written + 2
  }

  lemma {:induction false} AppendShape(ls: seq<Label>, table: NameTable, size: nat, limit: nat)
    requires Good(ls) && size <= limit
    ensures Shape(ls, table, size, limit, Append(Join(ls), table, size, limit))
    decreases |ls|
  {
    hide Join, GoodLabel, Unescape, LabelsOf, Remember;
    var name := Join(ls);
    if ls == [] {
      EmptyJoin();
    } else if Compresses(name, table) {
      JoinText(ls);
      assert ls[..0] == [];
    } else {
      JoinText(ls);
      JoinSplit(ls);
      JoinShrinks(ls);
      GoodLabelSize(ls[0]);
      var l, rest, now := ls[0], ls[1..], Remember(table, name, size);
      FirstKnownIgnores(rest, table, name, size);
      var j := FirstKnown(rest, table);
      assert ls[..j + 1][1..] == rest[..j];
      if size + |l| + 1 <= limit {
        AppendShape(rest, now, size + |l| + 1, limit);
        ShapeStep(ls, table, now, size, limit, Append(Join(rest), now, size + |l| + 1, limit));
      } else {
        ShapeNoRoom(ls, table, size, limit);
      }
    }
  }

  lemma ShapeStep(ls: seq<Label>, table: NameTable, now: NameTable, size: nat, limit: nat, a: Appended)
    requires ls != [] && |ls[0]| < LABEL_MAX && !Compresses(Join(ls), table)
    requires FirstKnown(ls[1..], now) == FirstKnown(ls[1..], table)
    requires Shape(ls[1..], now, size + |ls[0]| + 1, limit, a)
    ensures Shape(ls, table, size, limit, After(Wire(ls[0]), a))
  {
    hide Join;
    var j := FirstKnown(ls[1..], table);
    assert ls[..j + 1][1..] == ls[1..][..j];
  }

  lemma ShapeNoRoom(ls: seq<Label>, table: NameTable, size: nat, limit: nat)
    requires ls != [] && !Compresses(Join(ls), table) && size + |ls[0]| + 1 > limit
    ensures Shape(ls, table, size, limit, Rejected)
  {
    hide Join;
    var j := FirstKnown(ls[1..], table);
    assert ls[..j + 1][0] == ls[0];
  }

  /** Size of the packet when avahi_dns_packet_append_name returns. */
  function SizeAfter(size: nat, a: Appended): nat {
    if a.Rejected? then size else size + |a.bytes|
  }

  /** append_name alone is not a rollback: a failed call leaves the packet longer exactly when
      at least one label was written in full and the pointer behind it does not fit. */
  lemma FailedNameRestores(ls: seq<Label>, table: NameTable, size: nat, limit: nat)
    requires Good(ls) && size <= limit && !Append(Join(ls), table, size, limit).Done?
    ensures var a, j := Append(Join(ls), table, size, limit), FirstKnown(ls, table);
            var written := size + WireSize(ls[..j]);
            SizeAfter(size, a) != size <==> j < |ls| && size < written <= limit < written + 2
  {
    hide Join, Append, GoodLabel, FirstKnown, WireSize;
    AppendShape(ls, table, size, limit);
  }

  /** A packet on which append_name fails and keeps what it wrote: "b" is known, and "a.b"
      fits up to the pointer. */
  lemma FailedNameKeepsBytes()
    ensures var a, b: Label := [97], [98];
            var table: NameTable := map[Join([b]) := HEADER_SIZE];
            var size := HEADER_SIZE + 3;
            var r := Append(Join([a, b]), table, size, size + 3);
            !r.Done? && SizeAfter(size, r) == size + 2
  {
    var a, b: Label := [97], [98];
    var ls := [a, b];
    var table: NameTable := map[Join([b]) := HEADER_SIZE];
    assert GoodLabel(a) && GoodLabel(b);
    assert ls[1..] == [b];
    JoinShrinks(ls);
    assert FirstKnown([b], table) == 0;
    assert FirstKnown(ls, table) == 1;
    assert ls[..1] == [a];
    assert WireSize([a]) == 2;
    AppendShape(ls, table, HEADER_SIZE + 3, HEADER_SIZE + 6);
  }
}
