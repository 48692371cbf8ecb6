/** The record list and the legacy unicast response (avahi-core/rrlist.c, avahi-core/server.c): a
    worklist that grows while it is emptied. The registered entries of the server are a value, in
    the order of its lists. */
module LegacyResponses {
  import opened Bytes
  import opened Records
  import opened RecordIdent
  import opened RecordSession

  datatype Item = Item(record: Record, flush: bool, unicast: bool, auxiliary: bool)

  /** An entry that is registered on the interface. */
  datatype Published = Published(record: Record, unique: bool)

  function Id(i: Item): Ident {
    IdentOf(i.record)
  }

  ghost function Ids(l: seq<Item>): set<Ident> {
    set k | 0 <= k < |l| :: Id(l[k])
  }

  ghost predicate Distinct(l: seq<Item>) {
    forall j, k :: 0 <= j < k < |l| ==> Id(l[j]) != Id(l[k])
  }

  /** The cache-flush bit is set on every item. */
  ghost predicate AllFlush(l: seq<Item>) {
    forall k :: 0 <= k < |l| ==> l[k].flush
  }

  class RecordList {
    var read: seq<Item>
    var unread: seq<Item>
    var allFlush: bool

    /** Both lists together hold every record once, whatever its TTL and letter case, and the flag
        says whether all of them are to flush caches. */
    ghost predicate Valid()
      reads this
    {
      Distinct(read + unread) && (allFlush <==> AllFlush(read + unread))
    }

    ghost function Known(): set<Ident>
      reads this
    {
      Ids(read + unread)
    }

    constructor ()
      ensures Valid() && read == [] && unread == [] && allFlush
    {
      read, unread, allFlush := [], [], true;
    }

    /** avahi_record_list_next. */
    method Next() returns (i: Option<Item>)
      requires Valid()
      modifies this`read, this`unread
      ensures Valid() && Known() == old(Known())
      ensures old(unread) == [] ==> i == None && read == old(read) && unread == []
      ensures old(unread) != [] ==> i == Some(old(unread)[0]) && read == [old(unread)[0]] + old(read) && unread == old(unread)[1..]
    {
      if unread == [] {
        return None;
      }
      i := Some(unread[0]);
      Moved(read, unread);
      read, unread := [unread[0]] + read, unread[1..];
    }

    /** get: is the record on either list? */
    method Get(r: Record) returns (found: bool)
      ensures found <==> IdentOf(r) in Known()
    {
      hide IdentOf;
      var k := 0;
      ghost var all := read + unread;
      while k < |read|
        invariant 0 <= k <= |read|
        invariant forall j :: 0 <= j < k ==> Id(all[j]) != IdentOf(r)
      {
        if IdentOf(read[k].record) == IdentOf(r) {
          assert Id(all[k]) == IdentOf(r);
          return true;
        }
        k := k + 1;
      }
      k := 0;
      while k < |unread|
        invariant 0 <= k <= |unread|
        invariant forall j :: 0 <= j < |read| + k ==> Id(all[j]) != IdentOf(r)
      {
        if IdentOf(unread[k].record) == IdentOf(r) {
          assert Id(all[|read| + k]) == IdentOf(r);
          return true;
        }
        k := k + 1;
      }
      return false;
    }

    /** avahi_record_list_push: nothing happens for a record that is known, read or not. */
    method Push(r: Record, flush: bool, unicast: bool, auxiliary: bool)
      requires Valid()
      modifies this`unread, this`allFlush
      ensures Valid() && Known() == old(Known()) + {IdentOf(r)}
      ensures allFlush == (old(allFlush) && (flush || IdentOf(r) in old(Known())))
      ensures unread == (if IdentOf(r) in old(Known()) then [] else [Item(r, flush, unicast, auxiliary)]) + old(unread)
    {
      hide IdentOf;
      var found := Get(r);
      if found {
        return;
      }
      allFlush := allFlush && flush;
      Pushed(read, unread, Item(r, flush, unicast, auxiliary));
      unread := [Item(r, flush, unicast, auxiliary)] + unread;
    }

    /** avahi_record_list_flush. */
    method Flush()
      modifies this
      ensures Valid() && read == [] && unread == [] && allFlush
    {
      read, unread, allFlush := [], [], true;
    }
  }

  lemma Moved(read: seq<Item>, unread: seq<Item>)
    requires unread != [] && Distinct(read + unread)
    ensures Distinct([unread[0]] + read + unread[1..])
    ensures Ids([unread[0]] + read + unread[1..]) == Ids(read + unread)
    ensures AllFlush([unread[0]] + read + unread[1..]) <==> AllFlush(read + unread)
  {
    hide Id;
    var a, b := read + unread, [unread[0]] + read + unread[1..];
    assert forall k :: 0 <= k < |b| ==> b[k] == a[if k == 0 then |read| else if k <= |read| then k - 1 else k];
    assert forall k :: 0 <= k < |a| ==> a[k] == b[if k == |read| then 0 else if k < |read| then k + 1 else k];
  }

  lemma Pushed(read: seq<Item>, unread: seq<Item>, i: Item)
    requires Distinct(read + unread) && Id(i) !in Ids(read + unread)
    ensures Distinct(read + ([i] + unread))
    ensures Ids(read + ([i] + unread)) == Ids(read + unread) + {Id(i)}
    ensures AllFlush(read + ([i] + unread)) <==> i.flush && AllFlush(read + unread)
  {
    hide Id;
    var a, b := read + unread, read + ([i] + unread);
    assert forall k :: 0 <= k < |b| && k != |read| ==> b[k] == a[if k < |read| then k else k - 1];
    assert forall k :: 0 <= k < |a| ==> a[k] == b[if k < |read| then k else k + 1];
    assert b[|read|] == i;
  }

  /** enum_aux_records: does the entry have this name, and this type or any? */
  predicate Named(e: Published, name: seq<byte>, kind: uint16) {
    && e.record.key.clazz == CLASS_IN && (kind == TYPE_ANY || e.record.key.kind == kind)
    && FoldName(e.record.key.name) == FoldName(name)
  }

  /** The record e is auxiliary to r: avahi_server_enumerate_aux_records. */
  predicate Auxiliary(r: Record, e: Published) {
    && r.key.clazz == CLASS_IN
    && match r.data
       case NameData(target) =>
         if r.key.kind == TYPE_PTR then Named(e, target, TYPE_SRV) || Named(e, target, TYPE_TXT)
         else r.key.kind == TYPE_CNAME && Named(e, target, TYPE_ANY)
       case Srv(_, _, _, target) =>
         r.key.kind == TYPE_SRV && (Named(e, target, TYPE_A) || Named(e, target, TYPE_AAAA))
       case _ => false
  }

  /** The same record up to TTL and letter case has the same auxiliary records. */
  lemma AuxiliaryIdent(r: Record, q: Record, e: Published)
    requires IdentOf(r) == IdentOf(q) && Auxiliary(r, e)
    ensures Auxiliary(q, e)
  {
    hide FoldName;
  }

  /** Nothing auxiliary to a record in s is missing from s. */
  ghost predicate Closed(s: set<Ident>, entries: seq<Published>) {
    forall r: Record, k :: 0 <= k < |entries| && IdentOf(r) in s && Auxiliary(r, entries[k]) ==> IdentOf(entries[k].record) in s
  }

  /** The auxiliary records of r are in s. */
  ghost predicate Followed(r: Record, s: set<Ident>, entries: seq<Published>) {
    forall k :: 0 <= k < |entries| && Auxiliary(r, entries[k]) ==> IdentOf(entries[k].record) in s
  }

  ghost function Universe(entries: seq<Published>): set<Ident> {
    set k | 0 <= k < |entries| :: IdentOf(entries[k].record)
  }

  /** enum_aux_records with append_aux_callback. */
  method PushNamed(list: RecordList, entries: seq<Published>, name: seq<byte>, kind: uint16)
    requires list.Valid()
    modifies list`unread, list`allFlush
    ensures list.Valid() && old(list.Known()) <= list.Known()
    ensures forall k :: 0 <= k < |entries| && Named(entries[k], name, kind) ==> IdentOf(entries[k].record) in list.Known()
    ensures forall x :: x in list.Known() && x !in old(list.Known()) ==> Cause(entries, name, kind, x)
  {
    hide IdentOf, Named, RecordList.Known, RecordList.Valid;
    var k := 0;
    while k < |entries|
      invariant 0 <= k <= |entries|
      invariant list.Valid() && old(list.Known()) <= list.Known()
      invariant forall j :: 0 <= j < k && Named(entries[j], name, kind) ==> IdentOf(entries[j].record) in list.Known()
      invariant forall x :: x in list.Known() && x !in old(list.Known()) ==> Cause(entries, name, kind, x)
    {
      if Named(entries[k], name, kind) {
        list.Push(entries[k].record, entries[k].unique, false, true);
        assert Cause(entries, name, kind, IdentOf(entries[k].record));
      }
      k := k + 1;
    }
  }

  ghost predicate Cause(entries: seq<Published>, name: seq<byte>, kind: uint16, x: Ident) {
    exists k :: 0 <= k < |entries| && Named(entries[k], name, kind) && IdentOf(entries[k].record) == x
  }

  ghost predicate AuxiliaryTo(r: Record, entries: seq<Published>, x: Ident) {
    exists k :: 0 <= k < |entries| && Auxiliary(r, entries[k]) && IdentOf(entries[k].record) == x
  }

  /** append_aux_records_to_list. */
  method AppendAux(list: RecordList, entries: seq<Published>, r: Record)
    requires list.Valid()
    modifies list`unread, list`allFlush
    ensures list.Valid() && old(list.Known()) <= list.Known()
    ensures Followed(r, list.Known(), entries)
    ensures forall x :: x in list.Known() && x !in old(list.Known()) ==> AuxiliaryTo(r, entries, x)
  {
    hide IdentOf, Named, RecordList.Known, RecordList.Valid;
    if r.key.clazz == CLASS_IN {
      if r.key.kind == TYPE_PTR && r.data.NameData? {
        PushNamed(list, entries, r.data.target, TYPE_SRV);
        PushNamed(list, entries, r.data.target, TYPE_TXT);
      } else if r.key.kind == TYPE_SRV && r.data.Srv? {
        PushNamed(list, entries, r.data.target, TYPE_A);
        PushNamed(list, entries, r.data.target, TYPE_AAAA);
      } else if r.key.kind == TYPE_CNAME && r.data.NameData? {
        PushNamed(list, entries, r.data.target, TYPE_ANY);
      }
    }
  }

  /** s is in every closed set that holds the start. */
  ghost predicate Needed(s: set<Ident>, start: set<Ident>, entries: seq<Published>) {
    forall t: set<Ident> :: start <= t && Closed(t, entries) ==> s <= t
  }

  /** s is the least set that holds the start and what is auxiliary to its own records. */
  ghost predicate Closure(s: set<Ident>, start: set<Ident>, entries: seq<Published>) {
    start <= s && Closed(s, entries) && Needed(s, start, entries)
  }

  ghost predicate AllFollowed(read: seq<Item>, s: set<Ident>, entries: seq<Published>) {
    forall k :: 0 <= k < |read| ==> Followed(read[k].record, s, entries)
  }

  lemma FollowedMore(read: seq<Item>, i: Item, s: set<Ident>, t: set<Ident>, entries: seq<Published>)
    requires AllFollowed(read, s, entries) && s <= t && Followed(i.record, t, entries)
    ensures AllFollowed([i] + read, t, entries)
  {
    hide Auxiliary, IdentOf;
  }

  lemma NeededMore(s: set<Ident>, t: set<Ident>, r: Record, start: set<Ident>, entries: seq<Published>)
    requires Needed(s, start, entries) && IdentOf(r) in s
    requires forall x :: x in t && x !in s ==> AuxiliaryTo(r, entries, x)
    ensures Needed(t, start, entries)
  {
    hide Auxiliary, IdentOf;
    forall u: set<Ident> | start <= u && Closed(u, entries)
      ensures t <= u
    {
      assert s <= u;
    }
  }

  lemma ClosedWhenFollowed(read: seq<Item>, entries: seq<Published>)
    requires AllFollowed(read, Ids(read), entries)
    ensures Closed(Ids(read), entries)
  {
    hide Auxiliary, IdentOf;
    var s := Ids(read);
    forall r: Record, k | 0 <= k < |entries| && IdentOf(r) in s && Auxiliary(r, entries[k])
      ensures IdentOf(entries[k].record) in s
    {
      var j :| 0 <= j < |read| && Id(read[j]) == IdentOf(r);
      AuxiliaryIdent(r, read[j].record, entries[k]);
      assert Followed(read[j].record, s, entries);
    }
  }

  /** The records of the read list, oldest first. */
  function Popped(read: seq<Item>): seq<Record> {
    if read == [] then [] else Popped(read[1..]) + [read[0].record]
  }

  function Attempts(rs: seq<Record>): seq<Attempt> {
    if rs == [] then [] else Attempts(rs[..|rs| - 1]) + [Attempt(rs[|rs| - 1], false, 10)]
  }

  lemma {:induction false} RunSnoc(s: Session, ts: seq<Attempt>, t: Attempt, limit: nat)
    ensures Run(s, ts + [t], limit) == Step(Run(s, ts, limit), t, limit)
    decreases |ts|
  {
    hide Step;
    if ts == [] {
      assert Run(Step(s, t, limit), [], limit) == Step(s, t, limit);
      assert (ts + [t])[1..] == [];
    } else {
      assert (ts + [t])[1..] == ts[1..] + [t];
      RunSnoc(Step(s, ts[0], limit), ts[1..], t, limit);
    }
  }

  lemma AttemptsSnoc(s: Session, rs: seq<Record>, r: Record, limit: nat)
    ensures Run(s, Attempts(rs + [r]), limit) == Step(Run(s, Attempts(rs), limit), Attempt(r, false, 10), limit)
  {
    assert (rs + [r])[..|rs|] == rs;
    RunSnoc(s, Attempts(rs), Attempt(r, false, 10), limit);
  }

  lemma StepCounts(s: Session, t: Attempt, limit: nat)
    ensures |Step(s, t, limit).accepted| == |s.accepted| +
            (if AppendRecord(t.record, t.flush, t.maxTtl, s.table, |s.data|, limit).Done? then 1 else 0)
  {
  }

  lemma FrontDistinct(read: seq<Item>, unread: seq<Item>)
    requires Distinct(read + unread)
    ensures Distinct(read)
  {
    assert forall k :: 0 <= k < |read| ==> (read + unread)[k] == read[k];
  }

  lemma ReadGrows(i: Item, read: seq<Item>, unread: seq<Item>)
    requires Distinct([i] + read)
    ensures Ids([i] + read) == Ids(read) + {Id(i)} && Id(i) !in Ids(read)
    ensures Id(i) == IdentOf(i.record) && Id(i) in Ids([i] + read + unread)
  {
    assert Id(i) == IdentOf(i.record);
    hide Id;
    var l := [i] + read;
    assert l[0] == i && forall k :: 0 < k < |l| ==> l[k] == read[k - 1];
    assert forall k :: 0 <= k < |read| ==> read[k] == l[k + 1];
    assert (l + unread)[0] == i;
  }

  /** The legacy branch of avahi_server_generate_response. It ends although it pushes records while
      it pops them; it pops exactly the closure of the records it starts from, cycles or not, each
      once; and the reply is what appending the popped records one by one makes of it. */
  method GenerateLegacyResponse(list: RecordList, entries: seq<Published>, reply0: Session, limit: nat)
    returns (reply: Session, ancount: nat, ghost popped: seq<Item>)
    requires list.Valid() && list.read == []
    modifies list
    ensures list.read == [] && list.unread == []
    ensures Distinct(popped) && Closure(Ids(popped), old(list.Known()), entries)
    ensures reply == Run(reply0, Attempts(Popped(popped)), limit)
    ensures ancount == |reply.accepted| - |reply0.accepted|
  {
    hide IdentOf, Auxiliary, Closed, Step, Id, Distinct, Ids;
    reply, ancount := reply0, 0;
    ghost var start := list.Known();
    ghost var all := start + Universe(entries);
    while true
      invariant list.Valid() && start <= list.Known() <= all
      invariant AllFollowed(list.read, list.Known(), entries) && Needed(list.Known(), start, entries)
      invariant reply == Run(reply0, Attempts(Popped(list.read)), limit)
      invariant ancount == |reply.accepted| - |reply0.accepted|
      decreases all - Ids(list.read)
    {
      ghost var read := list.read;
      var i := list.Next();
      if i == None {
        break;
      }
      ghost var known := list.Known();
      FrontDistinct(list.read, list.unread);
      ReadGrows(i.value, read, list.unread);
      var r := i.value.record;
      AppendAux(list, entries, r);
      FollowedMore(read, i.value, known, list.Known(), entries);
      NeededMore(known, list.Known(), r, start, entries);
      AttemptsSnoc(reply0, Popped(read), r, limit);
      StepCounts(reply, Attempt(r, false, 10), limit);
      if AppendRecord(r, false, 10, reply.table, |reply.data|, limit).Done? {
        ancount := ancount + 1;
      }
      reply := Step(reply, Attempt(r, false, 10), limit);
    }
    popped := list.read;
    assert popped + [] == popped;
    FrontDistinct(popped, list.unread);
    ClosedWhenFollowed(popped, entries);
    list.Flush();
  }
}
