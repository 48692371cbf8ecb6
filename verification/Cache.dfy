/** The record cache of an interface (avahi-core/cache.c): a flat list of entries and a hash index
    of them by key. A list is the sequence of its entries from the head on. Notifying browsers is
    left out. */
module Caches {
  import opened Bytes
  import opened Records
  import opened RecordIdent
  import opened CacheExpiry
  import HM = HashMaps

  type Address = nat

  /** Keys the table compares and hashes: their names unescape. */
  type NamedKey = k: Key | Readable(k.name) witness Key([], 0, 0)

  function HashOf(k: NamedKey): nat {
    KeyHash(k)
  }

  predicate SameKey(a: NamedKey, b: NamedKey) {
    KeyEqual(a, b)
  }

  function IdentOfNamed(k: NamedKey): KeyIdent {
    IdentOfKey(k)
  }

  /** The table's callbacks agree: equal keys, up to letter case, have equal hashes. */
  lemma KeysAgree()
    ensures HM.Agree(HashOf, SameKey, IdentOfNamed)
  {
    hide KeyHash, KeyEqual, IdentOfKey, Readable;
    forall a: NamedKey, b: NamedKey
      ensures SameKey(a, b) <==> IdentOfNamed(a) == IdentOfNamed(b)
      ensures IdentOfNamed(a) == IdentOfNamed(b) ==> HashOf(a) == HashOf(b)
    {
      KeyEqualIdent(a, b);
      if KeyEqual(a, b) {
        EqualKeysHashEqual(a, b);
      }
    }
  }

  type CachedRecord = r: Record | Readable(r.key.name) witness Record(Key([], 0, 0), 0, Generic([]))

  class CacheEntry {
    var record: CachedRecord
    var timestamp: int
    var expiry: int
    var state: EntryState
    var cacheFlush: bool
    var origin: Address
    var poofAddress: Address
    var poofTimestamp: int
    var poofNum: nat

    constructor (record: CachedRecord)
      ensures this.record == record
    {
      this.record := record;
    }

    function Ident(): KeyIdent
      reads this`record
    {
      IdentOfKey(record.key)
    }

    /** next_expiry. */
    method NextExpiry(percent: nat, j: real)
      requires Jitter(j)
      modifies this`expiry
      ensures expiry == ExpiryAt(timestamp, record.ttl, percent, j)
    {
      expiry := ExpiryAt(timestamp, record.ttl, percent, j);
    }

    /** How far the entry is in the observation of failures. */
    function Watched(): Watch
      reads this`state, this`poofTimestamp, this`poofNum
    {
      Watch(state, poofTimestamp, poofNum)
    }

    /** start_poof_callback: the query is counted at most once a second, its querier is remembered
        when it counts, and the last one leaves the entry a second. */
    method StartPoof(a: Address, now: int)
      modifies this`state, this`expiry, this`poofAddress, this`poofTimestamp, this`poofNum
      ensures Watched() == Observed(old(Watched()), now)
      ensures poofAddress == if Counts(old(Watched()), now) then a else old(poofAddress)
      ensures expiry == if Final(Watched()) && !Final(old(Watched())) then now + 1000000 else old(expiry)
    {
      match state {
        case Valid =>
          state := EntryState.Poof;
          poofAddress := a;
          poofTimestamp := now;
          poofNum := 0;
        case Poof =>
          if now - poofTimestamp < 1000000 {
            return;
          }
          poofTimestamp := now;
          poofAddress := a;
          poofNum := poofNum + 1;
          if poofNum > 3 {
            ExpireInOneSecond(PoofFinal, now);
          }
        case _ =>
      }
    }

    /** expire_in_one_second. */
    method ExpireInOneSecond(final: EntryState, now: int)
      modifies this`state, this`expiry
      ensures state == final && expiry == now + 1000000
    {
      state := final;
      expiry := now + 1000000;
    }
  }

  function Idents(l: seq<CacheEntry>): (ids: seq<KeyIdent>)
    reads l`record
    ensures |ids| == |l|
    ensures forall k :: 0 <= k < |l| ==> ids[k] == l[k].Ident()
  {
    hide *;
    if l == [] then [] else [l[0].Ident()] + Idents(l[1..])
  }

  function Select(l: seq<CacheEntry>, ids: seq<KeyIdent>, i: KeyIdent): (c: seq<CacheEntry>)
    requires |l| == |ids|
    ensures forall e :: e in c ==> e in l
    ensures forall k :: 0 <= k < |l| && ids[k] == i ==> l[k] in c
  {
    if l == [] then []
    else (if ids[0] == i then [l[0]] else []) + Select(l[1..], ids[1..], i)
  }

  lemma {:induction false} Selected(l: seq<CacheEntry>, ids: seq<KeyIdent>, i: KeyIdent, e: CacheEntry)
    requires |l| == |ids| && e in Select(l, ids, i)
    ensures exists k :: 0 <= k < |l| && l[k] == e && ids[k] == i
  {
    if ids[0] == i && l[0] == e {
    } else {
      Selected(l[1..], ids[1..], i, e);
      var k :| 0 <= k < |l| - 1 && l[1..][k] == e && ids[1..][k] == i;
      assert l[k + 1] == e && ids[k + 1] == i;
    }
  }

  /** The entries on the list l whose key has the identity i. */
  function Chain(l: seq<CacheEntry>, i: KeyIdent): (c: seq<CacheEntry>)
    reads l`record
    ensures forall e :: e in c ==> e in l
    ensures forall e :: e in l && e.Ident() == i ==> e in c
  {
    Select(l, Idents(l), i)
  }

  lemma ChainMembers(l: seq<CacheEntry>, i: KeyIdent)
    ensures forall e :: e in Chain(l, i) ==> e in l && e.Ident() == i
  {
    forall e | e in Chain(l, i)
      ensures e.Ident() == i
    {
      Selected(l, Idents(l), i, e);
    }
  }

  lemma {:induction false} ChainUnlinked(l: seq<CacheEntry>, e: CacheEntry, i: KeyIdent)
    ensures Chain(HM.Unlinked(l, e), i) == HM.Unlinked(Chain(l, i), e)
  {
    if l != [] {
      var y, rest := l[0], l[1..];
      assert l == [y] + rest;
      ChainCons(y, rest, i);
      if y != e {
        ChainUnlinked(rest, e, i);
        HM.UnlinkedCons(y, rest, e);
        ChainCons(y, HM.Unlinked(rest, e), i);
        HM.UnlinkedCons(y, Chain(rest, i), e);
      } else if y.Ident() == i {
        assert Chain(l, i)[1..] == Chain(rest, i);
      } else {
        ChainMembers(l, i);
        HM.UnlinkedAbsent(Chain(l, i), e);
      }
    }
  }

  lemma ChainCons(y: CacheEntry, l: seq<CacheEntry>, i: KeyIdent)
    ensures Chain([y] + l, i) == if y.Ident() == i then [y] + Chain(l, i) else Chain(l, i)
  {
    assert ([y] + l)[1..] == l;
  }

  type Index = map<KeyIdent, Held>

  /** avahi_key_is_pattern, and avahi_key_pattern_match on names that unescape. */
  predicate IsPattern(k: Key) {
    k.kind == TYPE_ANY || k.clazz == CLASS_ANY
  }

  predicate PatternMatch(p: KeyIdent, k: KeyIdent) {
    p.name == k.name && (p.kind == k.kind || p.kind == TYPE_ANY) && (p.clazz == k.clazz || p.clazz == CLASS_ANY)
  }

  /** What a scan of the whole list finds for the key or pattern p. */
  function Matching(l: seq<CacheEntry>, p: KeyIdent): (c: seq<CacheEntry>)
    reads l`record
    ensures forall e :: e in c ==> e in l
  {
    if l == [] then []
    else (if PatternMatch(p, l[0].Ident()) then [l[0]] else []) + Matching(l[1..], p)
  }

  /** For a key that is no pattern, the scan finds its chain. */
  lemma {:induction false} MatchingChain(l: seq<CacheEntry>, p: KeyIdent)
    requires p.kind != TYPE_ANY && p.clazz != CLASS_ANY
    ensures Matching(l, p) == Chain(l, p)
  {
    if l != [] {
      MatchingChain(l[1..], p);
      assert l == [l[0]] + l[1..];
      ChainCons(l[0], l[1..], p);
    }
  }

  lemma {:induction false} MatchingNoRepeats(l: seq<CacheEntry>, p: KeyIdent)
    requires Unique(l)
    ensures forall i, j :: 0 <= i < j < |Matching(l, p)| ==> Matching(l, p)[i] != Matching(l, p)[j]
  {
    hide IdentOf, CacheEntry.Ident, PatternMatch;
    if l != [] {
      assert forall k :: 0 <= k < |l| - 1 ==> l[1..][k] == l[k + 1];
      MatchingNoRepeats(l[1..], p);
      assert l[0] !in l[1..];
    }
  }

  lemma {:induction false} MatchingSnoc(l: seq<CacheEntry>, k: nat, p: KeyIdent)
    requires k < |l|
    ensures Matching(l[..k + 1], p) == Matching(l[..k], p) + if PatternMatch(p, l[k].Ident()) then [l[k]] else []
  {
    hide CacheEntry.Ident, PatternMatch;
    var rest := l[1..];
    assert l[..k + 1] == [l[0]] + rest[..k];
    MatchingCons(l[0], rest[..k], p);
    if k > 0 {
      MatchingSnoc(rest, k - 1, p);
      assert l[..k] == [l[0]] + rest[..k - 1];
      MatchingCons(l[0], rest[..k - 1], p);
    }
  }

  lemma MatchingCons(e: CacheEntry, l: seq<CacheEntry>, p: KeyIdent)
    ensures Matching([e] + l, p) == (if PatternMatch(p, e.Ident()) then [e] else []) + Matching(l, p)
  {
    assert ([e] + l)[1..] == l;
  }

  type Held = HM.Pair<NamedKey, seq<CacheEntry>>

  /** What the index holds for the entries c: them, under the first one's own key. */
  function HeldFor(c: seq<CacheEntry>): Held
    requires c != []
    reads c`record
  {
    HM.Pair(c[0].record.key, c)
  }

  function Head(l: seq<CacheEntry>, i: KeyIdent): (e: CacheEntry)
    requires Chain(l, i) != []
    reads l`record
    ensures e == Chain(l, i)[0] && e in l
  {
    assert Chain(l, i)[0] in Chain(l, i);
    Chain(l, i)[0]
  }

  /** The index m agrees with the list l: for every key with entries on the list it holds exactly
      those, in the order of the list, under the key of the first one's own record. */
  ghost predicate Agrees(l: seq<CacheEntry>, m: Index)
    reads l`record
  {
    forall i: KeyIdent {:trigger Chain(l, i)} {:trigger i in m} ::
      if Chain(l, i) == [] then i !in m
      else i in m && m[i].value == Chain(l, i) && m[i].key == Head(l, i).record.key
  }

  /** The index after the chain of i became c. */
  function Reindexed(m: Index, i: KeyIdent, c: seq<CacheEntry>): Index
    reads c`record
  {
    if c == [] then m - {i} else m[i := HeldFor(c)]
  }

  lemma AgreesWithout(l: seq<CacheEntry>, e: CacheEntry, m: Index)
    requires Agrees(l, m) && e in l
    ensures Agrees(HM.Unlinked(l, e), Reindexed(m, e.Ident(), HM.Unlinked(Chain(l, e.Ident()), e)))
  {
    hide IdentOfKey, Chain, HM.Unlinked;
    var n := Reindexed(m, e.Ident(), HM.Unlinked(Chain(l, e.Ident()), e));
    forall i: KeyIdent
      ensures var c := Chain(HM.Unlinked(l, e), i);
              if c == [] then i !in n else i in n && n[i].value == c && n[i].key == c[0].record.key
    {
      ChainUnlinked(l, e, i);
      if i != e.Ident() {
        ChainMembers(l, i);
        HM.UnlinkedAbsent(Chain(l, i), e);
      }
    }
  }

  lemma AgreesWith(l: seq<CacheEntry>, e: CacheEntry, m: Index)
    requires Agrees(l, m)
    ensures Agrees([e] + l, Reindexed(m, e.Ident(), [e] + Chain(l, e.Ident())))
  {
    hide IdentOfKey, Chain;
    var n := Reindexed(m, e.Ident(), [e] + Chain(l, e.Ident()));
    forall i: KeyIdent
      ensures var c := Chain([e] + l, i);
              if c == [] then i !in n else i in n && n[i].value == c && n[i].key == c[0].record.key
    {
      ChainCons(e, l, i);
    }
  }

  /** No entry is listed twice, and no two entries hold the same record. */
  ghost predicate Unique(l: seq<CacheEntry>)
    reads l`record
  {
    && HM.NoRepeats(l)
    && (forall e, f :: e in l && f in l && IdentOf(e.record) == IdentOf(f.record) ==> e == f)
  }

  lemma {:induction false} UniqueWithout(l: seq<CacheEntry>, e: CacheEntry)
    requires Unique(l) && e in l
    ensures Unique(HM.Unlinked(l, e)) && e !in HM.Unlinked(l, e) && |HM.Unlinked(l, e)| == |l| - 1
  {
    hide IdentOf;
    HM.UnlinkedNoRepeats(l, e);
    HM.UnlinkedLength(l, e);
  }

  lemma UniqueWith(l: seq<CacheEntry>, e: CacheEntry)
    requires Unique(l) && forall f :: f in l ==> IdentOf(f.record) != IdentOf(e.record)
    ensures Unique([e] + l)
  {
    hide IdentOf;
    assert e !in l;
  }

  twostate lemma UniqueRetaken(l: seq<CacheEntry>)
    requires old(Unique(l)) && forall e :: e in l ==> IdentOf(e.record) == IdentOf(old(e.record))
    ensures Unique(l)
  {
    hide IdentOf;
  }

  twostate lemma SameIdents(l: seq<CacheEntry>)
    requires forall e :: e in l ==> IdentOf(e.record) == IdentOf(old(e.record))
    ensures Idents(l) == old(Idents(l))
  {
    hide IdentOfKey, IdentOfData;
    assert forall k :: 0 <= k < |l| ==> l[k].Ident() == old(l[k].Ident());
  }

  /** The chains of the index m, for entries whose keys have the identities ids. */
  ghost predicate Listed(l: seq<CacheEntry>, ids: seq<KeyIdent>, m: Index)
    requires |l| == |ids|
  {
    forall i: KeyIdent {:trigger Select(l, ids, i)} {:trigger i in m} ::
      if Select(l, ids, i) == [] then i !in m else i in m && m[i].value == Select(l, ids, i)
  }

  lemma AgreesListed(l: seq<CacheEntry>, m: Index)
    requires Agrees(l, m)
    ensures Listed(l, Idents(l), m)
    ensures forall i: KeyIdent :: i in m ==> m[i].value != [] && m[i].value[0] in l && m[i].value[0].Ident() == i && m[i].key == m[i].value[0].record.key
  {
    hide CacheEntry.Ident;
    forall i: KeyIdent
      ensures if Select(l, Idents(l), i) == [] then i !in m else i in m && m[i].value == Select(l, Idents(l), i)
    {
      assert Chain(l, i) == Select(l, Idents(l), i);
    }
    forall i: KeyIdent | i in m
      ensures m[i].value != [] && m[i].value[0] in l && m[i].value[0].Ident() == i && m[i].key == m[i].value[0].record.key
    {
      assert Chain(l, i) == m[i].value;
      ChainMembers(l, i);
      assert m[i].value[0] in m[i].value;
    }
  }

  /** The index stays right when an entry changes its record for one with an equal key, if the key
      it holds for a chain is that of the chain's head. */
  lemma AgreesRetaken(l: seq<CacheEntry>, ids: seq<KeyIdent>, m: Index, n: Index)
    requires ids == Idents(l) && Listed(l, ids, m)
    requires n.Keys == m.Keys
    requires forall i: KeyIdent :: i in m ==> m[i].value != [] && n[i].value == m[i].value && n[i].key == m[i].value[0].record.key
    ensures Agrees(l, n)
  {
    hide CacheEntry.Ident, Idents, Select;
    forall i: KeyIdent
      ensures if Chain(l, i) == [] then i !in n
              else i in n && n[i].value == Chain(l, i) && n[i].key == Head(l, i).record.key
    {
      assert Chain(l, i) == Select(l, ids, i);
    }
  }

  class Cache {
    const hashmap: HM.HashMap<NamedKey, seq<CacheEntry>, KeyIdent>
    const max: nat
    var entries: seq<CacheEntry>
    var nEntries: nat

    ghost predicate Table()
      reads hashmap, hashmap.buckets, hashmap.list
    {
      hashmap.Valid() && hashmap.hash == HashOf && hashmap.equal == SameKey && hashmap.ident == IdentOfNamed
    }

    ghost predicate Valid()
      reads this, hashmap, hashmap.buckets, hashmap.list, entries`record
    {
      Table() && Agrees(entries, hashmap.model) && Unique(entries) && nEntries == |entries| <= max
    }

    /** avahi_cache_new. */
    constructor (max: nat)
      ensures Valid() && entries == [] && this.max == max
      ensures fresh(hashmap) && fresh(hashmap.buckets) && hashmap.list == []
    {
      KeysAgree();
      hashmap := new HM.HashMap(HashOf, SameKey, IdentOfNamed);
      this.max := max;
      entries, nEntries := [], 0;
    }

    /** lookup_key: the entries with this key. */
    method LookupKey(k: NamedKey) returns (c: seq<CacheEntry>)
      requires Valid()
      ensures c == Chain(entries, IdentOfKey(k))
      ensures forall e :: e in c ==> e in entries
      ensures forall e :: e in c ==> e.Ident() == IdentOfKey(k)
      ensures forall e :: e in entries && e.Ident() == IdentOfKey(k) ==> e in c
    {
      ChainMembers(entries, IdentOfKey(k));
      hide IdentOfKey, Chain, Unique;
      var v := hashmap.Lookup(k);
      c := if v == None then [] else v.value;
      assert hashmap.ident(k) == IdentOfKey(k);
    }

    /** What remove_entry and update do to the index: the chain of k becomes c. */
    method SetChain(k: NamedKey, c: seq<CacheEntry>)
      requires Table() && forall e :: e in c ==> e.Ident() == IdentOfKey(k)
      modifies hashmap`list, hashmap`model, hashmap.buckets, hashmap.list
      ensures Table() && hashmap.model == Reindexed(old(hashmap.model), IdentOfKey(k), c)
      ensures fresh(set s | s in hashmap.list && s !in old(hashmap.list))
    {
      hide IdentOfKey;
      assert hashmap.ident(k) == IdentOfKey(k);
      if c != [] {
        assert c[0].Ident() == hashmap.ident(c[0].record.key);
        var present := hashmap.Replace(c[0].record.key, c);
      } else {
        hashmap.Remove(k);
      }
    }

    /** The same for the list l of entries that the new index is about. */
    method Reindex(k: NamedKey, c: seq<CacheEntry>, ghost l: seq<CacheEntry>)
      requires Table() && forall e :: e in c ==> e.Ident() == IdentOfKey(k)
      requires Agrees(l, Reindexed(hashmap.model, IdentOfKey(k), c)) && Unique(l)
      modifies hashmap`list, hashmap`model, hashmap.buckets, hashmap.list
      ensures Table() && Agrees(l, hashmap.model) && Unique(l)
      ensures fresh(set s | s in hashmap.list && s !in old(hashmap.list))
    {
      hide *;
      SetChain(k, c);
    }

    /** remove_entry. */
    method RemoveEntry(e: CacheEntry)
      requires Valid() && e in entries
      modifies this`entries, this`nEntries, hashmap`list, hashmap`model, hashmap.buckets, hashmap.list
      ensures Valid() && entries == HM.Unlinked(old(entries), e) && e !in entries
      ensures fresh(set s | s in hashmap.list && s !in old(hashmap.list))
    {
      hide *;
      Parts();
      KeyOf(e);
      var t := LookupKey(e.record.key);
      AgreesWithout(entries, e, hashmap.model);
      UniqueWithout(entries, e);
      t := HM.Unlinked(t, e);
      var rest := HM.Unlinked(entries, e);
      Reindex(e.record.key, t, rest);
      entries := rest;
      nEntries := nEntries - 1;
      Whole();
    }

    lemma KeyOf(e: CacheEntry)
      ensures e.Ident() == IdentOfKey(e.record.key)
    {
    }

    /** avahi_cache_flush. */
    method Flush()
      requires Valid()
      modifies this`entries, this`nEntries, hashmap`list, hashmap`model, hashmap.buckets, hashmap.list
      ensures Valid() && entries == [] && nEntries == 0
    {
      hide Table, Agrees, Unique;
      while entries != []
        invariant Valid()
        invariant fresh(set s | s in hashmap.list && s !in old(hashmap.list))
        decreases |entries|
      {
        hide Valid;
        RemoveEntry(entries[0]);
      }
    }

    /** lookup_record: the entry that holds an equal record. */
    method LookupRecord(r: CachedRecord) returns (found: CacheEntry?)
      requires Valid()
      ensures found == null ==> forall e :: e in entries ==> IdentOf(e.record) != IdentOf(r)
      ensures found != null ==> found in entries && IdentOf(found.record) == IdentOf(r)
    {
      hide Table, Agrees, Unique, Chain, FoldName;
      var c := LookupKey(r.key);
      found := FindRecord(c, r);
    }

    /** The record in a chain, as both lookup_record and update look for it. */
    static method FindRecord(c: seq<CacheEntry>, r: Record) returns (found: CacheEntry?)
      ensures found == null ==> forall e :: e in c ==> IdentOf(e.record) != IdentOf(r)
      ensures found != null ==> found in c && IdentOf(found.record) == IdentOf(r)
    {
      hide *;
      var k := 0;
      while k < |c|
        invariant 0 <= k <= |c|
        invariant forall j :: 0 <= j < k ==> IdentOf(c[j].record) != IdentOf(r)
      {
        if IdentOf(c[k].record) == IdentOf(r) {
          return c[k];
        }
        k := k + 1;
      }
      found := null;
    }

    /** The branch of avahi_cache_update for a goodbye. */
    method Goodbye(r: CachedRecord, now: int)
      requires Valid() && r.ttl == 0
      modifies entries`state, entries`expiry
      ensures Valid()
      ensures forall e :: e in entries ==>
                if IdentOf(e.record) == IdentOf(r) then e.state == GoodbyeFinal && e.expiry == now + 1000000 else unchanged(e)
    {
      hide Table, Agrees, IdentOf, Chain;
      var e := LookupRecord(r);
      if e != null {
        e.ExpireInOneSecond(GoodbyeFinal, now);
      }
    }

    /** Entries of a flushed key that are older than a second go in a second. */
    method FlushOld(c: seq<CacheEntry>, now: int)
      requires forall e :: e in c ==> e in entries
      modifies entries`state, entries`expiry
      ensures forall e :: e in c ==> Flushed(e, old(e.state), old(e.expiry), now)
      ensures forall e :: e in entries && e !in c ==> unchanged(e)
    {
      var k := 0;
      while k < |c|
        invariant 0 <= k <= |c|
        invariant forall e :: e in c ==> (e.state == old(e.state) && e.expiry == old(e.expiry)) || Flushed(e, old(e.state), old(e.expiry), now)
        invariant forall e :: e in entries && e !in c ==> unchanged(e)
        invariant forall j :: 0 <= j < k ==> Flushed(c[j], old(c[j].state), old(c[j].expiry), now)
      {
        assert c[k] in c && c[k] in entries;
        if now - c[k].timestamp > 1000000 {
          c[k].ExpireInOneSecond(ReplaceFinal, now);
        }
        k := k + 1;
      }
    }

    static ghost predicate Flushed(e: CacheEntry, state: EntryState, expiry: int, now: int)
      reads e`state, e`expiry, e`timestamp
    {
      if now - e.timestamp > 1000000 then e.state == ReplaceFinal && e.expiry == now + 1000000
      else e.state == state && e.expiry == expiry
    }

    /** The entry just updated or created: fresh for four fifths of its TTL. */
    static ghost predicate Stored(e: CacheEntry, r: Record, flush: bool, a: Address, now: int, j: real)
      reads e
    {
      && e.record == r && e.timestamp == now && e.state == EntryState.Valid && e.cacheFlush == flush && e.origin == a
      && e.expiry == ExpiryAt(now, r.ttl, 80, j)
    }

    /** The end of the update branch. */
    static method Refresh(e: CacheEntry, flush: bool, a: Address, now: int, j: real)
      requires Jitter(j)
      modifies e`origin, e`timestamp, e`expiry, e`state, e`cacheFlush
      ensures Stored(e, e.record, flush, a, now, j)
    {
      e.origin := a;
      e.timestamp := now;
      e.NextExpiry(80, j);
      e.state := EntryState.Valid;
      e.cacheFlush := flush;
    }

    /** An entry holds an equal record: it takes the new one, and the key of the index follows it
        if it is the first of its chain. */
    method Retake(e: CacheEntry, first: seq<CacheEntry>, r: CachedRecord)
      requires Valid() && e in entries && IdentOf(e.record) == IdentOf(r)
      requires first == Chain(entries, IdentOfKey(r.key))
      modifies e`record, hashmap`list, hashmap`model, hashmap.buckets, hashmap.list
      ensures Valid() && e.record == r
      ensures fresh(set s | s in hashmap.list && s !in old(hashmap.list))
    {
      hide *;
      Parts();
      SameIdent(e, r);
      HeadsKnown(e);
      HeadsRekeyed(e, r);
      ghost var m := hashmap.model;
      if first[0] == e {
        RekeyHead(r, first);
      }
      TakeRecord(e, r, m);
      Whole();
    }

    lemma Parts()
      requires Valid()
      ensures Table() && Agrees(entries, hashmap.model) && Unique(entries) && nEntries == |entries| <= max
    {
    }

    lemma Whole()
      requires Table() && Agrees(entries, hashmap.model) && Unique(entries) && nEntries == |entries| <= max
      ensures Valid()
    {
    }

    /** The chain h stays, under the key of the record its head is about to hold. */
    ghost predicate Rekeyed(h: Held, now: Held, e: CacheEntry, r: Record)
      reads this, entries`record
    {
      && h.value != [] && h.value[0] in entries && now.value == h.value
      && now.key == if h.value[0] == e then r.key else h.value[0].record.key
    }

    lemma HeadsRekeyed(e: CacheEntry, r: CachedRecord)
      requires Valid() && e in entries && IdentOf(e.record) == IdentOf(r)
      ensures var m, c := hashmap.model, Chain(entries, e.Ident());
              && c != [] && e.Ident() in m && m[e.Ident()].value == c
              && (forall i: KeyIdent :: i in m && i != e.Ident() ==> Rekeyed(m[i], m[i], e, r))
              && Rekeyed(m[e.Ident()], if c[0] == e then HM.Pair(r.key, c) else m[e.Ident()], e, r)
    {
      HeadsKnown(e);
      hide IdentOf, Chain;
      assert hashmap.model[e.Ident()].value != [];
    }

    /** The record of e gives way to an equal one; the index holds the new key already. */
    method TakeRecord(e: CacheEntry, r: CachedRecord, ghost m: Index)
      requires e in entries && IdentOf(e.record) == IdentOf(r) && Unique(entries)
      requires Listed(entries, Idents(entries), m) && hashmap.model.Keys == m.Keys
      requires forall i: KeyIdent :: i in m ==> Rekeyed(m[i], hashmap.model[i], e, r)
      modifies e`record
      ensures e.record == r && Unique(entries) && Agrees(entries, hashmap.model)
    {
      hide IdentOf, CacheEntry.Ident, Listed, Unique, Idents, Agrees;
      ghost var ids := Idents(entries);
      e.record := r;
      SameIdents(entries);
      UniqueRetaken(entries);
      AgreesRetaken(entries, ids, m, hashmap.model);
    }

    method RekeyHead(r: CachedRecord, first: seq<CacheEntry>)
      requires Table()
      modifies hashmap`list, hashmap`model, hashmap.buckets, hashmap.list
      ensures Table() && hashmap.model == old(hashmap.model)[IdentOfKey(r.key) := HM.Pair(r.key, first)]
      ensures fresh(set s | s in hashmap.list && s !in old(hashmap.list))
    {
      hide IdentOfKey;
      assert hashmap.ident(r.key) == IdentOfKey(r.key);
      var present := hashmap.Replace(r.key, first);
    }

    /** The head of each chain gave it its key, and e heads no chain but its own. */
    lemma HeadsKnown(e: CacheEntry)
      requires Valid() && e in entries
      ensures Listed(entries, Idents(entries), hashmap.model)
      ensures e.Ident() in hashmap.model && hashmap.model[e.Ident()].value == Chain(entries, e.Ident())
      ensures forall i: KeyIdent :: i in hashmap.model ==>
                var c := hashmap.model[i].value;
                c != [] && c[0] in entries && hashmap.model[i].key == c[0].record.key && (c[0] == e ==> i == e.Ident())
    {
      AgreesListed(entries, hashmap.model);
    }

    lemma SameIdent(e: CacheEntry, r: Record)
      requires e in entries && IdentOf(e.record) == IdentOf(r)
      ensures e.Ident() == IdentOfKey(r.key)
      ensures e in Chain(entries, IdentOfKey(r.key)) && Chain(entries, IdentOfKey(r.key)) != []
    {
    }

    /** No entry holds an equal record and there is room: a new one, first on both lists. */
    method Insert(r: CachedRecord, first: seq<CacheEntry>) returns (e: CacheEntry)
      requires Valid() && nEntries < max && first == Chain(entries, IdentOfKey(r.key))
      requires forall f :: f in entries ==> IdentOf(f.record) != IdentOf(r)
      modifies this`entries, this`nEntries, hashmap`list, hashmap`model, hashmap.buckets, hashmap.list
      ensures Valid() && fresh(e) && e.record == r && entries == [e] + old(entries)
      ensures fresh(set s | s in hashmap.list && s !in old(hashmap.list))
    {
      e := new CacheEntry(r);
      hide *;
      Parts();
      AgreesWith(entries, e, hashmap.model);
      UniqueWith(entries, e);
      OfKey(e, r, first);
      Reindex(r.key, [e] + first, [e] + entries);
      entries := [e] + entries;
      nEntries := nEntries + 1;
      Whole();
    }

    lemma Elsewhere(r: Record)
      ensures forall f :: f in entries && IdentOf(f.record) == IdentOf(r) ==> f.Ident() == IdentOfKey(r.key)
    {
    }

    lemma OfKey(e: CacheEntry, r: Record, first: seq<CacheEntry>)
      requires e.record == r && first == Chain(entries, IdentOfKey(r.key))
      ensures e.Ident() == IdentOfKey(r.key) && forall f :: f in [e] + first ==> f.Ident() == IdentOfKey(r.key)
    {
      ChainMembers(entries, IdentOfKey(r.key));
    }

    /** The update branch of avahi_cache_update; null when the cache is full. */
    method Store(r: CachedRecord, flush: bool, a: Address, now: int, j: real) returns (e: CacheEntry?)
      requires Valid() && Jitter(j)
      modifies this`entries, this`nEntries, hashmap`list, hashmap`model, hashmap.buckets, hashmap.list, entries
      ensures Valid()
      ensures e == null <==> |old(entries)| >= max && forall f :: f in old(entries) ==> IdentOf(old(f.record)) != IdentOf(r)
      ensures e == null ==> entries == old(entries)
      ensures e != null ==> e in entries && Stored(e, r, flush, a, now, j)
      ensures e != null ==> entries == (if e in old(entries) then [] else [e]) + old(entries)
      ensures e != null && e in old(entries) ==> IdentOf(old(e.record)) == IdentOf(r)
      ensures forall f :: f in old(entries) && f != e ==>
                f.record == old(f.record) && if flush && f.Ident() == IdentOfKey(r.key) then Flushed(f, old(f.state), old(f.expiry), now)
                                             else unchanged(f)
    {
      hide *;
      Parts();
      var first := LookupKey(r.key);
      if flush {
        FlushOld(first, now);
      }
      e := FindRecord(first, r);
      Elsewhere(r);
      if e != null {
        Retake(e, first, r);
      } else {
        if nEntries >= max {
          return null;
        }
        e := Insert(r, first);
      }
      Refresh(e, flush, a, now, j);
    }

    /** avahi_cache_update. */
    method Update(r: CachedRecord, flush: bool, a: Address, now: int, j: real) returns (e: CacheEntry?)
      requires Valid() && Jitter(j)
      modifies this`entries, this`nEntries, hashmap`list, hashmap`model, hashmap.buckets, hashmap.list, entries
      ensures Valid()
      ensures r.ttl == 0 ==> e == null && entries == old(entries)
      ensures r.ttl == 0 ==>
                forall f :: f in entries ==>
                  if IdentOf(f.record) == IdentOf(r) then f.record == old(f.record) && f.state == GoodbyeFinal && f.expiry == now + 1000000
                  else unchanged(f)
      ensures r.ttl != 0 ==>
                (e == null <==> |old(entries)| >= max && forall f :: f in old(entries) ==> IdentOf(old(f.record)) != IdentOf(r))
      ensures e != null ==> e in entries && Stored(e, r, flush, a, now, j)
      ensures entries == (if e == null || e in old(entries) then [] else [e]) + old(entries)
      ensures r.ttl != 0 ==>
                forall f :: f in old(entries) && f != e ==>
                  f.record == old(f.record) && if flush && f.Ident() == IdentOfKey(r.key) then Flushed(f, old(f.state), old(f.expiry), now)
                                               else unchanged(f)
    {
      hide *;
      if r.ttl == 0 {
        Goodbye(r, now);
        e := null;
      } else {
        e := Store(r, flush, a, now, j);
      }
    }

    /** elapse_func: the next refresh, or the end. `queried` tells whether a query was posted for
        the record, which depends on there being a browser for it. */
    method EntryElapsed(e: CacheEntry, subscribed: bool, j: real) returns (queried: bool)
      requires Valid() && e in entries && Jitter(j)
      modifies this`entries, this`nEntries, hashmap`list, hashmap`model, hashmap.buckets, hashmap.list, e`state, e`expiry
      ensures Valid()
      ensures match Elapse(old(e.state))
              case Removed => entries == HM.Unlinked(old(entries), e) && e !in entries && !queried
              case Again(s, p) =>
                entries == old(entries) && e.state == s && e.expiry == ExpiryAt(e.timestamp, e.record.ttl, p, j) && queried == subscribed
    {
      hide Valid, ExpiryAt;
      var percent := 0;
      match e.state {
        case ExpiryFinal | PoofFinal | GoodbyeFinal | ReplaceFinal =>
          RemoveEntry(e);
          return false;
        case Valid | Poof =>
          e.state := Expiry1;
          percent := 85;
        case Expiry1 =>
          e.state := Expiry2;
          percent := 90;
        case Expiry2 =>
          e.state := Expiry3;
          percent := 95;
        case Expiry3 =>
          e.state := ExpiryFinal;
          percent := 100;
      }
      queried := subscribed;
      e.NextExpiry(percent, j);
    }

    /** The entries avahi_cache_walk visits, in order: a pattern walks the flat list and a key its
        chain in the index, to the same effect. */
    method Walk(pattern: NamedKey) returns (visited: seq<CacheEntry>)
      requires Valid()
      ensures visited == Matching(entries, IdentOfKey(pattern))
    {
      hide Table, Agrees, Unique, Chain, FoldName, PatternMatch;
      var p := IdentOfKey(pattern);
      if IsPattern(pattern) {
        visited := [];
        var k := 0;
        while k < |entries|
          invariant 0 <= k <= |entries|
          invariant visited == Matching(entries[..k], p)
        {
          MatchingSnoc(entries, k, p);
          if PatternMatch(p, IdentOfKey(entries[k].record.key)) {
            visited := visited + [entries[k]];
          }
          k := k + 1;
        }
        assert entries[..|entries|] == entries;
      } else {
        visited := LookupKey(pattern);
        MatchingChain(entries, p);
      }
    }

    /** avahi_cache_start_poof. */
    method StartPoof(key: NamedKey, a: Address, now: int)
      requires Valid()
      modifies entries`state, entries`expiry, entries`poofAddress, entries`poofTimestamp, entries`poofNum
      ensures Valid()
      ensures forall e :: e in entries ==>
                if e !in Matching(entries, IdentOfKey(key)) then unchanged(e) else
                && e.Watched() == Observed(old(e.Watched()), now)
                && e.poofAddress == (if Counts(old(e.Watched()), now) then a else old(e.poofAddress))
                && e.expiry == (if Final(e.Watched()) && !Final(old(e.Watched())) then now + 1000000 else old(e.expiry))
    {
      hide *;
      Parts();
      MatchingNoRepeats(entries, IdentOfKey(key));
      var visited := Walk(key);
      var k := 0;
      while k < |visited|
        invariant 0 <= k <= |visited|
        invariant forall e :: e in entries ==>
                    if e !in visited[..k] then unchanged(e) else
                    && e.Watched() == Observed(old(e.Watched()), now)
                    && e.poofAddress == (if Counts(old(e.Watched()), now) then a else old(e.poofAddress))
                    && e.expiry == (if Final(e.Watched()) && !Final(old(e.Watched())) then now + 1000000 else old(e.expiry))
      {
        assert visited[k] in visited && visited[k] in entries;
        assert visited[k] !in visited[..k] && visited[..k + 1] == visited[..k] + [visited[k]];
        visited[k].StartPoof(a, now);
        k := k + 1;
      }
      assert visited[..|visited|] == visited;
    }

    /** avahi_cache_stop_poof. */
    method StopPoof(r: CachedRecord, a: Address, j: real)
      requires Valid() && Jitter(j)
      modifies entries`state, entries`expiry
      ensures Valid()
      ensures forall e :: e in entries ==>
                if IdentOf(e.record) == IdentOf(r) && (old(e.state) == EntryState.Poof || old(e.state) == PoofFinal) && a == e.poofAddress
                then e.state == EntryState.Valid && e.expiry == ExpiryAt(e.timestamp, e.record.ttl, 80, j)
                else unchanged(e)
    {
      hide IdentOf, ExpiryAt, Table, Agrees;
      var e := LookupRecord(r);
      if e != null && (e.state == EntryState.Poof || e.state == PoofFinal) && a == e.poofAddress {
        e.state := EntryState.Valid;
        e.NextExpiry(80, j);
      }
    }
  }
}
