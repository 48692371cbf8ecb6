/** When two records count as the same (avahi_key_equal, avahi_record_equal_no_ttl in
    avahi-core/rr.c). */
module RecordIdent {
  import opened Bytes
  import opened Labels
  import opened Domain
  import opened Records

  /** Names the comparison functions may be called on: every label unescapes. */
  predicate Readable(name: seq<byte>) {
    LabelsOf(name).Some? && NoEmpty(LabelsOf(name).value)
  }

  predicate ReadableRecord(r: Record) {
    Readable(r.key.name) && Typed(r.key.kind, r.data) && (r.data.NameData? || r.data.Srv? ==> Readable(r.data.target))
  }

  /** avahi_key_equal. */
  predicate KeyEqual(a: Key, b: Key)
    requires Readable(a.name) && Readable(b.name)
  {
    DomainEqual(a.name, b.name) && a.kind == b.kind && a.clazz == b.clazz
  }

  /** rdata_equal: names up to letter case, everything else byte by byte. */
  predicate RdataEqual(a: RData, b: RData)
    requires (a.NameData? || a.Srv? ==> Readable(a.target)) && (b.NameData? || b.Srv? ==> Readable(b.target))
  {
    match (a, b)
    case (NameData(s), NameData(t)) => DomainEqual(s, t)
    case (Srv(p, w, q, s), Srv(p', w', q', t)) => p == p' && w == w' && q == q' && DomainEqual(s, t)
    case _ => a == b
  }

  /** avahi_record_equal_no_ttl. */
  predicate RecordEqual(a: Record, b: Record)
    requires ReadableRecord(a) && ReadableRecord(b)
  {
    KeyEqual(a.key, b.key) && RdataEqual(a.data, b.data)
  }

  /** A name as its comparison sees it. */
  function FoldName(name: seq<byte>): seq<Label> {
    match LabelsOf(name)
    case None => [name]
    case Some(ls) => FoldAll(ls)
  }

  datatype DataIdent =
    | Named(target: seq<Label>)
    | Service(priority: uint16, weight: uint16, port: uint16, target: seq<Label>)
    | Plain(data: RData)

  datatype KeyIdent = KeyIdent(name: seq<Label>, clazz: uint16, kind: uint16)

  datatype Ident = Ident(key: KeyIdent, data: DataIdent)

  function IdentOfKey(k: Key): KeyIdent {
    KeyIdent(FoldName(k.name), k.clazz, k.kind)
  }

  function IdentOfData(d: RData): DataIdent {
    match d
    case NameData(target) => Named(FoldName(target))
    case Srv(priority, weight, port, target) => Service(priority, weight, port, FoldName(target))
    case _ => Plain(d)
  }

  /** What is left of a record when its TTL and the letter case of its names are ignored. */
  function IdentOf(r: Record): Ident {
    Ident(IdentOfKey(r.key), IdentOfData(r.data))
  }

  lemma NamesAgree(a: seq<byte>, b: seq<byte>)
    requires Readable(a) && Readable(b)
    ensures DomainEqual(a, b) <==> FoldName(a) == FoldName(b)
  {
    hide LabelsOf, FoldAll, EqualLabels;
    EqualLabelsFold(LabelsOf(a).value, LabelsOf(b).value);
  }

  lemma KeyEqualIdent(a: Key, b: Key)
    requires Readable(a.name) && Readable(b.name)
    ensures KeyEqual(a, b) <==> IdentOfKey(a) == IdentOfKey(b)
  {
    hide DomainEqual, FoldName;
    NamesAgree(a.name, b.name);
  }

  /** The pairwise comparison is equality of identities, so it is an equivalence. */
  lemma RecordEqualIdent(a: Record, b: Record)
    requires ReadableRecord(a) && ReadableRecord(b)
    ensures RecordEqual(a, b) <==> IdentOf(a) == IdentOf(b)
  {
    hide DomainEqual, FoldName, Readable, IdentOfKey;
    KeyEqualIdent(a.key, b.key);
    if (a.data.NameData? || a.data.Srv?) && (b.data.NameData? || b.data.Srv?) {
      NamesAgree(a.data.target, b.data.target);
    }
  }

  /** avahi_key_hash, and why the key index of the cache and of the server works: equal keys
      have equal hashes. */
  function KeyHash(k: Key): nat
    requires Readable(k.name)
  {
    (DomainHash(k.name) as int + k.kind + k.clazz) % 0x1_0000_0000
  }

  lemma EqualKeysHashEqual(a: Key, b: Key)
    requires Readable(a.name) && Readable(b.name) && KeyEqual(a, b)
    ensures KeyHash(a) == KeyHash(b)
  {
    hide LabelsOf, EqualLabels, HashLabels;
    EqualLabelsFold(LabelsOf(a.name).value, LabelsOf(b.name).value);
    HashLabelsFold(0, LabelsOf(a.name).value, LabelsOf(b.name).value);
  }
}
