/** The table of names of a packet (avahi-core/dns.c) in the hash table it is kept in. */
module NameTables {
  import opened Bytes
  import opened NameCodec
  import opened NameRollback
  import opened HashMaps

  /** avahi_string_hash; a byte above 127 is a negative `char` and is added as such. */
  function StringHash(s: seq<byte>): uint32 {
    if s == [] then 0
    else
      var b := s[|s| - 1];
      (31 * StringHash(s[..|s| - 1]) as int + (if b < 0x80 then b as int else b as int - 0x100)) % 0x1_0000_0000
  }

  /** avahi_string_equal. */
  predicate StringEqual(a: seq<byte>, b: seq<byte>) {
    a == b
  }

  function Itself(s: seq<byte>): seq<byte> {
    s
  }

  type Names = HashMap<seq<byte>, nat, seq<byte>>

  /** The hash table with the callbacks of the packet code. */
  ghost predicate Named(t: Names)
    reads t, t.buckets, t.list
  {
    t.Valid() && t.ident == Itself
  }

  /** What the hash table stands for. */
  ghost function TableOf(t: Names): NameTable
    reads t
  {
    map n | n in t.model :: t.model[n].value
  }

  method NewNames() returns (t: Names)
    ensures fresh(t) && fresh(t.buckets) && Named(t) && TableOf(t) == map[]
  {
    t := new HashMap((s: seq<byte>) => StringHash(s), (a: seq<byte>, b: seq<byte>) => StringEqual(a, b), Itself);
  }

  /** Looking a suffix up. */
  method Find(t: Names, name: seq<byte>) returns (offset: Option<nat>)
    requires Named(t)
    ensures offset == if name in TableOf(t) then Some(TableOf(t)[name]) else None
  {
    offset := t.Lookup(name);
  }

  /** A label was written at an offset; a name that is known keeps its offset. */
  method RememberName(t: Names, name: seq<byte>, offset: nat)
    requires Named(t)
    modifies t`list, t`model, t.buckets
    ensures Named(t) && TableOf(t) == Remember(old(TableOf(t)), name, offset)
  {
    var present := t.Insert(name, offset);
  }

  /** avahi_dns_packet_cleanup_name_table: the loop over the table removes from the table what points
      at or behind the new end. */
  method CleanupNameTable(t: Names, size: nat)
    requires Named(t)
    modifies t`list, t`model, t.buckets
    ensures Named(t) && TableOf(t) == Swept(old(TableOf(t)), size)
  {
    t.ForeachRemoving((name: seq<byte>, offset: nat) => offset >= size);
  }
}
