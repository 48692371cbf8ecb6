/** The order of records that decides between simultaneous probes: avahi_record_lexicographical_compare
    in avahi-core/rr.c and avahi_binary_domain_cmp in avahi-core/domain-util.c. The comparisons of
    the C library are taken to return -1, 0 or 1. */
module RecordOrder {
  import opened Bytes
  import opened Labels
  import opened Domain
  import opened Records
  import opened RecordIdent

  /** The order of a dictionary: strcmp on strings without their terminator, memcmp on blocks of
      one length. */
  function Lex(a: seq<int>, b: seq<int>): (r: int)
    ensures -1 <= r <= 1
  {
    if a == [] then (if b == [] then 0 else -1)
    else if b == [] then 1
    else if a[0] != b[0] then (if a[0] < b[0] then -1 else 1)
    else Lex(a[1..], b[1..])
  }

  lemma {:induction false} LexZero(a: seq<int>, b: seq<int>)
    ensures Lex(a, b) == 0 <==> a == b
  {
    if a != [] && b != [] {
      LexZero(a[1..], b[1..]);
      assert a == [a[0]] + a[1..] && b == [b[0]] + b[1..];
    }
  }

  lemma {:induction false} LexFlip(a: seq<int>, b: seq<int>)
    ensures Lex(b, a) == -Lex(a, b)
  {
    if a != [] && b != [] {
      LexFlip(a[1..], b[1..]);
    }
  }

  lemma {:induction false} LexTrans(a: seq<int>, b: seq<int>, c: seq<int>)
    requires Lex(a, b) <= 0 && Lex(b, c) <= 0
    ensures Lex(a, c) <= 0
    ensures Lex(a, b) < 0 || Lex(b, c) < 0 ==> Lex(a, c) < 0
  {
    if a != [] && b != [] && c != [] && a[0] == b[0] == c[0] {
      LexTrans(a[1..], b[1..], c[1..]);
    }
  }

  /** lexicographical_memcmp: of two blocks of which one begins with the other, the shorter one is
      the greater. */
  function LexMem(a: seq<int>, b: seq<int>): int {
    var c := if |a| < |b| then |a| else |b|;
    var r := Lex(a[..c], b[..c]);
    if r != 0 then r
    else if |a| == |b| then 0
    else if |a| == c then 1
    else -1
  }

  /** avahi_binary_domain_cmp on parsed names: an exhausted name goes on yielding empty labels. */
  function CompareNames(a: seq<Label>, b: seq<Label>): int
    decreases |a| + |b|
  {
    var ca, cb := if a == [] then [] else a[0], if b == [] then [] else b[0];
    var ra, rb := if a == [] then [] else a[1..], if b == [] then [] else b[1..];
    var r := Lex(ca, cb);
    if r != 0 then r
    else if ra == [] && rb == [] then 0
    else CompareNames(ra, rb)
  }

  /** The loop of avahi_binary_domain_cmp over its two cursors. */
  method BinaryDomainCmp(a: seq<byte>, b: seq<byte>) returns (r: int)
    requires LabelsOf(a).Some? && LabelsOf(b).Some?
    ensures r == CompareNames(LabelsOf(a).value, LabelsOf(b).value)
  {
    var p, q := a, b;
    while true
      invariant LabelsOf(p).Some? && LabelsOf(q).Some?
      invariant CompareNames(LabelsOf(a).value, LabelsOf(b).value) == CompareNames(LabelsOf(p).value, LabelsOf(q).value)
      decreases |p| + |q|
    {
      FirstLabel(p);
      FirstLabel(q);
      var u, v := Unescape(p, LABEL_MAX), Unescape(q, LABEL_MAX);
      hide LabelsOf, Unescape;
      r := Lex(u.head, v.head);
      if r != 0 {
        return;
      }
      if u.rest == [] && v.rest == [] {
        return 0;
      }
      p, q := u.rest, v.rest;
    }
  }

  lemma FirstLabel(s: seq<byte>)
    requires LabelsOf(s).Some?
    ensures Unescape(s, LABEL_MAX).Split? && LabelsOf(Unescape(s, LABEL_MAX).rest).Some?
    ensures var u, ls := Unescape(s, LABEL_MAX), LabelsOf(s).value;
            if ls == [] then u == Split([], []) else u.head == ls[0] && LabelsOf(u.rest).value == ls[1..] && |u.rest| < |s|
    ensures LabelsOf(s).value == [] <==> s == []
    ensures LabelsOf(Unescape(s, LABEL_MAX).rest).value == [] <==> Unescape(s, LABEL_MAX).rest == []
  {
  }

  /** A name the records may hold, label by label. */
  function NameOf(name: seq<byte>): seq<Label> {
    match LabelsOf(name)
    case None => []
    case Some(ls) => ls
  }

  function CompareInt(a: int, b: int): int {
    if a == b then 0 else if a < b then -1 else 1
  }

  function Then(r: int, s: int): int {
    if r != 0 then r else s
  }

  /** The comparison of rdata of one type. A serialized string list is never empty. */
  function CompareData(a: RData, b: RData): int {
    match (a, b)
    case (NameData(s), NameData(t)) => CompareNames(NameOf(s), NameOf(t))
    case (Srv(p, w, q, s), Srv(p', w', q', t)) =>
      Then(CompareInt(p, p'), Then(CompareInt(w, w'), Then(CompareInt(q, q'), CompareNames(NameOf(s), NameOf(t)))))
    case (Hinfo(c, o), Hinfo(c', o')) => Then(Lex(c, c'), Lex(o, o'))
    case (Txt(s), Txt(t)) => LexMem(TxtWire(s), TxtWire(t))
    case (Address4(s), Address4(t)) => Lex(s, t)
    case (Address6(s), Address6(t)) => Lex(s, t)
    case (Generic(s), Generic(t)) => LexMem(s, t)
    case _ => 0
  }

  /** avahi_record_lexicographical_compare. */
  function Compare(a: Record, b: Record): int {
    Then(CompareInt(a.key.clazz, b.key.clazz), Then(CompareInt(a.key.kind, b.key.kind), CompareData(a.data, b.data)))
  }

  /** Every record as one sequence of numbers, so that the comparison is that of a dictionary. A
      string ends with 0, less than its bytes; a block ends with 256, more than its bytes. */
  function NameCode(ls: seq<Label>): seq<int> {
    if ls == [] then [] else ls[0] + [0] + NameCode(ls[1..])
  }

  function Sealed(block: seq<int>): seq<int> {
    block + [256]
  }

  function DataCode(d: RData): seq<int> {
    match d
    case NameData(target) => NameCode(NameOf(target))
    case Srv(priority, weight, port, target) => [priority] + ([weight] + ([port] + NameCode(NameOf(target))))
    case Hinfo(cpu, os) => cpu + [0] + os
    case Txt(strings) => Sealed(TxtWire(strings))
    case Address4(address) => address
    case Address6(address) => address
    case Generic(bytes) => Sealed(bytes)
  }

  function Code(r: Record): seq<int> {
    [r.key.clazz] + ([r.key.kind] + DataCode(r.data))
  }

  lemma LexCons(x: int, a: seq<int>, y: int, b: seq<int>)
    ensures Lex([x] + a, [y] + b) == Then(CompareInt(x, y), Lex(a, b))
  {
    assert ([x] + a)[1..] == a && ([y] + b)[1..] == b;
  }

  /** Two terminated strings, and what follows them. */
  lemma {:induction false} LexStrings(s: seq<int>, t: seq<int>, a: seq<int>, b: seq<int>)
    requires (forall i :: 0 <= i < |s| ==> s[i] > 0) && (forall i :: 0 <= i < |t| ==> t[i] > 0)
    ensures Lex(s + [0] + a, t + [0] + b) == Then(Lex(s, t), Lex(a, b))
  {
    if s != [] && t != [] {
      assert (s + [0] + a)[1..] == s[1..] + [0] + a && (t + [0] + b)[1..] == t[1..] + [0] + b;
      LexStrings(s[1..], t[1..], a, b);
    } else {
      assert s == [] ==> s + [0] + a == [0] + a;
      assert t == [] ==> t + [0] + b == [0] + b;
      LexCons(0, a, 0, b);
    }
  }

  lemma {:induction false} LexBlocks(s: seq<int>, t: seq<int>)
    requires (forall i :: 0 <= i < |s| ==> s[i] < 256) && (forall i :: 0 <= i < |t| ==> t[i] < 256)
    ensures Lex(s + [256], t + [256]) == LexMem(s, t)
  {
    if s != [] && t != [] {
      LexBlocks(s[1..], t[1..]);
      LexMemCons(s, t);
      assert (s + [256])[1..] == s[1..] + [256] && (t + [256])[1..] == t[1..] + [256];
    } else {
      assert s == [] ==> s + [256] == [256];
      assert t == [] ==> t + [256] == [256];
    }
  }

  lemma LexMemCons(s: seq<int>, t: seq<int>)
    requires s != [] && t != []
    ensures LexMem(s, t) == if s[0] != t[0] then CompareInt(s[0], t[0]) else LexMem(s[1..], t[1..])
  {
    var c := if |s| < |t| then |s| else |t|;
    assert s[..c][1..] == s[1..][..c - 1] && t[..c][1..] == t[1..][..c - 1];
  }

  /** Labels as they are in readable names: neither empty nor with a NUL. */
  predicate Plain(ls: seq<Label>) {
    forall i :: 0 <= i < |ls| ==> ls[i] != [] && Bytes.Text(ls[i])
  }

  lemma {:induction false} CompareNamesCode(a: seq<Label>, b: seq<Label>)
    requires Plain(a) && Plain(b)
    ensures CompareNames(a, b) == Lex(NameCode(a), NameCode(b))
    decreases |a| + |b|
  {
    if a == [] || b == [] {
    } else {
      Positive(a[0]);
      Positive(b[0]);
      LexStrings(a[0], b[0], NameCode(a[1..]), NameCode(b[1..]));
      CompareNamesCode(a[1..], b[1..]);
    }
  }

  lemma Positive(l: Label)
    requires Bytes.Text(l)
    ensures forall i :: 0 <= i < |l| ==> l[i] > 0
  {
    assert forall i :: 0 <= i < |l| ==> l[i] in l;
  }

  /** A record as a probe carries it: readable names, the data its type says. */
  predicate Comparable(r: Record) {
    Typed(r.key.kind, r.data) && (r.data.NameData? || r.data.Srv? ==> Plain(NameOf(r.data.target)))
  }

  lemma CompareDataCode(a: RData, b: RData, kind: uint16)
    requires Typed(kind, a) && Typed(kind, b)
    requires (a.NameData? || a.Srv? ==> Plain(NameOf(a.target))) && (b.NameData? || b.Srv? ==> Plain(NameOf(b.target)))
    ensures CompareData(a, b) == Lex(DataCode(a), DataCode(b))
  {
    hide NameCode, CompareNames, Lex, LexMem, NameOf;
    match a {
      case NameData(s) => CompareNamesCode(NameOf(s), NameOf(b.target));
      case Srv(p, w, q, s) =>
        var c, d := NameCode(NameOf(s)), NameCode(NameOf(b.target));
        CompareNamesCode(NameOf(s), NameOf(b.target));
        LexCons(q, c, b.port, d);
        LexCons(w, [q] + c, b.weight, [b.port] + d);
        LexCons(p, [w] + ([q] + c), b.priority, [b.weight] + ([b.port] + d));
      case Hinfo(c, o) =>
        Positive(c);
        Positive(b.cpu);
        LexStrings(c, b.cpu, o, b.os);
      case Txt(s) => LexBlocks(TxtWire(s), TxtWire(b.strings));
      case Generic(s) => LexBlocks(s, b.bytes);
      case Address4(_) =>
      case Address6(_) =>
    }
  }

  /** The comparison of records is the dictionary order of their codes. */
  lemma CompareCode(a: Record, b: Record)
    requires Comparable(a) && Comparable(b)
    ensures Compare(a, b) == Lex(Code(a), Code(b))
  {
    hide CompareData, DataCode, Lex;
    if a.key.kind == b.key.kind {
      CompareDataCode(a.data, b.data, a.key.kind);
    }
    LexCons(a.key.kind, DataCode(a.data), b.key.kind, DataCode(b.data));
    LexCons(a.key.clazz, [a.key.kind] + DataCode(a.data), b.key.clazz, [b.key.kind] + DataCode(b.data));
  }

  /** So it is a total order: antisymmetric up to equal codes, transitive, and total. */
  lemma CompareOrder(a: Record, b: Record, c: Record)
    requires Comparable(a) && Comparable(b) && Comparable(c)
    ensures Compare(b, a) == -Compare(a, b)
    ensures Compare(a, b) == 0 <==> Code(a) == Code(b)
    ensures Compare(a, b) <= 0 && Compare(b, c) <= 0 ==> Compare(a, c) <= 0
    ensures Compare(a, b) <= 0 && Compare(b, c) <= 0 && (Compare(a, b) < 0 || Compare(b, c) < 0) ==> Compare(a, c) < 0
  {
    hide Code, Compare, Lex, Comparable;
    CompareCode(a, b);
    CompareCode(b, a);
    CompareCode(b, c);
    CompareCode(a, c);
    LexFlip(Code(a), Code(b));
    LexZero(Code(a), Code(b));
    if Compare(a, b) <= 0 && Compare(b, c) <= 0 {
      LexTrans(Code(a), Code(b), Code(c));
    }
  }

  /** Records the comparison cannot tell apart: names label by label, everything else as it goes
      over the wire. */
  predicate SameData(a: RData, b: RData) {
    match (a, b)
    case (NameData(s), NameData(t)) => NameOf(s) == NameOf(t)
    case (Srv(p, w, q, s), Srv(p', w', q', t)) => p == p' && w == w' && q == q' && NameOf(s) == NameOf(t)
    case (Txt(s), Txt(t)) => TxtWire(s) == TxtWire(t)
    case _ => a == b
  }

  lemma {:induction false} SameNames(a: seq<Label>, b: seq<Label>)
    requires Plain(a) && Plain(b)
    ensures CompareNames(a, b) == 0 <==> a == b
    decreases |a| + |b|
  {
    if a != [] && b != [] {
      LexZero(a[0], b[0]);
      SameNames(a[1..], b[1..]);
      assert a == [a[0]] + a[1..] && b == [b[0]] + b[1..];
    }
  }

  lemma LexMemZero(a: seq<int>, b: seq<int>)
    ensures LexMem(a, b) == 0 <==> a == b
  {
    var c := if |a| < |b| then |a| else |b|;
    LexZero(a[..c], b[..c]);
    assert |a| == |b| ==> a[..c] == a && b[..c] == b;
  }

  /** Two records compare equal exactly when they are the same but for name and TTL. */
  lemma CompareZero(a: Record, b: Record)
    requires Comparable(a) && Comparable(b)
    ensures Compare(a, b) == 0 <==> a.key.clazz == b.key.clazz && a.key.kind == b.key.kind && SameData(a.data, b.data)
  {
    hide NameOf, CompareNames, Lex, LexMem;
    if a.key.kind == b.key.kind {
      match a.data {
        case NameData(s) => SameNames(NameOf(s), NameOf(b.data.target));
        case Srv(_, _, _, s) => SameNames(NameOf(s), NameOf(b.data.target));
        case Hinfo(c, o) =>
          LexZero(c, b.data.cpu);
          LexZero(o, b.data.os);
        case Txt(s) => LexMemZero(TxtWire(s), TxtWire(b.data.strings));
        case Generic(s) => LexMemZero(s, b.data.bytes);
        case Address4(s) => LexZero(s, b.data.address);
        case Address6(s) => LexZero(s, b.data.address);
      }
    }
  }
}
