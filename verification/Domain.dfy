/** Whole domain names: normal form, validity, comparison and hashing
    (avahi-common/domain.c). */
module Domain {
  import opened Bytes
  import opened Labels
  import Utf8

  /** avahi_normalize_name into a buffer the result fits into. */
  function Normalize(s: seq<byte>): (r: Option<seq<byte>>) {
    match LabelsOf(s)
    case None => None
    case Some(ls) =>
      if ls == [[]] then Some([])
      else if [] in ls then None
      else Some(Join(ls))
  }

  lemma LabelsOfGood(s: seq<byte>)
    requires Bytes.Text(s) && LabelsOf(s).Some? && [] !in LabelsOf(s).value
    ensures Good(LabelsOf(s).value)
  {
    hide GoodLabel;
    var ls := LabelsOf(s).value;
    forall i | 0 <= i < |ls| ensures GoodLabel(ls[i]) {
      assert ls[i] in ls;
    }
  }

  lemma EmptyNormal()
    ensures Normal([])
  {
  }

  /** What normalizing returns is in normal form, and normalizing it again changes nothing. */
  lemma NormalizeNormal(s: seq<byte>)
    requires Bytes.Text(s) && Normalize(s).Some?
    ensures Normal(Normalize(s).value) && Bytes.Text(Normalize(s).value)
    ensures Normalize(Normalize(s).value) == Normalize(s)
  {
    hide LabelsOf, Join, Normal;
    var ls := LabelsOf(s).value;
    EmptyNormal();
    if ls != [[]] {
      LabelsOfGood(s);
      LabelsOfJoin(ls);
      NormalIsFixed(Join(ls));
    } else {
      NormalIsFixed([]);
    }
  }

  lemma NormalIsFixed(name: seq<byte>)
    requires Normal(name)
    ensures Normalize(name) == Some(name)
  {
    hide LabelsOf, Join;
    var ls := LabelsOf(name).value;
    assert [] !in ls;
    assert ls == [[]] ==> [] in ls;
  }

  /** A label with a NUL in it has no way back: its escape is rejected. */
  lemma {:induction false} ScanNul(l: Label, tail: seq<byte>, room: nat)
    requires 0 in l && Boundary(tail)
    ensures Scan(Escape(l) + tail, room) == Malformed
  {
    hide Scan, Next, EscapeByte;
    var e, more := EscapeByte(l[0]), Escape(l[1..]) + tail;
    assert Escape(l) + tail == e + more;
    if l[0] == 0 {
      NulIsBad(more, room);
    } else {
      ScanNul(l[1..], tail, if room > 0 then room - 1 else 0);
      NextEscapeByte(l[0], more);
      assert (e + more)[|e|..] == more;
      ScanCons(e + more, room);
    }
  }

  lemma ScanCons(s: seq<byte>, room: nat)
    requires Next(s).Byte?
    requires room > 0 ==> Scan(s[Next(s).n..], room - 1) == Malformed
    ensures Scan(s, room) == Malformed
  {
    hide Next;
  }

  lemma NulIsBad(more: seq<byte>, room: nat)
    ensures Scan(EscapeByte(0) + more, room) == Malformed
  {
    var s := EscapeByte(0) + more;
    assert s[0] == BACKSLASH && s[1] == 48 && s[2] == 48 && s[3] == 48;
  }

  /** Normalizing a name that is already spelled in normal form gives it back, or rejects it
      because some label is not a good one. */
  lemma {:induction false} LabelsOfSpelled(ls: seq<Label>)
    requires forall i :: 0 <= i < |ls| ==> 1 <= |ls[i]| < LABEL_MAX
    ensures LabelsOf(Join(ls)) == if Good(ls) then Some(ls) else None
  {
    hide Escape, Unescape, GoodLabel;
    if Good(ls) {
      LabelsOfJoin(ls);
    } else {
      LabelsOfSpelled(ls[1..]);
      var tail := if |ls| == 1 then [] else [DOT] + Join(ls[1..]);
      assert Join(ls) == Escape(ls[0]) + tail;
      assert |ls| == 1 ==> ls[1..] == [] && Join(ls[1..]) == [];
      assert tail != [] ==> tail[1..] == Join(ls[1..]);
      SpelledLabel(ls[0], tail);
      GoodParts(ls);
    }
  }

  lemma GoodParts(ls: seq<Label>)
    requires ls != []
    ensures Good(ls) <==> GoodLabel(ls[0]) && Good(ls[1..])
  {
    hide GoodLabel;
    if GoodLabel(ls[0]) && Good(ls[1..]) {
      forall i | 0 <= i < |ls| ensures GoodLabel(ls[i]) {
        assert i > 0 ==> ls[i] == ls[1..][i - 1];
      }
    }
  }

  lemma NormalizeSpelled(ls: seq<Label>)
    requires forall i :: 0 <= i < |ls| ==> 1 <= |ls[i]| < LABEL_MAX
    ensures Normalize(Join(ls)) == if Good(ls) then Some(Join(ls)) else None
  {
    hide LabelsOf, GoodLabel;
    LabelsOfSpelled(ls);
    if Good(ls) {
      LabelsOfJoin(ls);
      NormalIsFixed(Join(ls));
    }
  }

  lemma SpelledLabel(l: Label, tail: seq<byte>)
    requires 1 <= |l| < LABEL_MAX && Boundary(tail)
    ensures Escape(l) + tail != []
    ensures Unescape(Escape(l) + tail, LABEL_MAX)
         == if GoodLabel(l) then Split(l, if tail == [] then [] else tail[1..]) else Malformed
  {
    hide Scan, Escape, Utf8.Valid;
    if Bytes.Text(l) {
      ScanEscape(l, tail, LABEL_MAX);
    } else {
      ScanNul(l, tail, LABEL_MAX);
    }
  }

  /** avahi_is_valid_domain_name: short enough, and no empty label but for the root. */
  predicate ValidDomainName(t: seq<byte>) {
    && |t| < DOMAIN_NAME_MAX
    && LabelsOf(t).Some?
    && (LabelsOf(t).value == [[]] || [] !in LabelsOf(t).value)
  }

  lemma NormalValid(name: seq<byte>)
    requires Normal(name)
    ensures ValidDomainName(name) == (|name| < DOMAIN_NAME_MAX)
  {
    hide LabelsOf, Join;
    assert [] !in LabelsOf(name).value;
  }

  function Lower(b: byte): byte {
    if 65 <= b <= 90 then b + 32 else b
  }

  function Fold(l: Label): (f: Label)
    ensures |f| == |l|
  {
    seq(|l|, i requires 0 <= i < |l| => Lower(l[i]))
  }

  function FoldAll(ls: seq<Label>): (f: seq<Label>)
    ensures |f| == |ls|
  {
    seq(|ls|, i requires 0 <= i < |ls| => Fold(ls[i]))
  }

  /** avahi_domain_equal on parsed names. An exhausted name goes on yielding empty labels. */
  predicate EqualLabels(a: seq<Label>, b: seq<Label>)
    decreases |a| + |b|
  {
    var ca, cb := if a == [] then [] else a[0], if b == [] then [] else b[0];
    var ra, rb := if a == [] then [] else a[1..], if b == [] then [] else b[1..];
    Fold(ca) == Fold(cb) && ((ra == [] && rb == []) || EqualLabels(ra, rb))
  }

  /** The accumulator of avahi_domain_hash over one label; a byte above 127 is a negative
      `char` and is added as such. */
  function HashLabel(hash: uint32, l: Label): uint32
    decreases |l|
  {
    if l == [] then hash else HashLabel(Mix(hash, Lower(l[0])), l[1..])
  }

  function Mix(hash: uint32, b: byte): uint32 {
    var c: int := if b < 0x80 then b as int else b as int - 0x100;
    (31 * hash as int + c) % 0x1_0000_0000
  }

  function HashLabels(hash: uint32, ls: seq<Label>): uint32
    decreases |ls|
  {
    if ls == [] then hash else HashLabels(HashLabel(hash, ls[0]), ls[1..])
  }

  predicate NoEmpty(ls: seq<Label>) {
    forall i :: 0 <= i < |ls| ==> ls[i] != []
  }

  /** Names without empty labels are equal exactly when they agree label by label up to
      letter case. */
  lemma {:induction false} EqualLabelsFold(a: seq<Label>, b: seq<Label>)
    requires NoEmpty(a) && NoEmpty(b)
    ensures EqualLabels(a, b) <==> FoldAll(a) == FoldAll(b)
    decreases |a| + |b|
  {
    if a == [] && b == [] {
    } else if a == [] || b == [] {
      assert |FoldAll(a)| != |FoldAll(b)|;
      assert a != [] ==> |Fold(a[0])| > 0;
      assert b != [] ==> |Fold(b[0])| > 0;
    } else {
      EqualLabelsFold(a[1..], b[1..]);
      FoldAllCons(a);
      FoldAllCons(b);
      hide FoldAll, Fold;
      if a[1..] == [] && b[1..] == [] {
        assert FoldAll(a[1..]) == FoldAll(b[1..]);
      }
    }
  }

  lemma FoldAllCons(a: seq<Label>)
    requires a != []
    ensures FoldAll(a)[0] == Fold(a[0]) && FoldAll(a)[1..] == FoldAll(a[1..])
    ensures FoldAll(a) == [Fold(a[0])] + FoldAll(a[1..])
  {
  }

  lemma {:induction false} HashLabelFold(hash: uint32, a: Label, b: Label)
    requires Fold(a) == Fold(b)
    ensures HashLabel(hash, a) == HashLabel(hash, b)
    decreases |a|
  {
    assert |Fold(a)| == |Fold(b)|;
    if a != [] {
      assert Fold(a)[0] == Lower(a[0]) && Fold(b)[0] == Lower(b[0]);
      assert Fold(a[1..]) == Fold(a)[1..];
      assert Fold(b[1..]) == Fold(b)[1..];
      HashLabelFold(Mix(hash, Lower(a[0])), a[1..], b[1..]);
    }
  }

  lemma {:induction false} HashLabelsFold(hash: uint32, a: seq<Label>, b: seq<Label>)
    requires FoldAll(a) == FoldAll(b)
    ensures HashLabels(hash, a) == HashLabels(hash, b)
    decreases |a|
  {
    assert |FoldAll(a)| == |FoldAll(b)|;
    if a != [] {
      FoldAllCons(a);
      FoldAllCons(b);
      HashLabelFold(hash, a[0], b[0]);
      HashLabelsFold(HashLabel(hash, a[0]), a[1..], b[1..]);
    }
  }

  /** avahi_domain_equal, and avahi_domain_hash. Both assert that every label unescapes. */
  predicate DomainEqual(a: seq<byte>, b: seq<byte>)
    requires LabelsOf(a).Some? && LabelsOf(b).Some?
  {
    EqualLabels(LabelsOf(a).value, LabelsOf(b).value)
  }

  function DomainHash(a: seq<byte>): uint32
    requires LabelsOf(a).Some?
  {
    HashLabels(0, LabelsOf(a).value)
  }

  lemma NormalNoEmpty(name: seq<byte>)
    requires Normal(name)
    ensures NoEmpty(LabelsOf(name).value)
  {
    hide LabelsOf, Join;
    var ls := LabelsOf(name).value;
    forall i | 0 <= i < |ls| ensures ls[i] != [] {
      assert GoodLabel(ls[i]);
    }
  }

  /** Equality of names in normal form is an equivalence that hashing respects: the
      condition every hash table keyed by names relies on. */
  lemma EqualNamesHashEqual(a: seq<byte>, b: seq<byte>, c: seq<byte>)
    requires Normal(a) && Normal(b) && Normal(c)
    ensures DomainEqual(a, a)
    ensures DomainEqual(a, b) ==> DomainEqual(b, a)
    ensures DomainEqual(a, b) && DomainEqual(b, c) ==> DomainEqual(a, c)
    ensures DomainEqual(a, b) ==> DomainHash(a) == DomainHash(b)
  {
    hide LabelsOf, Join, EqualLabels, HashLabels;
    var la, lb, lc := LabelsOf(a).value, LabelsOf(b).value, LabelsOf(c).value;
    NormalNoEmpty(a);
    NormalNoEmpty(b);
    NormalNoEmpty(c);
    EqualLabelsFold(la, la);
    EqualLabelsFold(la, lb);
    EqualLabelsFold(lb, la);
    EqualLabelsFold(lb, lc);
    EqualLabelsFold(la, lc);
    if DomainEqual(a, b) {
      HashLabelsFold(0, la, lb);
    }
  }
}
