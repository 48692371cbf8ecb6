/** Full service names: putting them together from name, type and domain, and taking them apart
    (avahi_service_name_join, avahi_service_name_split in avahi-common/domain.c). */
module ServiceNames {
  import opened Bytes
  import opened Labels
  import opened Domain
  import opened Normalizer
  import Utf8

  const UNDERSCORE: byte := 95

  predicate Underscored(l: Label) {
    l != [] && l[0] == UNDERSCORE
  }

  /** avahi_is_valid_service_name. */
  predicate ValidServiceName(t: seq<byte>) {
    0 < |t| < LABEL_MAX
  }

  /** avahi_is_valid_service_type_generic. */
  predicate ValidServiceType(t: seq<byte>) {
    && 0 < |t| < DOMAIN_NAME_MAX && LabelsOf(t).Some?
    && forall i :: 0 <= i < |LabelsOf(t).value| ==> |LabelsOf(t).value[i]| > 2 && LabelsOf(t).value[i][0] == UNDERSCORE
  }

  /** What avahi_service_name_join comes to: the joined name, an error, a failed assertion, or
      AVAHI_OK although one of its buffers has no NUL. */
  datatype Joined = Full(name: seq<byte>) | BadName | BadType | BadDomain | Aborted | Unterminated

  /** avahi_service_name_join: type and domain go through buffers of a fixed size. */
  function JoinService(name: Option<seq<byte>>, kind: seq<byte>, domain: seq<byte>): Joined {
    if name.Some? && !ValidServiceName(name.value) then BadName
    else if !ValidServiceType(kind) then BadType
    else if !ValidDomainName(domain) then BadDomain
    else
      match NormalizeInto(kind, DOMAIN_NAME_MAX)
      case Null => BadType
      case Aborted => Joined.Aborted
      case Left(k, kEnded) =>
        match NormalizeInto(domain, DOMAIN_NAME_MAX)
        case Null => BadDomain
        case Aborted => Joined.Aborted
        case Left(d, dEnded) => if kEnded && dEnded then Full(Concatenated(name, k, d)) else Unterminated
  }

  /** The arguments of the final snprintf, put together. */
  function Concatenated(name: Option<seq<byte>>, kind: seq<byte>, domain: seq<byte>): seq<byte> {
    (if name.Some? then Escape(name.value) + [DOT] else []) + kind + [DOT] + domain
  }

  datatype Parts = Parts(name: seq<byte>, kind: seq<byte>, domain: seq<byte>)

  /** The number of labels at the front that start with an underscore. */
  function TypeRun(ls: seq<Label>): (k: nat)
    ensures k <= |ls|
    ensures forall i :: 0 <= i < k ==> Underscored(ls[i])
    ensures k < |ls| ==> !Underscored(ls[k])
  {
    if ls == [] || !Underscored(ls[0]) then 0 else 1 + TypeRun(ls[1..])
  }

  function SplitLabels(name: seq<byte>, ls: seq<Label>): Parts {
    Parts(name, Join(ls[..TypeRun(ls)]), Join(ls[TypeRun(ls)..]))
  }

  /** avahi_service_name_split, into buffers that everything fits into. */
  function SplitService(s: seq<byte>, named: bool): Option<Parts> {
    match LabelsOf(s)
    case None => None
    case Some(ls) =>
      if named && ls != [] then Some(SplitLabels(ls[0], ls[1..])) else Some(SplitLabels([], ls))
  }

  /** A name with a dot at its end reads as the name. */
  lemma {:induction false} LabelsOfDotted(ls: seq<Label>)
    requires Good(ls) && ls != []
    ensures LabelsOf(Join(ls) + [DOT]) == Some(ls)
  {
    hide Unescape, Escape, GoodLabel;
    var rest := ls[1..];
    if rest == [] {
      assert ls == [ls[0]] && [ls[0]] + [] == ls;
      var s := Escape(ls[0]) + [DOT];
      assert Join(ls) + [DOT] == s && s != [];
      UnescapeEscape(ls[0], [DOT]);
      assert [DOT][1..] == [];
    } else {
      LabelsOfDotted(rest);
      var tail := [DOT] + (Join(rest) + [DOT]);
      assert Join(ls) + [DOT] == Escape(ls[0]) + tail;
      UnescapeEscape(ls[0], tail);
      assert tail[1..] == Join(rest) + [DOT];
      assert [ls[0]] + rest == ls;
    }
  }

  lemma {:induction false} JoinConcat(a: seq<Label>, b: seq<Label>)
    requires a != [] && b != []
    ensures Join(a + b) == Join(a) + [DOT] + Join(b)
  {
    hide Escape;
    assert (a + b)[0] == a[0] && (a + b)[1..] == a[1..] + b;
    if |a| > 1 {
      JoinConcat(a[1..], b);
      var e, m, n := Escape(a[0]), Join(a[1..]), Join(b);
      assert e + [DOT] + (m + [DOT] + n) == e + [DOT] + m + [DOT] + n;
    } else {
      assert a[1..] + b == b;
    }
  }

  /** The whole name reads as the labels of its parts. */
  lemma FullLabels(front: seq<Label>, back: seq<Label>)
    requires Good(front) && Good(back) && front != []
    ensures LabelsOf(Join(front) + [DOT] + Join(back)) == Some(front + back)
  {
    hide LabelsOf, Join, GoodLabel;
    if back == [] {
      LabelsOfDotted(front);
      JoinOfNone();
      assert Join(front) + [DOT] + [] == Join(front) + [DOT];
      assert front + back == front;
    } else {
      JoinConcat(front, back);
      LabelsOfJoin(front + back);
    }
  }

  lemma JoinOfNone()
    ensures Join([]) == []
  {
  }

  lemma {:induction false} TypeRunOf(front: seq<Label>, back: seq<Label>)
    requires forall i :: 0 <= i < |front| ==> Underscored(front[i])
    ensures TypeRun(front + back) == |front| + TypeRun(back)
  {
    if front == [] {
      assert front + back == back;
    } else {
      assert (front + back)[1..] == front[1..] + back;
      TypeRunOf(front[1..], back);
    }
  }

  /** Good labels are told apart by their presentation form. */
  lemma JoinInjective(a: seq<Label>, b: seq<Label>)
    requires Good(a) && Good(b) && Join(a) == Join(b)
    ensures a == b
  {
    LabelsOfJoin(a);
    LabelsOfJoin(b);
  }

  /** Splitting type and domain labels apart gives them back exactly if the first domain label
      does not look like part of a type. */
  lemma SplitBack(name: seq<byte>, kinds: seq<Label>, domains: seq<Label>)
    requires Good(kinds) && Good(domains) && forall i :: 0 <= i < |kinds| ==> Underscored(kinds[i])
    ensures SplitLabels(name, kinds + domains) == Parts(name, Join(kinds), Join(domains))
            <==> domains == [] || !Underscored(domains[0])
  {
    hide Join, GoodLabel, Underscored;
    TypeRunOf(kinds, domains);
    var all, k := kinds + domains, TypeRun(kinds + domains);
    if domains == [] || !Underscored(domains[0]) {
      NoRun(domains);
      assert all[..k] == kinds && all[k..] == domains;
    } else {
      SomeRun(domains);
      assert |all[..k]| > |kinds|;
      if Join(all[..k]) == Join(kinds) {
        JoinInjective(all[..k], kinds);
      }
    }
  }

  lemma NoRun(ls: seq<Label>)
    requires ls == [] || !Underscored(ls[0])
    ensures TypeRun(ls) == 0
  {
  }

  lemma SomeRun(ls: seq<Label>)
    requires ls != [] && Underscored(ls[0])
    ensures TypeRun(ls) > 0
  {
  }

  /** The labels of a domain as normalizing leaves them: none for the root. */
  function DomainLabels(domain: seq<byte>): seq<Label> {
    if LabelsOf(domain).None? || LabelsOf(domain).value == [[]] then [] else LabelsOf(domain).value
  }

  lemma NormalizedDomain(domain: seq<byte>)
    requires Bytes.Text(domain) && ValidDomainName(domain)
    ensures Good(DomainLabels(domain)) && Normalize(domain) == Some(Join(DomainLabels(domain)))
  {
    hide LabelsOf, GoodLabel;
    if LabelsOf(domain).value != [[]] {
      LabelsOfGood(domain);
    }
  }

  lemma NormalizedType(kind: seq<byte>)
    requires Bytes.Text(kind) && ValidServiceType(kind)
    ensures var ls := LabelsOf(kind).value;
            && Good(ls) && ls != [] && Normalize(kind) == Some(Join(ls))
            && forall i :: 0 <= i < |ls| ==> Underscored(ls[i])
  {
    hide LabelsOf, GoodLabel, Join;
    var ls := LabelsOf(kind).value;
    assert [] !in ls;
    LabelsOfGood(kind);
    var root: seq<Label> := [[]];
    assert root[0] in root;
    SomeLabels(kind);
  }

  lemma SomeLabels(s: seq<byte>)
    requires s != [] && LabelsOf(s).Some?
    ensures LabelsOf(s).value != []
  {
  }

  /** Two lists of labels one behind the other. */
  lemma JoinLength(a: seq<Label>, b: seq<Label>)
    ensures |Join(a + b)| == |Join(a)| + |Join(b)| + if a != [] && b != [] then 1 else 0
  {
    hide Join;
    JoinOfNone();
    if a == [] {
      assert a + b == b;
    } else if b == [] {
      assert a + b == a;
    } else {
      JoinConcat(a, b);
    }
  }

  /** What is read from a presentation form is not longer than it; an empty label at its end is
      not read. */
  lemma {:induction false} ReadsNoMore(a: seq<Label>)
    requires forall i :: 0 <= i < |a| ==> |a[i]| < LABEL_MAX && Bytes.Text(a[i])
    requires LabelsOf(Join(a)).Some?
    ensures |Join(LabelsOf(Join(a)).value)| + (if |a| > 1 && a[|a| - 1] == [] then 1 else 0) <= |Join(a)|
    decreases |a|
  {
    hide Scan, Escape, Utf8.Valid, Bytes.Text;
    if a == [] {
    } else {
      var s, rest := Join(a), a[1..];
      var tail := if rest == [] then [] else [DOT] + Join(rest);
      assert s == Escape(a[0]) + tail;
      ScanEscape(a[0], tail, LABEL_MAX);
      assert rest != [] ==> tail[1..] == Join(rest);
      JoinOfNone();
      if s != [] {
        var ls := LabelsOf(s).value;
        assert Unescape(s, LABEL_MAX) == Split(a[0], if rest == [] then [] else Join(rest));
        if rest == [] {
          OneRead(s, a[0]);
        } else {
          ReadsNoMore(rest);
          MoreRead(s, a[0], Join(rest));
          JoinLength([a[0]], LabelsOf(Join(rest)).value);
          JoinOne(a[0]);
          assert |a| > 1 && a[|a| - 1] == rest[|rest| - 1];
          assert |rest| == 1 && rest[0] == [] ==> Join(rest) == Escape([]) == [];
        }
      }
    }
  }

  lemma OneRead(s: seq<byte>, l: Label)
    requires s != [] && Unescape(s, LABEL_MAX) == Split(l, [])
    ensures LabelsOf(s) == Some([l]) && Join([l]) == Escape(l)
  {
    hide Unescape, Escape;
    assert LabelsOf([]) == Some([]) && [l] + [] == [l];
  }

  lemma MoreRead(s: seq<byte>, l: Label, rest: seq<byte>)
    requires s != [] && Unescape(s, LABEL_MAX) == Split(l, rest) && LabelsOf(s).Some?
    ensures LabelsOf(rest).Some? && LabelsOf(s).value == [l] + LabelsOf(rest).value
  {
    hide Unescape;
  }

  lemma SplitIs(s: seq<byte>, name: Option<seq<byte>>, ls: seq<Label>)
    requires LabelsOf(s) == Some(if name.Some? then [name.value] + ls else ls)
    ensures SplitService(s, name.Some?) == Some(SplitLabels(if name.Some? then name.value else [], ls))
  {
    hide LabelsOf, SplitLabels;
    assert name.Some? ==> ([name.value] + ls)[1..] == ls;
  }

  lemma Parsed(name: Option<seq<byte>>, kind: seq<byte>, domain: seq<byte>)
    requires Bytes.Text(kind) && Bytes.Text(domain) && ValidServiceType(kind) && ValidDomainName(domain)
    requires name.Some? ==> ValidServiceName(name.value) && Bytes.Text(name.value) && Utf8.Valid(name.value)
    ensures LabelsOf(kind).Some?
    ensures var ks, ds := LabelsOf(kind).value, DomainLabels(domain);
            var front := if name.Some? then [name.value] + ks else ks;
            && Good(ks) && Good(ds) && Good(front) && front != [] && ks != []
            && (forall i :: 0 <= i < |ks| ==> Underscored(ks[i]))
            && Normalize(kind) == Some(Join(ks)) && Normalize(domain) == Some(Join(ds))
            && Concatenated(name, Join(ks), Join(ds)) == Join(front) + [DOT] + Join(ds)
  {
    hide LabelsOf, Join, Normalize, Underscored, Good, Escape, DomainLabels, ValidServiceType, ValidDomainName, Utf8.Valid, Bytes.Text;
    NormalizedType(kind);
    NormalizedDomain(domain);
    SomeType(kind);
    FrontIs(name, LabelsOf(kind).value);
  }

  lemma SomeType(kind: seq<byte>)
    requires ValidServiceType(kind)
    ensures LabelsOf(kind).Some?
  {
  }

  lemma FrontIs(name: Option<seq<byte>>, ks: seq<Label>)
    requires Good(ks) && ks != []
    requires name.Some? ==> ValidServiceName(name.value) && Bytes.Text(name.value) && Utf8.Valid(name.value)
    ensures var front := if name.Some? then [name.value] + ks else ks;
            Good(front) && Join(front) == (if name.Some? then Escape(name.value) + [DOT] else []) + Join(ks)
  {
    assert name.Some? ==> GoodLabel(name.value);
    hide GoodLabel, Join, Escape, Utf8.Valid;
    if name.Some? {
      JoinOne(name.value);
      JoinConcat([name.value], ks);
    } else {
      assert [] + Join(ks) == Join(ks);
    }
  }

  lemma JoinOne(l: Label)
    ensures Join([l]) == Escape(l)
  {
  }


  ghost predicate Short(ls: seq<Label>) {
    forall i :: 0 <= i < |ls| ==> |ls[i]| < LABEL_MAX && Bytes.Text(ls[i])
  }

  /** The text that is left in a buffer of avahi_service_name_join, by its labels. */
  lemma BufferText(s: seq<byte>, ls: seq<Label>, n: nat) returns (cut: seq<Label>)
    requires n > 0 && NormalizeInto(s, n).Left? && Good(ls)
    requires LabelsOf(s) == Some(ls) || (LabelsOf(s) == Some([[]]) && ls == [])
    ensures Join(cut) == NormalizeInto(s, n).text && |cut| == |ls| && Short(cut)
    ensures if |Join(ls)| < n then cut == ls && NormalizeInto(s, n).ended else |Join(cut)| < |Join(ls)|
  {
    hide LabelsOf, Join, NormalizeInto, GoodLabel;
    JoinOfNone();
    if LabelsOf(s) == Some([[]]) && ls == [] {
      RootLeft(s, n);
      cut := [];
    } else {
      NoneEmpty(ls);
      cut := LeftIs([], true, s, n);
      IntoIs(s, n);
      assert [] + ls == ls && [] + cut == cut;
      CutShort(cut, ls);
      if |Join(ls)| < n {
        cut := ls;
        CutSelf(ls);
        CutShort(ls, ls);
      }
    }
  }

  lemma IntoIs(s: seq<byte>, n: nat)
    requires n > 0
    ensures NormalizeInto(s, n) == NormalizeFrom(Join([]), true, true, s, n)
  {
  }

  lemma NoneEmpty(ls: seq<Label>)
    requires Good(ls)
    ensures [] !in ls
  {
  }

  lemma CutSelf(ls: seq<Label>)
    ensures CutOf(ls, ls)
  {
  }

  lemma CutShort(cut: seq<Label>, ls: seq<Label>)
    requires CutOf(cut, ls) && Good(ls)
    ensures Short(cut) && |cut| == |ls|
  {
    forall i | 0 <= i < |cut| ensures |cut[i]| < LABEL_MAX && Bytes.Text(cut[i]) {
      assert GoodLabel(ls[i]) && cut[i] == ls[i][..|cut[i]|];
    }
  }

  /** The name as a label in front of others. */
  function Fronted(name: Option<seq<byte>>, ls: seq<Label>): seq<Label> {
    if name.Some? then [name.value] + ls else ls
  }

  /** The end of a joined name: the root leaves an empty label behind the last dot. */
  function Ending(ds: seq<Label>): (end: seq<Label>)
    ensures end != []
  {
    if ds == [] then [[]] else ds
  }

  lemma FrontJoin(name: Option<seq<byte>>, ks: seq<Label>, ds: seq<Label>)
    requires ks != []
    ensures Join(Fronted(name, ks) + Ending(ds)) == Concatenated(name, Join(ks), Join(ds))
  {
    hide Join, Escape;
    EmptyLabel();
    JoinOfNone();
    JoinConcat(Fronted(name, ks), Ending(ds));
    if name.Some? {
      JoinOne(name.value);
      JoinConcat([name.value], ks);
    } else {
      assert [] + Join(ks) == Join(ks);
    }
  }

  function NameLength(name: Option<seq<byte>>): nat {
    if name.Some? then |Join([name.value])| + 1 else 0
  }

  lemma FrontLength(name: Option<seq<byte>>, ls: seq<Label>, end: seq<Label>)
    requires ls != []
    ensures |Join(Fronted(name, ls))| == NameLength(name) + |Join(ls)|
    ensures end != [] ==> |Join(Fronted(name, ls) + end)| == NameLength(name) + |Join(ls)| + 1 + |Join(end)|
  {
    hide Join;
    if name.Some? {
      JoinLength([name.value], ls);
    }
    JoinLength(Fronted(name, ls), end);
  }

  lemma EmptyLabel()
    ensures Join([[]]) == []
  {
  }

  /** A name put together from texts that lost something cannot split into the whole texts. */
  lemma SplitsShort(name: Option<seq<byte>>, ks: seq<Label>, ds: seq<Label>, kcut: seq<Label>, dcut: seq<Label>)
    requires name.Some? ==> |name.value| < LABEL_MAX && Bytes.Text(name.value)
    requires |kcut| == |ks| > 0 && |dcut| == |ds| && Short(kcut) && Short(dcut) && Good(ks) && Good(ds)
    requires SplitService(Concatenated(name, Join(kcut), Join(dcut)), name.Some?)
          == Some(Parts(if name.Some? then name.value else [], Join(ks), Join(ds)))
    ensures |Join(ks)| + |Join(ds)| <= |Join(kcut)| + |Join(dcut)|
  {
    hide *;
    JoinSome(ks);
    JoinSome(ds);
    SplitsShorter(name, kcut, dcut, Join(ks), Join(ds));
  }

  lemma SplitsShorter(name: Option<seq<byte>>, kcut: seq<Label>, dcut: seq<Label>, k: seq<byte>, d: seq<byte>)
    requires name.Some? ==> |name.value| < LABEL_MAX && Bytes.Text(name.value)
    requires |kcut| > 0 && Short(kcut) && Short(dcut) && |k| > 0 && (|dcut| > 0 ==> |d| > 0)
    requires SplitService(Concatenated(name, Join(kcut), Join(dcut)), name.Some?)
          == Some(Parts(if name.Some? then name.value else [], k, d))
    ensures |k| + |d| <= |Join(kcut)| + |Join(dcut)|
  {
    hide *;
    var one, two := ReadBack(name, kcut, dcut, k, d);
    Lengths(name, one, two, kcut, dcut);
  }

  lemma JoinSome(ls: seq<Label>)
    requires Good(ls)
    ensures |ls| > 0 ==> |Join(ls)| > 0
  {
    JoinText(ls);
  }

  lemma ReadBack(name: Option<seq<byte>>, kcut: seq<Label>, dcut: seq<Label>, k: seq<byte>, d: seq<byte>)
    returns (one: seq<Label>, two: seq<Label>)
    requires name.Some? ==> |name.value| < LABEL_MAX && Bytes.Text(name.value)
    requires |kcut| > 0 && Short(kcut) && Short(dcut) && |k| > 0
    requires SplitService(Concatenated(name, Join(kcut), Join(dcut)), name.Some?)
          == Some(Parts(if name.Some? then name.value else [], k, d))
    ensures Join(one) == k && Join(two) == d && |one| > 0 && (|d| > 0 ==> |two| > 0)
    ensures |Join(Fronted(name, one + two))| + (if dcut == [] then 1 else 0) <= |Join(Fronted(name, kcut) + Ending(dcut))|
  {
    hide *;
    FrontJoin(name, kcut, dcut);
    one, two := SplitMeans(Concatenated(name, Join(kcut), Join(dcut)), name, k, d);
    ReadLength(name, kcut, dcut);
  }

  /** The lengths on both sides, once what was read is not longer than what was written. */
  lemma Lengths(name: Option<seq<byte>>, one: seq<Label>, two: seq<Label>, kcut: seq<Label>, dcut: seq<Label>)
    requires |one| > 0 && |kcut| > 0 && (|dcut| > 0 ==> |two| > 0)
    requires |Join(Fronted(name, one + two))| + (if dcut == [] then 1 else 0) <= |Join(Fronted(name, kcut) + Ending(dcut))|
    ensures |Join(one)| + |Join(two)| <= |Join(kcut)| + |Join(dcut)|
  {
    hide *;
    FrontLength(name, kcut, Ending(dcut));
    FrontLength(name, one + two, []);
    JoinLength(one, two);
    EndingLength(dcut);
  }

  lemma EndingLength(ds: seq<Label>)
    ensures |Join(Ending(ds))| == |Join(ds)|
  {
    EmptyLabel();
    JoinOfNone();
  }

  /** What was read, by its two parts. */
  lemma SplitMeans(s: seq<byte>, name: Option<seq<byte>>, k: seq<byte>, d: seq<byte>) returns (one: seq<Label>, two: seq<Label>)
    requires SplitService(s, name.Some?) == Some(Parts(if name.Some? then name.value else [], k, d)) && k != []
    ensures LabelsOf(s) == Some(Fronted(name, one + two))
    ensures Join(one) == k && Join(two) == d && one != [] && one + two != [] && (d != [] ==> two != [])
  {
    hide LabelsOf, TypeRun, Join;
    JoinOfNone();
    var ls := LabelsOf(s).value;
    if name.Some? && ls != [] {
      one, two := Halves(ls[1..]);
      assert ls == [ls[0]] + ls[1..];
    } else {
      one, two := Halves(ls);
    }
  }

  lemma Halves(ls: seq<Label>) returns (one: seq<Label>, two: seq<Label>)
    ensures one + two == ls && forall name :: SplitLabels(name, ls) == Parts(name, Join(one), Join(two))
    ensures ls == [] ==> one == []
  {
    hide TypeRun, Join;
    one, two := ls[..TypeRun(ls)], ls[TypeRun(ls)..];
  }

  lemma ReadLength(name: Option<seq<byte>>, kcut: seq<Label>, dcut: seq<Label>)
    requires name.Some? ==> |name.value| < LABEL_MAX && Bytes.Text(name.value)
    requires kcut != [] && Short(kcut) && Short(dcut) && LabelsOf(Join(Fronted(name, kcut) + Ending(dcut))).Some?
    ensures var a := Fronted(name, kcut) + Ending(dcut);
            |Join(LabelsOf(Join(a)).value)| + (if dcut == [] then 1 else 0) <= |Join(a)|
  {
    hide LabelsOf, Join;
    var a := Fronted(name, kcut) + Ending(dcut);
    assert dcut == [] ==> a[|a| - 1] == [];
    ReadsNoMore(a);
  }

  /** Splitting a joined service name gives back the name, the normalized type and the normalized
      domain, exactly if these fit the buffers they go through and the first label of the domain
      does not start with an underscore. */
  lemma ServiceRoundTrip(name: Option<seq<byte>>, kind: seq<byte>, domain: seq<byte>)
    requires Bytes.Text(kind) && Bytes.Text(domain) && ValidServiceType(kind) && ValidDomainName(domain)
    requires name.Some? ==> ValidServiceName(name.value) && Bytes.Text(name.value) && Utf8.Valid(name.value)
    ensures Normalize(kind).Some? && Normalize(domain).Some?
    ensures ComesBack(name, kind, domain, Normalize(kind).value, Normalize(domain).value) <==>
              && |Normalize(kind).value| < DOMAIN_NAME_MAX && |Normalize(domain).value| < DOMAIN_NAME_MAX
              && (DomainLabels(domain) == [] || !Underscored(DomainLabels(domain)[0]))
  {
    hide *;
    Parsed(name, kind, domain);
    var ks, ds := LabelsOf(kind).value, DomainLabels(domain);
    DomainLabelsAre(domain);
    var n := if name.Some? then name.value else [];
    var front := if name.Some? then [name.value] + ks else ks;
    var j := JoinService(name, kind, domain);
    JoinParts(name, kind, domain);
    ComesBackIs(name, kind, domain, Join(ks), Join(ds));
    SizeIs();
    if j.Full? {
      var kcut := BufferText(kind, ks, DOMAIN_NAME_MAX);
      var dcut := BufferText(domain, ds, DOMAIN_NAME_MAX);
      if |Join(ks)| < DOMAIN_NAME_MAX && |Join(ds)| < DOMAIN_NAME_MAX {
        FullLabels(front, ds);
        assert name.Some? ==> front + ds == [name.value] + (ks + ds);
        SplitIs(j.name, name, ks + ds);
        SplitBack(n, ks, ds);
      } else if ComesBack(name, kind, domain, Join(ks), Join(ds)) {
        NameShort(name);
        SplitsShort(name, ks, ds, kcut, dcut);
        assert false;
      }
    } else if |Join(ks)| < DOMAIN_NAME_MAX && |Join(ds)| < DOMAIN_NAME_MAX {
      NormalizeFits(kind, DOMAIN_NAME_MAX);
      NormalizeFits(domain, DOMAIN_NAME_MAX);
      assert false;
    }
  }

  /** The join succeeds, and the split of what it joined gives the three parts. */
  ghost predicate ComesBack(name: Option<seq<byte>>, kind: seq<byte>, domain: seq<byte>, k: seq<byte>, d: seq<byte>) {
    var j := JoinService(name, kind, domain);
    j.Full? && SplitService(j.name, name.Some?) == Some(Parts(if name.Some? then name.value else [], k, d))
  }

  lemma ComesBackIs(name: Option<seq<byte>>, kind: seq<byte>, domain: seq<byte>, k: seq<byte>, d: seq<byte>)
    ensures var j := JoinService(name, kind, domain);
            ComesBack(name, kind, domain, k, d) <==>
              j.Full? && SplitService(j.name, name.Some?) == Some(Parts(if name.Some? then name.value else [], k, d))
  {
    hide JoinService, SplitService;
  }

  lemma SizeIs()
    ensures DOMAIN_NAME_MAX == 1014
  {
  }

  lemma NameShort(name: Option<seq<byte>>)
    requires name.Some? ==> ValidServiceName(name.value)
    ensures name.Some? ==> |name.value| < LABEL_MAX
  {
  }

  lemma DomainLabelsAre(domain: seq<byte>)
    requires ValidDomainName(domain)
    ensures LabelsOf(domain) == Some(DomainLabels(domain)) || (LabelsOf(domain) == Some([[]]) && DomainLabels(domain) == [])
  {
    hide LabelsOf;
  }

  /** What the join depends on once its arguments are valid. */
  lemma JoinParts(name: Option<seq<byte>>, kind: seq<byte>, domain: seq<byte>)
    requires ValidServiceType(kind) && ValidDomainName(domain) && (name.Some? ==> ValidServiceName(name.value))
    ensures DOMAIN_NAME_MAX > 0
    ensures var j, k, d := JoinService(name, kind, domain), NormalizeInto(kind, DOMAIN_NAME_MAX), NormalizeInto(domain, DOMAIN_NAME_MAX);
            && (j.Full? <==> k.Left? && d.Left? && k.ended && d.ended)
            && (j.Full? ==> j.name == Concatenated(name, k.text, d.text))
  {
    hide ValidServiceType, ValidDomainName, NormalizeInto, Concatenated;
  }

  // ---------- inputs that do not come back ----------

  /** A label that is written as it is. */
  predicate Plain(l: Label) {
    0 < |l| < LABEL_MAX && forall i :: 0 <= i < |l| ==> 0 < l[i] < 0x80 && l[i] != DOT && l[i] != BACKSLASH
  }

  predicate AllPlain(ls: seq<Label>) {
    forall i :: 0 <= i < |ls| ==> Plain(ls[i])
  }

  function Spelled(ls: seq<Label>): seq<byte> {
    if ls == [] then [] else if |ls| == 1 then ls[0] else ls[0] + [DOT] + Spelled(ls[1..])
  }

  lemma {:induction false} ScanPlain(l: Label, tail: seq<byte>, room: nat)
    requires (forall i :: 0 <= i < |l| ==> l[i] != DOT && l[i] != BACKSLASH) && Boundary(tail) && |l| < room
    ensures Scan(l + tail, room) == Split(l, if tail == [] then [] else tail[1..])
    decreases |l|
  {
    hide *;
    var s := l + tail;
    if l == [] {
      assert s == tail;
      PlainEnd(tail, room);
    } else {
      ScanPlain(l[1..], tail, room - 1);
      assert s[1..] == l[1..] + tail && [l[0]] + l[1..] == l;
      PlainByte(s, room);
      PrependIs(l[0], Scan(s[1..], room - 1));
    }
  }

  lemma PlainEnd(tail: seq<byte>, room: nat)
    requires Boundary(tail) && room > 0
    ensures Scan(tail, room) == Split([], if tail == [] then [] else tail[1..])
  {
  }

  lemma PlainByte(s: seq<byte>, room: nat)
    requires s != [] && s[0] != DOT && s[0] != BACKSLASH && room > 0
    ensures Scan(s, room) == Prepend([s[0]], Scan(s[1..], room - 1))
  {
    hide Prepend;
    assert Next(s) == Byte(s[0], 1);
  }

  lemma PrependIs(b: byte, u: Unescaped)
    ensures u.Split? ==> Prepend([b], u) == Split([b] + u.head, u.rest)
  {
  }

  lemma PlainLabel(l: Label, tail: seq<byte>)
    requires Plain(l) && Boundary(tail)
    ensures Unescape(l + tail, LABEL_MAX) == Split(l, if tail == [] then [] else tail[1..]) && l + tail != []
  {
    ScanPlain(l, tail, LABEL_MAX);
    Utf8.AsciiValid(l);
  }

  lemma {:induction false} PlainLabels(ls: seq<Label>)
    requires AllPlain(ls)
    ensures LabelsOf(Spelled(ls)) == Some(ls) && Bytes.Text(Spelled(ls))
  {
    hide Unescape, Plain;
    if ls != [] {
      var l, rest := ls[0], ls[1..];
      var tail := if rest == [] then [] else [DOT] + Spelled(rest);
      assert Spelled(ls) == l + tail;
      PlainLabel(l, tail);
      PlainText(l);
      PlainLabels(rest);
      assert tail != [] ==> tail[1..] == Spelled(rest);
      assert [l] + rest == ls;
    }
  }

  lemma PlainText(l: Label)
    requires Plain(l)
    ensures Bytes.Text(l)
  {
  }

  /** A domain "_a" is taken for part of the type. */
  lemma UnderscoredDomainLost(name: Option<seq<byte>>, kind: seq<byte>)
    requires Bytes.Text(kind) && ValidServiceType(kind)
    requires name.Some? ==> ValidServiceName(name.value) && Bytes.Text(name.value) && Utf8.Valid(name.value)
    ensures var domain := [UNDERSCORE, 97];
            && ValidDomainName(domain) && Normalize(kind).Some? && Normalize(domain).Some?
            && !ComesBack(name, kind, domain, Normalize(kind).value, Normalize(domain).value)
  {
    var domain: seq<byte> := [UNDERSCORE, 97];
    assert Plain(domain);
    PlainLabels([domain]);
    assert Spelled([domain]) == domain;
    hide LabelsOf, Normalize, ComesBack;
    assert DomainLabels(domain) == [domain];
    ServiceRoundTrip(name, kind, domain);
  }

  function Blanks(): (l: Label)
    ensures |l| == 60 && forall i :: 0 <= i < |l| ==> l[i] == 32
  {
    seq(60, _ => 32)
  }

  function BlankLabels(k: nat): (ls: seq<Label>)
    ensures |ls| == k && forall i :: 0 <= i < k ==> ls[i] == Blanks()
  {
    seq(k, _ => Blanks())
  }

  lemma {:induction false} EscapedBlanks(l: Label)
    requires forall i :: 0 <= i < |l| ==> l[i] == 32
    ensures |Escape(l)| == 4 * |l|
  {
    if l != [] {
      EscapedBlanks(l[1..]);
    }
  }

  lemma {:induction false} BlankLengths(k: nat)
    requires k > 0
    ensures |Spelled(BlankLabels(k))| == 61 * k - 1 && |Join(BlankLabels(k))| == 241 * k - 1
  {
    hide Escape;
    EscapedBlanks(Blanks());
    if k > 1 {
      BlankLengths(k - 1);
      assert BlankLabels(k)[1..] == BlankLabels(k - 1);
    }
  }

  /** Five labels of 60 blanks are a valid domain of 304 characters, but their normal form has 1204
      and is cut off, so it does not come back. */
  lemma LongDomainLost(name: Option<seq<byte>>, kind: seq<byte>)
    requires Bytes.Text(kind) && ValidServiceType(kind)
    requires name.Some? ==> ValidServiceName(name.value) && Bytes.Text(name.value) && Utf8.Valid(name.value)
    ensures var domain := Spelled(BlankLabels(5));
            && ValidDomainName(domain) && Normalize(kind).Some? && Normalize(domain).Some?
            && |Normalize(domain).value| == 1204 && !Underscored(DomainLabels(domain)[0])
            && !ComesBack(name, kind, domain, Normalize(kind).value, Normalize(domain).value)
  {
    var ls := BlankLabels(5);
    var domain := Spelled(ls);
    assert AllPlain(ls);
    PlainLabels(ls);
    BlankLengths(5);
    LongDomain(domain, ls);
    hide *;
    ServiceRoundTrip(name, kind, domain);
    SizeIs();
  }

  lemma LongDomain(domain: seq<byte>, ls: seq<Label>)
    requires LabelsOf(domain) == Some(ls) && ls != [] && [] !in ls && ls[0] != [] && ls[0][0] != UNDERSCORE && |domain| < DOMAIN_NAME_MAX
    ensures ValidDomainName(domain) && Normalize(domain) == Some(Join(ls)) && DomainLabels(domain) == ls && !Underscored(ls[0])
  {
    hide LabelsOf, Join;
    var root: seq<Label> := [[]];
    assert root[0] == [] != ls[0];
  }

  // ---------- the join over its buffers ----------

  /** What the caller of avahi_service_name_join gets. */
  datatype JoinCode = Ok | InvalidName | InvalidType | InvalidDomain | AssertionFailed | Undefined

  function CodeOf(j: Joined): JoinCode {
    match j
    case Full(_) => Ok
    case BadName => InvalidName
    case BadType => InvalidType
    case BadDomain => InvalidDomain
    case Aborted => AssertionFailed
    case Unterminated => Undefined
  }

  /** snprintf of a text into a buffer: as much as fits in front of a NUL. */
  method Print(p: array<byte>, text: seq<byte>)
    modifies p
    ensures p.Length > 0 ==>
              var m := if |text| < p.Length then |text| else p.Length - 1;
              p[..m] == text[..m] && p[m] == 0
  {
    if p.Length > 0 {
      var m := if |text| < p.Length then |text| else p.Length - 1;
      forall k | 0 <= k < m {
        p[k] := text[k];
      }
      p[m] := 0;
    }
  }

  /** avahi_service_name_join. Its buffers start with whatever the stack holds, here no NUL; the
      value Undefined stands for a call that reads one of them beyond its end. */
  method JoinServiceName(p: array<byte>, name: Option<seq<byte>>, kind: seq<byte>, domain: seq<byte>) returns (r: JoinCode)
    requires Bytes.Text(kind) && Bytes.Text(domain) && (name.Some? ==> Bytes.Text(name.value))
    modifies p
    ensures var j := JoinService(name, kind, domain);
            && r == CodeOf(j)
            && (j.Full? && p.Length > 0 ==>
                  var m := if |j.name| < p.Length then |j.name| else p.Length - 1;
                  p[..m] == j.name[..m] && p[m] == 0)
  {
    JoinCases(name, kind, domain);
    hide *;
    if name.Some? && !ValidServiceName(name.value) {
      return InvalidName;
    }
    if !ValidServiceType(kind) {
      return InvalidType;
    }
    if !ValidDomainName(domain) {
      return InvalidDomain;
    }
    var escaped, length := new byte[256], 0;
    if name.Some? {
      NameShort(name);
      LimitIs();
      var fits;
      fits, length := EscapeLabel(name.value, escaped, 0);
      assert fits;
      assert escaped[..0] == [] && escaped[..length] == Escape(name.value);
    }
    var normalizedType, normalizedDomain := new byte[1014](_ => 1), new byte[1014](_ => 1);
    SizeIs();
    var typeCode, typeLength := NormalizeName(kind, normalizedType);
    if typeCode == ReturnedNull {
      return InvalidType;
    }
    if typeCode == Asserted {
      return AssertionFailed;
    }
    var domainCode, domainLength := NormalizeName(domain, normalizedDomain);
    if domainCode == ReturnedNull {
      return InvalidDomain;
    }
    if domainCode == Asserted {
      return AssertionFailed;
    }
    if normalizedType[typeLength] != 0 || normalizedDomain[domainLength] != 0 {
      return Undefined;
    }
    Print(p, (if name.Some? then escaped[..length] + [DOT] else []) + normalizedType[..typeLength] + [DOT] + normalizedDomain[..domainLength]);
    r := Ok;
  }

  lemma JoinCases(name: Option<seq<byte>>, kind: seq<byte>, domain: seq<byte>)
    ensures DOMAIN_NAME_MAX == 1014
    ensures var j, k, d := JoinService(name, kind, domain), NormalizeInto(kind, 1014), NormalizeInto(domain, 1014);
            if name.Some? && !ValidServiceName(name.value) then CodeOf(j) == InvalidName
            else if !ValidServiceType(kind) then CodeOf(j) == InvalidType
            else if !ValidDomainName(domain) then CodeOf(j) == InvalidDomain
            else if k.Null? then CodeOf(j) == InvalidType
            else if k.Aborted? then CodeOf(j) == AssertionFailed
            else if d.Null? then CodeOf(j) == InvalidDomain
            else if d.Aborted? then CodeOf(j) == AssertionFailed
            else if !k.ended || !d.ended then CodeOf(j) == Undefined
            else CodeOf(j) == Ok && j.Full?
                 && j.name == (if name.Some? then Escape(name.value) + [DOT] else []) + k.text + [DOT] + d.text
    ensures forall j: Joined :: CodeOf(j) != Ok ==> !j.Full?
  {
    hide NormalizeInto, ValidServiceType, ValidDomainName, Escape;
  }

  // ---------- the split over its buffers ----------

  /** What avahi_service_name_split comes to: -1 for a malformed label, AVAHI_ERR_NO_MEMORY, a failed
      assertion of avahi_escape_label that there is room, or the parts. */
  datatype Splitting = Broken | NoMemory | NoRoom | Done(parts: Parts)

  /** The sizes of the buffers of the split; `name` is 0 when no name is wanted. */
  datatype Sizes = Sizes(name: nat, kind: nat, domain: nat)

  /** strlcpy of a label into the buffer for the name. */
  function Cut(l: seq<byte>, size: nat): (c: seq<byte>)
    ensures |c| <= |l|
  {
    if size == 0 then [] else if |l| < size then l else l[..size - 1]
  }

  /** Where the loop is: before the name, among the type labels, or behind the first domain label. */
  datatype Stage = InName | InType | InDomain

  /** The loop from a stage, with what the buffers hold and the text left. */
  function SplitInto(stage: Stage, p: Parts, s: seq<byte>, z: Sizes): (r: Splitting)
    requires |p.kind| < z.kind && |p.domain| < z.domain
    ensures r.Done? ==> |r.parts.kind| < z.kind && |r.parts.domain| < z.domain
    decreases |s|
  {
    hide *;
    if s == [] then Done(p) else
    match Unescape(s, LABEL_MAX)
    case Malformed => Broken
    case Split(l, rest) =>
      if stage.InName? then SplitInto(InType, Parts(Cut(l, z.name), p.kind, p.domain), rest, z)
      else if stage.InType? && Underscored(l) then
        var d := Dotted(p.kind, p.kind == []);
        if |d| >= z.kind then NoRoom
        else if |d| + |Escape(l)| >= z.kind then NoMemory
        else SplitInto(InType, Parts(p.name, d + Escape(l), p.domain), rest, z)
      else
        var d := Dotted(p.domain, stage.InType?);
        if |d| >= z.domain then NoRoom
        else if |d| + |Escape(l)| >= z.domain then NoMemory
        else SplitInto(InDomain, Parts(p.name, p.kind, d + Escape(l)), rest, z)
  }

  /** What the loop returns from the state it is in: whether the name is still to come, the name,
      the labels after it so far, and the text left. */
  function SplitFrom(pending: bool, name: seq<byte>, done: seq<Label>, s: seq<byte>): Option<Parts> {
    match LabelsOf(s)
    case None => None
    case Some(ls) =>
      if pending && ls != [] then Some(SplitLabels(ls[0], ls[1..])) else Some(SplitLabels(name, done + ls))
  }


  lemma SplitStep(pending: bool, name: seq<byte>, done: seq<Label>, s: seq<byte>)
    requires s != [] && (pending ==> done == [])
    ensures var u := Unescape(s, LABEL_MAX);
            && (u.Malformed? ==> SplitFrom(pending, name, done, s) == None)
            && (u.Split? ==>
                  SplitFrom(pending, name, done, s) ==
                  if pending then SplitFrom(false, u.head, [], u.rest) else SplitFrom(false, name, done + [u.head], u.rest))
  {
    hide Unescape, SplitLabels;
    var u := Unescape(s, LABEL_MAX);
    if u.Split? && LabelsOf(u.rest).Some? {
      var ls := LabelsOf(u.rest).value;
      assert done + [u.head] + ls == done + ([u.head] + ls);
      assert [] + ls == ls && ([u.head] + ls)[1..] == ls;
    }
  }

  lemma {:induction false} TypeRunSnoc(done: seq<Label>, l: Label)
    ensures TypeRun(done + [l]) == if TypeRun(done) == |done| && Underscored(l) then |done| + 1 else TypeRun(done)
  {
    hide Underscored;
    if done == [] {
      assert [] + [l] == [l];
    } else {
      assert (done + [l])[0] == done[0] && (done + [l])[1..] == done[1..] + [l];
      TypeRunSnoc(done[1..], l);
    }
  }

  lemma {:induction false} JoinSuffix(front: seq<Label>, back: seq<Label>)
    ensures |Join(back)| <= |Join(front + back)|
  {
    hide Escape;
    if front == [] {
      assert front + back == back;
    } else {
      JoinSuffix(front[1..], back);
      assert (front + back)[1..] == front[1..] + back;
    }
  }

  /** Where the loop puts a label: behind the type labels or behind the domain labels. */
  lemma Sorted(done: seq<Label>, l: Label)
    ensures var k, all := TypeRun(done), done + [l];
            if k == |done| && Underscored(l)
            then TypeRun(all) == k + 1 && all[..k + 1] == done[..k] + [l] && all[k + 1..] == done[k..]
            else TypeRun(all) == k && all[..k] == done[..k] && all[k..] == done[k..] + [l]
  {
    TypeRunSnoc(done, l);
    hide Underscored, TypeRun;
    Slices(done, l, TypeRun(done));
  }

  lemma Slices(done: seq<Label>, l: Label, k: nat)
    requires k <= |done|
    ensures (done + [l])[..k] == done[..k] && (done + [l])[k..] == done[k..] + [l]
    ensures k == |done| ==> (done + [l])[..k + 1] == done[..k] + [l] && (done + [l])[k + 1..] == done[k..]
  {
  }


  /** The state of the loop, by the labels it has put into its buffers. */
  ghost predicate At(stage: Stage, p: Parts, name: seq<byte>, done: seq<Label>, z: Sizes) {
    var k := TypeRun(done);
    && p.name == (if stage.InName? then [] else Cut(name, z.name)) && (stage.InName? ==> done == [] && name == [])
    && p.kind == Join(done[..k]) && p.domain == Join(done[k..]) && (stage.InDomain? <==> k < |done|)
  }

  lemma AtStart(z: Sizes, stage: Stage)
    requires stage.InName? || stage.InType?
    ensures At(stage, Parts([], [], []), [], [], z)
  {
    JoinOfNone();
  }

  /** What is read in the end does not hold less than what is in the buffers. */
  lemma FinalAtLeast(name: seq<byte>, done: seq<Label>, s: seq<byte>)
    requires SplitFrom(false, name, done, s).Some?
    ensures var r, k := SplitFrom(false, name, done, s).value, TypeRun(done);
            |Join(done[..k])| <= |r.kind| && |Join(done[k..])| <= |r.domain| && r.name == name
  {
    hide LabelsOf, Join, TypeRun;
    PartsGrow(done, LabelsOf(s).value);
  }

  lemma PartsGrow(done: seq<Label>, ls: seq<Label>)
    ensures var k, all := TypeRun(done), done + ls;
            |Join(done[..k])| <= |Join(all[..TypeRun(all)])| && |Join(done[k..])| <= |Join(all[TypeRun(all)..])|
  {
    hide Join, TypeRun;
    var k, all := TypeRun(done), done + ls;
    TypeRunOver(done, ls);
    var n := TypeRun(all);
    if k < |done| {
      assert all[..n] == done[..k] && all[n..] == done[k..] + ls;
      JoinMonotone(done[k..], ls);
    } else {
      assert done[..k] == done && done[k..] == [];
      assert all[..n] == done + ls[..n - k];
      JoinMonotone(done, ls[..n - k]);
      JoinOfNone();
    }
  }

  lemma {:induction false} TypeRunOver(done: seq<Label>, ls: seq<Label>)
    ensures if TypeRun(done) < |done| then TypeRun(done + ls) == TypeRun(done) else TypeRun(done + ls) == |done| + TypeRun(ls)
  {
    hide Underscored;
    if done == [] {
      assert done + ls == ls;
    } else {
      assert (done + ls)[0] == done[0] && (done + ls)[1..] == done[1..] + ls;
      if Underscored(done[0]) {
        TypeRunOver(done[1..], ls);
      }
    }
  }

  /** Splitting into buffers: it succeeds exactly if the name can be taken apart and the type and the
      domain fit, each with its NUL, and only the name is cut short. */
  lemma {:induction false} SplitIntoIs(stage: Stage, p: Parts, name: seq<byte>, done: seq<Label>, s: seq<byte>, z: Sizes)
    requires At(stage, p, name, done, z) && |p.kind| < z.kind && |p.domain| < z.domain
    ensures var r, f := SplitInto(stage, p, s, z), SplitFrom(stage.InName?, name, done, s);
            && (r.Done? <==> f.Some? && |f.value.kind| < z.kind && |f.value.domain| < z.domain)
            && (r.Done? ==> r.parts == Parts(Cut(f.value.name, z.name), f.value.kind, f.value.domain))
    decreases |s|
  {
    hide Unescape, SplitFrom, Join, TypeRun, Cut, At, Underscored;
    if s == [] {
      NothingLeft(stage, p, name, done, z);
    } else {
      var u := Unescape(s, LABEL_MAX);
      AtParts(stage, p, name, done, z);
      SplitStep(stage.InName?, name, done, s);
      if u.Split? {
        if stage.InName? {
          AtNamed(p, u.head, z);
          SplitIntoIs(InType, Parts(Cut(u.head, z.name), p.kind, p.domain), u.head, [], u.rest, z);
        } else {
          var q, to := Parts(p.name, p.kind, p.domain), InDomain;
          if stage.InType? && Underscored(u.head) {
            q, to := Parts(p.name, Dotted(p.kind, p.kind == []) + Escape(u.head), p.domain), InType;
          } else {
            q := Parts(p.name, p.kind, Dotted(p.domain, stage.InType?) + Escape(u.head));
          }
          AtNext(stage, p, name, done, z, u.head);
          if |q.kind| < z.kind && |q.domain| < z.domain {
            SplitIntoIs(to, q, name, done + [u.head], u.rest, z);
          } else if SplitFrom(false, name, done + [u.head], u.rest).Some? {
            FinalAtLeast(name, done + [u.head], u.rest);
            AtParts(to, q, name, done + [u.head], z);
          }
        }
      }
    }
  }

  lemma NothingLeft(stage: Stage, p: Parts, name: seq<byte>, done: seq<Label>, z: Sizes)
    requires At(stage, p, name, done, z)
    ensures SplitFrom(stage.InName?, name, done, []) == Some(Parts(name, p.kind, p.domain)) && p.name == Cut(name, z.name)
  {
    hide Join, TypeRun;
    assert done + [] == done;
  }

  lemma AtParts(stage: Stage, p: Parts, name: seq<byte>, done: seq<Label>, z: Sizes)
    requires At(stage, p, name, done, z)
    ensures stage.InName? ==> done == [] && name == []
    ensures p.kind == Join(done[..TypeRun(done)]) && p.domain == Join(done[TypeRun(done)..])
  {
    hide Join, TypeRun;
  }

  lemma AtNamed(p: Parts, l: Label, z: Sizes)
    requires At(InName, p, [], [], z)
    ensures At(InType, Parts(Cut(l, z.name), p.kind, p.domain), l, [], z)
  {
    hide Join, Cut;
  }

  /** One label more, behind the type labels or the domain labels. */
  lemma AtNext(stage: Stage, p: Parts, name: seq<byte>, done: seq<Label>, z: Sizes, l: Label)
    requires At(stage, p, name, done, z) && !stage.InName?
    ensures if stage.InType? && Underscored(l)
            then At(InType, Parts(p.name, Dotted(p.kind, p.kind == []) + Escape(l), p.domain), name, done + [l], z)
            else At(InDomain, Parts(p.name, p.kind, Dotted(p.domain, stage.InType?) + Escape(l)), name, done + [l], z)
  {
    hide Join, TypeRun, Cut, Underscored, Escape;
    var k := TypeRun(done);
    Sorted(done, l);
    JoinNext(done[..k], l);
    JoinNext(done[k..], l);
    JoinOfNone();
    TypeTexts(done);
  }

  /** A type label is never empty, so neither is the text of some. */
  lemma TypeTexts(done: seq<Label>)
    ensures Join(done[..TypeRun(done)]) == [] <==> TypeRun(done) == 0
    ensures TypeRun(done) == 0 ==> done[..TypeRun(done)] == []
    ensures TypeRun(done) == |done| ==> done[TypeRun(done)..] == []
  {
    hide TypeRun, Escape;
    var k := TypeRun(done);
    assert k > 0 ==> Underscored(done[0]) && done[..k][0] == done[0];
  }

  /** avahi_service_name_split as a whole. */
  lemma SplitServiceInto(s: seq<byte>, named: bool, z: Sizes)
    requires z.kind > 0 && z.domain > 0
    ensures var r, f := SplitInto(if named then InName else InType, Parts([], [], []), s, z), SplitService(s, named);
            && (r.Done? <==> f.Some? && |f.value.kind| < z.kind && |f.value.domain| < z.domain)
            && (r.Done? ==> r.parts == Parts(Cut(f.value.name, z.name), f.value.kind, f.value.domain))
  {
    hide SplitInto, Cut;
    AtStart(z, if named then InName else InType);
    SplitIntoIs(if named then InName else InType, Parts([], [], []), [], [], s, z);
    SplitStarts(s, named);
  }

  lemma SplitStarts(s: seq<byte>, named: bool)
    ensures SplitService(s, named) == SplitFrom(named, [], [], s)
  {
    hide LabelsOf, SplitLabels;
    if LabelsOf(s).Some? {
      assert [] + LabelsOf(s).value == LabelsOf(s).value;
    }
  }

  /** What the caller of avahi_service_name_split gets. */
  datatype SplitCode = SplitOk | SplitFailed | SplitNoMemory | SplitAsserted

  function SplitCodeOf(r: Splitting): SplitCode {
    match r
    case Done(_) => SplitOk
    case Broken => SplitFailed
    case NoMemory => SplitNoMemory
    case NoRoom => SplitAsserted
  }

  /** One label, and a dot before it unless it is the first, behind what a buffer holds. */
  method PutLabel(l: Label, buf: array<byte>, length: nat, first: bool) returns (code: SplitCode, end: nat)
    requires length < buf.Length && buf[length] == 0
    modifies buf
    ensures var d := Dotted(old(buf[..length]), first);
            && code == (if |d| >= buf.Length then SplitAsserted else if |d| + |Escape(l)| >= buf.Length then SplitNoMemory else SplitOk)
            && (code == SplitOk ==> end < buf.Length && buf[..end] == d + Escape(l) && buf[end] == 0)
  {
    hide *;
    ghost var t := buf[..length];
    DottedIs(t, first);
    var d := length;
    if !first {
      buf[length] := DOT;
      d := length + 1;
    }
    if d >= buf.Length {
      return SplitAsserted, d;
    }
    assert buf[..d] == Dotted(t, first);
    var fits;
    fits, end := EscapeLabel(l, buf, d);
    code := if fits then SplitOk else SplitNoMemory;
  }

  /** strlcpy of a label. */
  method CopyName(name: array<byte>, l: seq<byte>) returns (length: nat)
    requires name.Length > 0
    modifies name
    ensures length < name.Length && name[..length] == Cut(l, name.Length) && name[length] == 0
  {
    length := if |l| < name.Length then |l| else name.Length - 1;
    forall k | 0 <= k < length {
      name[k] := l[k];
    }
    name[length] := 0;
  }

  lemma SplitCases(stage: Stage, p: Parts, s: seq<byte>, z: Sizes)
    requires |p.kind| < z.kind && |p.domain| < z.domain && s != []
    ensures var r, u := SplitInto(stage, p, s, z), Unescape(s, LABEL_MAX);
            && (u.Split? ==> |u.rest| < |s|)
            && if u.Malformed? then r == Broken
               else if stage.InName? then r == SplitInto(InType, Parts(Cut(u.head, z.name), p.kind, p.domain), u.rest, z)
               else if stage.InType? && |u.head| > 0 && u.head[0] == UNDERSCORE then
                 var d := Dotted(p.kind, p.kind == []);
                 if |d| >= z.kind then r == NoRoom else if |d| + |Escape(u.head)| >= z.kind then r == NoMemory
                 else r == SplitInto(InType, Parts(p.name, d + Escape(u.head), p.domain), u.rest, z)
               else
                 var d := Dotted(p.domain, stage.InType?);
                 if |d| >= z.domain then r == NoRoom else if |d| + |Escape(u.head)| >= z.domain then r == NoMemory
                 else r == SplitInto(InDomain, Parts(p.name, p.kind, d + Escape(u.head)), u.rest, z)
  {
    hide Unescape, Dotted, Escape, Cut;
  }

  lemma SplitDone(stage: Stage, p: Parts, s: seq<byte>, z: Sizes)
    requires |p.kind| < z.kind && |p.domain| < z.domain
    ensures s == [] ==> SplitInto(stage, p, s, z) == Done(p)
  {
  }

  lemma Codes()
    ensures SplitCodeOf(Broken) == SplitFailed && SplitCodeOf(NoMemory) == SplitNoMemory && SplitCodeOf(NoRoom) == SplitAsserted
    ensures forall p: Parts :: SplitCodeOf(Done(p)) == SplitOk
    ensures forall s: seq<byte> :: s[0..] == s
  {
  }

  /** avahi_service_name_split over its buffers; `name` is null when no name is wanted. */
  method SplitServiceName(s: seq<byte>, name: array?<byte>, kind: array<byte>, domain: array<byte>)
    returns (code: SplitCode, nameLength: nat, kindLength: nat, domainLength: nat)
    requires Bytes.Text(s) && kind != domain && name != kind && name != domain
    requires kind.Length > 0 && domain.Length > 0 && (name != null ==> name.Length > 0)
    modifies kind, domain, if name == null then {} else {name}
    ensures var z := Sizes(if name == null then 0 else name.Length, kind.Length, domain.Length);
            var r := SplitInto(if name == null then InType else InName, Parts([], [], []), s, z);
            && code == SplitCodeOf(r)
            && (r.Done? ==>
                  && nameLength <= z.name && kindLength < z.kind && domainLength < z.domain
                  && r.parts == Parts(if name == null then [] else name[..nameLength], kind[..kindLength], domain[..domainLength])
                  && kind[kindLength] == 0 && domain[domainLength] == 0 && (name != null ==> nameLength < z.name && name[nameLength] == 0))
  {
    hide *;
    LimitIs();
    Codes();
    ghost var z := Sizes(if name == null then 0 else name.Length, kind.Length, domain.Length);
    var buf := new byte[64];
    var stage, cursor := if name == null then InType else InName, 0;
    ghost var whole := SplitInto(stage, Parts([], [], []), s, z);
    nameLength, kindLength, domainLength := 0, 0, 0;
    kind[0], domain[0] := 0, 0;
    if name != null {
      name[0] := 0;
      assert name[..0] == [];
    }
    assert kind[..0] == [] && domain[..0] == [];
    while cursor < |s|
      invariant 0 <= cursor <= |s| && kindLength < kind.Length && domainLength < domain.Length
      invariant kind[kindLength] == 0 && domain[domainLength] == 0 && (stage.InName? ==> name != null)
      invariant if name == null then nameLength == 0 else nameLength < name.Length && name[nameLength] == 0
      invariant whole == SplitInto(stage, Parts(if name == null then [] else name[..nameLength], kind[..kindLength], domain[..domainLength]), s[cursor..], z)
      decreases |s| - cursor
    {
      SplitCases(stage, Parts(if name == null then [] else name[..nameLength], kind[..kindLength], domain[..domainLength]), s[cursor..], z);
      var good, next, n := UnescapeLabel(s, cursor, buf);
      if !good {
        return SplitFailed, nameLength, kindLength, domainLength;
      }
      var l := buf[..n];
      if stage.InName? {
        nameLength := CopyName(name, l);
        stage := InType;
      } else if stage.InType? && n > 0 && l[0] == UNDERSCORE {
        assert kindLength == 0 <==> kind[..kindLength] == [];
        code, kindLength := PutLabel(l, kind, kindLength, kindLength == 0);
        if code != SplitOk {
          return;
        }
      } else {
        code, domainLength := PutLabel(l, domain, domainLength, stage.InType?);
        if code != SplitOk {
          return;
        }
        stage := InDomain;
      }
      cursor := next;
    }
    SplitDone(stage, Parts(if name == null then [] else name[..nameLength], kind[..kindLength], domain[..domainLength]), s[cursor..], z);
    code := SplitOk;
  }
}
