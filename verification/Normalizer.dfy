/** avahi_normalize_name as a loop over a buffer. It ignores an escape that does not fit. */
module Normalizer {
  import opened Bytes
  import opened Labels
  import opened Domain

  /** What avahi_normalize_name comes to: NULL for a malformed name; a failed assertion of
      avahi_escape_label that there is room; or its buffer, with this text in it, and a NUL behind
      the text or none. */
  datatype Normalized = Null | Aborted | Left(text: seq<byte>, ended: bool)

  /** The text of the loop in front of the next label. */
  function Dotted(t: seq<byte>, empty: bool): (d: seq<byte>)
    ensures |d| == |t| + if empty then 0 else 1
  {
    if empty then t else t + [DOT]
  }

  /** The text with the next label behind it, or as much of that as there is room for. */
  function WithLabel(t: seq<byte>, empty: bool, l: Label, n: nat): (r: seq<byte>)
    requires |Dotted(t, empty)| < n
    ensures |r| < n
  {
    hide *;
    var d := Dotted(t, empty);
    FittingWhole(l, n - |d|);
    d + Escape(l[..Fitting(l, n - |d|)])
  }

  /** Is there a NUL behind it? The one at the start of the buffer stays while nothing is written. */
  predicate Ends(t: seq<byte>, empty: bool, l: Label, n: nat)
    requires |Dotted(t, empty)| < n
  {
    var k := Fitting(l, n - |Dotted(t, empty)|);
    k == |l| || (empty && k == 0)
  }

  /** The loop from where `t` was written, with the text `s` left to read, in a buffer of n bytes. */
  function NormalizeFrom(t: seq<byte>, empty: bool, ended: bool, s: seq<byte>, n: nat): (r: Normalized)
    requires |t| < n
    ensures r.Left? ==> |r.text| < n
    decreases |s|
  {
    hide *;
    if s == [] then Left(t, ended) else
    match Unescape(s, LABEL_MAX)
    case Malformed => Null
    case Split(l, rest) =>
      if l == [] then (if rest == [] && empty then Left(t, ended) else Null) else
      if |Dotted(t, empty)| >= n then Aborted
      else NormalizeFrom(WithLabel(t, empty, l, n), false, Ends(t, empty, l, n), rest, n)
  }

  function NormalizeInto(s: seq<byte>, n: nat): (r: Normalized)
    requires n > 0
    ensures r.Left? ==> |r.text| < n
  {
    NormalizeFrom([], true, true, s, n)
  }

  /** The labels cut short, each to some length. */
  ghost predicate CutOf(cut: seq<Label>, ls: seq<Label>) {
    |cut| == |ls| && forall i :: 0 <= i < |ls| ==> cut[i] <= ls[i]
  }

  lemma {:induction false} JoinSnoc(done: seq<Label>, l: Label)
    ensures Join(done + [l]) == if done == [] then Escape(l) else Join(done) + [DOT] + Escape(l)
  {
    hide Escape;
    if done == [] {
      assert done + [l] == [l];
    } else if |done| == 1 {
      assert (done + [l])[1..] == [l];
    } else {
      assert (done + [l])[1..] == done[1..] + [l];
      JoinSnoc(done[1..], l);
      var e, m := Escape(done[0]), Join(done[1..]);
      assert e + [DOT] + (m + [DOT] + Escape(l)) == e + [DOT] + m + [DOT] + Escape(l);
    }
  }

  lemma {:induction false} JoinMonotone(done: seq<Label>, more: seq<Label>)
    ensures |Join(done)| <= |Join(done + more)|
    decreases |done|
  {
    hide Escape;
    if done != [] {
      assert (done + more)[1..] == done[1..] + more;
      JoinMonotone(done[1..], more);
    }
  }

  lemma JoinEmpty()
    ensures Join([]) == []
  {
  }

  /** The text d + escape of the loop is the presentation form with one label more. */
  lemma JoinNext(done: seq<Label>, l: Label)
    ensures Join(done + [l]) == (if done == [] then Join(done) else Join(done) + [DOT]) + Escape(l)
  {
    hide Escape;
    JoinSnoc(done, l);
    assert [] + Escape(l) == Escape(l);
  }

  lemma CutCons(l: Label, k: nat, cut: seq<Label>, ls: seq<Label>)
    requires k <= |l| && CutOf(cut, ls)
    ensures CutOf([l[..k]] + cut, [l] + ls)
  {
  }

  /** What the loop leaves of a well-formed name: its labels, each cut short where the room ended.
      All of it is there exactly if all of it fits. */
  lemma {:induction false} LeftIs(done: seq<Label>, ended: bool, s: seq<byte>, n: nat) returns (cut: seq<Label>)
    requires |Join(done)| < n && LabelsOf(s).Some? && [] !in LabelsOf(s).value
    ensures var r, ls := NormalizeFrom(Join(done), done == [], ended, s, n), LabelsOf(s).value;
            && !r.Null? && (r.Left? ==> CutOf(cut, ls) && r.text == Join(done + cut))
            && (r.Left? && ls != [] && r.ended && r.text != [] ==> cut[|ls| - 1] == ls[|ls| - 1])
            && (|Join(done + ls)| < n ==> r == Left(Join(done + ls), if ls == [] then ended else true))
    decreases |s|
  {
    hide Unescape, Join, Escape, Fitting, CutOf;
    cut := [];
    if s == [] {
      assert done + [] == done;
      NoCut();
    } else {
      var u := Unescape(s, LABEL_MAX);
      var l, more := u.head, LabelsOf(u.rest).value;
      assert LabelsOf(s).value == [l] + more;
      assert ([l] + more)[0] != [];
      forall x | x in more ensures x in [l] + more {}
      var d := if done == [] then Join(done) else Join(done) + [DOT];
      FullFits(done, l, more, n);
      if |d| < n {
        var k := Fitting(l, n - |d|);
        FittingWhole(l, n - |d|);
        JoinNext(done, l[..k]);
        cut := LeftIs(done + [l[..k]], k == |l| || (done == [] && k == 0), u.rest, n);
        LeftStep(done, l, k, cut, more);
        cut := [l[..k]] + cut;
      }
    }
  }

  lemma NoCut()
    ensures CutOf([], [])
  {
  }

  /** If the whole name fits, so does its first label. */
  lemma FullFits(done: seq<Label>, l: Label, more: seq<Label>, n: nat)
    ensures var d := if done == [] then Join(done) else Join(done) + [DOT];
            |Join(done + ([l] + more))| < n ==> |d| + |Escape(l)| < n
    ensures done + ([l] + more) == done + [l] + more
  {
    hide Join, Escape;
    assert done + ([l] + more) == done + [l] + more;
    JoinMonotone(done + [l], more);
    JoinNext(done, l);
  }

  lemma LeftStep(done: seq<Label>, l: Label, k: nat, cut: seq<Label>, more: seq<Label>)
    requires k <= |l|
    ensures done + [l[..k]] + cut == done + ([l[..k]] + cut)
    ensures CutOf(cut, more) ==> CutOf([l[..k]] + cut, [l] + more)
    ensures k == |l| ==> l[..k] == l
    ensures more == [] && cut == [] && done == [] && k == 0 ==> Join(done + ([l[..k]] + cut)) == []
    ensures more == [] ==> ([l] + more)[|[l] + more| - 1] == l
    ensures cut == [] ==> ([l[..k]] + cut)[|[l[..k]] + cut| - 1] == l[..k]
  {
    if CutOf(cut, more) {
      CutCons(l, k, cut, more);
    }
    if more == [] && cut == [] && done == [] && k == 0 {
      assert done + ([l[..k]] + cut) == [[]];
    }
  }

  lemma {:induction false} LeftMeans(t: seq<byte>, empty: bool, ended: bool, s: seq<byte>, n: nat)
    requires |t| < n && NormalizeFrom(t, empty, ended, s, n).Left?
    ensures LabelsOf(s).Some? && ([] !in LabelsOf(s).value || (empty && LabelsOf(s).value == [[]]))
    decreases |s|
  {
    hide Unescape, Escape, Fitting;
    if s != [] {
      var u := Unescape(s, LABEL_MAX);
      if u.head != [] {
        var d := if empty then t else t + [DOT];
        var k := Fitting(u.head, n - |d|);
        FittingWhole(u.head, n - |d|);
        LeftMeans(d + Escape(u.head[..k]), false, k == |u.head| || (empty && k == 0), u.rest, n);
      }
    }
  }

  /** A name is normalized into the buffer exactly if it has a normal form and that, with its NUL,
      fits. Where it does not fit the call may still succeed, with labels cut short. */
  lemma NormalizeFits(s: seq<byte>, n: nat)
    requires n > 0
    ensures NormalizeInto(s, n).Left? ==> Normalize(s).Some?
    ensures Normalize(s).Some? ==> (NormalizeInto(s, n) == Left(Normalize(s).value, true) <==> |Normalize(s).value| < n)
    ensures Normalize(s).Some? ==> !NormalizeInto(s, n).Null?
  {
    hide Join, LabelsOf;
    JoinEmpty();
    if NormalizeInto(s, n).Left? {
      LeftMeans([], true, true, s, n);
    }
    if Normalize(s).Some? {
      var ls := LabelsOf(s).value;
      assert [] + ls == ls;
      if ls == [[]] {
        RootLeft(s, n);
      } else {
        var cut := LeftIs([], true, s, n);
      }
    }
  }

  lemma RootLeft(s: seq<byte>, n: nat)
    requires n > 0 && LabelsOf(s) == Some([[]])
    ensures NormalizeInto(s, n) == Left([], true)
  {
    hide Unescape;
    var u := Unescape(s, LABEL_MAX);
    assert LabelsOf(s).value == [u.head] + LabelsOf(u.rest).value;
    assert u.head == LabelsOf(s).value[0] == [];
    assert LabelsOf(u.rest).value == LabelsOf(s).value[1..] == [];
  }

  datatype Code = ReturnedText | ReturnedNull | Asserted

  lemma LoopStep(t: seq<byte>, empty: bool, ended: bool, s: seq<byte>, cursor: nat, n: nat)
    requires cursor < |s| && |t| < n
    ensures var r, u := NormalizeFrom(t, empty, ended, s[cursor..], n), Unescape(s[cursor..], LABEL_MAX);
            && (u.Malformed? ==> r == Null)
            && (u.Split? && u.head == [] ==> r == if u.rest == [] && empty then Left(t, ended) else Null)
            && (u.Split? && u.head != [] && |Dotted(t, empty)| >= n ==> r == Aborted)
            && (u.Split? && u.head != [] && |Dotted(t, empty)| < n ==>
                  var k := Fitting(u.head, n - |Dotted(t, empty)|);
                  && |Dotted(t, empty) + Escape(u.head[..k])| < n
                  && r == NormalizeFrom(Dotted(t, empty) + Escape(u.head[..k]), false, k == |u.head| || (empty && k == 0), u.rest, n))
            && (u.Split? ==> |u.rest| < |s| - cursor)
  {
    hide Unescape, Escape, Fitting;
    var u := Unescape(s[cursor..], LABEL_MAX);
    if u.Split? && |Dotted(t, empty)| < n {
      FittingWhole(u.head, n - |Dotted(t, empty)|);
    }
  }

  lemma LoopEnds(t: seq<byte>, empty: bool, ended: bool, s: seq<byte>, n: nat)
    requires |t| < n
    ensures NormalizeFrom(t, empty, ended, s[|s|..], n) == Left(t, ended)
    ensures t == [] ==> NormalizeInto(s, n) == NormalizeFrom([], true, true, s[0..], n)
  {
    assert s[0..] == s && s[|s|..] == [];
  }

  /** A dot, unless the label is the first, and then as much of the label as there is room for. A
      byte that was not written keeps its value, the NUL at the start of the buffer too. */
  method AppendLabel(l: Label, ret: array<byte>, length: nat, empty: bool) returns (room: bool, end: nat)
    requires length < ret.Length && (empty ==> length == 0 && ret[0] == 0)
    modifies ret
    ensures room <==> |Dotted(old(ret[..length]), empty)| < ret.Length
    ensures room ==>
              var d := Dotted(old(ret[..length]), empty);
              var k := Fitting(l, ret.Length - |d|);
              && end < ret.Length && ret[..end] == d + Escape(l[..k])
              && ret[end] == (if k == |l| || (empty && k == 0) then 0 else old(ret[end]))
              && forall i :: end < i < ret.Length ==> ret[i] == old(ret[i])
  {
    hide *;
    var d := length;
    ghost var t := ret[..length];
    DottedIs(t, empty);
    if !empty {
      ret[length] := DOT;
      d := length + 1;
    }
    if d >= ret.Length {
      return false, d;
    }
    assert ret[..d] == Dotted(t, empty);
    ghost var before := ret[..];
    assert forall i :: d <= i < ret.Length ==> before[i] == old(ret[i]);
    var fits;
    fits, end := EscapeLabel(l, ret, d);
    ghost var k := Fitting(l, ret.Length - d);
    forall i | end < i < ret.Length ensures ret[i] == before[i] {
      assert ret[i] == ret[end + 1..][i - end - 1];
    }
    if !fits {
      assert ret[end] == ret[end..][0] == before[end];
    }
    assert end == |ret[..end]| == d + |Escape(l[..k])|;
    room := true;
  }

  lemma DottedIs(t: seq<byte>, empty: bool)
    ensures Dotted(t, empty) == if empty then t else t + [DOT]
  {
  }

  /** avahi_normalize_name. When the text has no NUL behind it, the byte there is what it was. */
  method NormalizeName(s: seq<byte>, ret: array<byte>) returns (code: Code, length: nat)
    requires Bytes.Text(s) && ret.Length > 0
    modifies ret
    ensures var r := NormalizeInto(s, ret.Length);
            && (r.Null? <==> code == ReturnedNull) && (r.Aborted? <==> code == Asserted)
            && (r.Left? ==> length < ret.Length && ret[..length] == r.text
                            && ret[length] == if r.ended then 0 else old(ret[length]))
  {
    hide *;
    var l := new byte[64];
    LimitIs();
    var cursor, empty := 0, true;
    ghost var ended := true;
    length := 0;
    ret[0] := 0;
    assert ret[..0] == [];
    LoopEnds([], true, true, s, ret.Length);
    while cursor < |s|
      invariant 0 <= cursor <= |s| && length < ret.Length
      invariant NormalizeInto(s, ret.Length) == NormalizeFrom(ret[..length], empty, ended, s[cursor..], ret.Length)
      invariant ret[length] == (if ended then 0 else old(ret[length])) && (empty ==> length == 0 && ended)
      invariant forall i :: length < i < ret.Length ==> ret[i] == old(ret[i])
      decreases |s| - cursor
    {
      LoopStep(ret[..length], empty, ended, s, cursor, ret.Length);
      DottedIs(ret[..length], empty);
      var good, next, n := UnescapeLabel(s, cursor, l);
      if !good {
        return ReturnedNull, length;
      }
      if n == 0 {
        assert l[..n] == [];
        if next == |s| && empty {
          return ReturnedText, 0;
        }
        return ReturnedNull, length;
      }
      var room;
      ghost var k := Fitting(l[..n], ret.Length - |Dotted(ret[..length], empty)|);
      room, length := AppendLabel(l[..n], ret, length, empty);
      if !room {
        return Asserted, length;
      }
      ended := k == n || (empty && k == 0);
      empty := false;
      cursor := next;
    }
    LoopEnds(ret[..length], empty, ended, s, ret.Length);
    code := ReturnedText;
  }

  lemma LimitIs()
    ensures LABEL_MAX == 64
  {
  }
}
