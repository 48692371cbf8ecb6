/** Escaping and unescaping of one label, and the presentation form of a domain name
    (avahi-common/domain.c). */
module Labels {
  import opened Bytes
  import Utf8

  const LABEL_MAX: nat := 64
  const DOMAIN_NAME_MAX: nat := 1014

  const DOT: byte := 46
  const BACKSLASH: byte := 92
  const UNDERSCORE: byte := 95

  /** Raw bytes of one label, unescaped. */
  type Label = seq<byte>

  predicate Digit(b: byte) {
    48 <= b <= 57
  }

  predicate Proper(b: byte) {
    b == UNDERSCORE || b == 45 || Digit(b) || 97 <= b <= 122 || 65 <= b <= 90
  }

  function EscapeByte(b: byte): (e: seq<byte>)
    ensures 1 <= |e| <= 4
  {
    if b == DOT || b == BACKSLASH then [BACKSLASH, b]
    else if Proper(b) then [b]
    else [BACKSLASH, 48 + b / 100, 48 + b / 10 % 10, 48 + b % 10]
  }

  function Escape(l: Label): (e: seq<byte>)
    ensures |l| <= |e| <= 4 * |l|
  {
    if l == [] then [] else EscapeByte(l[0]) + Escape(l[1..])
  }

  /** What avahi_unescape_label leaves: the label, and the text after it. */
  datatype Unescaped = Malformed | Split(head: Label, rest: seq<byte>)

  function Prepend(p: seq<byte>, u: Unescaped): Unescaped {
    if u.Malformed? then Malformed else Split(p + u.head, u.rest)
  }

  function Decimal(a: byte, b: byte, c: byte): (n: int)
    requires Digit(a) && Digit(b) && Digit(c)
  {
    (a - 48) as int * 100 + (b - 48) as int * 10 + (c - 48) as int
  }

  /** What the scanner finds at the front of `s`: an escape it rejects, the end of the
      label, or one byte written with `n` characters. */
  datatype Front = Bad | End(rest: seq<byte>) | Byte(b: byte, n: nat)

  function Next(s: seq<byte>): (f: Front)
    ensures f.Byte? ==> 1 <= f.n <= |s|
    ensures f.Byte? && Text(s) ==> f.b != 0
    ensures f.End? && s != [] ==> f.rest == s[1..]
    ensures f.End? && s == [] ==> f.rest == []
  {
    if s == [] then End([])
    else if s[0] == DOT then End(s[1..])
    else if s[0] == BACKSLASH then
      if |s| == 1 then Bad
      else if s[1] == BACKSLASH || s[1] == DOT then Byte(s[1], 2)
      else if |s| >= 4 && Digit(s[1]) && Digit(s[2]) && Digit(s[3]) then
        var n := Decimal(s[1], s[2], s[3]);
        if n > 255 || n == 0 then Bad else Byte(n, 4)
      else Bad
    else Byte(s[0], 1)
  }

  /** The scanner, with room left for `room` bytes including the NUL. */
  function Scan(s: seq<byte>, room: nat): (u: Unescaped)
    ensures u.Split? && s != [] ==> |u.rest| < |s|
    ensures u.Split? ==> |u.head| < room
    ensures u.Split? && Text(s) ==> Text(u.head) && Text(u.rest)
    decreases room
  {
    if room == 0 then Malformed else
    match Next(s)
    case Bad => Malformed
    case End(rest) => Split([], rest)
    case Byte(b, n) => Prepend([b], Scan(s[n..], room - 1))
  }

  /** avahi_unescape_label: the first label of `s` into a buffer of `size` bytes. */
  function Unescape(s: seq<byte>, size: nat): (u: Unescaped)
    ensures u.Split? && s != [] ==> |u.rest| < |s|
    ensures u.Split? ==> |u.head| < size && Utf8.Valid(u.head)
    ensures u.Split? && Text(s) ==> Text(u.head) && Text(u.rest)
  {
    var u := Scan(s, size);
    if u.Split? && Utf8.Valid(u.head) then u else Malformed
  }

  /** avahi_unescape_label with its cursor and its destination buffer. */
  method UnescapeLabel(name: seq<byte>, start: nat, dest: array<byte>) returns (ok: bool, cursor: nat, length: nat)
    requires start <= |name| && Text(name) && dest.Length > 0
    modifies dest
    ensures ok == Unescape(name[start..], dest.Length).Split?
    ensures ok ==>
              && length < dest.Length && start <= cursor <= |name|
              && Unescape(name[start..], dest.Length) == Split(dest[..length], name[cursor..])
              && dest[length] == 0
  {
    hide Next, Scan, Utf8.Valid;
    cursor, length := start, 0;
    ghost var whole := Scan(name[start..], dest.Length);
    assert dest[..0] == [];
    PrependNothing(whole);
    while true
      invariant start <= cursor <= |name| && length <= dest.Length
      invariant Text(dest[..length])
      invariant whole == Prepend(dest[..length], Scan(name[cursor..], dest.Length - length))
      decreases dest.Length - length
    {
      StopScan(name[cursor..], dest.Length - length, dest[..length]);
      if length >= dest.Length {
        return false, cursor, length;
      }
      match Next(name[cursor..]) {
        case Bad =>
          return false, cursor, length;
        case End(rest) =>
          cursor := if cursor < |name| then cursor + 1 else cursor;
          assert rest == name[cursor..];
          break;
        case Byte(b, n) =>
          ghost var done := dest[..length];
          TextTail(name, cursor);
          StepScan(name, cursor, dest.Length - length, done);
          dest[length] := b;
          length, cursor := length + 1, cursor + n;
          assert dest[..length] == done + [b];
      }
    }
    ghost var parsed := dest[..length];
    dest[length] := 0;
    assert dest[..length] == parsed;
    ok := Utf8.Validate(dest[..length]);
  }

  /** Where the scan stops short: no room, a bad escape, or the end of the label. */
  lemma StopScan(s: seq<byte>, room: nat, done: seq<byte>)
    ensures room == 0 ==> Prepend(done, Scan(s, room)) == Malformed
    ensures Next(s).Bad? ==> Prepend(done, Scan(s, room)) == Malformed
    ensures room > 0 && Next(s).End? ==> Prepend(done, Scan(s, room)) == Split(done, Next(s).rest)
  {
    assert done + [] == done;
  }

  lemma TextTail(s: seq<byte>, k: nat)
    requires Text(s) && k <= |s|
    ensures Text(s[k..])
  {
  }

  lemma StepScan(name: seq<byte>, cursor: nat, room: nat, done: seq<byte>)
    requires cursor <= |name| && room > 0 && Next(name[cursor..]).Byte?
    ensures var f := Next(name[cursor..]);
            Prepend(done, Scan(name[cursor..], room)) == Prepend(done + [f.b], Scan(name[cursor + f.n..], room - 1))
  {
    var f := Next(name[cursor..]);
    assert name[cursor..][f.n..] == name[cursor + f.n..];
    PrependTwice(done, [f.b], Scan(name[cursor + f.n..], room - 1));
  }

  lemma PrependNothing(u: Unescaped)
    ensures Prepend([], u) == u
  {
    if u.Split? {
      assert [] + u.head == u.head;
    }
  }

  lemma PrependTwice(p: seq<byte>, q: seq<byte>, u: Unescaped)
    ensures Prepend(p, Prepend(q, u)) == Prepend(p + q, u)
  {
    if u.Split? {
      assert p + (q + u.head) == p + q + u.head;
    }
  }

  /** Overwrite the bytes from `at` on, as the escaper's `*(*ret_name)++ =` lines do. */
  method Put(buf: array<byte>, at: nat, e: seq<byte>)
    requires at + |e| <= buf.Length
    modifies buf
    ensures buf[..] == old(buf[..at]) + e + old(buf[at + |e|..])
  {
    for k := 0 to |e|
      invariant buf[..] == old(buf[..at]) + e[..k] + old(buf[at + k..])
    {
      buf[at + k] := e[k];
    }
  }

  /** How many bytes of the label can be escaped into less than `room` characters. */
  function Fitting(l: Label, room: nat): (n: nat)
    ensures n <= |l|
  {
    if l == [] || |EscapeByte(l[0])| >= room then 0 else 1 + Fitting(l[1..], room - |EscapeByte(l[0])|)
  }

  /** avahi_escape_label: append the escaped label to `buf` at `at`, then a NUL. It succeeds exactly
      when both fit; otherwise the escapes of the bytes in front of the one that does not fit are
      left behind. Nothing before `at` and behind the end changes. */
  method EscapeLabel(src: Label, buf: array<byte>, at: nat) returns (ok: bool, end: nat)
    requires at < buf.Length
    modifies buf
    ensures buf[..at] == old(buf[..at])
    ensures at <= end < buf.Length
    ensures ok == (at + |Escape(src)| < buf.Length) == (Fitting(src, buf.Length - at) == |src|)
    ensures buf[..end] == old(buf[..at]) + Escape(src[..Fitting(src, buf.Length - at)])
    ensures ok ==> end == at + |Escape(src)| && buf[..end] == old(buf[..at]) + Escape(src) && buf[end] == 0
    ensures !ok ==> buf[end..] == old(buf[end..])
    ensures buf[end + 1..] == old(buf[end + 1..])
  {
    hide *;
    ok, end := EscapeBytes(src, buf, at);
    FittingWhole(src, buf.Length - at);
    ghost var front, tail := buf[..end], buf[end..];
    assert buf[..at] == front[..at] == old(buf[..at]);
    assert tail[1..] == buf[end + 1..] == old(buf[end + 1..]);
    if ok {
      buf[end] := 0;
      assert buf[..end] == front && buf[end + 1..] == tail[1..];
      assert buf[..at] == front[..at];
    }
  }

  /** The loop of avahi_escape_label. */
  method EscapeBytes(src: Label, buf: array<byte>, at: nat) returns (ok: bool, end: nat)
    requires at < buf.Length
    modifies buf
    ensures at <= end < buf.Length && ok == (Fitting(src, buf.Length - at) == |src|)
    ensures buf[..end] == old(buf[..at]) + Escape(src[..Fitting(src, buf.Length - at)])
    ensures buf[end..] == old(buf[end..])
  {
    hide *;
    end := at;
    var i := 0;
    ghost var front := buf[..at];
    FittingAtFirst(src, buf.Length - at);
    while i < |src|
      invariant 0 <= i <= |src|
      invariant at <= end < buf.Length
      invariant buf[..end] == front + Escape(src[..i])
      invariant buf[end..] == old(buf[end..])
      invariant Fitting(src, buf.Length - at) == i + Fitting(src[i..], buf.Length - end)
    {
      var e := EscapeByte(src[i]);
      EscapeStep(src, i);
      FittingStep(src, i, buf.Length - end);
      if buf.Length - end < |e| + 1 {
        return false, end;
      }
      Appended(front, Escape(src[..i]), e);
      Write(buf, end, e);
      Behind(old(buf[..]), end, |e|);
      end, i := end + |e|, i + 1;
    }
    FittingAtLast(src, buf.Length - end);
    ok := true;
  }

  lemma Behind(s: seq<byte>, at: nat, n: nat)
    requires at + n <= |s|
    ensures s[at..][n..] == s[at + n..]
  {
  }

  /** All bytes can be escaped exactly if the whole escape fits. */
  lemma {:induction false} FittingWhole(l: Label, room: nat)
    requires room > 0
    ensures |Escape(l)| < room <==> Fitting(l, room) == |l|
    ensures l[..|l|] == l
    ensures |Escape(l[..Fitting(l, room)])| < room
  {
    hide EscapeByte;
    var k := Fitting(l, room);
    if k > 0 {
      FittingWhole(l[1..], room - |EscapeByte(l[0])|);
      assert l[..k][1..] == l[1..][..k - 1];
    }
  }

  lemma Appended(a: seq<byte>, b: seq<byte>, c: seq<byte>)
    ensures a + (b + c) == a + b + c
  {
  }

  /** The next characters; what lies behind them stays. */
  method Write(buf: array<byte>, at: nat, e: seq<byte>)
    requires at + |e| <= buf.Length
    modifies buf
    ensures buf[..at + |e|] == old(buf[..at]) + e && buf[at + |e|..] == old(buf[at + |e|..])
  {
    Put(buf, at, e);
  }

  lemma FittingAtFirst(l: Label, room: nat)
    ensures Fitting(l, room) == Fitting(l[0..], room) && l[..0] == [] && Escape([]) == [] && l[0..] == l
  {
    assert l[0..] == l;
  }

  lemma FittingStep(l: Label, i: nat, room: nat)
    requires i < |l|
    ensures var e := EscapeByte(l[i]);
            Fitting(l[i..], room) == if |e| >= room then 0 else 1 + Fitting(l[i + 1..], room - |e|)
  {
    hide EscapeByte;
    assert l[i..][1..] == l[i + 1..];
  }

  lemma FittingAtLast(l: Label, room: nat)
    ensures Fitting(l[|l|..], room) == 0 && l[|l|..] == [] && l[..|l|] == l
  {
  }

  lemma {:induction false} EscapeConcat(l: Label, m: Label)
    ensures Escape(l + m) == Escape(l) + Escape(m)
  {
    if l == [] {
      assert l + m == m;
    } else {
      calc {
        Escape(l + m);
        { assert (l + m)[1..] == l[1..] + m; }
        EscapeByte(l[0]) + Escape(l[1..] + m);
        { EscapeConcat(l[1..], m); }
        EscapeByte(l[0]) + (Escape(l[1..]) + Escape(m));
        EscapeByte(l[0]) + Escape(l[1..]) + Escape(m);
      }
    }
  }

  lemma EscapeStep(src: Label, i: nat)
    requires i < |src|
    ensures Escape(src[..i + 1]) == Escape(src[..i]) + EscapeByte(src[i])
    ensures |Escape(src)| == |Escape(src[..i + 1])| + |Escape(src[i + 1..])|
  {
    assert src[..i + 1] == src[..i] + [src[i]];
    EscapeConcat(src[..i], [src[i]]);
    assert Escape([src[i]]) == EscapeByte(src[i]);
    assert src == src[..i + 1] + src[i + 1..];
    EscapeConcat(src[..i + 1], src[i + 1..]);
  }

  /** Text that ends a label: nothing, or a dot and the remaining labels. */
  predicate Boundary(tail: seq<byte>) {
    tail == [] || tail[0] == DOT
  }

  /** Scanning inverts escaping, whatever follows the label. */
  lemma {:induction false} ScanEscape(l: Label, tail: seq<byte>, room: nat)
    requires Text(l) && Boundary(tail) && |l| < room
    ensures Scan(Escape(l) + tail, room) == Split(l, if tail == [] then [] else tail[1..])
  {
    hide Next, EscapeByte, Escape, Text;
    if l == [] {
      ScanBoundary(tail, room);
    } else {
      TextTail(l, 1);
      EscapeCons(l);
      ScanEscape(l[1..], tail, room - 1);
      var e, more := EscapeByte(l[0]), Escape(l[1..]) + tail;
      assert Escape(l) + tail == e + more;
      NextEscapeByte(l[0], more);
      assert (e + more)[|e|..] == more;
      assert [l[0]] + l[1..] == l;
    }
  }

  lemma ScanBoundary(tail: seq<byte>, room: nat)
    requires Boundary(tail) && room > 0
    ensures Scan(Escape([]) + tail, room) == Split([], if tail == [] then [] else tail[1..])
  {
    assert Escape([]) + tail == tail;
  }

  lemma EscapeCons(l: Label)
    requires l != [] && Text(l)
    ensures Escape(l) == EscapeByte(l[0]) + Escape(l[1..]) && l[0] != 0
  {
    hide EscapeByte;
    assert l[0] in l;
  }

  lemma NextEscapeByte(b: byte, tail: seq<byte>)
    requires b != 0
    ensures Next(EscapeByte(b) + tail) == Byte(b, |EscapeByte(b)|)
  {
    var e := EscapeByte(b);
    var s := e + tail;
    assert forall k :: 0 <= k < |e| ==> s[k] == e[k];
    if |e| == 4 {
      assert Decimal(e[1], e[2], e[3]) == b;
    }
  }

  lemma {:induction false} EscapeText(l: Label)
    ensures Text(l) ==> Text(Escape(l))
  {
    if l != [] {
      EscapeText(l[1..]);
      assert Text(l) ==> Text(l[1..]) && l[0] != 0;
    }
  }

  /** A label a name may carry: between 1 and 63 bytes of valid UTF-8. */
  predicate GoodLabel(l: Label) {
    1 <= |l| < LABEL_MAX && Text(l) && Utf8.Valid(l)
  }

  predicate Good(ls: seq<Label>) {
    forall i :: 0 <= i < |ls| ==> GoodLabel(ls[i])
  }

  lemma UnescapeEscape(l: Label, tail: seq<byte>)
    requires GoodLabel(l) && Boundary(tail)
    ensures Unescape(Escape(l) + tail, LABEL_MAX) == Split(l, if tail == [] then [] else tail[1..])
  {
    ScanEscape(l, tail, LABEL_MAX);
  }

  /** Presentation form of a list of labels. */
  function Join(ls: seq<Label>): seq<byte> {
    if ls == [] then []
    else if |ls| == 1 then Escape(ls[0])
    else Escape(ls[0]) + [DOT] + Join(ls[1..])
  }

  /** The labels read by a `while (*s)` loop over avahi_unescape_label. */
  function LabelsOf(s: seq<byte>): (r: Option<seq<Label>>)
    ensures r.Some? && Text(s) ==> forall i :: 0 <= i < |r.value| ==> r.value[i] == [] || GoodLabel(r.value[i])
    ensures r.Some? ==> (s == [] <==> r.value == [])
    decreases |s|
  {
    if s == [] then Some([]) else
    match Unescape(s, LABEL_MAX)
    case Malformed => None
    case Split(l, rest) =>
      match LabelsOf(rest)
      case None => None
      case Some(ls) => Some([l] + ls)
  }

  /** A name in the form avahi_normalize_name produces. */
  predicate Normal(name: seq<byte>) {
    LabelsOf(name).Some? && Good(LabelsOf(name).value) && Join(LabelsOf(name).value) == name
  }

  lemma JoinSplit(ls: seq<Label>)
    requires Good(ls) && ls != []
    ensures Unescape(Join(ls), LABEL_MAX) == Split(ls[0], Join(ls[1..]))
  {
    if |ls| == 1 {
      assert Join(ls) == Escape(ls[0]) + [];
      UnescapeEscape(ls[0], []);
    } else {
      var tail := [DOT] + Join(ls[1..]);
      assert Join(ls) == Escape(ls[0]) + tail;
      assert tail[1..] == Join(ls[1..]);
      UnescapeEscape(ls[0], tail);
    }
  }

  lemma {:induction false} JoinText(ls: seq<Label>)
    requires Good(ls)
    ensures Text(Join(ls))
    ensures ls != [] ==> Join(ls) != []
  {
    if ls != [] {
      EscapeText(ls[0]);
      JoinText(ls[1..]);
    }
  }

  /** Reading back the presentation form gives the labels it was made from. */
  lemma {:induction false} LabelsOfJoin(ls: seq<Label>)
    requires Good(ls)
    ensures LabelsOf(Join(ls)) == Some(ls)
    ensures Normal(Join(ls)) && Text(Join(ls))
  {
    if ls != [] {
      JoinSplit(ls);
      JoinText(ls);
      LabelsOfJoin(ls[1..]);
      assert [ls[0]] + ls[1..] == ls;
    }
  }
}
