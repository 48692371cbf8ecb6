/** Alternative service names after a collision (avahi_alternative_service_name and
    drop_incomplete_utf8 in avahi-common/alternative.c). */
module AlternativeNames {
  import opened Bytes
  import opened Utf8
  import opened ServiceNames

  type Name = seq<byte>

  const INT_MAX := 0x7FFF_FFFF
  const SPACE: byte := 32
  const HASH: byte := 35
  const MARK: Name := [SPACE, HASH]

  /** The longest valid prefix. */
  function Trimmed(s: Name): (t: Name)
    ensures Valid(t) && |t| <= |s| && t == s[..|t|]
  {
    if Valid(s) then s else Trimmed(s[..|s| - 1])
  }

  /** A valid string cut short is valid, or ends within a character. */
  lemma {:induction false} CutShort(s: Name, k: nat)
    requires Valid(s) && k <= |s|
    ensures Valid(s[..k]) || (k > 0 && s[k - 1] >= 0x80)
    decreases |s|
  {
    if 0 < k {
      var n := CharLength(s);
      var t := s[..k];
      if k >= n {
        CharLengthCut(s, k);
        CutShort(s[n..], k - n);
        assert t[n..] == s[n..][..k - n];
      }
    }
  }

  lemma CharLengthCut(s: Name, k: nat)
    requires s != [] && CharLength(s) > 0 && CharLength(s) <= k <= |s|
    ensures k > 0 && CharLength(s[..k]) == CharLength(s)
  {
  }

  /** drop_incomplete_utf8: bytes go from the end while the string is not valid. None stands for its
      assertion failing: a byte that goes has to have its high bit set. */
  function Cleaned(s: Name): (r: Option<Name>)
    ensures r.Some? ==> r.value == Trimmed(s)
  {
    if Valid(s) then Some(s) else if s[|s| - 1] < 0x80 then None else Cleaned(s[..|s| - 1])
  }

  /** The assertion fails exactly if there is an ASCII character behind the longest valid prefix. */
  lemma {:induction false} CleanedExactly(s: Name)
    ensures Cleaned(s) == None <==> exists i :: |Trimmed(s)| <= i < |s| && s[i] < 0x80
  {
    if !Valid(s) {
      var t, n := s[..|s| - 1], |s| - 1;
      CleanedExactly(t);
      if Cleaned(t) == None {
        var i :| |Trimmed(t)| <= i < |t| && t[i] < 0x80;
        assert s[i] < 0x80;
      }
      if i :| |Trimmed(s)| <= i < |s| && s[i] < 0x80 {
        assert i < n ==> t[i] < 0x80;
      }
    }
  }

  /** Whatever is cut off a valid string, the assertion does not fail. */
  lemma {:induction false} CutCleaned(s: Name, k: nat)
    requires Valid(s) && k <= |s|
    ensures Cleaned(s[..k]) == Some(Trimmed(s[..k]))
  {
    if !Valid(s[..k]) {
      CutShort(s, k);
      assert s[..k][..k - 1] == s[..k - 1];
      CutCleaned(s, k - 1);
    }
  }

  /** A stray byte in front of a letter: the assertion fails. */
  lemma StrayByteFails()
    ensures Cleaned([0xFF, 97]) == None
  {
  }

  /** drop_incomplete_utf8 on the string in the first `length` bytes: it overwrites the tail with
      NULs, backwards. */
  method DropIncompleteUtf8(c: array<byte>, length: nat) returns (ok: bool, end: nat)
    requires length <= c.Length && Text(c[..length])
    modifies c
    ensures ok == Cleaned(old(c[..length])).Some?
    ensures ok ==> end <= length && c[..end] == Cleaned(old(c[..length])).value
    ensures ok ==> forall i :: end <= i < length ==> c[i] == 0 && old(c[i]) >= 0x80
  {
    end := length;
    while end > 0
      invariant 0 <= end <= length && c[..end] == old(c[..end]) && Text(c[..end])
      invariant Cleaned(c[..end]) == Cleaned(old(c[..length]))
      invariant forall i :: end <= i < length ==> c[i] == 0 && old(c[i]) >= 0x80
    {
      var valid := Validate(c[..end]);
      if valid {
        return true, end;
      }
      ghost var t := c[..end];
      if c[end - 1] < 128 {
        return false, end;
      }
      assert t[..end - 1] == c[..end - 1] == old(c[..end - 1]);
      TextPart(t, end - 1);
      c[end - 1] := 0;
      end := end - 1;
      assert c[..end] == t[..end];
    }
    assert c[..0] == [];
    ok := true;
  }

  lemma TextPart(s: Name, k: nat)
    requires Text(s) && k <= |s|
    ensures Text(s[..k])
  {
  }

  predicate IsDigit(b: byte) {
    48 <= b <= 57
  }

  /** %i for numbers that are not negative. */
  function Decimal(n: nat): (d: Name)
    ensures d != [] && forall i :: 0 <= i < |d| ==> IsDigit(d[i])
    ensures n > 0 ==> d[0] != 48
  {
    if n < 10 then [48 + n] else Decimal(n / 10) + [48 + n % 10]
  }

  /** atoi of digits. */
  function Value(d: Name): int {
    if d == [] then 0 else Value(d[..|d| - 1]) * 10 + (d[|d| - 1] as int - 48)
  }

  lemma {:induction false} ValueDecimal(n: nat)
    ensures Value(Decimal(n)) == n
  {
    if n >= 10 {
      ValueDecimal(n / 10);
      var d := Decimal(n);
      assert d[..|d| - 1] == Decimal(n / 10);
    } else {
      assert Decimal(n)[..0] == [];
    }
  }

  function Pow10(k: nat): (p: nat)
    ensures p > 0
  {
    if k == 0 then 1 else 10 * Pow10(k - 1)
  }

  lemma {:induction false} DecimalLength(n: nat, k: nat)
    requires n < Pow10(k) && k > 0
    ensures |Decimal(n)| <= k
  {
    if n >= 10 {
      assert k > 1 by {
        assert Pow10(1) == 10 * Pow10(0);
      }
      DecimalLength(n / 10, k - 1);
    }
  }

  lemma IntLength(n: nat)
    requires n <= INT_MAX
    ensures |Decimal(n)| <= 10
  {
    assert Pow10(10) == 10_000_000_000 by {
      assert Pow10(2) == 100;
      assert Pow10(4) == 10000;
      assert Pow10(6) == 1000000;
      assert Pow10(8) == 100000000;
    }
    DecimalLength(n, 10);
  }

  predicate MarkAt(s: Name, i: nat) {
    i + 2 <= |s| && s[i] == SPACE && s[i + 1] == HASH
  }

  /** The position behind the last " #", looked for up to position k. */
  function LastMark(s: Name, k: nat): (e: nat)
    requires k <= |s|
    ensures e <= k && (e > 0 ==> e >= 2 && MarkAt(s, e - 2))
    ensures forall i :: e - 1 <= i && 0 <= i <= k - 2 ==> !MarkAt(s, i)
  {
    if k < 2 then 0 else if MarkAt(s, k - 2) then k else LastMark(s, k - 1)
  }

  predicate AllDigits(s: Name) {
    forall i :: 0 <= i < |s| ==> IsDigit(s[i])
  }

  /** Where the counter of a name begins, if it has one. */
  function CounterAt(s: Name): (e: nat)
    ensures e <= |s|
  {
    var e := LastMark(s, |s|);
    if e > 0 && AllDigits(s[e..]) && s[e..] != [] && s[e] != 48 then e else 0
  }

  /** The counter of a name; a name without one counts as the first. */
  function Counter(s: Name): int {
    if CounterAt(s) > 0 then Value(s[CounterAt(s)..]) else 1
  }

  function Min(a: nat, b: int): (m: nat)
    requires b >= 0
  {
    if a >= b then b else a
  }

  /** avahi_alternative_service_name, while the counter stays an int. */
  function Alternative(s: Name): (r: Name)
    requires Counter(s) < INT_MAX
  {
    var e := CounterAt(s);
    if e > 0 then
      var m := Decimal(NextCount(s));
      IntLength(NextCount(s));
      Trimmed(s[..Min(e - 2, 64 - 1 - |m| - 2)]) + MARK + m
    else
      Trimmed(s[..Min(|s|, 64 - 1 - 3)]) + MARK + Decimal(2)
  }

  /** What the caller gets: NULL, a failed assertion, or a name. */
  datatype Outcome = Refused | Asserted | Named(name: Name)

  /** How much of the name is kept in front of the mark, before it is cleaned. */
  function KeptLength(s: Name): (l: nat)
    requires Counter(s) < INT_MAX
    ensures l <= |s|
  {
    var e := CounterAt(s);
    if e > 0 then
      IntLength(NextCount(s));
      Min(e - 2, 64 - 1 - |Decimal(NextCount(s))| - 2)
    else
      Min(|s|, 64 - 1 - 3)
  }

  /** avahi_alternative_service_name for any string, while its counter stays an int. */
  function AlternativeOf(s: Name): Outcome
    requires Counter(s) < INT_MAX
  {
    if !ValidServiceName(s) then Refused
    else if Cleaned(s[..KeptLength(s)]).None? then Asserted
    else Named(Alternative(s))
  }

  /** The assertion in the truncation helper fails exactly if an ASCII character stands behind the
      longest valid prefix of what is kept; for a valid string it never does. */
  lemma AlternativeExactly(s: Name)
    requires Counter(s) < INT_MAX && ValidServiceName(s)
    ensures var c := s[..KeptLength(s)];
            AlternativeOf(s) == Asserted <==> exists i :: |Trimmed(c)| <= i < |c| && c[i] < 0x80
    ensures Valid(s) ==> AlternativeOf(s) == Named(Alternative(s))
  {
    hide Alternative, Cleaned, Trimmed, KeptLength;
    CleanedExactly(s[..KeptLength(s)]);
    if Valid(s) {
      CutCleaned(s, KeptLength(s));
    }
  }

  function NextCount(s: Name): (n: nat)
    requires Counter(s) < INT_MAX
    ensures n == Counter(s) + 1 <= INT_MAX
  {
    CounterPositive(s);
    Counter(s) + 1
  }

  lemma CounterPositive(s: Name)
    ensures Counter(s) >= 0
  {
    if CounterAt(s) > 0 {
      ValuePositive(s[CounterAt(s)..]);
    }
  }

  lemma {:induction false} ValuePositive(d: Name)
    requires AllDigits(d)
    ensures Value(d) >= 0
  {
    if d != [] {
      ValuePositive(d[..|d| - 1]);
    }
  }

  /** A name that ends with a mark and a number has that number as its counter. */
  lemma CounterOf(c: Name, n: nat)
    requires n > 0
    ensures CounterAt(c + MARK + Decimal(n)) == |c| + 2 && Counter(c + MARK + Decimal(n)) == n
  {
    var d := Decimal(n);
    var s := c + MARK + d;
    assert s[|c|] == SPACE && s[|c| + 1] == HASH && MarkAt(s, |c|);
    var e := LastMark(s, |s|);
    assert e > |c|;
    assert forall i :: |c| + 2 <= i < |s| ==> s[i] == d[i - |c| - 2] && IsDigit(s[i]);
    assert e - 2 <= |c|;
    assert s[e..] == d;
    ValueDecimal(n);
  }

  predicate Service(s: Name) {
    ValidServiceName(s) && Valid(s) && Text(s)
  }

  lemma MarkedService(c: Name, n: nat)
    requires Valid(c) && Text(c) && n > 0 && |c| + 2 + |Decimal(n)| < 64
    ensures Service(c + MARK + Decimal(n))
  {
    var d := Decimal(n);
    AsciiValid(MARK + d);
    ValidConcat(c, MARK + d);
    assert c + MARK + d == c + (MARK + d);
    assert forall i :: 0 <= i < |d| ==> IsDigit(d[i]);
  }

  lemma TrimmedText(s: Name, k: nat)
    requires Text(s) && k <= |s|
    ensures Text(Trimmed(s[..k])) && |Trimmed(s[..k])| <= k
  {
    var t := Trimmed(s[..k]);
    assert t == s[..|t|];
    TextPart(s, |t|);
  }

  /** Every alternative of a service name is one again, shorter than the label limit and valid
      UTF-8, and its counter is the next one. */
  lemma NextAlternative(s: Name)
    requires Service(s) && Counter(s) < INT_MAX
    ensures Service(Alternative(s)) && Counter(Alternative(s)) == Counter(s) + 1
  {
    var e, n := CounterAt(s), NextCount(s);
    CounterPositive(s);
    if e > 0 {
      IntLength(n);
      var l := Min(e - 2, 64 - 1 - |Decimal(n)| - 2);
      hide Alternative, Valid, Decimal, Trimmed, CounterAt, Counter, LastMark;
      TrimmedText(s, l);
      MarkedService(Trimmed(s[..l]), n);
      CounterOf(Trimmed(s[..l]), n);
      WithCounter(s);
    } else {
      var l := Min(|s|, 64 - 1 - 3);
      assert |Decimal(2)| == 1;
      hide Alternative, Valid, Decimal, Trimmed, LastMark;
      TrimmedText(s, l);
      MarkedService(Trimmed(s[..l]), 2);
      CounterOf(Trimmed(s[..l]), 2);
      WithoutCounter(s);
    }
  }

  lemma WithCounter(s: Name)
    requires Counter(s) < INT_MAX && CounterAt(s) > 0
    ensures CounterAt(s) >= 2 && |Decimal(NextCount(s))| <= 10
    ensures Alternative(s) == Trimmed(s[..Min(CounterAt(s) - 2, 64 - 1 - |Decimal(NextCount(s))| - 2)]) + MARK + Decimal(NextCount(s))
  {
    IntLength(NextCount(s));
  }

  lemma WithoutCounter(s: Name)
    requires Counter(s) < INT_MAX && CounterAt(s) == 0
    ensures Alternative(s) == Trimmed(s[..Min(|s|, 64 - 1 - 3)]) + MARK + Decimal(2)
  {
  }

  /** The k-th name tried. */
  function Iterated(s: Name, k: nat): (r: Name)
    requires Service(s) && Counter(s) + k <= INT_MAX
    ensures Service(r) && Counter(r) == Counter(s) + k
    decreases k
  {
    if k == 0 then s else
    var t := Iterated(s, k - 1);
    NextAlternative(t);
    Alternative(t)
  }

  /** Trying one alternative after the other never comes back to a name already tried. */
  lemma NeverRepeats(s: Name, i: nat, j: nat)
    requires Service(s) && i < j && Counter(s) + j <= INT_MAX
    ensures Iterated(s, i) != Iterated(s, j)
  {
    assert Counter(Iterated(s, i)) < Counter(Iterated(s, j));
  }

  /** strstr for " #": the first mark at or behind `from`, or the end. */
  method FindMark(s: Name, from: nat) returns (i: nat)
    requires from <= |s|
    ensures from <= i <= |s| && (i < |s| ==> MarkAt(s, i))
    ensures forall j :: from <= j < i ==> !MarkAt(s, j)
  {
    i := from;
    while i < |s| && !MarkAt(s, i)
      invariant from <= i <= |s|
      invariant forall j :: from <= j < i ==> !MarkAt(s, j)
    {
      i := i + 1;
    }
  }

  lemma LastMarkIs(s: Name, e: nat)
    requires e <= |s| && (e > 0 ==> e >= 2 && MarkAt(s, e - 2))
    requires forall j :: e <= j < |s| ==> !MarkAt(s, j)
    ensures LastMark(s, |s|) == e
  {
    var f := LastMark(s, |s|);
    if e > 0 {
      assert s[e - 1] == HASH;
      assert f > 0 && f >= e;
    }
  }

  /** Looking for the counter: behind the last " #", digits only, at least one, no leading zero. */
  method FindCounter(s: Name) returns (e: nat)
    ensures e == CounterAt(s)
  {
    var i := FindMark(s, 0);
    if i == |s| {
      LastMarkIs(s, 0);
      return 0;
    }
    e := i + 2;
    i := FindMark(s, e);
    while i < |s|
      invariant 2 <= e <= i <= |s| && MarkAt(s, e - 2) && (i < |s| ==> MarkAt(s, i))
      invariant forall j :: e <= j < i ==> !MarkAt(s, j)
      decreases |s| - i
    {
      e := i + 2;
      i := FindMark(s, e);
    }
    LastMarkIs(s, e);
    var p := e;
    while p < |s|
      invariant e <= p <= |s| && forall j :: e <= j < p ==> IsDigit(s[j])
    {
      if !IsDigit(s[p]) {
        assert s[e..][p - e] == s[p];
        return 0;
      }
      p := p + 1;
    }
    if e == |s| || s[e] == 48 {
      return 0;
    }
  }

  /** atoi of the digits from position e on. */
  method Atoi(s: Name, e: nat) returns (n: int)
    requires e <= |s|
    ensures n == Value(s[e..])
  {
    n := 0;
    var p := e;
    while p < |s|
      invariant e <= p <= |s| && n == Value(s[e..p])
    {
      assert s[e..p + 1][..p - e] == s[e..p];
      n := n * 10 + (s[p] as int - 48);
      p := p + 1;
    }
    assert s[e..|s|] == s[e..];
  }

  lemma AlternativeIs(s: Name)
    requires Counter(s) < INT_MAX
    ensures CounterAt(s) == 0 || CounterAt(s) >= 2
    ensures var e := CounterAt(s);
            var m := Decimal(if e > 0 then NextCount(s) else 2);
            && |m| <= 10 && Alternative(s) == Trimmed(s[..KeptLength(s)]) + MARK + m
            && KeptLength(s) == Min(if e > 0 then e - 2 else |s|, if e > 0 then 64 - 1 - |m| - 2 else 64 - 1 - 3)
  {
    if CounterAt(s) > 0 {
      WithCounter(s);
    } else {
      WithoutCounter(s);
    }
  }

  /** avahi_alternative_service_name. */
  method AlternativeServiceName(s: Name) returns (r: Outcome)
    requires Text(s) && Counter(s) < INT_MAX
    ensures r == AlternativeOf(s)
  {
    if |s| >= 64 || |s| == 0 {
      return Refused;
    }
    AlternativeIs(s);
    hide Alternative, Valid, Decimal, Trimmed, CounterAt, Counter, LastMark, Text, Cleaned, KeptLength;
    var e := FindCounter(s);
    var c, n := new byte[|s|](i requires 0 <= i < |s| => s[i]), 2;
    assert c[..] == s;
    if e > 0 {
      var count := Atoi(s, e);
      CounterIs(s);
      CounterPositive(s);
      n := count + 1;
    }
    var m := Decimal(n);
    var l, room := if e > 0 then e - 2 else |s|, if e > 0 then 64 - 1 - |m| - 2 else 64 - 1 - 3;
    if l >= room {
      l := room;
    }
    assert c[..l] == s[..l];
    TextPart(s, l);
    var ok, end := DropIncompleteUtf8(c, l);
    r := if ok then Named(c[..end] + MARK + m) else Asserted;
  }

  lemma CounterIs(s: Name)
    ensures CounterAt(s) > 0 ==> Counter(s) == Value(s[CounterAt(s)..])
  {
  }
}
