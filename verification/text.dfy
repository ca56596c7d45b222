/** String helpers the formatters and predicates rely on: decimal rendering as
    JavaScript's `Number.prototype.toString` produces it for integers, its
    parser, substring search (`String.prototype.includes`) and
    `Array.prototype.join` with its inverse split. */
module Text {

  predicate IsDigit(c: char) {
    '0' <= c <= '9'
  }

  predicate AllDigits(s: string) {
    forall i :: 0 <= i < |s| ==> IsDigit(s[i])
  }

  function DigitChar(d: nat): (c: char)
    requires d < 10
    ensures IsDigit(c)
    ensures c as int - '0' as int == d
  {
    ('0' as int + d) as char
  }

  function DigitValue(c: char): nat
    requires IsDigit(c)
  {
    c as int - '0' as int
  }

  /** Decimal digits of `n`, most significant first, without leading zeros. */
  function NatToString(n: nat): (s: string)
    ensures 1 <= |s| && AllDigits(s)
    ensures |s| > 1 ==> s[0] != '0'
    decreases n
  {
    if n < 10 then [DigitChar(n)] else NatToString(n / 10) + [DigitChar(n % 10)]
  }

  /** The value of a string of decimal digits (the empty string reads as 0). */
  function ParseNat(s: string): nat
    requires AllDigits(s)
  {
    if |s| == 0 then 0 else 10 * ParseNat(s[..|s| - 1]) + DigitValue(s[|s| - 1])
  }

  /** Parsing inverts rendering. */
  lemma {:induction false} ParseNatToString(n: nat)
    ensures ParseNat(NatToString(n)) == n
    decreases n
  {
    if n >= 10 {
      var s := NatToString(n / 10);
      assert NatToString(n) == s + [DigitChar(n % 10)];
      assert (s + [DigitChar(n % 10)])[..|s|] == s;
      ParseNatToString(n / 10);
    }
  }

  /** Rendering is injective, a consequence of the round trip. */
  lemma NatToStringInjective(m: nat, n: nat)
    requires NatToString(m) == NatToString(n)
    ensures m == n
  {
    ParseNatToString(m);
    ParseNatToString(n);
  }

  /** `String(i)` for an integer `i`. */
  function IntToString(i: int): (s: string)
    ensures i >= 0 ==> s == NatToString(i)
    ensures i < 0 ==> s == "-" + NatToString(-i)
  {
    if i < 0 then "-" + NatToString(-i) else NatToString(i)
  }

  predicate StartsWith(s: string, prefix: string) {
    |prefix| <= |s| && s[..|prefix|] == prefix
  }

  /** `s.includes(t)`, written as a scan from the left. */
  predicate Contains(s: string, t: string)
    decreases |s|
  {
    StartsWith(s, t) || (|s| > 0 && Contains(s[1..], t))
  }

  /** `t` occurs in `s` starting at position `i`. */
  predicate OccursAt(s: string, t: string, i: int) {
    0 <= i && i + |t| <= |s| && s[i..i + |t|] == t
  }

  lemma OccursShift(s: string, t: string, i: int)
    requires 0 < i && |s| > 0
    ensures OccursAt(s, t, i) <==> OccursAt(s[1..], t, i - 1)
  {
    if i + |t| <= |s| {
      assert s[i..i + |t|] == s[1..][i - 1..i - 1 + |t|];
    }
  }

  /** `Contains` agrees with the positional definition of a substring. */
  lemma {:induction false} ContainsIffOccurs(s: string, t: string)
    ensures Contains(s, t) <==> exists i :: OccursAt(s, t, i)
    decreases |s|
  {
    assert OccursAt(s, t, 0) <==> StartsWith(s, t);
    if |s| > 0 {
      ContainsIffOccurs(s[1..], t);
      forall i | 0 < i
        ensures OccursAt(s, t, i) <==> OccursAt(s[1..], t, i - 1)
      {
        OccursShift(s, t, i);
      }
      if Contains(s[1..], t) {
        var i :| OccursAt(s[1..], t, i);
        assert OccursAt(s, t, i + 1);
      }
    }
  }

  /** `parts.join(sep)`. */
  function Join(parts: seq<string>, sep: string): string
    decreases |parts|
  {
    if |parts| == 0 then ""
    else if |parts| == 1 then parts[0]
    else parts[0] + sep + Join(parts[1..], sep)
  }

  predicate NoSpace(s: string) {
    forall i :: 0 <= i < |s| ==> s[i] != ' '
  }

  /** Position of the first space of `s`, or `|s|` when there is none. */
  function IndexOfSpace(s: string): (k: nat)
    ensures k <= |s|
    ensures k < |s| ==> s[k] == ' '
    ensures NoSpace(s[..k])
    decreases |s|
  {
    if |s| == 0 then 0
    else if s[0] == ' ' then 0
    else
      var k := 1 + IndexOfSpace(s[1..]);
      assert s[..k] == [s[0]] + s[1..][..k - 1];
      k
  }

  /** `s.split(' ')`. */
  function SplitOnSpace(s: string): seq<string>
    decreases |s|
  {
    var k := IndexOfSpace(s);
    if k == |s| then [s] else [s[..k]] + SplitOnSpace(s[k + 1..])
  }

  lemma {:induction false} IndexOfSpaceAfterWord(w: string, rest: string)
    requires NoSpace(w)
    requires rest == [] || rest[0] == ' '
    ensures IndexOfSpace(w + rest) == |w|
    decreases |w|
  {
    if |w| > 0 {
      assert (w + rest)[0] == w[0];
      assert (w + rest)[1..] == w[1..] + rest;
      IndexOfSpaceAfterWord(w[1..], rest);
    } else {
      assert w + rest == rest;
    }
  }

  /** A space-free word alone splits to itself. */
  lemma SplitWord(w: string)
    requires NoSpace(w)
    ensures SplitOnSpace(w) == [w]
  {
    IndexOfSpaceAfterWord(w, []);
    assert w + [] == w;
  }

  /** A space-free word followed by a space splits off as the first part. */
  lemma SplitAfterWord(w: string, tail: string)
    requires NoSpace(w)
    ensures SplitOnSpace(w + " " + tail) == [w] + SplitOnSpace(tail)
  {
    var s := w + " " + tail;
    assert s == w + (" " + tail);
    IndexOfSpaceAfterWord(w, " " + tail);
    assert s[..|w|] == w;
    assert s[|w| + 1..] == tail;
  }

  /** One inductive step of the split/join round trip: prefixing a
      space-free word. */
  lemma SplitJoinStep(w: string, rest: seq<string>)
    requires NoSpace(w) && |rest| > 0
    requires SplitOnSpace(Join(rest, " ")) == rest
    ensures SplitOnSpace(Join([w] + rest, " ")) == [w] + rest
  {
    var parts := [w] + rest;
    assert parts[0] == w && parts[1..] == rest;
    assert Join(parts, " ") == w + " " + Join(rest, " ");
    SplitAfterWord(w, Join(rest, " "));
  }

  /** Splitting on single spaces recovers space-free parts joined with
      single spaces. */
  lemma {:induction false} SplitJoin(parts: seq<string>)
    requires |parts| > 0
    requires forall i :: 0 <= i < |parts| ==> NoSpace(parts[i])
    ensures SplitOnSpace(Join(parts, " ")) == parts
    decreases |parts|
  {
    if |parts| == 1 {
      SplitWord(parts[0]);
    } else {
      var rest := parts[1..];
      forall i | 0 <= i < |rest|
        ensures NoSpace(rest[i])
      {
        assert rest[i] == parts[i + 1];
      }
      SplitJoin(rest);
      SplitJoinStep(parts[0], rest);
      assert parts == [parts[0]] + rest;
    }
  }
}
