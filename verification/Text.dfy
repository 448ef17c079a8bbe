/** The few JavaScript string operations the modelled code relies on. */
module Text {
  import opened Prelude

  predicate IsDigit(c: char) { '0' <= c <= '9' }

  /** `toLowerCase` on the ASCII letters. */
  function LowerChar(c: char): char {
    if 'A' <= c <= 'Z' then c + ('a' - 'A') else c
  }

  function Lower(s: string): string {
    if s == "" then "" else [LowerChar(s[0])] + Lower(s[1..])
  }

  lemma {:induction false} LowerIsIdempotent(s: string)
    ensures Lower(Lower(s)) == Lower(s)
  {
    if s != "" {
      LowerIsIdempotent(s[1..]);
      assert ([LowerChar(s[0])] + Lower(s[1..]))[1..] == Lower(s[1..]);
    }
  }

  lemma {:induction false} LowerOfLower(s: string)
    requires forall i :: 0 <= i < |s| ==> LowerChar(s[i]) == s[i]
    ensures Lower(s) == s
  {
    if s != "" {
      LowerOfLower(s[1..]);
      assert s == [s[0]] + s[1..];
    }
  }

  /** Place by place, only the twenty-six capital letters change. */
  lemma {:induction false} LowerAt(s: string)
    ensures |Lower(s)| == |s|
    ensures forall i :: 0 <= i < |s| ==> Lower(s)[i] == if 65 <= s[i] as int <= 90 then s[i] + 32 as char else s[i]
  {
    if s != "" {
      LowerAt(s[1..]);
      assert forall i :: 0 < i < |s| ==> Lower(s)[i] == Lower(s[1..])[i - 1];
    }
  }

  predicate StartsWith(s: string, prefix: string) { prefix <= s }

  /** The text before the first `c`, and what follows that `c` if there is one. */
  function Cut(s: string, c: char): (string, Option<string>) {
    if s == "" then ("", None)
    else if s[0] == c then ("", Some(s[1..]))
    else var (head, rest) := Cut(s[1..], c); ([s[0]] + head, rest)
  }

  lemma CutShrinks(s: string, c: char)
    ensures Cut(s, c).1.Some? ==> |Cut(s, c).1.value| < |s|
  {}

  /** `s.split(c)`. */
  function Split(s: string, c: char): (parts: seq<string>)
    ensures |parts| >= 1
    decreases |s|
  {
    CutShrinks(s, c);
    var (head, rest) := Cut(s, c);
    if rest.None? then [head] else [head] + Split(rest.value, c)
  }

  lemma {:induction false} CutOfJoined(head: string, c: char, rest: string)
    requires c !in head
    ensures Cut(head + [c] + rest, c) == (head, Some(rest))
    ensures Cut(head, c) == (head, None)
  {
    if head == "" {
      assert head + [c] + rest == [c] + rest;
    } else {
      assert head[0] in head && head == [head[0]] + head[1..];
      CutOfJoined(head[1..], c, rest);
      assert (head + [c] + rest)[1..] == head[1..] + [c] + rest;
    }
  }

  lemma SplitOfJoined(head: string, c: char, rest: string)
    requires c !in head
    ensures Split(head + [c] + rest, c) == [head] + Split(rest, c)
    ensures Split(head, c) == [head]
  {
    CutOfJoined(head, c, rest);
  }

  /** Splitting a list in two at any of its separators. */
  lemma {:induction false} SplitOfConcat(a: string, c: char, b: string)
    ensures Split(a + [c] + b, c) == Split(a, c) + Split(b, c)
    decreases |a|
  {
    CutRejoins(a, c);
    CutShrinks(a, c);
    var (head, rest) := Cut(a, c);
    if rest.None? {
      SplitOfJoined(a, c, b);
    } else {
      var more := rest.value + [c] + b;
      assert Split(a + [c] + b, c) == [head] + Split(more, c) by {
        assert a + [c] + b == head + [c] + more;
        SplitOfJoined(head, c, more);
      }
      assert Split(more, c) == Split(rest.value, c) + Split(b, c) by { SplitOfConcat(rest.value, c, b); }
      assert Split(a, c) == [head] + Split(rest.value, c);
    }
  }

  lemma {:induction false} CutRejoins(s: string, c: char)
    ensures var (head, rest) := Cut(s, c);
            c !in head && s == if rest.None? then head else head + [c] + rest.value
  {
    if s != "" && s[0] != c {
      CutRejoins(s[1..], c);
      assert s == [s[0]] + s[1..];
    }
  }

  /** The first part and the text after it, of which the other parts come. */
  lemma JoinedOfSplit(s: string, c: char) returns (rest: Option<string>)
    ensures |Split(s, c)| == 1 ==> s == Split(s, c)[0]
    ensures |Split(s, c)| > 1 ==> rest.Some? && Split(s, c)[1..] == Split(rest.value, c)
                                  && s == Split(s, c)[0] + [c] + rest.value
  {
    CutRejoins(s, c);
    CutShrinks(s, c);
    rest := Cut(s, c).1;
  }

  predicate IsSpace(c: char) { c == ' ' || '\t' <= c <= '\r' }

  function TrimStart(s: string): string {
    if s != "" && IsSpace(s[0]) then TrimStart(s[1..]) else s
  }

  function TrimEnd(s: string): string {
    if s != "" && IsSpace(s[|s| - 1]) then TrimEnd(s[..|s| - 1]) else s
  }

  function Trimmed(s: string): string { TrimEnd(TrimStart(s)) }

  /** Tabs, line feeds, form feeds, carriage returns and blanks (the ASCII part of section 12.2 of ECMA-262). */
  predicate AllSpace(s: string) { forall i :: 0 <= i < |s| ==> s[i] as int in {9, 10, 11, 12, 13, 32} }

  /** Text without space at its ends. */
  predicate IsTrim(s: string) { s == "" || (!AllSpace([s[0]]) && !AllSpace([s[|s| - 1]])) }

  lemma SpaceIsSpace(c: char)
    ensures IsSpace(c) <==> AllSpace([c])
  {
    assert [c][0] == c;
  }

  lemma {:induction false} TrimStartOf(head: string, s: string)
    requires AllSpace(head) && (s == "" || !IsSpace(s[0]))
    ensures TrimStart(head + s) == s
  {
    if head == "" {
      assert head + s == s;
    } else {
      SpaceIsSpace(head[0]);
      assert (head + s)[1..] == head[1..] + s;
      TrimStartOf(head[1..], s);
    }
  }

  lemma {:induction false} TrimEndOf(s: string, tail: string)
    requires AllSpace(tail) && (s == "" || !IsSpace(s[|s| - 1]))
    ensures TrimEnd(s + tail) == s
    decreases |tail|
  {
    if tail == "" {
      assert s + tail == s;
    } else {
      var init := tail[..|tail| - 1];
      SpaceIsSpace(tail[|tail| - 1]);
      assert (s + tail)[..|s + tail| - 1] == s + init;
      TrimEndOf(s, init);
    }
  }

  /** Trimming takes off the space at both ends and nothing else. */
  lemma TrimmedOf(head: string, core: string, tail: string)
    requires AllSpace(head) && IsTrim(core) && AllSpace(tail)
    ensures Trimmed(head + core + tail) == core
  {
    if core != "" {
      SpaceIsSpace(core[0]);
      SpaceIsSpace(core[|core| - 1]);
    }
    if core == "" {
      assert head + core + tail == head + tail && AllSpace(head + tail);
      TrimStartOf(head + tail, "");
      assert head + tail + "" == head + tail;
    } else {
      assert head + core + tail == head + (core + tail);
      TrimStartOf(head, core + tail);
      TrimEndOf(core, tail);
    }
  }

  lemma TrimmedAlready(s: string)
    requires s != "" && !IsSpace(s[0]) && !IsSpace(s[|s| - 1])
    ensures Trimmed(s) == s
  {}

  predicate AllDigits(s: string) { forall c <- s :: IsDigit(c) }

  /** The value of a run of decimal digits. */
  function DecimalValue(s: string): nat
    requires AllDigits(s)
  {
    if s == "" then 0
    else
      var last := s[|s| - 1];
      assert last in s;
      10 * DecimalValue(s[..|s| - 1]) + (last as int - '0' as int)
  }

  function Digit(n: nat): char
    requires n < 10
  {
    '0' + n as char
  }

  /** `String(n)`. */
  function Decimal(n: nat): string {
    if n < 10 then [Digit(n)] else Decimal(n / 10) + [Digit(n % 10)]
  }

  lemma {:induction false} DecimalFacts(n: nat)
    ensures Decimal(n) != "" && AllDigits(Decimal(n)) && DecimalValue(Decimal(n)) == n
  {
    if n >= 10 {
      DecimalFacts(n / 10);
      var d := Decimal(n);
      assert d[..|d| - 1] == Decimal(n / 10) && d[|d| - 1] == Digit(n % 10);
    }
  }
}
