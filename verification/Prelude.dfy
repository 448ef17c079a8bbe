/** Shared small types: optional values and the lengths JavaScript gives a string. */
module Prelude {

  datatype Option<+T> = None | Some(value: T)

  function Max(a: int, b: int): int { if a < b then b else a }

  function Min(a: int, b: int): int { if a < b then a else b }

  /** `string.length`: UTF-16 code units, two for a character outside the basic plane. */
  function Utf16Length(s: string): nat {
    if s == "" then 0 else (if s[0] as int < 0x1_0000 then 1 else 2) + Utf16Length(s[1..])
  }

  /** `Buffer.byteLength(s, "utf8")`. */
  function Utf8Length(s: string): nat {
    if s == "" then 0
    else
      var c := s[0] as int;
      (if c < 0x80 then 1 else if c < 0x800 then 2 else if c < 0x1_0000 then 3 else 4) + Utf8Length(s[1..])
  }

  /** Both lengths are those of the characters added up (RFC 3629, section 3; RFC 2781, section 2.1). */
  lemma {:induction false} LengthsAdd(a: string, b: string)
    ensures Utf16Length(a + b) == Utf16Length(a) + Utf16Length(b)
    ensures Utf8Length(a + b) == Utf8Length(a) + Utf8Length(b)
  {
    if a == "" {
      assert a + b == b;
    } else {
      assert (a + b)[1..] == a[1..] + b;
      LengthsAdd(a[1..], b);
    }
  }

  lemma LengthsOfOne(c: char)
    ensures Utf16Length([c]) == if c as int <= 0xffff then 1 else 2
    ensures Utf8Length([c]) == if c as int <= 0x7f then 1 else if c as int <= 0x7ff then 2
                               else if c as int <= 0xffff then 3 else 4
  {
    assert [c][1..] == "";
  }

  predicate IsAscii(s: string) { forall i :: 0 <= i < |s| ==> s[i] as int < 0x80 }

  /** The two lengths of a string agree exactly if it is ASCII. */
  lemma {:induction false} AsciiLengths(s: string)
    ensures Utf16Length(s) <= Utf8Length(s)
    ensures Utf16Length(s) == Utf8Length(s) <==> IsAscii(s)
  {
    if s != "" {
      AsciiLengths(s[1..]);
      assert s == [s[0]] + s[1..];
    }
  }

  /** In the basic plane every character is one UTF-16 unit. */
  lemma {:induction false} BasicPlaneLength(s: string)
    requires forall i :: 0 <= i < |s| ==> s[i] as int < 0x1_0000
    ensures Utf16Length(s) == |s|
  {
    if s != "" { BasicPlaneLength(s[1..]); }
  }

  lemma SubsetSize<T>(a: set<T>, b: set<T>)
    requires a <= b
    ensures |a| <= |b|
  {
    assert b == a + (b - a);
  }
}
