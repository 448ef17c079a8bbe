/**
 The JSON text of a token snapshot, and its reader. `JSON.parse` is modelled exactly on the
 texts the serializer can produce; on every other text it is a parameter.
 */
module Json {
  import opened Prelude
  import opened OrderedMaps
  import opened SortedText

  datatype Value =
    | Null | Bool(b: bool) | Number(n: real) | Text(s: string)
    | Array(items: seq<Value>) | Object(members: seq<Entry<string, Value>>)

  const HEX := "0123456789abcdef"

  /** One character inside a JSON string, as `JSON.stringify` writes it. */
  function Escaped(c: char): (e: string)
    ensures e != ""
  {
    if c == '\"' then "\\\""
    else if c == '\\' then "\\\\"
    else if c as int == 8 then "\\b"
    else if c as int == 12 then "\\f"
    else if c == '\n' then "\\n"
    else if c == '\r' then "\\r"
    else if c == '\t' then "\\t"
    else if c as int < 32 then "\\u00" + [HEX[c as int / 16], HEX[c as int % 16]]
    else [c]
  }

  function Body(s: string): string {
    if s == "" then "\"" else Escaped(s[0]) + Body(s[1..])
  }

  function Quote(s: string): string { "\"" + Body(s) }

  function HexValue(c: char): Option<nat> {
    if '0' <= c <= '9' then Some(c as int - '0' as int)
    else if 'a' <= c <= 'f' then Some(10 + c as int - 'a' as int)
    else None
  }

  /** One possibly escaped character and what follows it. */
  function ReadChar(t: string): (r: Option<(char, string)>)
    ensures r.Some? ==> |r.value.1| < |t|
  {
    if t == "" || t[0] == '\"' || (t[0] as int) < 32 then None
    else if t[0] != '\\' then Some((t[0], t[1..]))
    else if |t| < 2 then None
    else if t[1] == '\"' || t[1] == '\\' then Some((t[1], t[2..]))
    else if t[1] == 'b' then Some((8 as char, t[2..]))
    else if t[1] == 'f' then Some((12 as char, t[2..]))
    else if t[1] == 'n' then Some(('\n', t[2..]))
    else if t[1] == 'r' then Some(('\r', t[2..]))
    else if t[1] == 't' then Some(('\t', t[2..]))
    else if |t| >= 6 && t[1] == 'u' && t[2] == '0' && t[3] == '0' && HexValue(t[4]).Some? && HexValue(t[5]).Some? then
      Some(((16 * HexValue(t[4]).value + HexValue(t[5]).value) as char, t[6..]))
    else None
  }

  function ReadBody(t: string): (r: Option<(string, string)>)
    ensures r.Some? ==> |r.value.1| < |t|
    decreases |t|
  {
    if t == "" then None
    else if t[0] == '\"' then Some(("", t[1..]))
    else
      match ReadChar(t) {
        case None => None
        case Some((c, rest)) =>
          match ReadBody(rest) {
            case None => None
            case Some((s, tail)) => Some(([c] + s, tail))
          }
      }
  }

  function ReadString(t: string): (r: Option<(string, string)>)
    ensures r.Some? ==> |r.value.1| < |t|
  {
    if t == "" || t[0] != '\"' then None else ReadBody(t[1..])
  }

  lemma HexDigit(n: nat)
    requires n < 16
    ensures HexValue(HEX[n]) == Some(n)
  {
    assert HEX[..10] == "0123456789" && HEX[10..] == "abcdef";
    if n < 10 { assert HEX[n] == HEX[..10][n]; } else { assert HEX[n] == HEX[10..][n - 10]; }
  }

  lemma ReadEscaped(c: char, rest: string)
    ensures (Escaped(c) + rest)[0] != '\"'
    ensures ReadChar(Escaped(c) + rest) == Some((c, rest))
  {
    var t := Escaped(c) + rest;
    if |Escaped(c)| == 1 {
      assert Escaped(c) == [c] && c != '\"' && c != '\\' && c as int >= 32;
      assert t[0] == c && t[1..] == rest;
    } else if |Escaped(c)| == 2 {
      assert t[2..] == rest;
    } else {
      var hi, lo := c as int / 16, c as int % 16;
      assert t == "\\u00" + [HEX[hi], HEX[lo]] + rest && t[6..] == rest;
      assert t[0] == '\\' && t[1] == 'u' && t[2] == '0' && t[3] == '0' && t[4] == HEX[hi] && t[5] == HEX[lo];
      HexDigit(hi);
      HexDigit(lo);
      assert 16 * hi + lo == c as int;
    }
  }

  lemma {:induction false} ReadBodyOfBody(s: string, rest: string)
    ensures ReadBody(Body(s) + rest) == Some((s, rest))
  {
    if s == "" {
      assert (Body(s) + rest)[1..] == rest;
    } else {
      assert Body(s) + rest == Escaped(s[0]) + (Body(s[1..]) + rest);
      ReadEscaped(s[0], Body(s[1..]) + rest);
      ReadBodyOfBody(s[1..], rest);
      assert [s[0]] + s[1..] == s;
    }
  }

  lemma ReadQuoted(s: string, rest: string)
    ensures ReadString(Quote(s) + rest) == Some((s, rest))
  {
    assert (Quote(s) + rest)[1..] == Body(s) + rest;
    ReadBodyOfBody(s, rest);
  }

  // ----- A list of strings -----

  function Quotes(xs: seq<string>): seq<string> {
    if xs == [] then [] else [Quote(xs[0])] + Quotes(xs[1..])
  }

  /** `JSON.stringify` of an array of strings. */
  function ListText(xs: seq<string>): string { "[" + Joined(Quotes(xs)) + "]" }

  function ReadItems(t: string): (r: Option<(seq<string>, string)>)
    ensures r.Some? ==> |r.value.1| < |t|
    decreases |t|
  {
    match ReadString(t)
    case None => None
    case Some((x, rest)) =>
      if rest == "" then None
      else if rest[0] == ']' then Some(([x], rest[1..]))
      else if rest[0] != ',' then None
      else
        match ReadItems(rest[1..])
        case None => None
        case Some((xs, tail)) => Some(([x] + xs, tail))
  }

  function ReadList(t: string): (r: Option<(seq<string>, string)>)
    ensures r.Some? ==> |r.value.1| < |t|
  {
    if |t| < 2 || t[0] != '[' then None
    else if t[1] == ']' then Some(([], t[2..]))
    else ReadItems(t[1..])
  }

  lemma LastItem(x: string, rest: string)
    ensures ReadItems(Quote(x) + ("]" + rest)) == Some(([x], rest))
  {
    ReadQuoted(x, "]" + rest);
    assert ("]" + rest)[1..] == rest;
  }

  lemma FirstItem(x: string, tail: string, xs: seq<string>, rest: string)
    requires ReadItems(tail) == Some((xs, rest))
    ensures ReadItems(Quote(x) + ("," + tail)) == Some(([x] + xs, rest))
  {
    ReadQuoted(x, "," + tail);
    assert ("," + tail)[1..] == tail;
  }

  lemma JoinedCons(x: string, xs: seq<string>, end: string)
    ensures Joined([x] + xs) + end == if xs == [] then x + end else x + ("," + (Joined(xs) + end))
  {
    assert ([x] + xs)[1..] == xs;
  }

  lemma {:induction false} ReadItemsOfJoined(xs: seq<string>, rest: string)
    requires xs != []
    ensures ReadItems(Joined(Quotes(xs)) + ("]" + rest)) == Some((xs, rest))
  {
    JoinedCons(Quote(xs[0]), Quotes(xs[1..]), "]" + rest);
    if |xs| == 1 {
      assert xs == [xs[0]];
      LastItem(xs[0], rest);
    } else {
      ReadItemsOfJoined(xs[1..], rest);
      FirstItem(xs[0], Joined(Quotes(xs[1..])) + ("]" + rest), xs[1..], rest);
      assert [xs[0]] + xs[1..] == xs;
    }
  }

  lemma QuoteFirst(xs: seq<string>)
    requires xs != []
    ensures Joined(Quotes(xs)) != "" && Joined(Quotes(xs))[0] == '\"'
  {
    assert Quotes(xs)[0] == Quote(xs[0]) && Quote(xs[0])[0] == '\"';
  }

  lemma ReadListOfText(xs: seq<string>, rest: string)
    ensures ReadList(ListText(xs) + rest) == Some((xs, rest))
  {
    var t := ListText(xs) + rest;
    if xs == [] {
      assert t == "[]" + rest && t[2..] == rest;
    } else {
      QuoteFirst(xs);
      assert t == "[" + (Joined(Quotes(xs)) + ("]" + rest));
      assert t[1..] == Joined(Quotes(xs)) + ("]" + rest) && t[1] == Joined(Quotes(xs))[0];
      ReadItemsOfJoined(xs, rest);
    }
  }

  // ----- The members of the users object -----

  type Users = seq<Entry<string, seq<string>>>

  function MemberText(e: Entry<string, seq<string>>): string { Quote(e.key) + ":" + ListText(e.value) }

  function MemberTexts(us: Users): seq<string> {
    if us == [] then [] else [MemberText(us[0])] + MemberTexts(us[1..])
  }

  function ReadMember(t: string): (r: Option<(Entry<string, seq<string>>, string)>)
    ensures r.Some? ==> |r.value.1| < |t|
  {
    match ReadString(t)
    case None => None
    case Some((k, rest)) =>
      if rest == "" || rest[0] != ':' then None
      else
        match ReadList(rest[1..])
        case None => None
        case Some((xs, tail)) => Some((Entry(k, xs), tail))
  }

  function ReadMembers(t: string): (r: Option<(Users, string)>)
    ensures r.Some? ==> |r.value.1| < |t|
    decreases |t|
  {
    match ReadMember(t)
    case None => None
    case Some((e, rest)) =>
      if rest == "" then None
      else if rest[0] == '}' then Some(([e], rest[1..]))
      else if rest[0] != ',' then None
      else
        match ReadMembers(rest[1..])
        case None => None
        case Some((es, tail)) => Some(([e] + es, tail))
  }

  lemma ReadMemberOfText(e: Entry<string, seq<string>>, rest: string)
    ensures ReadMember(MemberText(e) + rest) == Some((e, rest))
  {
    var after := ":" + (ListText(e.value) + rest);
    assert MemberText(e) + rest == Quote(e.key) + after;
    ReadQuoted(e.key, after);
    assert after[1..] == ListText(e.value) + rest;
    ReadListOfText(e.value, rest);
  }

  lemma LastMember(e: Entry<string, seq<string>>, rest: string)
    ensures ReadMembers(MemberText(e) + ("}" + rest)) == Some(([e], rest))
  {
    ReadMemberOfText(e, "}" + rest);
    assert ("}" + rest)[1..] == rest;
  }

  lemma FirstMember(e: Entry<string, seq<string>>, tail: string, es: Users, rest: string)
    requires ReadMembers(tail) == Some((es, rest))
    ensures ReadMembers(MemberText(e) + ("," + tail)) == Some(([e] + es, rest))
  {
    ReadMemberOfText(e, "," + tail);
    assert ("," + tail)[1..] == tail;
  }

  lemma {:induction false} ReadMembersOfJoined(us: Users, rest: string)
    requires us != []
    ensures ReadMembers(Joined(MemberTexts(us)) + ("}" + rest)) == Some((us, rest))
  {
    JoinedCons(MemberText(us[0]), MemberTexts(us[1..]), "}" + rest);
    if |us| == 1 {
      assert us == [us[0]];
      LastMember(us[0], rest);
    } else {
      ReadMembersOfJoined(us[1..], rest);
      FirstMember(us[0], Joined(MemberTexts(us[1..])) + ("}" + rest), us[1..], rest);
      assert [us[0]] + us[1..] == us;
    }
  }

  // ----- The whole snapshot -----

  const HEAD := "{\"version\":1,\"users\":{"

  function SnapshotText(us: Users): string { HEAD + Joined(MemberTexts(us)) + "}}" }

  /** Reads back a snapshot text with ascending keys; any other text is left to `JSON.parse`. */
  ghost function ReadSnapshot(t: string): Option<Users> {
    if !(HEAD <= t) then None
    else
      var u := t[|HEAD|..];
      if u == "}}" then Some([])
      else
        match ReadMembers(u)
        case None => None
        case Some((us, rest)) => if rest == "}" && Ascending(KeyList(us)) then Some(us) else None
  }

  function KeyList<V>(m: seq<Entry<string, V>>): (ks: seq<string>)
    ensures |ks| == |m| && forall i :: 0 <= i < |m| ==> ks[i] == m[i].key
  {
    if m == [] then [] else [m[0].key] + KeyList(m[1..])
  }

  lemma ReadSnapshotOfText(us: Users)
    requires Ascending(KeyList(us))
    ensures ReadSnapshot(SnapshotText(us)) == Some(us)
  {
    var t := SnapshotText(us);
    var u := t[|HEAD|..];
    assert HEAD <= t && u == Joined(MemberTexts(us)) + "}}";
    if us == [] {
      assert u == "}}";
    } else {
      assert u == Joined(MemberTexts(us)) + ("}" + "}");
      ReadMembersOfJoined(us, "}");
      assert u[0] == '\"';
    }
  }

  lemma QuotesOfTwo(x: string, y: string)
    ensures Joined(Quotes([x, y])) == Quote(x) + "," + Quote(y)
  {
    assert [x, y][1..] == [y] && [y][1..] == [] && Quotes([y]) == [Quote(y)];
    assert Quotes([x, y]) == [Quote(x)] + [Quote(y)];
    assert ([Quote(x)] + [Quote(y)])[1..] == [Quote(y)] && Joined([Quote(y)]) == Quote(y);
  }

  lemma ListExamples()
    ensures ListText(["0a", "1b"]) == "[\"0a\",\"1b\"]" && ListText(["2c"]) == "[\"2c\"]"
  {
    PlainQuote("0a");
    PlainQuote("1b");
    PlainQuote("2c");
    QuotesOfTwo("0a", "1b");
    assert Quotes(["2c"]) == [Quote("2c")] && Joined([Quote("2c")]) == Quote("2c");
  }

  lemma FirstExample()
    ensures MemberText(Entry("ada", ["0a", "1b"])) == "\"ada\":[\"0a\",\"1b\"]"
  {
    assert ListText(["0a", "1b"]) == "[\"0a\",\"1b\"]" by { ListExamples(); }
    assert Quote("ada") == "\"ada\"" by { PlainQuote("ada"); }
  }

  lemma SecondExample()
    ensures MemberText(Entry("bob", ["2c"])) == "\"bob\":[\"2c\"]"
  {
    assert ListText(["2c"]) == "[\"2c\"]" by { ListExamples(); }
    assert Quote("bob") == "\"bob\"" by { PlainQuote("bob"); }
  }

  /** A snapshot as it stands in the database: two users, one of them with two fingerprints. */
  lemma SnapshotExample()
    ensures SnapshotText([Entry("ada", ["0a", "1b"])] + [Entry("bob", ["2c"])])
         == "{\"version\":1,\"users\":{" + ("\"ada\":[\"0a\",\"1b\"]" + "," + "\"bob\":[\"2c\"]") + "}}"
  {
    var (ada, bob) := (Entry("ada", ["0a", "1b"]), Entry("bob", ["2c"]));
    TwoMembersJoined(ada, bob);
    FirstExample();
    SecondExample();
  }

  lemma TwoMembersJoined(a: Entry<string, seq<string>>, b: Entry<string, seq<string>>)
    ensures Joined(MemberTexts([a] + [b])) == MemberText(a) + "," + MemberText(b)
  {
    assert ([a] + [b])[1..] == [b] && [b][1..] == [];
    assert MemberTexts([b]) == [MemberText(b)];
    assert MemberTexts([a] + [b]) == [MemberText(a)] + [MemberText(b)];
    assert ([MemberText(a)] + [MemberText(b)])[1..] == [MemberText(b)];
    assert Joined([MemberText(b)]) == MemberText(b);
  }

  /** Text without quotes, backslashes and control characters is quoted as it is. */
  lemma {:induction false} PlainQuote(s: string)
    requires forall i :: 0 <= i < |s| ==> s[i] != '\"' && s[i] != '\\' && s[i] as int >= 32
    ensures Quote(s) == "\"" + s + "\""
  {
    if s != "" {
      PlainQuote(s[1..]);
      assert Quote(s[1..])[1..] == Body(s[1..]) && ("\"" + s[1..] + "\"")[1..] == s[1..] + "\"";
      assert s == [s[0]] + s[1..];
    }
  }

  /** What is escaped, and how (section 25.5.2.3 of ECMA-262). */
  lemma EscapeTable(c: char)
    ensures |Escaped(c)| == 1 <==> c as int >= 0x20 && c as int != 0x22 && c as int != 0x5c
    ensures |Escaped(c)| == 1 ==> Escaped(c) == [c]
    ensures |Escaped(c)| == 2 <==> c as int in {0x22, 0x5c, 8, 9, 10, 12, 13}
    ensures Escaped(0x22 as char) == "\\\"" && Escaped(0x5c as char) == "\\\\"
    ensures Escaped(8 as char) == "\\b" && Escaped(9 as char) == "\\t" && Escaped(10 as char) == "\\n"
    ensures Escaped(12 as char) == "\\f" && Escaped(13 as char) == "\\r"
    ensures |Escaped(c)| != 1 && |Escaped(c)| != 2 ==>
              |Escaped(c)| == 6 && Escaped(c)[..4] == "\\u00"
              && HexValue(Escaped(c)[4]) == Some(c as int / 16) && HexValue(Escaped(c)[5]) == Some(c as int % 16)
  {
    if |Escaped(c)| != 1 && |Escaped(c)| != 2 {
      HexDigit(c as int / 16);
      HexDigit(c as int % 16);
    }
  }

  /** No control character and no lone quote gets into the text of a string (section 7 of RFC 8259). */
  lemma {:induction false} NoControlCharacters(s: string)
    ensures forall i :: 0 <= i < |Quote(s)| ==> Quote(s)[i] as int >= 0x20
  {
    if s != "" {
      NoControlCharacters(s[1..]);
      EscapeTable(s[0]);
      assert Quote(s) == "\"" + Escaped(s[0]) + Quote(s[1..])[1..];
      assert forall i :: 0 <= i < |Escaped(s[0])| ==> Escaped(s[0])[i] as int >= 0x20 by { EscapeIsPrintable(s[0]); }
    }
  }

  lemma EscapeIsPrintable(c: char)
    ensures forall i :: 0 <= i < |Escaped(c)| ==> Escaped(c)[i] as int >= 0x20
  {
    if |Escaped(c)| != 1 && |Escaped(c)| != 2 {
      HexDigit(c as int / 16);
      HexDigit(c as int % 16);
      assert Escaped(c) == ['\\', 'u', '0', '0', HEX[c as int / 16], HEX[c as int % 16]];
    }
  }

  function TextValues(xs: seq<string>): seq<Value> {
    if xs == [] then [] else [Text(xs[0])] + TextValues(xs[1..])
  }

  function UserMembers(us: Users): seq<Entry<string, Value>> {
    if us == [] then [] else [Entry(us[0].key, Array(TextValues(us[0].value)))] + UserMembers(us[1..])
  }

  /** `JSON.parse`; none stands for the exception it throws on a text that is not JSON. */
  ghost function Parse(t: string, other: string -> Option<Value>): Option<Value> {
    match ReadSnapshot(t)
    case Some(us) => Some(Object([Entry("version", Number(1.0)), Entry("users", Object(UserMembers(us)))]))
    case None => other(t)
  }
}
