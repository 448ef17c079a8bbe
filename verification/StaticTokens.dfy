/** The boot-time snapshot of static tokens: how it is built, written, read back and compared. */
module StaticTokens {
  import opened Prelude
  import opened OrderedMaps
  import opened Text
  import opened SortedText
  import opened Json

  /** The configured tokens in Map order, each with its user id, and the revoked ones. */
  datatype Config = Config(tokens: seq<Entry<string, string>>, revoked: set<string>)

  predicate IsHexLower(c: char) { '0' <= c <= '9' || 'a' <= c <= 'f' }

  predicate IsFingerprint(s: string) { |s| == 64 && forall c <- s :: IsHexLower(c) }

  /** The SHA-256 of a token in hexadecimal. */
  type Fingerprint = s: string | IsFingerprint(s) witness seq(64, _ => '0')

  type Digest = string -> Fingerprint

  function Values(us: Users, user: string): seq<string> {
    match Get(us, user) case Some(xs) => xs case None => []
  }

  // ----- Building -----

  function AddToken(g: Users, token: string, rawUserId: string, digest: Digest): Users {
    var userId := Lower(rawUserId);
    var values := Values(g, userId);
    Put(g, userId, if digest(token) in values then values else values + [digest(token)])
  }

  function Group(g: Users, tokens: seq<Entry<string, string>>, revoked: set<string>, digest: Digest): Users
    decreases |tokens|
  {
    if tokens == [] then g
    else if tokens[0].key in revoked then Group(g, tokens[1..], revoked, digest)
    else Group(AddToken(g, tokens[0].key, tokens[0].value, digest), tokens[1..], revoked, digest)
  }

  function SortedUsers(keys: seq<string>, g: Users): Users {
    if keys == [] then [] else [Entry(keys[0], Sort(Values(g, keys[0])))] + SortedUsers(keys[1..], g)
  }

  function Build(c: Config, digest: Digest): Users {
    var g := Group([], c.tokens, c.revoked, digest);
    SortedUsers(Sort(KeyList(g)), g)
  }

  /** Groups the effective fingerprints by user, token by token, and lists both levels in order. */
  method BuildStaticTokenSnapshot(c: Config, digest: Digest) returns (users: Users)
    ensures users == Build(c, digest)
  {
    var grouped: Users := [];
    var i := 0;
    while i < |c.tokens|
      invariant 0 <= i <= |c.tokens|
      invariant Group(grouped, c.tokens[i..], c.revoked, digest) == Group([], c.tokens, c.revoked, digest)
    {
      assert c.tokens[i..][1..] == c.tokens[i + 1..];
      if c.tokens[i].key !in c.revoked {
        grouped := AddToken(grouped, c.tokens[i].key, c.tokens[i].value, digest);
      }
      i := i + 1;
    }
    var keys := Sort(KeyList(grouped));
    users := [];
    var j := 0;
    while j < |keys|
      invariant 0 <= j <= |keys|
      invariant users + SortedUsers(keys[j..], grouped) == SortedUsers(keys, grouped)
    {
      assert keys[j..][1..] == keys[j + 1..];
      users := users + [Entry(keys[j], Sort(Values(grouped, keys[j])))];
      j := j + 1;
    }
  }

  /** The fingerprints of the tokens of `user` that are configured and not revoked. */
  ghost function Effective(tokens: seq<Entry<string, string>>, revoked: set<string>, user: string, digest: Digest)
    : set<string>
  {
    set e <- tokens | e.key !in revoked && Lower(e.value) == user :: digest(e.key)
  }

  ghost function EffectiveOf(c: Config, user: string, digest: Digest): set<string> {
    Effective(c.tokens, c.revoked, user, digest)
  }

  /** A list that is non-empty, without repeats, and made of fingerprints. */
  ghost predicate GoodList(xs: seq<string>) {
    xs != [] && NoRepeats(xs) && forall x <- xs :: IsFingerprint(x)
  }

  /** What the entry of one user looks like while grouping. */
  ghost predicate Grouped(g: Users, user: string, fingerprints: set<string>) {
    && Distinct(g)
    && (user in Keys(g) ==> GoodList(Values(g, user)) && Lower(user) == user)
    && Elements(Values(g, user)) == fingerprints
  }

  lemma AddTokenFacts(g: Users, e: Entry<string, string>, digest: Digest, user: string, before: set<string>)
    requires Grouped(g, user, before)
    ensures Grouped(AddToken(g, e.key, e.value, digest), user,
                    before + if Lower(e.value) == user then {digest(e.key)} else {})
  {
    var vs := Values(g, Lower(e.value));
    var vs1 := if digest(e.key) in vs then vs else vs + [digest(e.key)];
    PutFacts(g, Lower(e.value), vs1, user);
    LowerIsIdempotent(e.value);
    assert Elements(vs1) == Elements(vs) + {digest(e.key)};
  }

  lemma {:induction false} GroupFacts(g: Users, tokens: seq<Entry<string, string>>, revoked: set<string>,
                                      digest: Digest, user: string, before: set<string>)
    requires Grouped(g, user, before)
    ensures Grouped(Group(g, tokens, revoked, digest), user, before + Effective(tokens, revoked, user, digest))
    decreases |tokens|
  {
    if tokens == [] {
      assert Effective(tokens, revoked, user, digest) == {};
    } else {
      var e := tokens[0];
      assert tokens == [e] + tokens[1..];
      var own := if e.key !in revoked && Lower(e.value) == user then {digest(e.key)} else {};
      assert Effective(tokens, revoked, user, digest) == own + Effective(tokens[1..], revoked, user, digest);
      if e.key in revoked {
        GroupFacts(g, tokens[1..], revoked, digest, user, before);
      } else {
        AddTokenFacts(g, e, digest, user, before);
        GroupFacts(AddToken(g, e.key, e.value, digest), tokens[1..], revoked, digest, user, before + own);
      }
    }
  }

  lemma {:induction false} KeyListFacts<V>(m: seq<Entry<string, V>>)
    ensures Elements(KeyList(m)) == Keys(m)
    ensures Distinct(m) <==> NoRepeats(KeyList(m))
  {
    if m != [] {
      KeyListFacts(m[1..]);
      var ks := KeyList(m);
      assert ks == [m[0].key] + KeyList(m[1..]);
      assert m[0].key in Keys(m[1..]) <==> m[0].key in KeyList(m[1..]);
      if NoRepeats(ks) {
        forall i, j | 0 <= i < j < |ks[1..]| ensures ks[1..][i] != ks[1..][j] {
          assert ks[1..][i] == ks[i + 1] && ks[1..][j] == ks[j + 1];
        }
      }
    }
  }

  lemma {:induction false} SortedUsersFacts(keys: seq<string>, g: Users, user: string)
    ensures KeyList(SortedUsers(keys, g)) == keys
    ensures Get(SortedUsers(keys, g), user) == if user in keys then Some(Sort(Values(g, user))) else None
  {
    if keys != [] {
      assert keys == [keys[0]] + keys[1..];
      SortedUsersFacts(keys[1..], g, user);
      ConsIs(Entry(keys[0], Sort(Values(g, keys[0]))), SortedUsers(keys[1..], g), user);
    }
  }

  lemma SortedUsersKeys(g: Users, user: string)
    requires Distinct(g)
    ensures var us := SortedUsers(Sort(KeyList(g)), g);
            && Ascending(KeyList(us)) && Distinct(us)
            && (user in Keys(us) <==> user in Keys(g)) && Values(us, user) == Sort(Values(g, user))
  {
    var keys := Sort(KeyList(g));
    KeyListFacts(g);
    SortFacts(KeyList(g));
    AscendingHasNoRepeats(keys);
    SortedUsersFacts(keys, g, user);
    KeyListFacts(SortedUsers(keys, g));
    assert user in keys <==> user in Elements(keys);
    assert Sort([]) == [];
  }

  /** What the snapshot of a configuration is: ascending users, each with their ascending fingerprints. */
  lemma BuildFacts(c: Config, digest: Digest, user: string)
    ensures var us := Build(c, digest);
            && Ascending(KeyList(us)) && Distinct(us)
            && (user in Keys(us) <==> EffectiveOf(c, user, digest) != {})
            && Ascending(Values(us, user)) && Elements(Values(us, user)) == EffectiveOf(c, user, digest)
            && (user in Keys(us) ==> GoodList(Values(us, user)) && Lower(user) == user)
  {
    var g := Group([], c.tokens, c.revoked, digest);
    GroupFacts([], c.tokens, c.revoked, digest, user, {});
    SortedUsersKeys(g, user);
    assert Elements([]) == {} && Sort([]) == [];
    if user in Keys(g) {
      SortedListIsGood(Values(g, user));
      assert Values(g, user)[0] in Elements(Values(g, user));
    }
  }

  lemma SortedListIsGood(vs: seq<string>)
    requires GoodList(vs)
    ensures GoodList(Sort(vs)) && Ascending(Sort(vs)) && Elements(Sort(vs)) == Elements(vs)
  {
    SortFacts(vs);
    AscendingHasNoRepeats(Sort(vs));
    assert vs[0] in Elements(Sort(vs));
    forall x | x in Sort(vs) ensures IsFingerprint(x) { assert x in Elements(Sort(vs)); assert x in vs; }
  }

  // ----- Reading back -----

  function StringItems(vs: seq<Value>): Option<seq<string>> {
    if vs == [] then Some([])
    else
      match StringItems(vs[1..])
      case None => None
      case Some(xs) => if vs[0].Text? then Some([vs[0].s] + xs) else None
  }

  /** One member of the users object, if it passes every check. */
  ghost function ValidUser(e: Entry<string, Value>): Option<Entry<string, seq<string>>> {
    if e.key == "" || e.key != Lower(e.key) || !e.value.Array? then None
    else
      match StringItems(e.value.items)
      case None => None
      case Some(xs) => if GoodList(xs) then Some(Entry(e.key, xs)) else None
  }

  ghost function ValidUsers(ms: seq<Entry<string, Value>>): Option<Users> {
    if ms == [] then Some([])
    else
      match (ValidUser(ms[0]), ValidUsers(ms[1..]))
      case (Some(e), Some(us)) => Some([e] + us)
      case _ => None
  }

  /** None stands for metadata that is missing, malformed or of another version. */
  ghost function ParseSnapshot(raw: Option<string>, other: string -> Option<Value>): Option<Users> {
    if raw.None? then None
    else
      match Parse(raw.value, other)
      case Some(Object(members)) =>
        if Get(members, "version") != Some(Number(1.0)) || Joined(Sort(KeyList(members))) != "users,version" then None
        else
          var users: Option<Value> := Get(members, "users");
          if users.Some? && users.value.Object? then ValidUsers(users.value.members) else None
      case _ => None
  }

  lemma {:induction false} StringItemsOfTextValues(xs: seq<string>)
    ensures StringItems(TextValues(xs)) == Some(xs)
  {
    if xs != [] {
      StringItemsOfTextValues(xs[1..]);
      assert TextValues(xs)[1..] == TextValues(xs[1..]);
      assert [xs[0]] + xs[1..] == xs;
    }
  }

  ghost predicate GoodUser(e: Entry<string, seq<string>>) { e.key != "" && Lower(e.key) == e.key && GoodList(e.value) }

  lemma {:induction false} ValidUsersOfMembers(us: Users)
    ensures ValidUsers(UserMembers(us)) == if forall e <- us :: GoodUser(e) then Some(us) else None
  {
    if us != [] {
      ValidUsersOfMembers(us[1..]);
      StringItemsOfTextValues(us[0].value);
      assert UserMembers(us)[1..] == UserMembers(us[1..]);
      assert us == [us[0]] + us[1..];
      assert (forall e <- us :: GoodUser(e)) <==> GoodUser(us[0]) && forall e <- us[1..] :: GoodUser(e);
    }
  }

  /** Reading back what was written gives the users exactly when each of them passes the checks. */
  lemma ParseOfText(us: Users, other: string -> Option<Value>)
    requires Ascending(KeyList(us))
    ensures ParseSnapshot(Some(SnapshotText(us)), other) == if forall e <- us :: GoodUser(e) then Some(us) else None
  {
    ReadSnapshotOfText(us);
    ValidUsersOfMembers(us);
    var users := Object(UserMembers(us));
    var members := [Entry("version", Number(1.0)), Entry("users", users)];
    SnapshotKeys();
    assert members[1..] == [Entry("users", users)];
    assert KeyList(members) == ["version", "users"];
    assert Get(members, "users") == Some(users);
  }

  lemma SnapshotKeys()
    ensures Joined(Sort(["version", "users"])) == "users,version"
  {
    assert ["version", "users"][1..] == ["users"];
    assert Sort(["users"]) == ["users"];
    var v, u := "version", "users";
    assert v[0] == 'v' && u[0] == 'u';
    assert Insert(v, [u]) == [u] + Insert(v, [u][1..]);
    assert Sort(["version", "users"]) == [u, v];
    assert [u, v][1..] == [v];
  }

  // ----- Which values are snapshots -----

  /** A list of 64 lower-case hexadecimal digits each, not empty and without repeats. */
  ghost predicate AreFingerprints(items: seq<Value>, xs: seq<string>) {
    && |items| == |xs| > 0 && NoRepeats(xs)
    && forall i :: 0 <= i < |xs| ==>
                     && items[i] == Text(xs[i]) && |xs[i]| == 64
                     && forall j :: 0 <= j < 64 ==> xs[i][j] in "0123456789abcdef"
  }

  /** A member of the users object: neither empty nor with a capital letter, with a list of fingerprints. */
  ghost predicate IsUser(m: Entry<string, Value>, u: Entry<string, seq<string>>) {
    && m.key == u.key && u.key != "" && Lower(u.key) == u.key
    && m.value.Array? && AreFingerprints(m.value.items, u.value)
  }

  ghost predicate AreUsers(ms: seq<Entry<string, Value>>, us: Users) {
    |ms| == |us| && forall i :: 0 <= i < |us| ==> IsUser(ms[i], us[i])
  }

  lemma {:induction false} StringItemsExactly(vs: seq<Value>, xs: seq<string>)
    ensures StringItems(vs) == Some(xs) <==> |vs| == |xs| && forall i :: 0 <= i < |xs| ==> vs[i] == Text(xs[i])
  {
    if vs != [] && xs != [] {
      StringItemsExactly(vs[1..], xs[1..]);
      assert vs == [vs[0]] + vs[1..] && xs == [xs[0]] + xs[1..];
    }
  }

  lemma FingerprintDigits(s: string)
    ensures IsFingerprint(s) <==> |s| == 64 && forall j :: 0 <= j < 64 ==> s[j] in "0123456789abcdef"
  {
    forall c ensures IsHexLower(c) <==> c in "0123456789abcdef" { HexDigits(c); }
  }

  lemma HexDigits(c: char)
    ensures IsHexLower(c) <==> c in "0123456789abcdef"
  {
    var digits := "0123456789abcdef";
    if IsHexLower(c) {
      var i := if c <= '9' then c as int - '0' as int else c as int - 'a' as int + 10;
      assert digits[..10] == "0123456789" && digits[10..] == "abcdef";
      assert digits[i] == if i < 10 then digits[..10][i] else digits[10..][i - 10];
      assert digits[i] == c;
    }
  }

  lemma ValidUserExactly(m: Entry<string, Value>, u: Entry<string, seq<string>>)
    ensures ValidUser(m) == Some(u) <==> IsUser(m, u)
  {
    if m.value.Array? {
      StringItemsExactly(m.value.items, u.value);
      forall i | 0 <= i < |u.value|
        ensures IsFingerprint(u.value[i]) <==>
                  |u.value[i]| == 64 && forall j :: 0 <= j < 64 ==> u.value[i][j] in "0123456789abcdef"
      {
        FingerprintDigits(u.value[i]);
      }
      assert (forall x <- u.value :: IsFingerprint(x)) <==>
             forall i :: 0 <= i < |u.value| ==> IsFingerprint(u.value[i]);
    }
  }

  lemma {:induction false} ValidUsersExactly(ms: seq<Entry<string, Value>>, us: Users)
    ensures ValidUsers(ms) == Some(us) <==> AreUsers(ms, us)
  {
    if ms != [] && us != [] {
      ValidUserExactly(ms[0], us[0]);
      ValidUsersExactly(ms[1..], us[1..]);
      assert us == [us[0]] + us[1..];
      assert AreUsers(ms, us) <==> IsUser(ms[0], us[0]) && AreUsers(ms[1..], us[1..]) by { AreUsersSplits(ms, us); }
    }
  }

  lemma AreUsersSplits(ms: seq<Entry<string, Value>>, us: Users)
    requires ms != [] && us != []
    ensures AreUsers(ms, us) <==> IsUser(ms[0], us[0]) && AreUsers(ms[1..], us[1..])
  {
    if IsUser(ms[0], us[0]) && AreUsers(ms[1..], us[1..]) {
      forall i | 0 <= i < |us| ensures IsUser(ms[i], us[i]) {
        if i > 0 { assert IsUser(ms[1..][i - 1], us[1..][i - 1]); }
      }
    } else if AreUsers(ms, us) {
      forall i | 0 <= i < |us| - 1 ensures IsUser(ms[1..][i], us[1..][i]) { assert IsUser(ms[i + 1], us[i + 1]); }
    }
  }

  /** The sorted names joined by commas tell the two members apart from all else, if one of them is `version`. */
  lemma TwoMembers(names: seq<string>)
    requires NoRepeats(names) && "version" in names
    ensures Joined(Sort(names)) == "users,version" <==> Elements(names) == {"users", "version"}
  {
    var s := Sort(names);
    SortFacts(names);
    if Elements(names) == {"users", "version"} {
      SnapshotKeys();
      assert NoRepeats(["version", "users"]) by { assert |"version"| != |"users"|; }
      SortFacts(["version", "users"]);
      assert Elements(["version", "users"]) == {"users", "version"};
      AscendingIsUnique(s, Sort(["version", "users"]));
    }
    if Joined(s) == "users,version" {
      assert "version" in Elements(names);
      JoinedTwo(s);
    }
  }

  lemma JoinedTwo(s: seq<string>)
    requires Joined(s) == "users,version" && "version" in s
    ensures s == ["users", "version"]
  {
    var text := "users,version";
    OneComma();
    if |s| > 1 {
      var rest := Joined(s[1..]);
      assert text == s[0] + "," + rest && text[|s[0]|] == ',';
      assert s[0] == text[..5] && rest == text[6..];
      if |s| > 2 { CommaInside(s[1..]); }
      assert ',' !in rest;
      assert s[1..] == [s[1]];
    }
  }

  lemma CommaInside(s: seq<string>)
    requires |s| > 1
    ensures ',' in Joined(s)
  {
    assert Joined(s)[|s[0]|] == ',';
  }

  lemma OneComma()
    ensures var text := "users,version";
            && |text| == 13 && text[..5] == "users" && text[6..] == "version"
            && (forall i :: 0 <= i < 13 && i != 5 ==> text[i] != ',') && ',' !in text[6..]
  {
    var text := "users,version";
    forall i | 0 <= i < 13 && i != 5 ensures text[i] != ',' {
      if i < 5 { assert text[i] == text[..5][i] == "users"[i]; }
      else { assert text[i] == text[6..][i - 6] == "version"[i - 6]; }
    }
  }

  /**
   A stored text is trusted exactly if it is JSON for an object of the members `version`, which is 1, and
   `users`, whose members are all valid; and then these are its users.
   */
  lemma ParsedExactly(raw: string, other: string -> Option<Value>, us: Users)
    requires var v := Parse(raw, other); v.Some? && v.value.Object? ==> Distinct(v.value.members)
    ensures ParseSnapshot(Some(raw), other) == Some(us) <==>
              match Parse(raw, other)
              case Some(Object(members)) =>
                && Keys(members) == {"users", "version"} && Get(members, "version") == Some(Number(1.0))
                && var users: Option<Value> := Get(members, "users");
                   users.Some? && users.value.Object? && AreUsers(users.value.members, us)
              case _ => false
    ensures ParseSnapshot(None, other).None?
  {
    var v := Parse(raw, other);
    if v.Some? && v.value.Object? {
      var members := v.value.members;
      KeyListFacts(members);
      if "version" in Keys(members) {
        assert "version" in KeyList(members) by { assert "version" in Elements(KeyList(members)); }
        TwoMembers(KeyList(members));
      }
      var users: Option<Value> := Get(members, "users");
      if users.Some? && users.value.Object? { ValidUsersExactly(users.value.members, us); }
    }
  }

  lemma {:induction false} GetOfEntry(us: Users, e: Entry<string, seq<string>>)
    requires Distinct(us) && e in us
    ensures Get(us, e.key) == Some(e.value)
  {
    assert us == [us[0]] + us[1..];
    if e != us[0] {
      GetOfEntry(us[1..], e);
    }
  }

  /** No user id is empty, as the configuration loader guarantees. */
  predicate NamesAllUsers(c: Config) { forall e <- c.tokens :: e.key !in c.revoked ==> Lower(e.value) != "" }

  /**
   The snapshot of a configuration reads back as itself exactly when no effective token has an empty
   user id; otherwise it never reads back, and every boot starts from nothing.
   */
  lemma SnapshotRoundTrip(c: Config, digest: Digest, other: string -> Option<Value>)
    ensures ParseSnapshot(Some(SnapshotText(Build(c, digest))), other)
         == if NamesAllUsers(c) then Some(Build(c, digest)) else None
  {
    var us := Build(c, digest);
    BuildFacts(c, digest, "");
    ParseOfText(us, other);
    forall e | e in us ensures GoodUser(e) <==> e.key != "" {
      GetOfEntry(us, e);
      BuildFacts(c, digest, e.key);
    }
    KeyListFacts(us);
    if "" in Keys(us) {
      assert "" in KeyList(us);
      var i :| 0 <= i < |us| && us[i].key == "";
      assert us[i] in us;
    }
    assert NamesAllUsers(c) <==> EffectiveOf(c, "", digest) == {} by {
      if e :| e in c.tokens && e.key !in c.revoked && Lower(e.value) == "" {
        assert digest(e.key) in EffectiveOf(c, "", digest);
      }
    }
  }

  /** Without their first entries two lists of users still agree, if they did. */
  lemma SameRest(a: Users, b: Users, user: string)
    requires a != [] && b != [] && a[0].key == b[0].key && Distinct(a) && Distinct(b)
    requires Values(a, user) == Values(b, user)
    ensures Values(a[1..], user) == Values(b[1..], user)
  {}

  lemma {:induction false} SameValuesSameUsers(a: Users, b: Users)
    requires KeyList(a) == KeyList(b) && Distinct(a) && Distinct(b)
    requires forall u :: Values(a, u) == Values(b, u)
    ensures a == b
  {
    if a != [] {
      assert KeyList(a)[1..] == KeyList(a[1..]) && KeyList(b)[1..] == KeyList(b[1..]);
      assert KeyList(a)[0] == a[0].key && KeyList(b)[0] == b[0].key;
      assert Values(a, a[0].key) == a[0].value && Values(b, a[0].key) == b[0].value;
      forall u ensures Values(a[1..], u) == Values(b[1..], u) { SameRest(a, b, u); }
      SameValuesSameUsers(a[1..], b[1..]);
      assert a == [a[0]] + a[1..] && b == [b[0]] + b[1..];
    }
  }

  /**
   The text is canonical: two configurations write the same snapshot exactly when every user has the
   same effective fingerprints in both, whatever the order in which the tokens were configured.
   */
  lemma SnapshotTextIsCanonical(c: Config, d: Config, digest: Digest)
    ensures SnapshotText(Build(c, digest)) == SnapshotText(Build(d, digest))
       <==> forall user :: EffectiveOf(c, user, digest) == EffectiveOf(d, user, digest)
  {
    var a, b := Build(c, digest), Build(d, digest);
    BuildFacts(c, digest, "");
    BuildFacts(d, digest, "");
    if SnapshotText(a) == SnapshotText(b) {
      ReadSnapshotOfText(a);
      ReadSnapshotOfText(b);
      forall user ensures EffectiveOf(c, user, digest) == EffectiveOf(d, user, digest) {
        BuildFacts(c, digest, user);
        BuildFacts(d, digest, user);
      }
    }
    if forall user :: EffectiveOf(c, user, digest) == EffectiveOf(d, user, digest) {
      forall user ensures Values(a, user) == Values(b, user) && (user in Keys(a) <==> user in Keys(b)) {
        BuildFacts(c, digest, user);
        BuildFacts(d, digest, user);
        AscendingIsUnique(Values(a, user), Values(b, user));
      }
      KeyListFacts(a);
      KeyListFacts(b);
      assert Keys(a) == Keys(b);
      AscendingIsUnique(KeyList(a), KeyList(b));
      SameValuesSameUsers(a, b);
    }
  }

  // ----- Comparing -----

  /** The users of `previous` some fingerprint of whom is no longer current. */
  function RemovedUsers(previous: Users, current: Users): seq<string> {
    if previous == [] then []
    else
      (if exists x <- previous[0].value :: x !in Values(current, previous[0].key) then [previous[0].key] else [])
      + RemovedUsers(previous[1..], current)
  }

  method CollectRemovedUsers(previous: Users, current: Users) returns (removed: seq<string>)
    ensures removed == RemovedUsers(previous, current)
  {
    removed := [];
    var i := 0;
    while i < |previous|
      invariant 0 <= i <= |previous|
      invariant removed + RemovedUsers(previous[i..], current) == RemovedUsers(previous, current)
    {
      assert previous[i..][1..] == previous[i + 1..];
      var effectiveNow := Values(current, previous[i].key);
      if exists x <- previous[i].value :: x !in effectiveNow {
        removed := removed + [previous[i].key];
      }
      i := i + 1;
    }
  }

  /** None means the previous snapshot cannot be trusted. */
  ghost function UsersWithRemovedTokens(raw: Option<string>, current: Users, other: string -> Option<Value>)
    : Option<seq<string>>
  {
    match ParseSnapshot(raw, other)
    case None => None
    case Some(previous) => Some(RemovedUsers(previous, current))
  }

  lemma {:induction false} RemovedUsersFacts(previous: Users, current: Users, user: string)
    requires Distinct(previous)
    ensures user in RemovedUsers(previous, current)
       <==> user in Keys(previous) && !(Elements(Values(previous, user)) <= Elements(Values(current, user)))
    ensures NoRepeats(RemovedUsers(previous, current)) && Elements(RemovedUsers(previous, current)) <= Keys(previous)
  {
    if previous != [] {
      RemovedUsersFacts(previous[1..], current, user);
      RemovedUsersFacts(previous[1..], current, previous[0].key);
      var vs := previous[0].value;
      if x :| x in vs && x !in Values(current, previous[0].key) {
        assert x in Elements(vs) && x !in Elements(Values(current, previous[0].key));
      } else {
        assert Elements(vs) <= Elements(Values(current, previous[0].key));
      }
    }
  }
}
