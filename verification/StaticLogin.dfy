/** How a static token names a user: every configured and revoked token is digested and compared. */
module StaticLogin {
  import opened Prelude
  import opened OrderedMaps
  import opened Text
  import opened StaticTokens

  /** The user of the last configured token with this digest. */
  function LastMatch(tokens: seq<Entry<string, string>>, hash: string, digest: Digest): Option<string> {
    if tokens == [] then None
    else
      var last := tokens[|tokens| - 1];
      if digest(last.key) == hash then Some(last.value) else LastMatch(tokens[..|tokens| - 1], hash, digest)
  }

  function LoginUser(c: Config, token: string, digest: Digest): Option<string> {
    if exists r <- c.revoked :: digest(r) == digest(token) then None
    else LastMatch(c.tokens, digest(token), digest)
  }

  method ResolveStaticToken(c: Config, token: string, digest: Digest) returns (user: Option<string>)
    ensures user == LoginUser(c, token, digest)
  {
    var hash := digest(token);
    var matched: Option<string> := None;
    var i := 0;
    while i < |c.tokens|
      invariant 0 <= i <= |c.tokens|
      invariant matched == LastMatch(c.tokens[..i], hash, digest)
    {
      assert c.tokens[..i + 1][..i] == c.tokens[..i];
      if digest(c.tokens[i].key) == hash { matched := Some(c.tokens[i].value); }
      i := i + 1;
    }
    assert c.tokens[..i] == c.tokens;
    var revoked := false;
    var left := c.revoked;
    while left != {}
      invariant left <= c.revoked
      invariant revoked <==> exists r <- c.revoked - left :: digest(r) == hash
      decreases left
    {
      var r :| r in left;
      assert c.revoked - (left - {r}) == (c.revoked - left) + {r};
      if digest(r) == hash { revoked := true; }
      left := left - {r};
    }
    assert c.revoked - {} == c.revoked;
    user := if revoked then None else matched;
  }

  /** What the configuration loader guarantees: user ids are lower-case and not empty. */
  predicate LoweredUsers(c: Config) {
    forall e <- c.tokens :: e.value == Lower(e.value) && e.value != ""
  }

  /** The last configured token with this digest stands at place `i`. */
  ghost predicate LastMatchAt(tokens: seq<Entry<string, string>>, hash: string, digest: Digest, i: nat) {
    && i < |tokens| && digest(tokens[i].key) == hash
    && forall j :: i < j < |tokens| ==> digest(tokens[j].key) != hash
  }

  ghost predicate NoMatch(tokens: seq<Entry<string, string>>, hash: string, digest: Digest) {
    forall j :: 0 <= j < |tokens| ==> digest(tokens[j].key) != hash
  }

  lemma {:induction false} LastMatchFacts(tokens: seq<Entry<string, string>>, hash: string, digest: Digest)
    ensures match LastMatch(tokens, hash, digest)
            case None => NoMatch(tokens, hash, digest)
            case Some(user) => exists i: nat :: LastMatchAt(tokens, hash, digest, i) && tokens[i].value == user
  {
    if tokens != [] {
      var n := |tokens| - 1;
      if digest(tokens[n].key) == hash {
        assert LastMatchAt(tokens, hash, digest, n);
      } else {
        LastMatchFacts(tokens[..n], hash, digest);
        assert forall j :: 0 <= j < n ==> tokens[..n][j] == tokens[j];
        if LastMatch(tokens[..n], hash, digest).Some? {
          var i: nat :| LastMatchAt(tokens[..n], hash, digest, i)
                        && tokens[..n][i].value == LastMatch(tokens[..n], hash, digest).value;
          assert LastMatchAt(tokens, hash, digest, i);
        }
      }
    }
  }

  /** A token names the user of the last configured token with its digest, unless a revoked one has it too. */
  lemma LoginExactly(c: Config, token: string, digest: Digest)
    ensures (exists r <- c.revoked :: digest(r) == digest(token)) ==> LoginUser(c, token, digest).None?
    ensures !(exists r <- c.revoked :: digest(r) == digest(token)) ==>
              match LoginUser(c, token, digest)
              case None => NoMatch(c.tokens, digest(token), digest)
              case Some(user) =>
                exists i: nat :: LastMatchAt(c.tokens, digest(token), digest, i) && c.tokens[i].value == user
  {
    LastMatchFacts(c.tokens, digest(token), digest);
  }

  lemma {:induction false} LastMatchIsConfigured(tokens: seq<Entry<string, string>>, hash: string, digest: Digest)
    ensures match LastMatch(tokens, hash, digest)
            case None => forall e <- tokens :: digest(e.key) != hash
            case Some(user) => exists e <- tokens :: digest(e.key) == hash && e.value == user
  {
    if tokens != [] {
      var init := tokens[..|tokens| - 1];
      LastMatchIsConfigured(init, hash, digest);
      assert tokens == init + [tokens[|tokens| - 1]];
    }
  }

  /**
   The login and the snapshot agree on which tokens count, with no assumption about the digest:
   whoever logs in has the token's fingerprint among the effective ones.
   */
  lemma LoginUserIsEffective(c: Config, token: string, digest: Digest)
    requires LoweredUsers(c) && LoginUser(c, token, digest).Some?
    ensures digest(token) in EffectiveOf(c, LoginUser(c, token, digest).value, digest)
  {
    LastMatchIsConfigured(c.tokens, digest(token), digest);
  }
}
