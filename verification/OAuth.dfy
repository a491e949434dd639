/** Refresh-token rotation of the authorization server: the token store, the steps of
    `refresh`, `exchangeCode` and `revoke`, and what every interleaving of them keeps. */
module OAuthStore {
  import opened Prelude

  /** A value scoped to a tenant: the store's Map key and the identity of a family. */
  datatype Key = Key(tenant: string, id: string)

  datatype Kind = Access | Refresh

  datatype Token = Token(
    kind: Kind, client: string, family: Key, expiresAt: int,
    revokedAt: Option<int>, rotatedAt: Option<int>)

  type Tokens = map<Key, Token>

  predicate Live(tokens: Tokens, id: Key) {
    id in tokens && tokens[id].revokedAt.None?
  }

  function Minted(kind: Kind, client: string, family: Key, expiresAt: int): Token {
    Token(kind, client, family, expiresAt, None, None)
  }

  function Revoked(tokens: Tokens, id: Key, now: int): Tokens {
    if id in tokens then tokens[id := tokens[id].(revokedAt := Some(now))] else tokens
  }

  function Rotated(tokens: Tokens, id: Key, now: int): Tokens {
    if Live(tokens, id)
    then tokens[id := tokens[id].(revokedAt := Some(now), rotatedAt := Some(now))]
    else tokens
  }

  predicate InFamily(tokens: Tokens, id: Key, family: Key) {
    id in tokens && tokens[id].family == family
  }

  function LiveOf(tokens: Tokens, family: Key): set<Key> {
    set id | id in tokens && InFamily(tokens, id, family) && Live(tokens, id)
  }

  function SweptToken(token: Token, family: Key, now: int): Token {
    if token.family == family && token.revokedAt.None? then token.(revokedAt := Some(now)) else token
  }

  function Swept(tokens: Tokens, family: Key, now: int): Tokens {
    map id | id in tokens :: SweptToken(tokens[id], family, now)
  }

  /** The table while the sweep is under way: the entries of `todo` are still to be visited. */
  function SweptOutside(tokens: Tokens, todo: set<Key>, family: Key, now: int): Tokens {
    map id | id in tokens :: if id in todo then tokens[id] else SweptToken(tokens[id], family, now)
  }

  lemma SweepOne(was: Tokens, todo: set<Key>, id: Key, family: Key, now: int)
    requires todo <= was.Keys && id in todo
    ensures SweptOutside(was, todo, family, now)[id] == was[id]
    ensures SweptOutside(was, todo - {id}, family, now)
            == SweptOutside(was, todo, family, now)[id := SweptToken(was[id], family, now)]
    ensures |LiveOf(was, family) - (todo - {id})|
            == |LiveOf(was, family) - todo| + if id in LiveOf(was, family) then 1 else 0
  {
    var live := LiveOf(was, family);
    if id in live {
      assert live - (todo - {id}) == (live - todo) + {id};
    } else {
      assert live - (todo - {id}) == live - todo;
    }
  }

  lemma SweepDone(was: Tokens, family: Key, now: int)
    ensures SweptOutside(was, {}, family, now) == Swept(was, family, now)
    ensures LiveOf(was, family) - {} == LiveOf(was, family)
    ensures LiveOf(Swept(was, family, now), family) == {}
  {
  }

  /** The in-memory store's token table, updated in place. */
  class TokenStore {
    var tokens: Tokens

    constructor ()
      ensures tokens == map[]
    {
      tokens := map[];
    }

    method PutToken(id: Key, token: Token)
      modifies this
      ensures tokens == old(tokens)[id := token]
    {
      tokens := tokens[id := token];
    }

    /** Unconditional: an already revoked token gets a new time, a rotated one stays marked. */
    method RevokeToken(id: Key, now: int)
      modifies this
      ensures tokens == Revoked(old(tokens), id, now)
    {
      if id in tokens {
        tokens := tokens[id := tokens[id].(revokedAt := Some(now))];
      }
    }

    /** The conditional write: lands on a live token only. */
    method RotateToken(id: Key, now: int) returns (landed: bool)
      modifies this
      ensures landed == Live(old(tokens), id)
      ensures tokens == Rotated(old(tokens), id, now)
      ensures landed ==> !Live(tokens, id) && tokens[id].rotatedAt == Some(now)
      ensures !landed ==> tokens == old(tokens)
    {
      if id !in tokens || tokens[id].revokedAt.Some? {
        return false;
      }
      tokens := tokens[id := tokens[id].(revokedAt := Some(now), rotatedAt := Some(now))];
      return true;
    }

    /** Walks the table and revokes the live members of the family, counting them. */
    method RevokeFamily(family: Key, now: int) returns (revoked: nat)
      modifies this
      ensures tokens == Swept(old(tokens), family, now)
      ensures revoked == |LiveOf(old(tokens), family)|
      ensures LiveOf(tokens, family) == {}
    {
      revoked := 0;
      ghost var was := tokens;
      var todo := tokens.Keys;
      while todo != {}
        invariant todo <= tokens.Keys
        invariant tokens == SweptOutside(was, todo, family, now)
        invariant revoked == |LiveOf(was, family) - todo|
      {
        var id :| id in todo;
        SweepOne(was, todo, id, family, now);
        if tokens[id].family == family && tokens[id].revokedAt.None? {
          tokens := tokens[id := tokens[id].(revokedAt := Some(now))];
          revoked := revoked + 1;
        }
        todo := todo - {id};
      }
      SweepDone(was, family, now);
    }
  }

  /** What an uninterrupted refresh call answers. */
  datatype Answer = Issued(access: Key, refresh: Key) | InvalidToken

  /** One refresh call that nothing interleaves with: find, mint, rotate, re-check. `audited`
      says whether `oauth-refresh-reuse` was recorded. Fresh ids are the caller's randomness. */
  method RefreshAlone(store: TokenStore, presented: Key, client: string, freshAccess: Key, freshRefresh: Key,
                      now: int, accessTtl: int, refreshTtl: int)
    returns (answer: Answer, audited: bool)
    requires freshAccess !in store.tokens && freshRefresh !in store.tokens && freshAccess != freshRefresh
    modifies store
    ensures answer.Issued? <==>
              Live(old(store.tokens), presented) && Accepts(old(store.tokens)[presented], client, now)
    ensures answer.Issued? ==>
              && answer == Issued(freshAccess, freshRefresh)
              && presented in store.tokens && !Live(store.tokens, presented)
              && store.tokens[presented].rotatedAt == Some(now)
              && var family := old(store.tokens)[presented].family;
                 LiveOf(store.tokens, family)
                 == LiveOf(old(store.tokens), family) - {presented} + {freshAccess, freshRefresh}
    ensures answer.InvalidToken? ==> freshAccess !in store.tokens && freshRefresh !in store.tokens
    // Presenting a rotated-away token kills its family, and is audited iff something was still live.
    ensures Replays(old(store.tokens), presented, client, now) ==>
              && LiveOf(store.tokens, old(store.tokens)[presented].family) == {}
              && (audited <==> LiveOf(old(store.tokens), old(store.tokens)[presented].family) != {})
    ensures answer.InvalidToken? && !Replays(old(store.tokens), presented, client, now) ==>
              store.tokens == old(store.tokens) && !audited
  {
    ghost var before := store.tokens;
    audited := false;
    if presented !in store.tokens || !Accepts(store.tokens[presented], client, now) {
      return InvalidToken, false;
    }
    var record := store.tokens[presented];
    if record.revokedAt.Some? {
      if record.rotatedAt.Some? {
        var revoked := store.RevokeFamily(record.family, now);
        audited := revoked > 0;
      }
      return InvalidToken, audited;
    }
    store.PutToken(freshAccess, Minted(Access, client, record.family, now + accessTtl));
    store.PutToken(freshRefresh, Minted(Refresh, client, record.family, now + refreshTtl));
    var landed := store.RotateToken(presented, now);
    assert landed && Live(store.tokens, freshRefresh);
    answer := Issued(freshAccess, freshRefresh);
    assert LiveOf(store.tokens, record.family)
           == LiveOf(before, record.family) - {presented} + {freshAccess, freshRefresh};
  }

  /** The checks of `refresh` on the found record before its revocation state is looked at. */
  predicate Accepts(record: Token, client: string, now: int) {
    record.kind == Refresh && record.client == client && record.expiresAt > now
  }

  /** A rotated-away refresh token is presented again. */
  predicate Replays(tokens: Tokens, presented: Key, client: string, now: int) {
    && presented in tokens
    && Accepts(tokens[presented], client, now)
    && tokens[presented].revokedAt.Some?
    && tokens[presented].rotatedAt.Some?
  }
}
