/**
 * Session tokens and their revocation (internal/middleware/auth_middleware.go, TokenRevocationStore
 * and validateJWTWithRevocation; internal/auth/jwt.go, GenerateToken and ValidateToken).
 *
 * The store forgets a revocation when it is older than the store's time to live.  Signatures are not
 * modelled; the remaining claims checks are the `claimsOk` flag of a token.
 */
module TokenRevocation {

  /** Times and durations are in nanoseconds; the claims keep whole seconds. */
  const SECOND: int := 1_000_000_000
  const JWT_TTL: int := 3600 * SECOND

  datatype TokenId = TokenId(text: string)

  /** `issuedAt` is the moment of issue, `notBefore` and `expiresAt` are the claims. */
  datatype Token = Token(id: TokenId, issuedAt: int, notBefore: int, expiresAt: int, claimsOk: bool)

  function Truncate(t: int): int {
    t - t % SECOND
  }

  /** The lifetime a token really gets: one hour unless a positive one is asked for. */
  function Lifetime(ttl: int): int {
    if ttl <= 0 then JWT_TTL else ttl
  }

  function GenerateToken(id: TokenId, now: int, ttl: int, claimsOk: bool): (token: Token)
    ensures token.notBefore <= now
    ensures now + Lifetime(ttl) - SECOND < token.expiresAt <= now + Lifetime(ttl)
  {
    Token(id, now, Truncate(now), Truncate(now + Lifetime(ttl)), claimsOk)
  }

  /** ValidateToken; section 4.1.4 of RFC 7519 refuses a token on or after its expiry time. */
  predicate ValidAt(token: Token, now: int) {
    token.claimsOk && token.notBefore <= now < token.expiresAt
  }

  // ----- the store over a run -----

  type Revoked = map<TokenId, int>

  datatype Event = Revoke(id: TokenId, at: int) | Cleanup(at: int)

  function Cleaned(revoked: Revoked, ttl: int, now: int): Revoked {
    map id | id in revoked && now - revoked[id] <= ttl :: revoked[id]
  }

  function Step(ttl: int, revoked: Revoked, e: Event): Revoked {
    match e
    case Revoke(id, at) => revoked[id := at]
    case Cleanup(at) => Cleaned(revoked, ttl, at)
  }

  function Run(ttl: int, events: seq<Event>): Revoked {
    if events == [] then map[] else Step(ttl, Run(ttl, events[..|events| - 1]), events[|events| - 1])
  }

  predicate Ordered(events: seq<Event>) {
    |events| <= 1 || (Ordered(events[..|events| - 1]) && events[|events| - 2].at <= events[|events| - 1].at)
  }

  predicate NotAfter(events: seq<Event>, now: int) {
    events == [] || events[|events| - 1].at <= now
  }

  /** The interceptor accepts a valid token whose id the store does not hold. */
  predicate Accepts(ttl: int, events: seq<Event>, token: Token, now: int) {
    ValidAt(token, now) && token.id !in Run(ttl, events)
  }

  /** Event `i` is the last one that revokes `id`. */
  predicate LastRevoked(events: seq<Event>, id: TokenId, i: int) {
    && 0 <= i < |events| && events[i].Revoke? && events[i].id == id
    && forall j :: i < j < |events| ==> !(events[j].Revoke? && events[j].id == id)
  }

  /** No cleanup after event `i` found it older than the time to live. */
  predicate Survives(ttl: int, events: seq<Event>, i: int)
    requires 0 <= i < |events|
  {
    forall j :: i < j < |events| && events[j].Cleanup? ==> events[j].at - events[i].at <= ttl
  }

  lemma {:induction false} HeldSince(ttl: int, events: seq<Event>, id: TokenId, i: int)
    requires LastRevoked(events, id, i)
    ensures id in Run(ttl, events) <==> Survives(ttl, events, i)
    ensures id in Run(ttl, events) ==> Run(ttl, events)[id] == events[i].at
  {
    var n := |events| - 1;
    var before := events[..n];
    if i < n {
      assert LastRevoked(before, id, i);
      HeldSince(ttl, before, id, i);
      assert forall j :: 0 <= j < n ==> before[j] == events[j];
      assert Survives(ttl, events, i) <==>
        Survives(ttl, before, i) && (events[n].Cleanup? ==> events[n].at - events[i].at <= ttl);
    }
  }

  lemma {:induction false} NeverRevoked(ttl: int, events: seq<Event>, id: TokenId)
    requires forall j :: 0 <= j < |events| ==> !(events[j].Revoke? && events[j].id == id)
    ensures id !in Run(ttl, events)
  {
    if events != [] { NeverRevoked(ttl, events[..|events| - 1], id); }
  }

  lemma {:induction false} LastRevokedExists(events: seq<Event>, id: TokenId) returns (i: int)
    ensures LastRevoked(events, id, i) || forall j :: 0 <= j < |events| ==> !(events[j].Revoke? && events[j].id == id)
  {
    i := |events| - 1;
    if events != [] && !(events[i].Revoke? && events[i].id == id) {
      var before := events[..|events| - 1];
      i := LastRevokedExists(before, id);
      assert forall j :: 0 <= j < |before| ==> before[j] == events[j];
    }
  }

  /** The store holds an id exactly when no cleanup since its last revocation found that too old. */
  lemma HeldIff(ttl: int, events: seq<Event>, id: TokenId)
    ensures id in Run(ttl, events) <==> exists i :: LastRevoked(events, id, i) && Survives(ttl, events, i)
  {
    var i := LastRevokedExists(events, id);
    if LastRevoked(events, id, i) {
      HeldSince(ttl, events, id, i);
      assert forall k :: LastRevoked(events, id, k) ==> k == i;
    } else {
      NeverRevoked(ttl, events, id);
    }
  }

  /** The run revokes `id` at or after `since`. */
  predicate RevokedSince(events: seq<Event>, id: TokenId, since: int) {
    events != [] &&
    (RevokedSince(events[..|events| - 1], id, since)
     || (events[|events| - 1].Revoke? && events[|events| - 1].id == id && events[|events| - 1].at >= since))
  }

  /** A revocation that has been forgotten is older than the time to live. */
  lemma {:induction false} ForgottenIsOld(ttl: int, events: seq<Event>, id: TokenId, since: int)
    requires Ordered(events) && RevokedSince(events, id, since)
    ensures id in Run(ttl, events) ==> Run(ttl, events)[id] >= since
    ensures id !in Run(ttl, events) ==> events[|events| - 1].at > since + ttl
  {
    var before := events[..|events| - 1];
    if RevokedSince(before, id, since) {
      ForgottenIsOld(ttl, before, id, since);
    } else {
      var e := events[|events| - 1];
      assert e == Revoke(id, e.at);
    }
    if |events| > 1 && RevokedSince(before, id, since) {
      OrderedLast(events, since, id);
    }
  }

  /** In an ordered run everything after a revocation since `since` happens no earlier. */
  lemma {:induction false} OrderedLast(events: seq<Event>, since: int, id: TokenId)
    requires Ordered(events) && RevokedSince(events, id, since)
    ensures events[|events| - 1].at >= since
  {
    var before := events[..|events| - 1];
    if RevokedSince(before, id, since) { OrderedLast(before, since, id); }
  }

  ghost predicate AcceptedAfterRevocation(ttl: int, token: Token, events: seq<Event>, now: int) {
    && Ordered(events) && NotAfter(events, now) && RevokedSince(events, token.id, token.issuedAt)
    && Accepts(ttl, events, token, now)
  }

  /**
   * No run with a revocation after the moment of issue ever accepts the token again, exactly when the
   * token expires within the store's time to live (plus the one tick that the strict comparison adds).
   */
  lemma RevokedForGoodIff(ttl: int, token: Token)
    requires ttl >= 0 && token.claimsOk && token.notBefore <= token.issuedAt
    ensures (forall events, now :: !AcceptedAfterRevocation(ttl, token, events, now))
       <==> token.expiresAt <= token.issuedAt + ttl + 1
  {
    if token.expiresAt <= token.issuedAt + ttl + 1 {
      forall events, now ensures !AcceptedAfterRevocation(ttl, token, events, now) {
        if Ordered(events) && NotAfter(events, now) && RevokedSince(events, token.id, token.issuedAt) {
          ForgottenIsOld(ttl, events, token.id, token.issuedAt);
        }
      }
    } else {
      var now := token.issuedAt + ttl + 1;
      var first := [Revoke(token.id, token.issuedAt)];
      var events := first + [Cleanup(now)];
      assert events[..1] == first && first[..0] == [];
      assert Run(ttl, first) == map[token.id := token.issuedAt];
      assert RevokedSince(first, token.id, token.issuedAt);
      assert AcceptedAfterRevocation(ttl, token, events, now);
    }
  }

  /** A token is good for its lifetime, to the second, from the second of its issue. */
  lemma IssuedTokenLifetime(id: TokenId, issued: int, requested: int, now: int)
    ensures var token := GenerateToken(id, issued, requested, true);
      var life := if requested <= 0 then 3600 * SECOND else requested;
      && (issued <= now <= issued + life - SECOND ==> ValidAt(token, now))
      && (ValidAt(token, now) ==> issued - SECOND < now < issued + life)
  {
  }

  /** A token whose lifetime is at most the store's time to live stays revoked. */
  lemma IssuedTokenStaysRevoked(
      ttl: int, id: TokenId, issued: int, requested: int, claimsOk: bool, events: seq<Event>, now: int)
    requires Lifetime(requested) <= ttl
    requires Ordered(events) && NotAfter(events, now) && RevokedSince(events, id, issued)
    ensures !Accepts(ttl, events, GenerateToken(id, issued, requested, claimsOk), now)
  {
    ForgottenIsOld(ttl, events, id, issued);
  }

  // ----- the store -----

  class TokenRevocationStore {
    var revoked: Revoked
    const ttl: int
    ghost var events: seq<Event>

    ghost predicate Valid()
      reads this
    {
      Ordered(events) && revoked == Run(ttl, events)
    }

    constructor (ttl: int)
      ensures Valid() && this.ttl == ttl && events == []
    {
      this.ttl := ttl;
      revoked, events := map[], [];
    }

    ghost method Record(e: Event)
      requires Ordered(events) && NotAfter(events, e.at)
      modifies this`events
      ensures events == old(events) + [e] && Ordered(events)
      ensures Run(ttl, events) == Step(ttl, Run(ttl, old(events)), e)
    {
      events := events + [e];
      assert events[..|events| - 1] == old(events);
    }

    method RevokeId(id: TokenId, now: int)
      requires Valid() && NotAfter(events, now)
      modifies this
      ensures Valid() && events == old(events) + [Revoke(id, now)]
    {
      revoked := revoked[id := now];
      Record(Revoke(id, now));
    }

    method IsRevoked(id: TokenId) returns (r: bool)
      requires Valid()
      ensures r <==> id in Run(ttl, events)
    {
      return id in revoked;
    }

    /** One tick of the cleanup loop. */
    method Clean(now: int)
      requires Valid() && NotAfter(events, now)
      modifies this
      ensures Valid() && events == old(events) + [Cleanup(now)]
    {
      var ids := revoked.Keys;
      while ids != {}
        invariant events == old(events)
        invariant ids <= revoked.Keys && revoked.Keys <= old(revoked).Keys
        invariant forall id :: id in revoked ==> revoked[id] == old(revoked)[id]
        invariant forall id :: id in old(revoked) && id !in ids ==>
          (id in revoked <==> now - old(revoked)[id] <= ttl)
        decreases ids
      {
        var id :| id in ids;
        ids := ids - {id};
        if now - revoked[id] > ttl {
          revoked := revoked - {id};
        }
      }
      assert revoked == Cleaned(old(revoked), ttl, now);
      Record(Cleanup(now));
    }

    method Authenticate(token: Token, now: int) returns (accepted: bool)
      requires Valid()
      ensures accepted <==>
        && token.claimsOk && token.notBefore <= now < token.expiresAt
        && !exists i :: LastRevoked(events, token.id, i) && Survives(ttl, events, i)
    {
      HeldIff(ttl, events, token.id);
      if !ValidAt(token, now) {
        return false;
      }
      var r := IsRevoked(token.id);
      return !r;
    }
  }
}
