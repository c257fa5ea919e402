/**
  Refresh-token rotation: one server-side record per minted token, a record redeemed by minting its successor.
  The tables' order is the order of creation.  A decoded token carries a user and a jti; a token that does not
  decode carries nothing.
 */
module RefreshTokens {
  import opened Common

  type Id = nat
  type Time = nat

  const LIFETIME: nat := 30 * 86_400_000_000

  datatype Record = Record(user: Id, jti: nat, expiresAt: Time, revokedAt: Option<Time>, replacedBy: Option<nat>)
  datatype Claims = Claims(user: Id, jti: nat)

  datatype Error = InvalidToken | TokenRevoked | IntegrityError

  datatype Event =
    | LoginEvent(user: Id, jti: nat)
    | RefreshEvent(token: Option<Claims>, newJti: nat)
    | LogoutEvent(token: Option<Claims>)
    | RevokeAllEvent(user: Id)

  datatype Timed = Timed(at: Time, event: Event)

  /** The record with this jti. */
  function IndexOf(records: seq<Record>, jti: nat): (r: Option<nat>)
    ensures r.Some? ==> r.value < |records| && records[r.value].jti == jti
    ensures r.None? ==> forall i :: 0 <= i < |records| ==> records[i].jti != jti
  {
    if records == [] then None
    else
      var last := |records| - 1;
      var earlier := IndexOf(records[..last], jti);
      if earlier.Some? then earlier else if records[last].jti == jti then Some(last) else None
  }

  function GetActive(records: seq<Record>, jti: nat): (r: Option<nat>)
    ensures r.Some? ==> r.value < |records| && records[r.value].jti == jti && records[r.value].revokedAt.None?
  {
    var i := IndexOf(records, jti);
    if i.Some? && records[i.value].revokedAt.None? then i else None
  }

  function Mint(records: seq<Record>, user: Id, jti: nat, now: Time): Result<seq<Record>, Error> {
    if IndexOf(records, jti).Some? then Err(IntegrityError)
    else Ok(records + [Record(user, jti, now + LIFETIME, None, None)])
  }

  /** Whether a decoded token may be redeemed now. */
  predicate Redeemable(records: seq<Record>, token: Claims, now: Time) {
    var i := GetActive(records, token.jti);
    i.Some? && records[i.value].user == token.user && records[i.value].expiresAt >= now
  }

  function Refresh(records: seq<Record>, token: Option<Claims>, newJti: nat, now: Time): Result<seq<Record>, Error> {
    if token.None? then Err(InvalidToken)
    else if !Redeemable(records, token.value, now) then Err(TokenRevoked)
    else
      match Mint(records, token.value.user, newJti, now)
      case Err(e) => Err(e)
      case Ok(minted) =>
        var i := GetActive(records, token.value.jti).value;
        Ok(minted[i := minted[i].(revokedAt := Some(now), replacedBy := Some(newJti))])
  }

  function Logout(records: seq<Record>, token: Option<Claims>, now: Time): Result<seq<Record>, Error> {
    if token.None? then Err(InvalidToken)
    else
      var i := GetActive(records, token.value.jti);
      Ok(if i.Some? then records[i.value := records[i.value].(revokedAt := Some(now))] else records)
  }

  function RevokeRow(r: Record, user: Id, now: Time): Record {
    if r.user == user && r.revokedAt.None? then r.(revokedAt := Some(now)) else r
  }

  function RevokeAll(records: seq<Record>, user: Id, now: Time): seq<Record> {
    seq(|records|, i requires 0 <= i < |records| => RevokeRow(records[i], user, now))
  }

  function Handle(records: seq<Record>, now: Time, e: Event): Result<seq<Record>, Error> {
    match e
    case LoginEvent(user, jti) => Mint(records, user, jti, now)
    case RefreshEvent(token, newJti) => Refresh(records, token, newJti, now)
    case LogoutEvent(token) => Logout(records, token, now)
    case RevokeAllEvent(user) => Ok(RevokeAll(records, user, now))
  }

  function Step(records: seq<Record>, now: Time, e: Event): seq<Record> {
    var r := Handle(records, now, e);
    if r.Ok? then r.value else records
  }

  function Run(records: seq<Record>, run: seq<Timed>): seq<Record> {
    if run == [] then records
    else
      var last := |run| - 1;
      Step(Run(records, run[..last]), run[last].at, run[last].event)
  }

  // ---------- the service, writing records in place ----------

  class TokenStore {
    var records: seq<Record>

    constructor ()
      ensures records == []
    {
      records := [];
    }

    method CreateTokenPair(user: Id, jti: nat, now: Time) returns (r: Result<nat, Error>)
      modifies this
      ensures match Mint(old(records), user, jti, now)
              case Ok(after) => r == Ok(jti) && records == after
              case Err(e) => r == Err(e) && records == old(records)
    {
      if IndexOf(records, jti).Some? { return Err(IntegrityError); }
      records := records + [Record(user, jti, now + LIFETIME, None, None)];
      return Ok(jti);
    }

    method RevokeRecord(i: nat, replacedBy: Option<nat>, now: Time)
      requires i < |records|
      modifies this
      ensures records == old(records)[i := old(records)[i].(
                                              revokedAt := Some(now),
                                              replacedBy := if replacedBy.Some? then replacedBy else old(records)[i].replacedBy)]
    {
      var row := records[i].(revokedAt := Some(now));
      if replacedBy.Some? {
        row := row.(replacedBy := replacedBy);
      }
      records := records[i := row];
    }

    /** Mint the successor first, then revoke the redeemed record in its favour. */
    method RefreshToken(token: Option<Claims>, newJti: nat, now: Time) returns (r: Result<nat, Error>)
      modifies this
      ensures records == Step(old(records), now, RefreshEvent(token, newJti))
      ensures r == match Refresh(old(records), token, newJti, now)
                   case Ok(_) => Ok(newJti)
                   case Err(e) => Err(e)
    {
      if token.None? { return Err(InvalidToken); }
      var record := GetActive(records, token.value.jti);
      if record.None? || records[record.value].user != token.value.user || records[record.value].expiresAt < now {
        return Err(TokenRevoked);
      }
      r := CreateTokenPair(token.value.user, newJti, now);
      if r.Ok? {
        RevokeRecord(record.value, Some(r.value), now);
      }
    }

    method LogoutToken(token: Option<Claims>, now: Time) returns (r: Result<bool, Error>)
      modifies this
      ensures records == Step(old(records), now, LogoutEvent(token))
      ensures r == if token.None? then Err(InvalidToken) else Ok(GetActive(old(records), token.value.jti).Some?)
    {
      if token.None? { return Err(InvalidToken); }
      var record := GetActive(records, token.value.jti);
      if record.Some? {
        RevokeRecord(record.value, None, now);
        assert records[record.value].replacedBy == old(records)[record.value].replacedBy;
      }
      return Ok(record.Some?);
    }

    method RevokeAllForUser(user: Id, now: Time)
      modifies this
      ensures records == RevokeAll(old(records), user, now)
    {
      var i := 0;
      while i < |records|
        invariant 0 <= i <= |records| == |old(records)|
        invariant forall k :: 0 <= k < i ==> records[k] == RevokeRow(old(records)[k], user, now)
        invariant forall k :: i <= k < |records| ==> records[k] == old(records)[k]
      {
        if records[i].user == user && records[i].revokedAt.None? {
          records := records[i := records[i].(revokedAt := Some(now))];
        }
        i := i + 1;
      }
    }
  }
}
