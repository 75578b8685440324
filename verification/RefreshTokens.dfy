/** The token table of refresh-token.repository.ts. */
module RefreshTokens {
  import opened Common

  /** A signed token; two different signatures over the same claims differ in `signature`. */
  datatype Jwt = Jwt(sub: string, jti: Option<string>, exp: int, signature: nat)

  datatype Context = Context(deviceInfo: Option<string>, deviceId: Option<string>, userAgent: Option<string>, ip: Option<string>)

  /** `token` stands for its SHA-256 hash, `born` for the order of insertion. */
  datatype Row = Row(
    userId: string,
    token: Jwt,
    expiresAt: int,
    context: Context,
    born: nat,
    revokedAt: Option<int>,
    replacedBy: Option<string>)
  {
    predicate Live() {
      revokedAt.None?
    }

    /** An absent replacedBy is left as it was. */
    function Revoked(at: int, successor: Option<string>): Row {
      this.(revokedAt := Some(at), replacedBy := if successor.Some? then successor else replacedBy)
    }
  }

  type Rows = map<string, Row>

  /** The `where` clauses of the four revoke operations. */
  datatype Where =
    | ByJti(jti: string)
    | ByToken(token: Jwt)
    | LiveOfUser(userId: string, excludeJti: Option<string>)
    | LiveOfDevice(ofUser: string, deviceId: string)

  predicate Selects(w: Where, jti: string, row: Row) {
    match w
    case ByJti(j) => jti == j
    case ByToken(t) => row.token == t
    case LiveOfUser(u, x) => row.userId == u && row.Live() && (x.Some? && x.value != "" ==> jti != x.value)
    case LiveOfDevice(u, d) => row.userId == u && row.context.deviceId == Some(d) && row.Live()
  }

  function Selected(rows: Rows, w: Where): set<string> {
    set j | j in rows && Selects(w, j, rows[j])
  }

  function RevokeAll(rows: Rows, w: Where, at: int, successor: Option<string>): Rows {
    map j | j in rows :: if Selects(w, j, rows[j]) then rows[j].Revoked(at, successor) else rows[j]
  }

  function LiveJtis(rows: Rows): set<string> {
    set j | j in rows && rows[j].Live()
  }

  class TokenStore {
    var rows: Rows

    constructor ()
      ensures rows == map[]
    {
      rows := map[];
    }

    /** jti and token hash are unique columns; writable is false where the database fails. */
    method CreateRefreshToken(jti: string, row: Row, writable: bool) returns (ok: bool)
      modifies this
      ensures ok == (writable && jti !in old(rows) && forall j :: j in old(rows) ==> old(rows)[j].token != row.token)
      ensures rows == if ok then old(rows)[jti := row] else old(rows)
    {
      ok := writable && jti !in rows && forall j :: j in rows ==> rows[j].token != row.token;
      if ok {
        rows := rows[jti := row];
      }
    }

    method FindByJti(jti: string) returns (row: Option<Row>)
      ensures row == if jti in rows then Some(rows[jti]) else None
    {
      row := if jti in rows then Some(rows[jti]) else None;
    }

    /** revokeToken and revokeTokenByJti: one row, revoked or not; a failed write is reported as no row. */
    method RevokeOne(w: Where, at: int, successor: Option<string>, writable: bool) returns (found: bool)
      requires w.ByJti? || w.ByToken?
      modifies this
      ensures found == (writable && Selected(old(rows), w) != {})
      ensures rows == if found then RevokeAll(old(rows), w, at, successor) else old(rows)
    {
      found := writable && Selected(rows, w) != {};
      if found {
        rows := RevokeAll(rows, w, at, successor);
      }
    }

    /** revokeAllTokensByUserId and revokeTokensByDeviceId: live rows only, counted. */
    method RevokeMany(w: Where, at: int, successor: Option<string>) returns (count: nat)
      requires w.LiveOfUser? || w.LiveOfDevice?
      modifies this
      ensures rows == RevokeAll(old(rows), w, at, successor)
      ensures count == |Selected(old(rows), w)|
      ensures |LiveJtis(old(rows))| == |LiveJtis(rows)| + count
    {
      count := |Selected(rows, w)|;
      BulkRevokeConservesLive(rows, w, at, successor);
      rows := RevokeAll(rows, w, at, successor);
    }
  }

  /** Every row the bulk step counts leaves the live rows, and no other row does. */
  lemma BulkRevokeConservesLive(rows: Rows, w: Where, at: int, successor: Option<string>)
    requires w.LiveOfUser? || w.LiveOfDevice?
    ensures LiveJtis(RevokeAll(rows, w, at, successor)) == LiveJtis(rows) - Selected(rows, w)
    ensures |LiveJtis(rows)| == |LiveJtis(RevokeAll(rows, w, at, successor))| + |Selected(rows, w)|
  {
    var after := RevokeAll(rows, w, at, successor);
    assert Selected(rows, w) <= LiveJtis(rows);
    forall j
      ensures j in LiveJtis(after) <==> j in LiveJtis(rows) - Selected(rows, w)
    {
    }
    assert LiveJtis(rows) == LiveJtis(after) + Selected(rows, w);
  }

  /** Revoking never brings a row back and never touches what it does not select. */
  lemma RevokingIsMonotone(rows: Rows, w: Where, at: int, successor: Option<string>, j: string)
    requires j in rows
    ensures var r, r' := rows[j], RevokeAll(rows, w, at, successor)[j];
            && (Selects(w, j, r) ==> !r'.Live())
            && (!Selects(w, j, r) ==> r' == r)
            && r' == r.(revokedAt := r'.revokedAt, replacedBy := r'.replacedBy)
  {
  }
}
