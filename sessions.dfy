/**
 * The refresh-session table: one row per continuous login on one
 * (subject, IP, user-agent) fingerprint, with a `valid` flag that logout
 * clears. Rows are never deleted.
 */
module Sessions {
  import opened Common
  import opened Tables

  datatype Session = Session(id: nat, sub: nat, username: string, ip: string, userAgent: string, valid: bool)

  /** The data of a row to create; `id` is `None` when the store assigns it. */
  datatype NewSession = NewSession(
    id: Option<nat>, sub: nat, username: string, ip: string, userAgent: string, valid: bool)

  /** The table's contents and the next autoincrement id. */
  datatype SessionTable = SessionTable(rows: map<nat, Session>, nextId: nat)

  /** Every row sits under its own id, below the counter. */
  ghost predicate SessionTableValid(t: SessionTable) {
    && 1 <= t.nextId
    && (forall k :: k in t.rows ==> t.rows[k].id == k && k < t.nextId)
  }

  predicate HasFingerprint(s: Session, sub: nat, ip: string, userAgent: string) {
    s.sub == sub && s.ip == ip && s.userAgent == userAgent
  }

  function FingerprintFilter(sub: nat, ip: string, userAgent: string): Session -> bool {
    (s: Session) => HasFingerprint(s, sub, ip, userAgent)
  }

  /** `findUnique({ where: { id } })`. */
  function FindSessionById(t: SessionTable, id: nat): (r: Option<Session>)
    ensures r.None? <==> id !in t.rows
    ensures r.Some? ==> r.value == t.rows[id]
  {
    if id in t.rows then Some(t.rows[id]) else None
  }

  /**
   * `findFirst({ where: { AND: [sub, ip, userAgent] } })`: a row with exactly
   * that fingerprint (the lowest id when there are several), or `None` when
   * no row has it.
   */
  function FindFirstSession(t: SessionTable, sub: nat, ip: string, userAgent: string): (r: Option<Session>)
    requires SessionTableValid(t)
    ensures r.None? <==> forall k :: k in t.rows ==> !HasFingerprint(t.rows[k], sub, ip, userAgent)
    ensures r.Some? ==> && r.value.id in t.rows && t.rows[r.value.id] == r.value
                        && HasFingerprint(r.value, sub, ip, userAgent)
                        && forall k :: k in t.rows && HasFingerprint(t.rows[k], sub, ip, userAgent) ==> r.value.id <= k
  {
    match FirstWhere(t.rows, FingerprintFilter(sub, ip, userAgent), 0, t.nextId)
    case None => None
    case Some(k) => Some(t.rows[k])
  }

  /**
   * `create({ data })`: one new row, under the given id or else the next
   * autoincrement id; a given id that is taken violates the primary key.
   */
  function CreateSession(t: SessionTable, data: NewSession): (r: (Result<Session>, SessionTable))
    ensures r.0.Err? ==> r.0.error == UniqueViolation && r.1 == t
    ensures r.0.Err? <==> data.id.Some? && data.id.value in t.rows
    ensures r.0.Ok? ==>
      var s := r.0.value;
      && s == Session(s.id, data.sub, data.username, data.ip, data.userAgent, data.valid)
      && (data.id.Some? ==> s.id == data.id.value)
      && (data.id.None? ==> s.id == t.nextId)
      && r.1.rows == t.rows[s.id := s]
  {
    match data.id
    case Some(id) =>
      if id in t.rows then (Err(UniqueViolation), t)
      else
        var s := Session(id, data.sub, data.username, data.ip, data.userAgent, data.valid);
        (Ok(s), SessionTable(t.rows[id := s], if id < t.nextId then t.nextId else id + 1))
    case None =>
      var s := Session(t.nextId, data.sub, data.username, data.ip, data.userAgent, data.valid);
      (Ok(s), SessionTable(t.rows[t.nextId := s], t.nextId + 1))
  }

  /** A created row is new: its id was not in use, and the table stays valid. */
  lemma CreateSessionFresh(t: SessionTable, data: NewSession)
    requires SessionTableValid(t)
    ensures CreateSession(t, data).0.Ok? ==> CreateSession(t, data).0.value.id !in t.rows
    ensures SessionTableValid(CreateSession(t, data).1)
  {
  }

  /** `update({ data: { valid }, where: { id } })`: the updated row, or not found. */
  function UpdateSessionValid(t: SessionTable, id: nat, valid: bool): (r: (Result<Session>, SessionTable))
    ensures r.0.Err? <==> id !in t.rows
    ensures r.0.Err? ==> r.0.error == RecordNotFound && r.1 == t
    ensures r.0.Ok? ==> && r.0.value == t.rows[id].(valid := valid)
                        && r.1 == t.(rows := t.rows[id := r.0.value])
  {
    if id !in t.rows then (Err(RecordNotFound), t)
    else
      var s := t.rows[id].(valid := valid);
      (Ok(s), t.(rows := t.rows[id := s]))
  }

  /** Updating a flag keeps the table valid and touches no other row. */
  lemma UpdateSessionValidFrame(t: SessionTable, id: nat, valid: bool)
    requires SessionTableValid(t)
    ensures var r := UpdateSessionValid(t, id, valid);
      && SessionTableValid(r.1)
      && r.1.rows.Keys == t.rows.Keys
      && (forall k :: k in t.rows && k != id ==> r.1.rows[k] == t.rows[k])
  {
  }

  /** The session table as the services see it. */
  class SessionStore {
    var rows: map<nat, Session>
    var nextId: nat

    function Value(): SessionTable
      reads this
    {
      SessionTable(rows, nextId)
    }

    ghost predicate Valid()
      reads this
    {
      SessionTableValid(Value())
    }

    constructor ()
      ensures Valid() && rows == map[] && nextId == 1
    {
      rows := map[];
      nextId := 1;
    }

    method FindById(id: nat) returns (r: Option<Session>)
      ensures r == FindSessionById(Value(), id)
      ensures r.Some? ==> id in rows && r.value == rows[id]
    {
      if id !in rows {
        return None;
      }
      r := Some(rows[id]);
    }

    method FindByTriple(sub: nat, ip: string, userAgent: string) returns (r: Option<Session>)
      requires Valid()
      ensures r == FindFirstSession(Value(), sub, ip, userAgent)
      ensures r.Some? ==> HasFingerprint(r.value, sub, ip, userAgent)
    {
      var k := FirstWhere(rows, FingerprintFilter(sub, ip, userAgent), 0, nextId);
      if k.None? {
        return None;
      }
      r := Some(rows[k.value]);
    }

    method Create(data: NewSession) returns (r: Result<Session>)
      requires Valid()
      modifies this
      ensures Valid()
      ensures (r, Value()) == CreateSession(old(Value()), data)
    {
      CreateSessionFresh(Value(), data);
      var id: nat;
      if data.id.Some? {
        if data.id.value in rows {
          return Err(UniqueViolation);
        }
        id := data.id.value;
        if nextId <= id {
          nextId := id + 1;
        }
      } else {
        id := nextId;
        nextId := nextId + 1;
      }
      var s := Session(id, data.sub, data.username, data.ip, data.userAgent, data.valid);
      rows := rows[id := s];
      r := Ok(s);
    }

    method SetValid(id: nat, valid: bool) returns (r: Result<Session>)
      requires Valid()
      modifies this
      ensures Valid()
      ensures (r, Value()) == UpdateSessionValid(old(Value()), id, valid)
    {
      if id !in rows {
        return Err(RecordNotFound);
      }
      var s := rows[id].(valid := valid);
      rows := rows[id := s];
      r := Ok(s);
    }
  }
}
