/**
 * The user service over the user table.
 *
 * A stored row always has a password (an argon2 hash when written by
 * signup). What the service hands back is a `User` whose password is
 * removed unless the caller asked `withPassword`; a missing row comes back
 * as `None`, untouched.
 */
module Users {
  import opened Common
  import opened Tables

  datatype UserRow = UserRow(id: nat, fName: string, lName: string, email: string, password: string)

  /** A user as returned to callers: `password` is `None` once the field is deleted. */
  datatype User = User(id: nat, fName: string, lName: string, email: string, password: Option<string>)

  datatype CreateUserDto = CreateUserDto(fName: string, lName: string, email: string, password: string)

  /** A partial update: an absent key is `None`. */
  datatype UpdateUserDto = UpdateUserDto(
    fName: Option<string>, lName: Option<string>, email: Option<string>, password: Option<string>)

  /** The keys of a user record that an update may name. */
  datatype Field = FName | LName | Email | Password

  /** The table's contents and the next autoincrement id. */
  datatype UserTable = UserTable(rows: map<nat, UserRow>, nextId: nat)

  /** Every row sits under its own id below the counter, and emails are unique. */
  ghost predicate UserTableValid(t: UserTable) {
    && 1 <= t.nextId
    && (forall k :: k in t.rows ==> t.rows[k].id == k && k < t.nextId)
    && (forall a, b :: a in t.rows && b in t.rows && t.rows[a].email == t.rows[b].email ==> a == b)
  }

  /** `if (!options || !options.withPassword) delete user.password`. */
  function Present(row: UserRow, withPassword: bool): (u: User)
    ensures u.id == row.id && u.fName == row.fName && u.lName == row.lName && u.email == row.email
    ensures u.password.Some? <==> withPassword
    ensures withPassword ==> u.password == Some(row.password)
  {
    User(row.id, row.fName, row.lName, row.email, if withPassword then Some(row.password) else None)
  }

  /** `delete user.password` on a user already returned. */
  function Strip(u: User): (s: User)
    ensures s.password.None?
    ensures s.(password := u.password) == u
  {
    u.(password := None)
  }

  function FindUser(t: UserTable, id: nat, withPassword: bool): (r: Option<User>)
    ensures r.None? <==> id !in t.rows
    ensures r.Some? ==> r.value == Present(t.rows[id], withPassword)
  {
    if id in t.rows then Some(Present(t.rows[id], withPassword)) else None
  }

  function HasEmail(email: string): UserRow -> bool {
    (row: UserRow) => row.email == email
  }

  function FindUserByEmail(t: UserTable, email: string, withPassword: bool): (r: Option<User>)
    requires UserTableValid(t)
    ensures r.None? <==> forall k :: k in t.rows ==> t.rows[k].email != email
    ensures r.Some? ==> r.value.id in t.rows && t.rows[r.value.id].email == email
                        && r.value == Present(t.rows[r.value.id], withPassword)
  {
    match FirstWhere(t.rows, HasEmail(email), 0, t.nextId)
    case None => None
    case Some(k) => Some(Present(t.rows[k], withPassword))
  }

  /**
   * `prisma.user.create({ data })`: one new row under the next id, or the
   * unique-constraint error when the email is taken.
   */
  function CreateUser(t: UserTable, dto: CreateUserDto, withPassword: bool): (r: (Result<User>, UserTable))
    ensures r.0.Err? ==> r.0.error == UniqueViolation && r.1 == t
    ensures r.0.Ok? <==> forall k :: k in t.rows ==> t.rows[k].email != dto.email
    ensures r.0.Ok? ==>
      var row := UserRow(t.nextId, dto.fName, dto.lName, dto.email, dto.password);
      && r.0.value == Present(row, withPassword)
      && r.1 == UserTable(t.rows[t.nextId := row], t.nextId + 1)
  {
    if exists k :: k in t.rows && t.rows[k].email == dto.email then (Err(UniqueViolation), t)
    else
      var row := UserRow(t.nextId, dto.fName, dto.lName, dto.email, dto.password);
      (Ok(Present(row, withPassword)), UserTable(t.rows[t.nextId := row], t.nextId + 1))
  }

  /** A new row is stored under a fresh id and keeps the table valid. */
  lemma CreateUserKeepsValid(t: UserTable, dto: CreateUserDto, withPassword: bool)
    requires UserTableValid(t)
    ensures UserTableValid(CreateUser(t, dto, withPassword).1)
    ensures CreateUser(t, dto, withPassword).0.Ok? ==> t.nextId !in t.rows
  {
  }

  /** `Object.keys(updateUserDto)`: the keys present, in declaration order. */
  function DtoKeys(dto: UpdateUserDto): (keys: seq<Field>)
    ensures forall f :: f in keys <==> DtoValue(dto, f).Some?
    ensures forall i, j :: 0 <= i < j < |keys| ==> keys[i] != keys[j]
  {
    (if dto.fName.Some? then [FName] else [])
      + (if dto.lName.Some? then [LName] else [])
      + (if dto.email.Some? then [Email] else [])
      + (if dto.password.Some? then [Password] else [])
  }

  /** The DTO's value under `f`, if that key is present. */
  function DtoValue(dto: UpdateUserDto, f: Field): Option<string> {
    match f
    case FName => dto.fName
    case LName => dto.lName
    case Email => dto.email
    case Password => dto.password
  }

  /**
   * `keys.reduce((selectObj, key) => ({ ...selectObj, [key]: true }), acc)`:
   * exactly the listed keys are added, each set to true.
   */
  function SelectFrom(acc: map<Field, bool>, keys: seq<Field>): (select: map<Field, bool>)
    ensures select.Keys == acc.Keys + set k | k in keys
    ensures forall f :: f in select ==> select[f] == (f in keys || acc[f])
    decreases |keys|
  {
    if keys == [] then acc
    else
      assert forall k :: k in keys <==> k == keys[0] || k in keys[1..];
      SelectFrom(acc[keys[0] := true], keys[1..])
  }

  /** The row with each field the DTO holds replaced and every other field kept. */
  function ApplyUpdate(row: UserRow, dto: UpdateUserDto): (updated: UserRow)
    ensures updated.id == row.id
    ensures forall f :: FieldOf(updated, f) == DtoValue(dto, f).GetOr(FieldOf(row, f))
  {
    row.(fName := dto.fName.GetOr(row.fName), lName := dto.lName.GetOr(row.lName),
         email := dto.email.GetOr(row.email), password := dto.password.GetOr(row.password))
  }

  function FieldOf(row: UserRow, f: Field): string {
    match f
    case FName => row.fName
    case LName => row.lName
    case Email => row.email
    case Password => row.password
  }

  /**
   * `prisma.user.update({ data, where: { id }, select })`: the row `id`
   * takes the DTO's values and the answer holds the selected keys of the
   * updated row. A DTO with no keys makes the `select` object empty, which
   * the client refuses before any query; a missing row or a taken email
   * fails too. A failure changes nothing.
   */
  function UpdateUser(t: UserTable, id: nat, dto: UpdateUserDto): (r: (Result<map<Field, string>>, UserTable))
    ensures r.0.Err? ==> r.1 == t
    ensures dto == UpdateUserDto(None, None, None, None) ==> r.0 == Err(InvalidQuery)
    ensures dto != UpdateUserDto(None, None, None, None) && id !in t.rows ==> r.0 == Err(RecordNotFound)
    ensures r.0.Ok? <==>
      && dto != UpdateUserDto(None, None, None, None)
      && id in t.rows
      && (dto.email.None? || forall k :: k in t.rows && k != id ==> t.rows[k].email != dto.email.value)
    ensures r.0.Err? && dto != UpdateUserDto(None, None, None, None) && id in t.rows ==> r.0.error == UniqueViolation
    ensures r.0.Ok? ==> id in t.rows && id in r.1.rows
    ensures r.0.Ok? ==> forall f :: FieldOf(r.1.rows[id], f) == DtoValue(dto, f).GetOr(FieldOf(t.rows[id], f))
  {
    if DtoKeys(dto) == [] then (Err(InvalidQuery), t)
    else if id !in t.rows then (Err(RecordNotFound), t)
    else if dto.email.Some? && exists k :: k in t.rows && k != id && t.rows[k].email == dto.email.value then
      (Err(UniqueViolation), t)
    else
      var row := ApplyUpdate(t.rows[id], dto);
      var select := SelectFrom(map[], DtoKeys(dto));
      var answer := map f | f in select :: FieldOf(row, f);
      (Ok(answer), t.(rows := t.rows[id := row]))
  }

  /**
   * A successful update writes row `id` only, and its answer has exactly the
   * DTO's keys with the DTO's values.
   */
  lemma UpdateUserWritesOnlyRow(t: UserTable, id: nat, dto: UpdateUserDto)
    requires UserTableValid(t)
    requires UpdateUser(t, id, dto).0.Ok?
    ensures var r := UpdateUser(t, id, dto);
      && id in t.rows
      && r.1.nextId == t.nextId && r.1.rows.Keys == t.rows.Keys
      && (forall k :: k in t.rows && k != id ==> r.1.rows[k] == t.rows[k])
      && (forall f :: f in r.0.value <==> DtoValue(dto, f).Some?)
      && (forall f :: f in r.0.value ==> r.0.value[f] == DtoValue(dto, f).value)
      && UserTableValid(r.1)
  {
  }

  const FindAllMessage: string := "This action returns all user"

  function DigitChar(d: nat): (c: char)
    requires d < 10
    ensures '0' <= c <= '9' && c as int - '0' as int == d
  {
    ('0' as int + d) as char
  }

  /** `${id}` for a natural number: its decimal digits. */
  function DecimalString(n: nat): (s: string)
    ensures |s| > 0 && forall i :: 0 <= i < |s| ==> '0' <= s[i] <= '9'
    ensures |s| == 1 || s[0] != '0'
  {
    if n < 10 then [DigitChar(n)] else DecimalString(n / 10) + [DigitChar(n % 10)]
  }

  function DecimalValue(s: string): nat
    requires forall i :: 0 <= i < |s| ==> '0' <= s[i] <= '9'
  {
    if s == [] then 0 else DecimalValue(s[..|s| - 1]) * 10 + (s[|s| - 1] as int - '0' as int)
  }

  lemma {:induction false} DecimalRoundTrip(n: nat)
    ensures DecimalValue(DecimalString(n)) == n
  {
    if n >= 10 {
      var s := DecimalString(n);
      assert s[..|s| - 1] == DecimalString(n / 10);
      DecimalRoundTrip(n / 10);
    }
  }

  const RemovePrefix: string := "This action removes a #"
  const RemoveSuffix: string := " user"

  function RemoveMessage(id: nat): (s: string)
    ensures |s| > |RemovePrefix| + |RemoveSuffix|
    ensures s[..|RemovePrefix|] == RemovePrefix && s[|s| - |RemoveSuffix|..] == RemoveSuffix
    ensures var digits := s[|RemovePrefix|..|s| - |RemoveSuffix|];
      (forall i :: 0 <= i < |digits| ==> '0' <= digits[i] <= '9') && DecimalValue(digits) == id
    ensures var digits := s[|RemovePrefix|..|s| - |RemoveSuffix|];
      |digits| == 1 || digits[0] != '0'
  {
    var digits := DecimalString(id);
    DecimalRoundTrip(id);
    var s := RemovePrefix + digits + RemoveSuffix;
    assert s[|RemovePrefix|..|s| - |RemoveSuffix|] == digits;
    s
  }

  /** The user table as the service sees it. */
  class UserStore {
    var rows: map<nat, UserRow>
    var nextId: nat

    function Value(): UserTable
      reads this
    {
      UserTable(rows, nextId)
    }

    ghost predicate Valid()
      reads this
    {
      UserTableValid(Value())
    }

    constructor ()
      ensures Valid() && rows == map[] && nextId == 1
    {
      rows := map[];
      nextId := 1;
    }

    method Create(dto: CreateUserDto, withPassword: bool) returns (r: Result<User>)
      requires Valid()
      modifies this
      ensures Valid()
      ensures (r, Value()) == CreateUser(old(Value()), dto, withPassword)
    {
      CreateUserKeepsValid(Value(), dto, withPassword);
      if exists k :: k in rows && rows[k].email == dto.email {
        return Err(UniqueViolation);
      }
      var row := UserRow(nextId, dto.fName, dto.lName, dto.email, dto.password);
      rows := rows[nextId := row];
      nextId := nextId + 1;
      r := Ok(Present(row, withPassword));
    }

    method FindOne(id: nat, withPassword: bool) returns (r: Option<User>)
      requires Valid()
      ensures r == FindUser(Value(), id, withPassword)
      ensures r.Some? ==> r.value.id == id && (r.value.password.Some? <==> withPassword)
    {
      if id !in rows {
        return None;
      }
      r := Some(Present(rows[id], withPassword));
    }

    method FindOneByEmail(email: string, withPassword: bool) returns (r: Option<User>)
      requires Valid()
      ensures r == FindUserByEmail(Value(), email, withPassword)
      ensures r.Some? ==> r.value.email == email && (r.value.password.Some? <==> withPassword)
    {
      var k := FirstWhere(rows, HasEmail(email), 0, nextId);
      if k.None? {
        return None;
      }
      r := Some(Present(rows[k.value], withPassword));
    }

    method Update(id: nat, dto: UpdateUserDto) returns (r: Result<map<Field, string>>)
      requires Valid()
      modifies this
      ensures Valid()
      ensures (r, Value()) == UpdateUser(old(Value()), id, dto)
    {
      var result := UpdateUser(Value(), id, dto);
      if result.0.Ok? {
        UpdateUserWritesOnlyRow(Value(), id, dto);
      }
      r := result.0;
      rows := result.1.rows;
    }

    method FindAll() returns (s: string)
      ensures s == FindAllMessage
    {
      s := FindAllMessage;
    }

    method Remove(id: nat) returns (s: string)
      ensures s == RemoveMessage(id)
    {
      s := RemoveMessage(id);
    }
  }
}
