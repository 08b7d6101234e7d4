/** The `users_data` table and the `Users` service over it
    (db/users_db.py). The table is a map from the serial `id` column to a
    row; deletion is soft, through the `is_deleted` flag. Whether the
    database accepts a write is a parameter (`storeOk`) of each writing
    operation: on `false` the source rolls back and reports failure. */
module UsersDb {
  import opened Wrappers
  import opened Http
  import opened Document
  import opened ResultUpdate

  /** One row of `users_data`. */
  datatype Row = Row(mail: string, name: string, surname: string, passwordHash: string,
                     isDeleted: bool, data: Doc)

  type Table = map<int, Row>

  // ---------------------------------------------------------------------------
  // The table as values
  // ---------------------------------------------------------------------------

  /** Every field `create_user` demands is non-empty (Python truthiness). */
  predicate RequiredFieldsPresent(mail: string, name: string, surname: string, passwordHash: string) {
    mail != "" && name != "" && surname != "" && passwordHash != ""
  }

  /** The document a new or reactivated user gets when none is supplied: no
      games, no selections, no token and an empty profile. */
  function DefaultDoc(): Doc {
    Doc(Some([]), map[
      "selectedGameId" := JNull,
      "selectedSceneId" := JNull,
      "selectedScriptId" := JNull,
      "token" := JNull,
      "user" := JObj(map["firstName" := JStr(""), "lastName" := JStr(""),
                         "email" := JStr(""), "avatar" := JStr("")])])
  }

  function DataOrDefault(data: Option<Doc>): Doc {
    if data.Some? then data.value else DefaultDoc()
  }

  /** `SELECT * ... WHERE id = ...` filtered on `is_deleted`. */
  function ActiveById(t: Table, id: int): Option<Row> {
    if id in t && !t[id].isDeleted then Some(t[id]) else None
  }

  /** `SELECT data ... WHERE id = ...`, with no `is_deleted` filter. */
  function DataOf(t: Table, id: int): Option<Doc> {
    if id in t then Some(t[id].data) else None
  }

  predicate HasMail(t: Table, mail: string) {
    exists id :: id in t && t[id].mail == mail
  }

  // Each `UPDATE ... WHERE id = ...` touches the one row with that id, or
  // none when there is no such row (and still reports success).

  function SetData(t: Table, id: int, d: Doc): Table {
    if id in t then t[id := t[id].(data := d)] else t
  }

  function SetName(t: Table, id: int, name: string, surname: string): Table {
    if id in t then t[id := t[id].(name := name, surname := surname)] else t
  }

  function SetPassword(t: Table, id: int, passwordHash: string): Table {
    if id in t then t[id := t[id].(passwordHash := passwordHash)] else t
  }

  function SoftDelete(t: Table, id: int): Table {
    if id in t then t[id := t[id].(isDeleted := true)] else t
  }

  /** `UPDATE ... WHERE mail = ...`: every row with that mail gets the new
      name, surname, password hash and document, and is no longer deleted. */
  function Reactivated(t: Table, mail: string, name: string, surname: string, passwordHash: string, d: Doc): Table {
    map id | id in t :: if t[id].mail == mail then Row(mail, name, surname, passwordHash, false, d) else t[id]
  }

  // ---------------------------------------------------------------------------
  // Properties of the table operations
  // ---------------------------------------------------------------------------

  /** Soft deletion hides the row from the user lookups, keeps its document
      readable, and leaves every other user as it was. */
  lemma DeleteHidesRowKeepsData(t: Table, id: int)
    ensures ActiveById(SoftDelete(t, id), id) == None
    ensures DataOf(SoftDelete(t, id), id) == DataOf(t, id)
    ensures SoftDelete(t, id).Keys == t.Keys
    ensures forall k :: k != id ==> ActiveById(SoftDelete(t, id), k) == ActiveById(t, k)
  {
  }

  /** Reactivating a deleted user's mail brings the row back with the new
      profile and document; rows with other mails are untouched. */
  lemma ReactivateRestores(t: Table, id: int, name: string, surname: string, passwordHash: string, d: Doc)
    requires id in t
    ensures var t' := Reactivated(SoftDelete(t, id), t[id].mail, name, surname, passwordHash, d);
            && ActiveById(t', id) == Some(Row(t[id].mail, name, surname, passwordHash, false, d))
            && DataOf(t', id) == Some(d)
            && forall k :: k in t && t[k].mail != t[id].mail ==> t'[k] == t[k]
  {
  }

  /** An update of a missing id writes nothing. */
  lemma WritesToMissingIdChangeNothing(t: Table, id: int, d: Doc, name: string, surname: string, passwordHash: string)
    requires id !in t
    ensures SetData(t, id, d) == t
    ensures SetName(t, id, name, surname) == t
    ensures SetPassword(t, id, passwordHash) == t
    ensures SoftDelete(t, id) == t
  {
  }

  /** Each update by id changes only its column of its row. */
  lemma WritesTouchOneField(t: Table, id: int, d: Doc, name: string, surname: string, passwordHash: string)
    requires id in t
    ensures DataOf(SetData(t, id, d), id) == Some(d)
    ensures SetData(t, id, d)[id].(data := t[id].data) == t[id]
    ensures SetName(t, id, name, surname)[id] == t[id].(name := name, surname := surname)
    ensures SetPassword(t, id, passwordHash)[id] == t[id].(passwordHash := passwordHash)
    ensures forall k :: k != id && k in t ==>
              SetData(t, id, d)[k] == SetName(t, id, name, surname)[k] == SetPassword(t, id, passwordHash)[k] == t[k]
  {
  }

  /** A freshly created user's document is truthy but has no games, so
      recording any result for it fails at the game level. */
  lemma NewUserCannotRecordResults(gameId: Id, sceneId: Id, scriptId: Id, result: Json)
    ensures Truthy(DefaultDoc())
    ensures RecordResult(Some(DefaultDoc()), gameId, sceneId, scriptId, result) == Raise(GameIdInvalid)
  {
    assert "token" in DefaultDoc().extra;
    assert NoneIn(GameIds(DefaultDoc()), gameId);
  }

  /** Recording a result reads the document of a soft-deleted row as well. */
  lemma DeletedUserResultsStillRecorded(t: Table, id: int, gameId: Id, sceneId: Id, scriptId: Id, result: Json)
    ensures RecordResult(DataOf(SoftDelete(t, id), id), gameId, sceneId, scriptId, result)
         == RecordResult(DataOf(t, id), gameId, sceneId, scriptId, result)
  {
    DeleteHidesRowKeepsData(t, id);
  }

  // ---------------------------------------------------------------------------
  // The service object
  // ---------------------------------------------------------------------------

  class Users {
    /** The contents of `users_data`. */
    var rows: Table
    /** The next value of the serial `id` column. */
    var nextId: int

    ghost predicate Valid()
      reads this
    {
      1 <= nextId && forall id :: id in rows ==> 1 <= id < nextId
    }

    /** A service over an empty table. */
    constructor()
      ensures Valid() && rows == map[] && nextId == 1
    {
      rows := map[];
      nextId := 1;
    }

    /** `create_user`: insert a row and return its new id, or `None` when a
        required field is empty (nothing written) or the insert fails. */
    method CreateUser(mail: string, name: string, surname: string, passwordHash: string,
                      isDeleted: bool, data: Option<Doc>, storeOk: bool) returns (id: Option<int>)
      requires Valid()
      modifies this
      ensures Valid()
      ensures id.Some? <==> RequiredFieldsPresent(mail, name, surname, passwordHash) && storeOk
      ensures id.Some? ==> id.value !in old(rows)
      ensures id.Some? ==> rows == old(rows)[id.value := Row(mail, name, surname, passwordHash, isDeleted, DataOrDefault(data))]
      ensures id.None? ==> rows == old(rows)
    {
      if !RequiredFieldsPresent(mail, name, surname, passwordHash) {
        return None;
      }
      var doc := DataOrDefault(data);
      if !storeOk {
        return None;
      }
      id := Some(nextId);
      rows := rows[nextId := Row(mail, name, surname, passwordHash, isDeleted, doc)];
      nextId := nextId + 1;
    }

    /** `get_user_by_mail`: the first row the query returns for the mail, or
        `None` when there is none or that row is soft-deleted. Which of
        several rows with one mail comes first is not determined. */
    method GetUserByMail(mail: string) returns (r: Option<(int, Row)>)
      ensures r.Some? ==> r.value.0 in rows && rows[r.value.0] == r.value.1
      ensures r.Some? ==> r.value.1.mail == mail && !r.value.1.isDeleted
      ensures !HasMail(rows, mail) ==> r.None?
      ensures (forall id :: id in rows && rows[id].mail == mail ==> rows[id].isDeleted) ==> r.None?
      ensures HasMail(rows, mail) && (forall id :: id in rows && rows[id].mail == mail ==> !rows[id].isDeleted) ==> r.Some?
    {
      if id :| id in rows && rows[id].mail == mail {
        if rows[id].isDeleted {
          return None;
        }
        return Some((id, rows[id]));
      }
      return None;
    }

    /** `get_user_by_id`: the row, unless it is missing or soft-deleted. */
    method GetUserById(userId: int) returns (r: Option<Row>)
      ensures r.Some? <==> userId in rows && !rows[userId].isDeleted
      ensures r == ActiveById(rows, userId)
    {
      if userId in rows && !rows[userId].isDeleted {
        return Some(rows[userId]);
      }
      return None;
    }

    /** `get_user_data`: the stored document of any row with that id. */
    method GetUserData(userId: int) returns (r: Option<Doc>)
      ensures r.Some? <==> userId in rows
      ensures r == DataOf(rows, userId)
    {
      if userId in rows {
        return Some(rows[userId].data);
      }
      return None;
    }

    method UpdateUserData(userId: int, newData: Doc, storeOk: bool) returns (ok: bool)
      requires Valid()
      modifies this
      ensures Valid() && nextId == old(nextId)
      ensures ok == storeOk
      ensures rows == if storeOk then SetData(old(rows), userId, newData) else old(rows)
    {
      if storeOk {
        rows := SetData(rows, userId, newData);
      }
      return storeOk;
    }

    method UpdateUserName(userId: int, newName: string, newSurname: string, storeOk: bool) returns (ok: bool)
      requires Valid()
      modifies this
      ensures Valid() && nextId == old(nextId)
      ensures ok == storeOk
      ensures rows == if storeOk then SetName(old(rows), userId, newName, newSurname) else old(rows)
    {
      if storeOk {
        rows := SetName(rows, userId, newName, newSurname);
      }
      return storeOk;
    }

    method UpdateUserPassword(userId: int, newPass: string, storeOk: bool) returns (ok: bool)
      requires Valid()
      modifies this
      ensures Valid() && nextId == old(nextId)
      ensures ok == storeOk
      ensures rows == if storeOk then SetPassword(old(rows), userId, newPass) else old(rows)
    {
      if storeOk {
        rows := SetPassword(rows, userId, newPass);
      }
      return storeOk;
    }

    /** `update_user_result`: read the document, search and patch it, and
        write it back. A 404 or 400 is raised before any write; otherwise the
        answer is the outcome of the write. */
    method UpdateUserResult(result: Json, userId: int, gameId: Id, sceneId: Id, scriptId: Id, storeOk: bool)
      returns (r: Response<bool>)
      requires Valid()
      modifies this
      ensures Valid() && nextId == old(nextId)
      ensures var patched := RecordResult(DataOf(old(rows), userId), gameId, sceneId, scriptId, result);
              && (patched.Raise? ==> r == Raise(patched.error) && rows == old(rows))
              && (patched.Ok? ==> r == Ok(storeOk))
              && (patched.Ok? ==> rows == if storeOk then SetData(old(rows), userId, patched.body) else old(rows))
    {
      var userData := GetUserData(userId);
      if userData.None? || !Truthy(userData.value) {
        return Raise(DataNotFound);
      }
      var patched := FindAndPatch(userData.value, gameId, sceneId, scriptId, result);
      if patched.Raise? {
        return Raise(patched.error);
      }
      var ok := UpdateUserData(userId, patched.body, storeOk);
      return Ok(ok);
    }

    /** `delete_user`: `True`, or `None` (no return value) when the update
        fails. */
    method DeleteUser(userId: int, storeOk: bool) returns (r: Option<bool>)
      requires Valid()
      modifies this
      ensures Valid() && nextId == old(nextId)
      ensures r == if storeOk then Some(true) else None
      ensures rows == if storeOk then SoftDelete(old(rows), userId) else old(rows)
    {
      if !storeOk {
        return None;
      }
      rows := SoftDelete(rows, userId);
      return Some(true);
    }

    /** `reactivate_user`: overwrite every row with that mail and return the
        id of one of them; `None`, with nothing written, when no row has that
        mail (the missing returned row raises and is rolled back) or the
        update fails. */
    method ReactivateUser(mail: string, name: string, surname: string, passwordHash: string,
                          data: Option<Doc>, storeOk: bool) returns (id: Option<int>)
      requires Valid()
      modifies this
      ensures Valid() && nextId == old(nextId)
      ensures id.Some? <==> storeOk && HasMail(old(rows), mail)
      ensures id.Some? ==> id.value in old(rows) && old(rows)[id.value].mail == mail
      ensures id.Some? ==> rows == Reactivated(old(rows), mail, name, surname, passwordHash, DataOrDefault(data))
      ensures id.None? ==> rows == old(rows)
    {
      var doc := DataOrDefault(data);
      if !storeOk {
        return None;
      }
      if k :| k in rows && rows[k].mail == mail {
        rows := Reactivated(rows, mail, name, surname, passwordHash, doc);
        return Some(k);
      }
      return None;
    }
  }
}
