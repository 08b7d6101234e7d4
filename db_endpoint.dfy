/** The `/users/me...` handlers (src/db/api/db_endpoint.py): guard chains
    over the `Users` service, and the whole-document replace that carries the
    stored scripts' results into the client's proposal position by position. */
module DbEndpoint {
  import opened Wrappers
  import opened Http
  import opened Document
  import opened UsersDb
  import opened ResultUpdate

  const UserNotFound := HttpError(404, "User not found")
  const UpdateDataFailed := HttpError(400, "Failed to update data")
  const UpdateNameFailed := HttpError(400, "Failed to update name")
  const UpdatePasswordFailed := HttpError(400, "Failed to update password")
  const DeleteFailed := HttpError(400, "Failed to delete user")

  // ---------------------------------------------------------------------------
  // Positional carry-over of results
  // ---------------------------------------------------------------------------

  /** What the result at (g, s, c) of the written document should be: the
      stored result at the same indices when the proposal has a script there
      and the stored lookup succeeds; otherwise (the lookup raised and was
      ignored) the proposal's own. Ids play no part. */
  function CarriedResult(stored: Doc, proposed: Doc, g: nat, s: nat, c: nat): Option<Json> {
    if ScriptAt(proposed, g, s, c).Some? && ResultAt(stored, g, s, c).Some? then ResultAt(stored, g, s, c)
    else ResultAt(proposed, g, s, c)
  }

  function CarryScript(stored: Doc, g: nat, s: nat, c: nat, sc: Script): Script {
    if ResultAt(stored, g, s, c).Some? then sc.(result := ResultAt(stored, g, s, c)) else sc
  }

  function CarryScene(stored: Doc, g: nat, s: nat, sn: Scene): Scene {
    match sn.scripts
    case None => sn
    case Some(xs) => sn.(scripts := Some(seq(|xs|, c requires 0 <= c < |xs| => CarryScript(stored, g, s, c, xs[c]))))
  }

  function CarryGame(stored: Doc, g: nat, gm: Game): Game {
    match gm.scenes
    case None => gm
    case Some(xs) => gm.(scenes := Some(seq(|xs|, s requires 0 <= s < |xs| => CarryScene(stored, g, s, xs[s]))))
  }

  /** The document the handler writes: the proposal, with each script's
      result replaced by the stored one at the same indices, if any. */
  function CarryResults(stored: Doc, proposed: Doc): Doc {
    match proposed.games
    case None => proposed
    case Some(xs) => proposed.(games := Some(seq(|xs|, g requires 0 <= g < |xs| => CarryGame(stored, g, xs[g]))))
  }

  /** The written document is the proposal apart from results (shape, ids,
      other fields; stored items past the proposal's lengths are dropped),
      and each result is the one `CarriedResult` names. */
  lemma CarryResultsMeaning(stored: Doc, proposed: Doc)
    ensures Erase(CarryResults(stored, proposed)) == Erase(proposed)
    ensures forall g: nat, s: nat, c: nat ::
              ResultAt(CarryResults(stored, proposed), g, s, c) == CarriedResult(stored, proposed, g, s, c)
  {
    var m := CarryResults(stored, proposed);
    if proposed.games.Some? {
      var gs := proposed.games.value;
      var gs' := m.games.value;
      forall g | 0 <= g < |gs| ensures EraseGame(gs'[g]) == EraseGame(gs[g]) {
        CarryGameErasure(stored, g, gs[g]);
      }
      var eg := seq(|gs|, i requires 0 <= i < |gs| => EraseGame(gs[i]));
      var eg' := seq(|gs'|, i requires 0 <= i < |gs'| => EraseGame(gs'[i]));
      assert eg == eg';
    }
    forall g: nat, s: nat, c: nat
      ensures ResultAt(m, g, s, c) == CarriedResult(stored, proposed, g, s, c)
    {
      if ScriptAt(proposed, g, s, c).Some? {
        var gm := proposed.games.value[g];
        var sn := gm.scenes.value[s];
        assert m.games.value[g] == CarryGame(stored, g, gm);
        assert m.games.value[g].scenes.value[s] == CarryScene(stored, g, s, sn);
        assert ScriptAt(m, g, s, c) == Some(CarryScript(stored, g, s, c, sn.scripts.value[c]));
      } else {
        CarryResultsShape(stored, proposed, g, s, c);
      }
    }
  }

  /** The written document is well-formed exactly when the proposal is,
      whatever the stored document holds. */
  lemma CarryKeepsWellFormed(stored: Doc, proposed: Doc)
    ensures WellFormed(CarryResults(stored, proposed)) <==> WellFormed(proposed)
  {
    CarryResultsMeaning(stored, proposed);
    WellFormedIgnoresResults(proposed);
    WellFormedIgnoresResults(CarryResults(stored, proposed));
  }

  lemma CarryGameErasure(stored: Doc, g: nat, gm: Game)
    ensures EraseGame(CarryGame(stored, g, gm)) == EraseGame(gm)
  {
    if gm.scenes.Some? {
      var xs := gm.scenes.value;
      var xs' := CarryGame(stored, g, gm).scenes.value;
      forall s | 0 <= s < |xs| ensures EraseScene(xs'[s]) == EraseScene(xs[s]) {
        var sn := xs[s];
        if sn.scripts.Some? {
          var ys := sn.scripts.value;
          var ys' := xs'[s].scripts.value;
          var e := seq(|ys|, i requires 0 <= i < |ys| => EraseScript(ys[i]));
          var e' := seq(|ys'|, i requires 0 <= i < |ys'| => EraseScript(ys'[i]));
          assert e == e';
        }
      }
      var e := seq(|xs|, i requires 0 <= i < |xs| => EraseScene(xs[i]));
      var e' := seq(|xs'|, i requires 0 <= i < |xs'| => EraseScene(xs'[i]));
      assert e == e';
    }
  }

  lemma CarryResultsShape(stored: Doc, proposed: Doc, g: nat, s: nat, c: nat)
    requires ScriptAt(proposed, g, s, c).None?
    ensures ScriptAt(CarryResults(stored, proposed), g, s, c).None?
  {
    var m := CarryResults(stored, proposed);
    if g < |Items(proposed.games)| {
      var gm := proposed.games.value[g];
      assert m.games.value[g] == CarryGame(stored, g, gm);
      if s < |Items(gm.scenes)| {
        assert m.games.value[g].scenes.value[s] == CarryScene(stored, g, s, gm.scenes.value[s]);
      }
    }
  }

  /** A document is determined by its erasure and its results. */
  lemma SameErasureSameResults(a: Doc, b: Doc)
    requires Erase(a) == Erase(b)
    requires forall g: nat, s: nat, c: nat :: ResultAt(a, g, s, c) == ResultAt(b, g, s, c)
    ensures a == b
  {
    assert a.extra == Erase(a).extra;
    assert b.extra == Erase(b).extra;
    if a.games.Some? {
      var ga, gb := a.games.value, b.games.value;
      assert |Erase(a).games.value| == |ga| && |Erase(b).games.value| == |gb|;
      forall g | 0 <= g < |ga| ensures ga[g] == gb[g] {
        SameGame(a, b, g);
      }
      assert ga == gb;
    }
  }

  lemma SameGame(a: Doc, b: Doc, g: nat)
    requires Erase(a) == Erase(b)
    requires forall g: nat, s: nat, c: nat :: ResultAt(a, g, s, c) == ResultAt(b, g, s, c)
    requires a.games.Some? && g < |a.games.value|
    ensures b.games.Some? && g < |b.games.value| && a.games.value[g] == b.games.value[g]
  {
    var ga, gb := a.games.value[g], b.games.value[g];
    assert Erase(a).games.value[g] == EraseGame(ga);
    assert Erase(b).games.value[g] == EraseGame(gb);
    if ga.scenes.Some? {
      var xa, xb := ga.scenes.value, gb.scenes.value;
      assert |EraseGame(ga).scenes.value| == |xa| && |EraseGame(gb).scenes.value| == |xb|;
      forall s | 0 <= s < |xa| ensures xa[s] == xb[s] {
        SameScene(a, b, g, s);
      }
      assert xa == xb;
    }
  }

  lemma SameScene(a: Doc, b: Doc, g: nat, s: nat)
    requires Erase(a) == Erase(b)
    requires forall g: nat, s: nat, c: nat :: ResultAt(a, g, s, c) == ResultAt(b, g, s, c)
    requires a.games.Some? && g < |a.games.value|
    requires a.games.value[g].scenes.Some? && s < |a.games.value[g].scenes.value|
    ensures b.games.Some? && g < |b.games.value|
    ensures b.games.value[g].scenes.Some? && s < |b.games.value[g].scenes.value|
    ensures a.games.value[g].scenes.value[s] == b.games.value[g].scenes.value[s]
  {
    var ga, gb := a.games.value[g], b.games.value[g];
    assert Erase(a).games.value[g] == EraseGame(ga);
    assert Erase(b).games.value[g] == EraseGame(gb);
    var sa, sb := ga.scenes.value[s], gb.scenes.value[s];
    assert EraseGame(ga).scenes.value[s] == EraseScene(sa);
    assert EraseGame(gb).scenes.value[s] == EraseScene(sb);
    if sa.scripts.Some? {
      var xa, xb := sa.scripts.value, sb.scripts.value;
      assert |EraseScene(sa).scripts.value| == |xa| && |EraseScene(sb).scripts.value| == |xb|;
      forall c | 0 <= c < |xa| ensures xa[c] == xb[c] {
        assert EraseScene(sa).scripts.value[c] == EraseScript(xa[c]);
        assert EraseScene(sb).scripts.value[c] == EraseScript(xb[c]);
        assert ResultAt(a, g, s, c) == ResultAt(b, g, s, c);
      }
      assert xa == xb;
    }
  }

  // ---------------------------------------------------------------------------
  // The source's triple loop, writing into the proposal in place
  // ---------------------------------------------------------------------------

  /** (g', s', c') comes before (g, s, c) in the loops' visiting order. */
  predicate Before(g': nat, s': nat, c': nat, g: nat, s: nat, c: nat) {
    g' < g || (g' == g && s' < s) || (g' == g && s' == s && c' < c)
  }

  /** Every position visited so far holds its carried result; every other
      position still holds the proposal's. */
  ghost predicate CarriedUpTo(stored: Doc, proposed: Doc, data: Doc, g: nat, s: nat, c: nat) {
    forall g': nat, s': nat, c': nat ::
      ResultAt(data, g', s', c') ==
        (if Before(g', s', c', g, s, c) then CarriedResult(stored, proposed, g', s', c')
         else ResultAt(proposed, g', s', c'))
  }

  /** One iteration of the innermost loop body. */
  lemma CarryStep(stored: Doc, proposed: Doc, data: Doc, g: nat, s: nat, c: nat)
    requires Erase(data) == Erase(proposed)
    requires CarriedUpTo(stored, proposed, data, g, s, c)
    requires ScriptAt(proposed, g, s, c).Some?
    ensures ScriptAt(data, g, s, c).Some?
    ensures ResultAt(stored, g, s, c).None? ==> CarriedUpTo(stored, proposed, data, g, s, c + 1)
    ensures ResultAt(stored, g, s, c).Some? ==>
              var data' := SetResult(data, g, s, c, ResultAt(stored, g, s, c).value);
              Erase(data') == Erase(proposed) && CarriedUpTo(stored, proposed, data', g, s, c + 1)
  {
    EraseKeepsShape(data, proposed, g, s, c);
    if ResultAt(stored, g, s, c).Some? {
      SetResultOnlyTouchesTarget(data, g, s, c, ResultAt(stored, g, s, c).value);
    }
  }

  /** Past the last script of a scene, the positions left in it are empty
      in the proposal, so the scene is done. */
  lemma SceneDone(stored: Doc, proposed: Doc, data: Doc, g: nat, s: nat)
    requires CarriedUpTo(stored, proposed, data, g, s, |ScriptsOf(proposed, g, s)|)
    ensures CarriedUpTo(stored, proposed, data, g, s + 1, 0)
  {
  }

  lemma GameDone(stored: Doc, proposed: Doc, data: Doc, g: nat)
    requires CarriedUpTo(stored, proposed, data, g, |ScenesOf(proposed, g)|, 0)
    ensures CarriedUpTo(stored, proposed, data, g + 1, 0, 0)
  {
  }

  lemma AllDone(stored: Doc, proposed: Doc, data: Doc)
    requires Erase(data) == Erase(proposed)
    requires CarriedUpTo(stored, proposed, data, |Items(proposed.games)|, 0, 0)
    ensures data == CarryResults(stored, proposed)
  {
    CarryResultsMeaning(stored, proposed);
    SameErasureSameResults(data, CarryResults(stored, proposed));
  }

  /** The loop of the `update_user_data` handler: for every script position
      of the proposal, copy in the stored result at the same indices; a
      lookup that raises is ignored. */
  method CarryOver(stored: Doc, proposed: Doc) returns (data: Doc)
    ensures data == CarryResults(stored, proposed)
  {
    data := proposed;
    var games := Items(proposed.games);
    var g := 0;
    while g < |games|
      invariant 0 <= g <= |games|
      invariant Erase(data) == Erase(proposed)
      invariant CarriedUpTo(stored, proposed, data, g, 0, 0)
    {
      var scenes := ScenesOf(proposed, g);
      var s := 0;
      while s < |scenes|
        invariant 0 <= s <= |scenes|
        invariant Erase(data) == Erase(proposed)
        invariant CarriedUpTo(stored, proposed, data, g, s, 0)
      {
        var scripts := ScriptsOf(proposed, g, s);
        var c := 0;
        while c < |scripts|
          invariant 0 <= c <= |scripts|
          invariant Erase(data) == Erase(proposed)
          invariant CarriedUpTo(stored, proposed, data, g, s, c)
        {
          CarryStep(stored, proposed, data, g, s, c);
          var storedResult := ResultAt(stored, g, s, c);
          if storedResult.Some? {
            data := SetResult(data, g, s, c, storedResult.value);
          }
          c := c + 1;
        }
        SceneDone(stored, proposed, data, g, s);
        s := s + 1;
      }
      GameDone(stored, proposed, data, g);
      g := g + 1;
    }
    AllDone(stored, proposed, data);
  }

  /** The recorded score of a script survives a replace whatever the
      client sends as that script's result (null, nothing, another value). */
  lemma RecordedScoreSurvivesReplace(stored: Script, proposed: Script)
    requires stored.result == Some(JObj(map["score" := JInt(5)]))
    ensures var sd := Doc(Some([Game(IntId(1), Some([Scene(IntId(1), Some([stored]), map[])]), map[])]), map[]);
            var pd := Doc(Some([Game(IntId(1), Some([Scene(IntId(1), Some([proposed]), map[])]), map[])]), map[]);
            ResultAt(CarryResults(sd, pd), 0, 0, 0) == Some(JObj(map["score" := JInt(5)]))
  {
    var sd := Doc(Some([Game(IntId(1), Some([Scene(IntId(1), Some([stored]), map[])]), map[])]), map[]);
    var pd := Doc(Some([Game(IntId(1), Some([Scene(IntId(1), Some([proposed]), map[])]), map[])]), map[]);
    CarryResultsMeaning(sd, pd);
    assert ScriptAt(pd, 0, 0, 0).Some? && ResultAt(sd, 0, 0, 0) == stored.result;
  }

  /** Carry-over ignores ids: a proposal whose first game has a different id
      still receives the stored first game's result, and a script position
      the stored document lacks keeps the proposal's result. */
  lemma CarryIsPositional(a: Script, b: Script, b2: Script)
    requires a.result == Some(JInt(1)) && b.result == Some(JInt(2)) && b2.result == Some(JInt(3))
    ensures var sd := Doc(Some([Game(StrId("old"), Some([Scene(StrId("x"), Some([a]), map[])]), map[])]), map[]);
            var pd := Doc(Some([Game(StrId("new"), Some([Scene(StrId("y"), Some([b, b2]), map[])]), map[])]), map[]);
            var m := CarryResults(sd, pd);
            ResultAt(m, 0, 0, 0) == Some(JInt(1)) && ResultAt(m, 0, 0, 1) == Some(JInt(3))
  {
    var sd := Doc(Some([Game(StrId("old"), Some([Scene(StrId("x"), Some([a]), map[])]), map[])]), map[]);
    var pd := Doc(Some([Game(StrId("new"), Some([Scene(StrId("y"), Some([b, b2]), map[])]), map[])]), map[]);
    CarryResultsMeaning(sd, pd);
    assert ScriptAt(pd, 0, 0, 0).Some? && ResultAt(sd, 0, 0, 0) == a.result;
    assert ScriptAt(sd, 0, 0, 1).None? && ResultAt(pd, 0, 0, 1) == b2.result;
  }

  // ---------------------------------------------------------------------------
  // The handlers
  // ---------------------------------------------------------------------------

  /** `GET /users/me`: the active row, or 404 "User not found". */
  method GetMe(users: Users, userId: int) returns (r: Response<Row>)
    ensures r.Raise? <==> ActiveById(users.rows, userId).None?
    ensures r.Raise? ==> r.error == UserNotFound
    ensures r.Ok? ==> userId in users.rows && r.body == users.rows[userId] && !r.body.isDeleted
  {
    var user := users.GetUserById(userId);
    if user.Some? {
      return Ok(user.value);
    }
    return Raise(UserNotFound);
  }

  /** `GET /users/me/data`: 404 "User not found" for a missing or deleted
      user, 404 "User data not found" for an empty document, else the
      document. */
  method GetMyData(users: Users, userId: int) returns (r: Response<Doc>)
    ensures ActiveById(users.rows, userId).None? ==> r == Raise(UserNotFound)
    ensures ActiveById(users.rows, userId).Some? && !Truthy(users.rows[userId].data) ==> r == Raise(DataNotFound)
    ensures ActiveById(users.rows, userId).Some? && Truthy(users.rows[userId].data) ==> r == Ok(users.rows[userId].data)
  {
    var user := users.GetUserById(userId);
    if user.None? {
      return Raise(UserNotFound);
    }
    var data := users.GetUserData(userId);
    if data.Some? && Truthy(data.value) {
      return Ok(data.value);
    }
    return Raise(DataNotFound);
  }

  /** `PUT /users/me/upd/data`: 404 "User data not found" with nothing
      written when the stored document is missing or empty; otherwise the
      proposal, with the stored results carried over, replaces the
      document. The proposal is the request's `data` payload. */
  method UpdateMyData(users: Users, userId: int, proposed: Doc, storeOk: bool) returns (r: Response<string>)
    requires users.Valid()
    modifies users
    ensures users.Valid() && users.nextId == old(users.nextId)
    ensures var stored := DataOf(old(users.rows), userId);
            && (stored.None? || !Truthy(stored.value) ==> r == Raise(DataNotFound) && users.rows == old(users.rows))
            && (stored.Some? && Truthy(stored.value) ==>
                  r == (if storeOk then Ok("User data updated successfully") else Raise(UpdateDataFailed)))
            && (stored.Some? && Truthy(stored.value) ==>
                  users.rows == if storeOk then SetData(old(users.rows), userId, CarryResults(stored.value, proposed))
                                else old(users.rows))
  {
    var userData := users.GetUserData(userId);
    if userData.None? || !Truthy(userData.value) {
      return Raise(DataNotFound);
    }
    var merged := CarryOver(userData.value, proposed);
    var success := users.UpdateUserData(userId, merged, storeOk);
    if success {
      return Ok("User data updated successfully");
    }
    return Raise(UpdateDataFailed);
  }

  /** `PUT /users/me/name`: 404 before any write for a missing or deleted
      user; otherwise the service's answer decides 200 or 400. */
  method UpdateMyName(users: Users, userId: int, name: string, surname: string, storeOk: bool)
    returns (r: Response<string>)
    requires users.Valid()
    modifies users
    ensures users.Valid() && users.nextId == old(users.nextId)
    ensures ActiveById(old(users.rows), userId).None? ==> r == Raise(UserNotFound) && users.rows == old(users.rows)
    ensures ActiveById(old(users.rows), userId).Some? ==>
              r == (if storeOk then Ok("User name updated successfully") else Raise(UpdateNameFailed))
    ensures ActiveById(old(users.rows), userId).Some? ==>
              users.rows == if storeOk then SetName(old(users.rows), userId, name, surname) else old(users.rows)
  {
    var user := users.GetUserById(userId);
    if user.None? {
      return Raise(UserNotFound);
    }
    var success := users.UpdateUserName(userId, name, surname, storeOk);
    if success {
      return Ok("User name updated successfully");
    }
    return Raise(UpdateNameFailed);
  }

  /** `PUT /users/me/password`: as for the name, with the new hash. */
  method UpdateMyPassword(users: Users, userId: int, passwordHash: string, storeOk: bool)
    returns (r: Response<string>)
    requires users.Valid()
    modifies users
    ensures users.Valid() && users.nextId == old(users.nextId)
    ensures ActiveById(old(users.rows), userId).None? ==> r == Raise(UserNotFound) && users.rows == old(users.rows)
    ensures ActiveById(old(users.rows), userId).Some? ==>
              r == (if storeOk then Ok("Password updated successfully") else Raise(UpdatePasswordFailed))
    ensures ActiveById(old(users.rows), userId).Some? ==>
              users.rows == if storeOk then SetPassword(old(users.rows), userId, passwordHash) else old(users.rows)
  {
    var user := users.GetUserById(userId);
    if user.None? {
      return Raise(UserNotFound);
    }
    var success := users.UpdateUserPassword(userId, passwordHash, storeOk);
    if success {
      return Ok("Password updated successfully");
    }
    return Raise(UpdatePasswordFailed);
  }

  /** `DELETE /users/me`: 404 for a missing or already deleted user; a
      service answer of `None` is a 400. */
  method DeleteMe(users: Users, userId: int, storeOk: bool) returns (r: Response<string>)
    requires users.Valid()
    modifies users
    ensures users.Valid() && users.nextId == old(users.nextId)
    ensures ActiveById(old(users.rows), userId).None? ==> r == Raise(UserNotFound) && users.rows == old(users.rows)
    ensures ActiveById(old(users.rows), userId).Some? ==>
              r == (if storeOk then Ok("User deleted successfully") else Raise(DeleteFailed))
    ensures ActiveById(old(users.rows), userId).Some? ==>
              users.rows == if storeOk then SoftDelete(old(users.rows), userId) else old(users.rows)
  {
    var user := users.GetUserById(userId);
    if user.None? {
      return Raise(UserNotFound);
    }
    var success := users.DeleteUser(userId, storeOk);
    if success.Some? && success.value {
      return Ok("User deleted successfully");
    }
    return Raise(DeleteFailed);
  }
}
