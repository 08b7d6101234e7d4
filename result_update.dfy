/** Writing one script's result into a user's document
    (`Users.update_user_result`): find the game, then the scene, then the
    script by id, committing to the first match at each level, and fail with a
    level-specific error, checking game before scene before script. */
module ResultUpdate {
  import opened Wrappers
  import opened Http
  import opened Document

  const DataNotFound := HttpError(404, "User data not found")
  const GameIdInvalid := HttpError(400, "game_id не валидный")
  const SceneIdInvalid := HttpError(400, "scene_id не валидный")
  const ScriptIdInvalid := HttpError(400, "script_id не валидный")

  // ---------------------------------------------------------------------------
  // First match by id
  // ---------------------------------------------------------------------------

  /** `k` is the first position whose id matches `key`. */
  predicate IsFirstIn(ids: seq<Id>, key: Id, k: nat) {
    k < |ids| && SameId(ids[k], key) && forall j :: 0 <= j < k ==> !SameId(ids[j], key)
  }

  /** No id matches `key`. */
  predicate NoneIn(ids: seq<Id>, key: Id) {
    forall j :: 0 <= j < |ids| ==> !SameId(ids[j], key)
  }

  /** The linear scan of one level: the first matching position, if any. */
  function IndexOf(ids: seq<Id>, key: Id): (r: Option<nat>)
    ensures r.None? <==> NoneIn(ids, key)
    ensures r.Some? ==> IsFirstIn(ids, key, r.value)
  {
    if ids == [] then None
    else if SameId(ids[0], key) then Some(0)
    else
      match IndexOf(ids[1..], key)
      case None => None
      case Some(k) => Some(k + 1)
  }

  lemma FirstIsUnique(ids: seq<Id>, key: Id, a: nat, b: nat)
    requires IsFirstIn(ids, key, a) && IsFirstIn(ids, key, b)
    ensures a == b
  {
  }

  // The ids of each level of the document, position by position.

  function GameIds(d: Doc): (ids: seq<Id>)
    ensures |ids| == |Items(d.games)|
  {
    var games := Items(d.games);
    seq(|games|, i requires 0 <= i < |games| => games[i].id)
  }

  function SceneIds(d: Doc, g: nat): (ids: seq<Id>)
    ensures |ids| == |ScenesOf(d, g)|
  {
    var scenes := ScenesOf(d, g);
    seq(|scenes|, i requires 0 <= i < |scenes| => scenes[i].id)
  }

  function ScriptIds(d: Doc, g: nat, s: nat): (ids: seq<Id>)
    ensures |ids| == |ScriptsOf(d, g, s)|
  {
    var scripts := ScriptsOf(d, g, s);
    seq(|scripts|, i requires 0 <= i < |scripts| => scripts[i].id)
  }

  // ---------------------------------------------------------------------------
  // The search-and-patch, as a function of the decoded document
  // ---------------------------------------------------------------------------

  /** Where the search ends: at the first level with no match, or at the
      script found by first matches. */
  datatype Located = NoGame | NoScene(g: nat) | NoScript(g: nat, s: nat) | Found(g: nat, s: nat, c: nat)

  /** The three nested scans. Each level commits to the first position whose
      id matches; a later sibling with the same id is never consulted. */
  function Locate(d: Doc, gameId: Id, sceneId: Id, scriptId: Id): (l: Located)
    ensures l.NoGame? <==> NoneIn(GameIds(d), gameId)
    ensures !l.NoGame? ==> IsFirstIn(GameIds(d), gameId, l.g)
    ensures l.NoScene? ==> NoneIn(SceneIds(d, l.g), sceneId)
    ensures l.NoScript? || l.Found? ==> IsFirstIn(SceneIds(d, l.g), sceneId, l.s)
    ensures l.NoScript? ==> NoneIn(ScriptIds(d, l.g, l.s), scriptId)
    ensures l.Found? ==> IsFirstIn(ScriptIds(d, l.g, l.s), scriptId, l.c) && ScriptAt(d, l.g, l.s, l.c).Some?
  {
    match IndexOf(GameIds(d), gameId)
    case None => NoGame
    case Some(g) =>
      match IndexOf(SceneIds(d, g), sceneId)
      case None => NoScene(g)
      case Some(s) =>
        match IndexOf(ScriptIds(d, g, s), scriptId)
        case None => NoScript(g, s)
        case Some(c) => Found(g, s, c)
  }

  /** Set the result of the script reached by first matches on the three ids,
      or raise the error of the first level without a match. */
  function ApplyResult(d: Doc, gameId: Id, sceneId: Id, scriptId: Id, result: Json): (r: Response<Doc>)
    ensures r.Raise? ==> r.error.status == 400
  {
    match Locate(d, gameId, sceneId, scriptId)
    case NoGame => Raise(GameIdInvalid)
    case NoScene(_) => Raise(SceneIdInvalid)
    case NoScript(_, _) => Raise(ScriptIdInvalid)
    case Found(g, s, c) => Ok(SetResult(d, g, s, c, result))
  }

  lemma ErrorsDistinct()
    ensures GameIdInvalid != SceneIdInvalid && GameIdInvalid != ScriptIdInvalid && SceneIdInvalid != ScriptIdInvalid
  {
    assert GameIdInvalid.detail[0] == 'g';
    assert SceneIdInvalid.detail[1] == 'c' && SceneIdInvalid.detail[2] == 'e';
    assert ScriptIdInvalid.detail[1] == 'c' && ScriptIdInvalid.detail[2] == 'r';
  }

  /** The error levels, in order: the game error exactly when no game id
      matches; the scene error exactly when the first matching game has no
      matching scene; the script error exactly when the first matching scene
      of that game has no matching script; otherwise success. */
  lemma ApplyResultLevels(d: Doc, gameId: Id, sceneId: Id, scriptId: Id, result: Json)
    ensures var r := ApplyResult(d, gameId, sceneId, scriptId, result);
            && (r.Ok? || r == Raise(GameIdInvalid) || r == Raise(SceneIdInvalid) || r == Raise(ScriptIdInvalid))
            && (r == Raise(GameIdInvalid) <==> NoneIn(GameIds(d), gameId))
            && (forall g :: IsFirstIn(GameIds(d), gameId, g) ==>
                  (r == Raise(SceneIdInvalid) <==> NoneIn(SceneIds(d, g), sceneId)))
            && (forall g, s :: IsFirstIn(GameIds(d), gameId, g) && IsFirstIn(SceneIds(d, g), sceneId, s) ==>
                  (r == Raise(ScriptIdInvalid) <==> NoneIn(ScriptIds(d, g, s), scriptId)))
            && (forall g, s, c ::
                  IsFirstIn(GameIds(d), gameId, g) && IsFirstIn(SceneIds(d, g), sceneId, s) &&
                  IsFirstIn(ScriptIds(d, g, s), scriptId, c) ==>
                  ScriptAt(d, g, s, c).Some? && r == Ok(SetResult(d, g, s, c, result)))
  {
    var r := ApplyResult(d, gameId, sceneId, scriptId, result);
    GameLevel(d, gameId, sceneId, scriptId, result);
    forall g | IsFirstIn(GameIds(d), gameId, g)
      ensures r == Raise(SceneIdInvalid) <==> NoneIn(SceneIds(d, g), sceneId)
    {
      SceneLevel(d, gameId, sceneId, scriptId, result, g);
    }
    forall g, s | IsFirstIn(GameIds(d), gameId, g) && IsFirstIn(SceneIds(d, g), sceneId, s)
      ensures r == Raise(ScriptIdInvalid) <==> NoneIn(ScriptIds(d, g, s), scriptId)
    {
      ScriptLevel(d, gameId, sceneId, scriptId, result, g, s);
    }
    forall g, s, c | IsFirstIn(GameIds(d), gameId, g) && IsFirstIn(SceneIds(d, g), sceneId, s) &&
                     IsFirstIn(ScriptIds(d, g, s), scriptId, c)
      ensures ScriptAt(d, g, s, c).Some? && r == Ok(SetResult(d, g, s, c, result))
    {
      ApplyFound(d, gameId, sceneId, scriptId, result, g, s, c);
    }
  }

  lemma GameLevel(d: Doc, gameId: Id, sceneId: Id, scriptId: Id, result: Json)
    ensures var r := ApplyResult(d, gameId, sceneId, scriptId, result);
            && (r.Ok? || r == Raise(GameIdInvalid) || r == Raise(SceneIdInvalid) || r == Raise(ScriptIdInvalid))
            && (r == Raise(GameIdInvalid) <==> NoneIn(GameIds(d), gameId))
  {
    ErrorsDistinct();
  }

  lemma SceneLevel(d: Doc, gameId: Id, sceneId: Id, scriptId: Id, result: Json, g: nat)
    requires IsFirstIn(GameIds(d), gameId, g)
    ensures ApplyResult(d, gameId, sceneId, scriptId, result) == Raise(SceneIdInvalid) <==> NoneIn(SceneIds(d, g), sceneId)
  {
    ErrorsDistinct();
    var l := Locate(d, gameId, sceneId, scriptId);
    FirstIsUnique(GameIds(d), gameId, g, l.g);
  }

  lemma ScriptLevel(d: Doc, gameId: Id, sceneId: Id, scriptId: Id, result: Json, g: nat, s: nat)
    requires IsFirstIn(GameIds(d), gameId, g)
    requires IsFirstIn(SceneIds(d, g), sceneId, s)
    ensures ApplyResult(d, gameId, sceneId, scriptId, result) == Raise(ScriptIdInvalid) <==> NoneIn(ScriptIds(d, g, s), scriptId)
  {
    ErrorsDistinct();
    var l := Locate(d, gameId, sceneId, scriptId);
    FirstIsUnique(GameIds(d), gameId, g, l.g);
    FirstIsUnique(SceneIds(d, g), sceneId, s, l.s);
  }

  /** The whole service call before the write: a missing or empty stored
      document is reported before any search. */
  function RecordResult(stored: Option<Doc>, gameId: Id, sceneId: Id, scriptId: Id, result: Json): (r: Response<Doc>)
    ensures stored.None? || !Truthy(stored.value) <==> r == Raise(DataNotFound)
    ensures stored.Some? && Truthy(stored.value) ==> r == ApplyResult(stored.value, gameId, sceneId, scriptId, result)
  {
    if stored.None? || !Truthy(stored.value) then Raise(DataNotFound)
    else ApplyResult(stored.value, gameId, sceneId, scriptId, result)
  }

  /** A successful update sets the target's result and leaves every other
      result, every id and every other field of the document as it was. */
  lemma ApplyResultChangesOnlyTarget(d: Doc, gameId: Id, sceneId: Id, scriptId: Id, result: Json,
                                     g: nat, s: nat, c: nat)
    requires IsFirstIn(GameIds(d), gameId, g)
    requires IsFirstIn(SceneIds(d, g), sceneId, s)
    requires IsFirstIn(ScriptIds(d, g, s), scriptId, c)
    ensures ApplyResult(d, gameId, sceneId, scriptId, result).Ok?
    ensures var d' := ApplyResult(d, gameId, sceneId, scriptId, result).body;
            && Erase(d') == Erase(d)
            && ResultAt(d', g, s, c) == Some(result)
            && forall g': nat, s': nat, c': nat :: (g', s', c') != (g, s, c) ==>
                 ResultAt(d', g', s', c') == ResultAt(d, g', s', c')
  {
    ApplyResultLevels(d, gameId, sceneId, scriptId, result);
    SetResultOnlyTouchesTarget(d, g, s, c, result);
  }

  /** Committing to the first match: when two games share an id and only the
      second holds the requested scene, the call still fails at scene level. */
  lemma FirstMatchCommits(sc: Scene)
    requires sc.id == StrId("s1")
    ensures var d := Doc(Some([Game(StrId("g1"), None, map[]), Game(StrId("g1"), Some([sc]), map[])]), map[]);
            ApplyResult(d, StrId("g1"), StrId("s1"), StrId("c1"), JNull) == Raise(SceneIdInvalid)
  {
    var d := Doc(Some([Game(StrId("g1"), None, map[]), Game(StrId("g1"), Some([sc]), map[])]), map[]);
    assert IsFirstIn(GameIds(d), StrId("g1"), 0);
    assert SceneIds(d, 0) == [];
  }

  /** A seeded document with game "g1", scene "s1" and script "sc1": writing
      {"score": 10} there makes that the script's result. */
  lemma SeededResultIsRecorded(sc: Script)
    requires sc.id == StrId("sc1")
    ensures var d := Doc(Some([Game(StrId("g1"), Some([Scene(StrId("s1"), Some([sc]), map[])]), map[])]), map[]);
            var score := JObj(map["score" := JInt(10)]);
            var r := RecordResult(Some(d), StrId("g1"), StrId("s1"), StrId("sc1"), score);
            r.Ok? && ResultAt(r.body, 0, 0, 0) == Some(score)
  {
    var d := Doc(Some([Game(StrId("g1"), Some([Scene(StrId("s1"), Some([sc]), map[])]), map[])]), map[]);
    var score := JObj(map["score" := JInt(10)]);
    assert IsFirstIn(GameIds(d), StrId("g1"), 0);
    assert IsFirstIn(SceneIds(d, 0), StrId("s1"), 0);
    assert IsFirstIn(ScriptIds(d, 0, 0), StrId("sc1"), 0);
    ApplyResultChangesOnlyTarget(d, StrId("g1"), StrId("s1"), StrId("sc1"), score, 0, 0, 0);
  }

  // Where the search ends, given the first match (or none) at each level.

  lemma LocateFound(d: Doc, gameId: Id, sceneId: Id, scriptId: Id, g: nat, s: nat, c: nat)
    requires IsFirstIn(GameIds(d), gameId, g)
    requires IsFirstIn(SceneIds(d, g), sceneId, s)
    requires IsFirstIn(ScriptIds(d, g, s), scriptId, c)
    ensures Locate(d, gameId, sceneId, scriptId) == Found(g, s, c)
  {
    var l := Locate(d, gameId, sceneId, scriptId);
    FirstIsUnique(GameIds(d), gameId, g, l.g);
    FirstIsUnique(SceneIds(d, g), sceneId, s, l.s);
    FirstIsUnique(ScriptIds(d, g, s), scriptId, c, l.c);
  }

  lemma LocateNoScript(d: Doc, gameId: Id, sceneId: Id, scriptId: Id, g: nat, s: nat)
    requires IsFirstIn(GameIds(d), gameId, g)
    requires IsFirstIn(SceneIds(d, g), sceneId, s)
    requires NoneIn(ScriptIds(d, g, s), scriptId)
    ensures Locate(d, gameId, sceneId, scriptId) == NoScript(g, s)
  {
    var l := Locate(d, gameId, sceneId, scriptId);
    FirstIsUnique(GameIds(d), gameId, g, l.g);
    FirstIsUnique(SceneIds(d, g), sceneId, s, l.s);
  }

  lemma LocateNoScene(d: Doc, gameId: Id, sceneId: Id, scriptId: Id, g: nat)
    requires IsFirstIn(GameIds(d), gameId, g)
    requires NoneIn(SceneIds(d, g), sceneId)
    ensures Locate(d, gameId, sceneId, scriptId) == NoScene(g)
  {
    var l := Locate(d, gameId, sceneId, scriptId);
    FirstIsUnique(GameIds(d), gameId, g, l.g);
  }

  // The same three facts, as the response of the whole search.

  lemma ApplyFound(d: Doc, gameId: Id, sceneId: Id, scriptId: Id, result: Json, g: nat, s: nat, c: nat)
    requires IsFirstIn(GameIds(d), gameId, g)
    requires IsFirstIn(SceneIds(d, g), sceneId, s)
    requires IsFirstIn(ScriptIds(d, g, s), scriptId, c)
    ensures ScriptAt(d, g, s, c).Some?
    ensures ApplyResult(d, gameId, sceneId, scriptId, result) == Ok(SetResult(d, g, s, c, result))
  {
    LocateFound(d, gameId, sceneId, scriptId, g, s, c);
  }

  lemma ApplyNoScript(d: Doc, gameId: Id, sceneId: Id, scriptId: Id, result: Json, g: nat, s: nat)
    requires IsFirstIn(GameIds(d), gameId, g)
    requires IsFirstIn(SceneIds(d, g), sceneId, s)
    requires NoneIn(ScriptIds(d, g, s), scriptId)
    ensures ApplyResult(d, gameId, sceneId, scriptId, result) == Raise(ScriptIdInvalid)
  {
    LocateNoScript(d, gameId, sceneId, scriptId, g, s);
  }

  lemma ApplyNoScene(d: Doc, gameId: Id, sceneId: Id, scriptId: Id, result: Json, g: nat)
    requires IsFirstIn(GameIds(d), gameId, g)
    requires NoneIn(SceneIds(d, g), sceneId)
    ensures ApplyResult(d, gameId, sceneId, scriptId, result) == Raise(SceneIdInvalid)
  {
    LocateNoScene(d, gameId, sceneId, scriptId, g);
  }

  // ---------------------------------------------------------------------------
  // The nested loops of the source
  // ---------------------------------------------------------------------------

  /** The outer scan of the source's three nested loops, with its
      `found_game` flag and `break`: the first game whose id matches is
      searched by `PatchInGame`, and no later game is looked at. */
  method FindAndPatch(doc: Doc, gameId: Id, sceneId: Id, scriptId: Id, result: Json) returns (r: Response<Doc>)
    ensures r == ApplyResult(doc, gameId, sceneId, scriptId, result)
  {
    var gameKey := IdText(gameId);  // `str(game_id)`
    var games := Items(doc.games);
    var foundGame := false;
    var gameIndex := 0;
    while gameIndex < |games|
      invariant 0 <= gameIndex <= |games|
      invariant !foundGame
      invariant forall j :: 0 <= j < gameIndex ==> IdText(games[j].id) != gameKey
    {
      if IdText(games[gameIndex].id) == gameKey {
        foundGame := true;
        r := PatchInGame(doc, gameId, gameIndex, sceneId, scriptId, result);
        break;
      }
      gameIndex := gameIndex + 1;
    }
    if !foundGame {
      assert NoneIn(GameIds(doc), gameId);
      r := Raise(GameIdInvalid);
    }
  }

  /** The middle loop, over the scenes of the first matching game, with its
      `found_scene` flag. */
  method PatchInGame(doc: Doc, gameId: Id, g: nat, sceneId: Id, scriptId: Id, result: Json) returns (r: Response<Doc>)
    requires IsFirstIn(GameIds(doc), gameId, g)
    ensures r == ApplyResult(doc, gameId, sceneId, scriptId, result)
  {
    var sceneKey := IdText(sceneId);  // `str(scene_id)`
    var scenes := ScenesOf(doc, g);
    var foundScene := false;
    var sceneIndex := 0;
    while sceneIndex < |scenes|
      invariant 0 <= sceneIndex <= |scenes|
      invariant !foundScene
      invariant forall j :: 0 <= j < sceneIndex ==> IdText(scenes[j].id) != sceneKey
    {
      if IdText(scenes[sceneIndex].id) == sceneKey {
        foundScene := true;
        r := PatchInScene(doc, gameId, g, sceneId, sceneIndex, scriptId, result);
        break;
      }
      sceneIndex := sceneIndex + 1;
    }
    if !foundScene {
      assert NoneIn(SceneIds(doc, g), sceneId);
      ApplyNoScene(doc, gameId, sceneId, scriptId, result, g);
      r := Raise(SceneIdInvalid);
    }
  }

  /** The inner loop, over the scripts of the first matching scene, with its
      `found_script` flag: the first matching script gets the result. */
  method PatchInScene(doc: Doc, gameId: Id, g: nat, sceneId: Id, s: nat, scriptId: Id, result: Json)
    returns (r: Response<Doc>)
    requires IsFirstIn(GameIds(doc), gameId, g)
    requires IsFirstIn(SceneIds(doc, g), sceneId, s)
    ensures r == ApplyResult(doc, gameId, sceneId, scriptId, result)
  {
    var scriptKey := IdText(scriptId);  // `str(script_id)`
    var scripts := ScriptsOf(doc, g, s);
    var userData := doc;
    var foundScript := false;
    var scriptIndex := 0;
    while scriptIndex < |scripts|
      invariant 0 <= scriptIndex <= |scripts|
      invariant !foundScript && userData == doc
      invariant forall j :: 0 <= j < scriptIndex ==> IdText(scripts[j].id) != scriptKey
    {
      if IdText(scripts[scriptIndex].id) == scriptKey {
        assert IsFirstIn(ScriptIds(doc, g, s), scriptId, scriptIndex);
        ApplyFound(doc, gameId, sceneId, scriptId, result, g, s, scriptIndex);
        userData := SetResult(userData, g, s, scriptIndex, result);
        foundScript := true;
        break;
      }
      scriptIndex := scriptIndex + 1;
    }
    if !foundScript {
      assert NoneIn(ScriptIds(doc, g, s), scriptId);
      ApplyNoScript(doc, gameId, sceneId, scriptId, result, g, s);
      return Raise(ScriptIdInvalid);
    }
    return Ok(userData);
  }
}
