/** The per-user document stored in the `data` column of `users_data`:
    games, each with scenes, each with scripts. Every level keeps the keys the
    model does not interpret in an `extra` map, and a list that is missing from
    its dictionary is `None` (the source reads it with `.get(key, [])`). */
module Document {
  import opened Wrappers

  /** A decoded JSON value (floating-point numbers are not modelled). */
  datatype Json =
    | JNull
    | JBool(b: bool)
    | JInt(i: int)
    | JStr(s: string)
    | JArr(items: seq<Json>)
    | JObj(fields: map<string, Json>)

  /** The value under an `id` key: an integer, a string, or nothing (a
      missing key or JSON null, which Python's `str` both renders "None"). */
  datatype Id = IntId(n: int) | StrId(s: string) | NoId

  /** A script; `result` is `None` when the dictionary has no "result" key.
      The keys held in fields of their own ("id", "result", and "scripts",
      "scenes", "games" one level up) are not also in `extra`: see
      `WellFormed`. */
  datatype Script = Script(id: Id, result: Option<Json>, extra: map<string, Json>)

  datatype Scene = Scene(id: Id, scripts: Option<seq<Script>>, extra: map<string, Json>)

  datatype Game = Game(id: Id, scenes: Option<seq<Scene>>, extra: map<string, Json>)

  /** The whole document; `extra` holds the selection ids, the token and the
      profile block. */
  datatype Doc = Doc(games: Option<seq<Game>>, extra: map<string, Json>)

  /** A list read with `.get(key, [])`. */
  function Items<T>(o: Option<seq<T>>): seq<T> {
    if o.Some? then o.value else []
  }

  /** Python truthiness of the document dictionary: only `{}` is falsy. */
  predicate Truthy(d: Doc) {
    d.games.Some? || d.extra != map[]
  }

  // ---------------------------------------------------------------------------
  // Id comparison: the source compares `str(a) == str(b)`.
  // ---------------------------------------------------------------------------

  function DigitChar(d: nat): (c: char)
    requires d < 10
    ensures '0' <= c <= '9'
  {
    (48 + d) as char
  }

  /** Decimal rendering of a natural number, most significant digit first. */
  function NatText(n: nat): (s: string)
    ensures |s| >= 1
    decreases n
  {
    if n < 10 then [DigitChar(n)] else NatText(n / 10) + [DigitChar(n % 10)]
  }

  /** The rendering is made of digits only, and has one digit exactly for
      the numbers below ten. */
  lemma {:induction false} NatTextDigits(n: nat)
    ensures forall i :: 0 <= i < |NatText(n)| ==> '0' <= NatText(n)[i] <= '9'
    ensures n < 10 <==> |NatText(n)| == 1
    decreases n
  {
    if n >= 10 {
      NatTextDigits(n / 10);
    }
  }

  /** `str(id)` in Python. */
  function IdText(id: Id): string {
    match id
    case IntId(n) => if n < 0 then "-" + NatText(-n) else NatText(n)
    case StrId(s) => s
    case NoId => "None"
  }

  /** Two ids match when their string forms are equal. */
  predicate SameId(a: Id, b: Id) {
    IdText(a) == IdText(b)
  }

  lemma {:induction false} NatTextInjective(a: nat, b: nat)
    requires NatText(a) == NatText(b)
    ensures a == b
    decreases a
  {
    var s := NatText(a);
    NatTextDigits(a);
    NatTextDigits(b);
    if a < 10 || b < 10 {
      assert |s| == 1;
      assert s[0] == DigitChar(a) && s[0] == DigitChar(b);
    } else {
      assert NatText(a) == NatText(a / 10) + [DigitChar(a % 10)];
      assert NatText(b) == NatText(b / 10) + [DigitChar(b % 10)];
      assert s[|s| - 1] == DigitChar(a % 10) == DigitChar(b % 10);
      assert NatText(a / 10) == s[..|s| - 1] == NatText(b / 10);
      NatTextInjective(a / 10, b / 10);
    }
  }

  /** Distinct integer ids never match each other, and an integer id matches
      a string id exactly when the string is its decimal form. */
  lemma IntIdMatching(a: int, b: int, s: string)
    ensures SameId(IntId(a), IntId(b)) <==> a == b
    ensures SameId(IntId(a), StrId(s)) <==> s == IdText(IntId(a))
  {
    var ta, tb := IdText(IntId(a)), IdText(IntId(b));
    NatTextDigits(if a < 0 then -a else a);
    NatTextDigits(if b < 0 then -b else b);
    if a < 0 && b < 0 {
      if ta == tb {
        assert ta[1..] == NatText(-a) && tb[1..] == NatText(-b);
        NatTextInjective(-a, -b);
      }
    } else if a >= 0 && b >= 0 {
      if ta == tb {
        NatTextInjective(a, b);
      }
    } else {
      // exactly one of the two renderings starts with a minus sign
      assert ta[0] != tb[0];
    }
  }

  /** The integer id 7 and the string id "7" match; a missing id matches the
      string "None". */
  lemma MatchingExamples()
    ensures SameId(IntId(7), StrId("7"))
    ensures SameId(IntId(-12), StrId("-12"))
    ensures SameId(NoId, StrId("None"))
    ensures !SameId(IntId(7), StrId("07"))
  {
    assert NatText(7) == "7";
    assert NatText(12) == NatText(1) + [DigitChar(2)] == "12";
  }

  // ---------------------------------------------------------------------------
  // Positional access: `doc["games"][g]["scenes"][s]["scripts"][c]`, where a
  // missing key or an index out of range gives `None`.
  // ---------------------------------------------------------------------------

  function ScriptAt(d: Doc, g: nat, s: nat, c: nat): Option<Script> {
    var games := Items(d.games);
    if g < |games| then
      var scenes := Items(games[g].scenes);
      if s < |scenes| then
        var scripts := Items(scenes[s].scripts);
        if c < |scripts| then Some(scripts[c]) else None
      else None
    else None
  }

  /** The scenes of game `g` and the scripts of scene `s` of it, empty when
      an index is out of range or a list is missing. */
  function ScenesOf(d: Doc, g: nat): seq<Scene> {
    var games := Items(d.games);
    if g < |games| then Items(games[g].scenes) else []
  }

  function ScriptsOf(d: Doc, g: nat, s: nat): seq<Script> {
    var scenes := ScenesOf(d, g);
    if s < |scenes| then Items(scenes[s].scripts) else []
  }

  /** `doc["games"][g]["scenes"][s]["scripts"][c]["result"]`, or `None` when
      any step of that lookup raises. */
  function ResultAt(d: Doc, g: nat, s: nat, c: nat): Option<Json> {
    match ScriptAt(d, g, s, c)
    case None => None
    case Some(sc) => sc.result
  }

  /** Overwrite the result of the script at one position, leaving the rest of
      the tree as it was. */
  function SetResult(d: Doc, g: nat, s: nat, c: nat, r: Json): Doc
    requires ScriptAt(d, g, s, c).Some?
  {
    var games := d.games.value;
    var scenes := games[g].scenes.value;
    var scripts := scenes[s].scripts.value;
    var script' := scripts[c].(result := Some(r));
    var scene' := scenes[s].(scripts := Some(scripts[c := script']));
    var game' := games[g].(scenes := Some(scenes[s := scene']));
    d.(games := Some(games[g := game']))
  }

  // ---------------------------------------------------------------------------
  // Erasure of results: two documents with equal erasures differ at most in
  // their scripts' `result` fields.
  // ---------------------------------------------------------------------------

  function EraseScript(sc: Script): Script {
    sc.(result := None)
  }

  function EraseScene(sn: Scene): Scene {
    match sn.scripts
    case None => sn
    case Some(xs) => sn.(scripts := Some(seq(|xs|, i requires 0 <= i < |xs| => EraseScript(xs[i]))))
  }

  function EraseGame(gm: Game): Game {
    match gm.scenes
    case None => gm
    case Some(xs) => gm.(scenes := Some(seq(|xs|, i requires 0 <= i < |xs| => EraseScene(xs[i]))))
  }

  function Erase(d: Doc): Doc {
    match d.games
    case None => d
    case Some(xs) => d.(games := Some(seq(|xs|, i requires 0 <= i < |xs| => EraseGame(xs[i]))))
  }

  // ---------------------------------------------------------------------------
  // Well-formedness: a key the model holds in a field of its own never also
  // appears in an `extra` map, since a Python dictionary has each key once.
  // ---------------------------------------------------------------------------

  predicate ScriptWellFormed(sc: Script) {
    "id" !in sc.extra && "result" !in sc.extra
  }

  predicate SceneWellFormed(sn: Scene) {
    && "id" !in sn.extra && "scripts" !in sn.extra
    && forall i :: 0 <= i < |Items(sn.scripts)| ==> ScriptWellFormed(Items(sn.scripts)[i])
  }

  predicate GameWellFormed(gm: Game) {
    && "id" !in gm.extra && "scenes" !in gm.extra
    && forall i :: 0 <= i < |Items(gm.scenes)| ==> SceneWellFormed(Items(gm.scenes)[i])
  }

  /** The document has a counterpart as a Python dictionary. */
  predicate WellFormed(d: Doc) {
    && "games" !in d.extra
    && forall i :: 0 <= i < |Items(d.games)| ==> GameWellFormed(Items(d.games)[i])
  }

  /** Well-formedness does not depend on the results. */
  lemma WellFormedIgnoresResults(d: Doc)
    ensures WellFormed(Erase(d)) <==> WellFormed(d)
  {
    if d.games.Some? {
      var xs := d.games.value;
      var ys := Erase(d).games.value;
      assert Items(Erase(d).games) == ys && Items(d.games) == xs;
      assert Erase(d).extra == d.extra;
      assert |ys| == |xs|;
      forall g | 0 <= g < |xs| ensures GameWellFormed(ys[g]) <==> GameWellFormed(xs[g]) {
        assert ys[g] == EraseGame(xs[g]);
        GameErasureWellFormed(xs[g]);
      }
    }
  }

  lemma GameErasureWellFormed(gm: Game)
    ensures GameWellFormed(EraseGame(gm)) <==> GameWellFormed(gm)
  {
    if gm.scenes.Some? {
      var xs := gm.scenes.value;
      var ys := EraseGame(gm).scenes.value;
      assert Items(EraseGame(gm).scenes) == ys && Items(gm.scenes) == xs;
      assert EraseGame(gm).extra == gm.extra;
      assert |ys| == |xs|;
      forall s | 0 <= s < |xs| ensures SceneWellFormed(ys[s]) <==> SceneWellFormed(xs[s]) {
        assert ys[s] == EraseScene(xs[s]);
        SceneErasureWellFormed(xs[s]);
      }
    }
  }

  lemma SceneErasureWellFormed(sn: Scene)
    ensures SceneWellFormed(EraseScene(sn)) <==> SceneWellFormed(sn)
  {
    if sn.scripts.Some? {
      var xs := sn.scripts.value;
      var ys := EraseScene(sn).scripts.value;
      assert Items(EraseScene(sn).scripts) == ys && Items(sn.scripts) == xs;
      assert EraseScene(sn).extra == sn.extra;
      assert |ys| == |xs|;
      forall c | 0 <= c < |xs| ensures ScriptWellFormed(ys[c]) <==> ScriptWellFormed(xs[c]) {
        assert ys[c] == EraseScript(xs[c]);
      }
    }
  }

  /** Documents with the same erasure have the same shape: a script exists at
      a position in one exactly when it exists there in the other, with the
      same id and the same other fields. */
  lemma EraseKeepsShape(a: Doc, b: Doc, g: nat, s: nat, c: nat)
    requires Erase(a) == Erase(b)
    ensures ScriptAt(a, g, s, c).Some? <==> ScriptAt(b, g, s, c).Some?
    ensures ScriptAt(a, g, s, c).Some? ==>
              EraseScript(ScriptAt(a, g, s, c).value) == EraseScript(ScriptAt(b, g, s, c).value)
  {
    assert a.games.Some? <==> b.games.Some?;
    if g < |Items(a.games)| {
      var ga, gb := a.games.value[g], b.games.value[g];
      assert Erase(a).games.value[g] == EraseGame(ga);
      assert Erase(b).games.value[g] == EraseGame(gb);
      assert ga.scenes.Some? <==> gb.scenes.Some?;
      if s < |Items(ga.scenes)| {
        var sa, sb := ga.scenes.value[s], gb.scenes.value[s];
        assert EraseGame(ga).scenes.value[s] == EraseScene(sa);
        assert EraseGame(gb).scenes.value[s] == EraseScene(sb);
        assert sa.scripts.Some? <==> sb.scripts.Some?;
        if c < |Items(sa.scripts)| {
          assert EraseScene(sa).scripts.value[c] == EraseScript(sa.scripts.value[c]);
          assert EraseScene(sb).scripts.value[c] == EraseScript(sb.scripts.value[c]);
        }
      }
    }
  }

  /** SetResult changes the result at its target, and nothing else: every
      other position keeps its result and the erasure is unchanged. */
  /** Writing a result keeps the document well-formed. */
  lemma SetResultKeepsWellFormed(d: Doc, g: nat, s: nat, c: nat, r: Json)
    requires ScriptAt(d, g, s, c).Some?
    ensures WellFormed(SetResult(d, g, s, c, r)) <==> WellFormed(d)
  {
    SetResultOnlyTouchesTarget(d, g, s, c, r);
    WellFormedIgnoresResults(d);
    WellFormedIgnoresResults(SetResult(d, g, s, c, r));
  }

  lemma SetResultOnlyTouchesTarget(d: Doc, g: nat, s: nat, c: nat, r: Json)
    requires ScriptAt(d, g, s, c).Some?
    ensures Erase(SetResult(d, g, s, c, r)) == Erase(d)
    ensures ResultAt(SetResult(d, g, s, c, r), g, s, c) == Some(r)
    ensures forall g': nat, s': nat, c': nat :: (g', s', c') != (g, s, c) ==>
              ResultAt(SetResult(d, g, s, c, r), g', s', c') == ResultAt(d, g', s', c')
  {
    var d' := SetResult(d, g, s, c, r);
    var games := d.games.value;
    var scenes := games[g].scenes.value;
    var scripts := scenes[s].scripts.value;
    var games' := d'.games.value;
    var scenes' := games'[g].scenes.value;
    var scripts' := scenes'[s].scripts.value;
    assert scenes'[s] == scenes[s].(scripts := Some(scripts'));
    assert games'[g] == games[g].(scenes := Some(scenes'));
    var es := seq(|scripts|, i requires 0 <= i < |scripts| => EraseScript(scripts[i]));
    var es' := seq(|scripts'|, i requires 0 <= i < |scripts'| => EraseScript(scripts'[i]));
    assert es == es';
    assert EraseScene(scenes'[s]) == EraseScene(scenes[s]);
    var en := seq(|scenes|, i requires 0 <= i < |scenes| => EraseScene(scenes[i]));
    var en' := seq(|scenes'|, i requires 0 <= i < |scenes'| => EraseScene(scenes'[i]));
    assert en == en';
    assert EraseGame(games'[g]) == EraseGame(games[g]);
    var eg := seq(|games|, i requires 0 <= i < |games| => EraseGame(games[i]));
    var eg' := seq(|games'|, i requires 0 <= i < |games'| => EraseGame(games'[i]));
    assert eg == eg';
    assert d' == d.(games := Some(games'));
    forall g': nat, s': nat, c': nat | (g', s', c') != (g, s, c)
      ensures ResultAt(d', g', s', c') == ResultAt(d, g', s', c')
    {
      if g' == g && s' == s {
        assert c' != c;
      } else if g' == g {
        assert s' < |scenes| ==> scenes'[s'] == scenes[s'];
      } else {
        assert g' < |games| ==> games'[g'] == games[g'];
      }
    }
  }
}
