/** `custom_openapi` (src/app.py): post-processing of the generated OpenAPI
    schema, memoised in the application's `openapi_schema` field. The
    generator's output is an input value; JSON fields the processing does not
    touch are kept in `rest` maps. */
module OpenApi {
  import opened Wrappers
  import opened Document

  /** An operation object, e.g. the value under "get" for one path. */
  type Operation = map<string, Json>
  /** A path item: method name to operation. */
  type PathItem = map<string, Operation>
  type Paths = map<string, PathItem>

  /** The generated schema: `components` is `None` when the generator left
      that key out. */
  datatype Schema = Schema(components: Option<map<string, Json>>, paths: Paths, rest: map<string, Json>)

  const ProtectedPrefixes: seq<string> := ["/api/generate", "/api/users", "/api/get"]
  const SecuredMethods: seq<string> := ["get", "post", "put", "delete"]

  /** `[{"bearerAuth": []}]` */
  const BearerRequirement: Json := JArr([JObj(map["bearerAuth" := JArr([])])])

  /** The one entry installed under `components.securitySchemes`. */
  const BearerScheme: Json := JObj(map["bearerAuth" := JObj(map[
    "type" := JStr("http"),
    "scheme" := JStr("bearer"),
    "bearerFormat" := JStr("JWT"),
    "description" := JStr("Введите ваш JWT токен")])])

  predicate StartsWith(s: string, prefix: string) {
    |prefix| <= |s| && s[..|prefix|] == prefix
  }

  predicate IsProtectedPath(path: string) {
    exists i :: 0 <= i < |ProtectedPrefixes| && StartsWith(path, ProtectedPrefixes[i])
  }

  /** The protected prefixes, as the source spells them out. */
  lemma ProtectedPathCases(path: string)
    ensures IsProtectedPath(path) <==>
            StartsWith(path, "/api/generate") || StartsWith(path, "/api/users") || StartsWith(path, "/api/get")
  {
    if StartsWith(path, "/api/generate") { assert StartsWith(path, ProtectedPrefixes[0]); }
    if StartsWith(path, "/api/users") { assert StartsWith(path, ProtectedPrefixes[1]); }
    if StartsWith(path, "/api/get") { assert StartsWith(path, ProtectedPrefixes[2]); }
  }

  // ---------------------------------------------------------------------------
  // The processing as values
  // ---------------------------------------------------------------------------

  function SecureOperations(item: PathItem): PathItem {
    map m | m in item :: if m in SecuredMethods then item[m]["security" := BearerRequirement] else item[m]
  }

  function SecureItem(path: string, item: PathItem): PathItem {
    if IsProtectedPath(path) then SecureOperations(item) else item
  }

  function SecurePaths(paths: Paths): Paths {
    map p | p in paths :: SecureItem(p, paths[p])
  }

  /** The schema `custom_openapi` builds from a generated one, or `None` when
      the generated schema has no "components" (the source raises). */
  function Secured(generated: Schema): Option<Schema> {
    match generated.components
    case None => None
    case Some(c) => Some(Schema(Some(c["securitySchemes" := BearerScheme]), SecurePaths(generated.paths), generated.rest))
  }

  /** Processing fails exactly when the generated schema has no
      "components"; otherwise `securitySchemes` becomes the one bearer entry,
      every other component and every field outside the paths is kept, and the
      paths are secured. */
  lemma SecuredMeaning(generated: Schema)
    ensures Secured(generated).None? <==> generated.components.None?
    ensures Secured(generated).Some? ==>
              var out := Secured(generated).value;
              && out.components.Some?
              && "securitySchemes" in out.components.value
              && out.components.value["securitySchemes"] == BearerScheme
              && BearerScheme.fields.Keys == {"bearerAuth"}
              && (forall k :: k in generated.components.value && k != "securitySchemes" ==>
                    k in out.components.value && out.components.value[k] == generated.components.value[k])
              && out.components.value.Keys == generated.components.value.Keys + {"securitySchemes"}
              && out.paths == SecurePaths(generated.paths)
              && out.rest == generated.rest
  {
  }

  /** Exactly the four verbs of protected paths carry the bearer requirement
      afterwards; every other operation, and every other path, is as
      generated; no path or method is added or removed. */
  lemma SecurePathsMeaning(paths: Paths)
    ensures SecurePaths(paths).Keys == paths.Keys
    ensures forall p :: p in paths ==> SecurePaths(paths)[p].Keys == paths[p].Keys
    ensures forall p, m :: p in paths && m in paths[p] && IsProtectedPath(p) && m in SecuredMethods ==>
              SecurePaths(paths)[p][m] == paths[p][m]["security" := BearerRequirement]
    ensures forall p, m :: p in paths && m in paths[p] && !(IsProtectedPath(p) && m in SecuredMethods) ==>
              SecurePaths(paths)[p][m] == paths[p][m]
  {
  }

  /** Securing twice is securing once. */
  lemma SecurePathsIdempotent(paths: Paths)
    ensures SecurePaths(SecurePaths(paths)) == SecurePaths(paths)
  {
    var once := SecurePaths(paths);
    forall p | p in once ensures SecureItem(p, once[p]) == once[p] {
      if IsProtectedPath(p) {
        var item := paths[p];
        var twice := SecureOperations(SecureOperations(item));
        forall m | m in item ensures twice[m] == SecureOperations(item)[m] {
          if m in SecuredMethods {
            var op := item[m];
            assert op["security" := BearerRequirement]["security" := BearerRequirement] == op["security" := BearerRequirement];
          }
        }
        assert twice == SecureOperations(item);
      }
    }
  }

  /** The processing changes nothing exactly when every verb operation of a
      protected path already carries the requirement. */
  lemma SecurePathsFixpoint(paths: Paths)
    ensures SecurePaths(paths) == paths <==>
            forall p, m :: p in paths && m in paths[p] && IsProtectedPath(p) && m in SecuredMethods ==>
              "security" in paths[p][m] && paths[p][m]["security"] == BearerRequirement
  {
    if SecurePaths(paths) == paths {
      forall p, m | p in paths && m in paths[p] && IsProtectedPath(p) && m in SecuredMethods
        ensures "security" in paths[p][m] && paths[p][m]["security"] == BearerRequirement
      {
        assert SecurePaths(paths)[p][m] == paths[p][m]["security" := BearerRequirement];
      }
    } else {
      var p :| p in paths && SecureItem(p, paths[p]) != paths[p];
      assert IsProtectedPath(p);
      var m :| m in paths[p] && SecureOperations(paths[p])[m] != paths[p][m];
      assert m in SecuredMethods;
      assert paths[p][m]["security" := BearerRequirement] != paths[p][m];
    }
  }

  /** The prefix test has no segment boundary: "/api/getter" is protected,
      "/api/register" and "/api/healthz" are not. */
  lemma PrefixExamples()
    ensures IsProtectedPath("/api/users/me")
    ensures IsProtectedPath("/api/generate")
    ensures IsProtectedPath("/api/getter")
    ensures !IsProtectedPath("/api/register")
    ensures !IsProtectedPath("/api/healthz")
  {
    assert StartsWith("/api/users/me", ProtectedPrefixes[1]);
    assert StartsWith("/api/generate", ProtectedPrefixes[0]);
    assert StartsWith("/api/getter", ProtectedPrefixes[2]);
    assert "/api/register"[5] == 'r' && "/api/healthz"[5] == 'h';
  }

  // ---------------------------------------------------------------------------
  // The loops of the source, and the cached schema
  // ---------------------------------------------------------------------------

  /** The inner loop: every verb entry of one path item gets `security`. */
  method SecureMethodsOf(item: PathItem) returns (out: PathItem)
    ensures out == SecureOperations(item)
  {
    out := item;
    var todo := item.Keys;
    while todo != {}
      invariant todo <= item.Keys && out.Keys == item.Keys
      invariant forall m :: m in item && m !in todo ==> out[m] == SecureOperations(item)[m]
      invariant forall m :: m in todo ==> out[m] == item[m]
      decreases |todo|
    {
      var m :| m in todo;
      if m in SecuredMethods {
        out := out[m := out[m]["security" := BearerRequirement]];
      }
      todo := todo - {m};
    }
    assert out == SecureOperations(item);
  }

  /** The outer loop over the paths. */
  method SecureAllPaths(paths: Paths) returns (out: Paths)
    ensures out == SecurePaths(paths)
  {
    out := paths;
    var todo := paths.Keys;
    while todo != {}
      invariant todo <= paths.Keys && out.Keys == paths.Keys
      invariant forall p :: p in paths && p !in todo ==> out[p] == SecureItem(p, paths[p])
      invariant forall p :: p in todo ==> out[p] == paths[p]
      decreases |todo|
    {
      var p :| p in todo;
      ProtectedPathCases(p);
      if StartsWith(p, "/api/generate") || StartsWith(p, "/api/users") || StartsWith(p, "/api/get") {
        var item := SecureMethodsOf(out[p]);
        out := out[p := item];
      }
      todo := todo - {p};
    }
    assert out == SecurePaths(paths);
  }

  class App {
    /** `app.openapi_schema`: the cached schema, `None` until built. */
    var openapiSchema: Option<Schema>

    constructor()
      ensures openapiSchema.None?
    {
      openapiSchema := None;
    }

    /** `custom_openapi`, with `generated` standing for what `get_openapi`
        returns. A cached schema is returned as it is, without regenerating;
        otherwise the processed schema is cached and returned. `None` means
        the call raised because the generated schema has no "components";
        then nothing is cached. */
    method CustomOpenapi(generated: Schema) returns (r: Option<Schema>)
      modifies this
      ensures old(openapiSchema).Some? ==> r == old(openapiSchema) && openapiSchema == old(openapiSchema)
      ensures old(openapiSchema).None? ==> r == Secured(generated) && openapiSchema == r
    {
      if openapiSchema.Some? {
        return openapiSchema;
      }
      if generated.components.None? {
        return None;
      }
      var components := generated.components.value["securitySchemes" := BearerScheme];
      var paths := SecureAllPaths(generated.paths);
      openapiSchema := Some(Schema(Some(components), paths, generated.rest));
      return openapiSchema;
    }
  }
}
