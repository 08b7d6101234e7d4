/** The decision logic of the auth routes (src/auth/api/auth_endpoint.py):
    how `register` turns the service's error string into a status, and how
    `protected` reads a bearer token from the `Authorization` header.
    Token decoding is a parameter: it yields the payload or fails. */
module AuthEndpoint {
  import opened Wrappers
  import opened Http

  // ---------------------------------------------------------------------------
  // register
  // ---------------------------------------------------------------------------

  datatype RegisterRequest = RegisterRequest(mail: string, name: string, surname: string, password: string)

  /** The response model: no password field. */
  datatype UserResponse = UserResponse(id: int, mail: string, name: string, surname: string)

  const UserExists := "User already exists"
  const CreateFailed := "Failed to create user"

  /** `register`, given what the service returned: its id and its error
      (`None` for no error). */
  function Register(user: RegisterRequest, userId: int, error: Option<string>): (r: Response<UserResponse>)
    ensures error == Some(UserExists) <==> r == Raise(HttpError(400, UserExists))
    ensures error == Some(CreateFailed) <==> r == Raise(HttpError(500, CreateFailed))
    ensures error.Some? && error.value != "" && error.value != UserExists && error.value != CreateFailed <==>
            r == Raise(HttpError(422, if error.Some? then error.value else ""))
    ensures r.Ok? <==> error.None? || error.value == ""
    ensures r.Ok? ==> r.body == UserResponse(userId, user.mail, user.name, user.surname)
  {
    if error == Some(UserExists) then Raise(HttpError(400, UserExists))
    else if error == Some(CreateFailed) then Raise(HttpError(500, CreateFailed))
    else if error.Some? && error.value != "" then Raise(HttpError(422, error.value))
    else Ok(UserResponse(userId, user.mail, user.name, user.surname))
  }

  /** The password never reaches the response: two requests that differ only
      in it get the same answer. */
  lemma RegisterIgnoresPassword(user: RegisterRequest, other: string, userId: int, error: Option<string>)
    ensures Register(user, userId, error) == Register(user.(password := other), userId, error)
  {
  }

  // ---------------------------------------------------------------------------
  // str.split with an explicit one-character separator, and its inverse
  // ---------------------------------------------------------------------------

  /** Python's `s.split(sep)`: the fields between separators, empty ones
      included, so there is always at least one. */
  function Split(s: string, sep: char): (parts: seq<string>)
    ensures |parts| >= 1
    ensures forall i :: 0 <= i < |parts| ==> sep !in parts[i]
    decreases |s|
  {
    if s == [] then [""]
    else if s[0] == sep then [""] + Split(s[1..], sep)
    else
      var rest := Split(s[1..], sep);
      [[s[0]] + rest[0]] + rest[1..]
  }

  /** `sep.join(parts)`. */
  function Join(parts: seq<string>, sep: char): string
    requires |parts| >= 1
    decreases |parts|
  {
    if |parts| == 1 then parts[0] else parts[0] + [sep] + Join(parts[1..], sep)
  }

  /** Joining the fields gives back the string. */
  lemma {:induction false} JoinSplit(s: string, sep: char)
    ensures Join(Split(s, sep), sep) == s
    decreases |s|
  {
    if s == [] {
    } else if s[0] == sep {
      JoinSplit(s[1..], sep);
      JoinCons([""], Split(s[1..], sep), sep);
      assert s == [s[0]] + s[1..];
    } else {
      var rest := Split(s[1..], sep);
      JoinSplit(s[1..], sep);
      JoinHead(rest, [s[0]], sep);
      assert s == [s[0]] + s[1..];
    }
  }

  /** Splitting a join of separator-free fields gives back the fields. */
  lemma {:induction false} SplitJoin(parts: seq<string>, sep: char)
    requires |parts| >= 1
    requires forall i :: 0 <= i < |parts| ==> sep !in parts[i]
    ensures Split(Join(parts, sep), sep) == parts
    decreases |parts|
  {
    if |parts| == 1 {
      SplitNoSep(parts[0], sep);
    } else {
      SplitJoin(parts[1..], sep);
      SplitAfterField(parts[0], Join(parts[1..], sep), sep);
      assert [parts[0]] + parts[1..] == parts;
    }
  }

  /** A string without separators is one field. */
  lemma {:induction false} SplitNoSep(field: string, sep: char)
    requires sep !in field
    ensures Split(field, sep) == [field]
    decreases |field|
  {
    if field != [] {
      SplitNoSep(field[1..], sep);
      assert [field[0]] + field[1..] == field;
    }
  }

  /** A separator-free field followed by a separator splits off as the
      first field. */
  lemma {:induction false} SplitAfterField(field: string, tail: string, sep: char)
    requires sep !in field
    ensures Split(field + [sep] + tail, sep) == [field] + Split(tail, sep)
    decreases |field|
  {
    var s := field + [sep] + tail;
    if field == [] {
      assert s == [sep] + tail;
      assert s[1..] == tail;
    } else {
      SplitAfterField(field[1..], tail, sep);
      assert s[0] == field[0];
      assert s[1..] == field[1..] + [sep] + tail;
      assert [field[0]] + field[1..] == field;
    }
  }

  lemma JoinCons(head: seq<string>, tail: seq<string>, sep: char)
    requires |head| == 1 && |tail| >= 1
    ensures Join(head + tail, sep) == head[0] + [sep] + Join(tail, sep)
  {
    assert (head + tail)[1..] == tail;
  }

  /** Prefixing the first field prefixes the join. */
  lemma JoinHead(parts: seq<string>, pre: string, sep: char)
    requires |parts| >= 1
    ensures Join([pre + parts[0]] + parts[1..], sep) == pre + Join(parts, sep)
  {
    var ps := [pre + parts[0]] + parts[1..];
    if |parts| > 1 {
      assert ps[1..] == parts[1..];
    }
  }

  // ---------------------------------------------------------------------------
  // protected
  // ---------------------------------------------------------------------------

  const Bearer := "Bearer "

  /** The decoded token; `mail` is `None` when the claim is missing. */
  datatype Payload = Payload(mail: Option<string>)

  /** `str(payload.get('mail'))`. */
  function MailText(p: Payload): string {
    if p.mail.Some? then p.mail.value else "None"
  }

  const MissingToken := HttpError(401, "Missing token")
  const InvalidToken := HttpError(401, "Invalid token")

  /** `header.startswith("Bearer ")`. */
  predicate IsBearer(header: string) {
    |header| >= |Bearer| && header[..|Bearer|] == Bearer
  }

  /** Element 1 of `authorization.split(" ")`, for a header that starts
      with "Bearer " (so that element exists). */
  function BearerToken(header: string): (token: string)
    requires IsBearer(header)
    ensures ' ' !in token
  {
    BearerSplit(header[|Bearer|..]);
    assert header == Bearer + header[|Bearer|..];
    Split(header, ' ')[1]
  }

  /** After the prefix, the token is the text up to the next space: a
      prefix of the rest, with no space in it, that ends at a space or at the
      end of the header. */
  lemma {:induction false} BearerSplit(rest: string)
    ensures |Split(Bearer + rest, ' ')| >= 2
    ensures var token := Split(Bearer + rest, ' ')[1];
            && token <= rest && ' ' !in token
            && (|token| == |rest| || rest[|token|] == ' ')
  {
    BearerPrefix(rest);
    FirstField(rest);
  }

  lemma BearerPrefix(rest: string)
    ensures Split(Bearer + rest, ' ') == ["Bearer"] + Split(rest, ' ')
  {
    SplitAfterField("Bearer", rest, ' ');
    assert Bearer + rest == "Bearer" + [' '] + rest;
  }

  /** The first field of a split is the text up to the first separator. */
  lemma {:induction false} FirstField(s: string)
    ensures var f := Split(s, ' ')[0];
            f <= s && (|f| == |s| || s[|f|] == ' ')
    decreases |s|
  {
    if s != [] && s[0] != ' ' {
      FirstField(s[1..]);
    }
  }

  /** "Bearer abc def" gives "abc", and "Bearer " gives "". */
  lemma BearerExamples()
    ensures BearerToken("Bearer abc def") == "abc"
    ensures BearerToken("Bearer ") == ""
  {
    var rest := "abc def";
    assert "Bearer " + rest == "Bearer abc def";
    BearerSplit(rest);
    var token := Split(Bearer + rest, ' ')[1];
    assert rest[0] != ' ' && rest[1] != ' ' && rest[2] != ' ' && rest[3] == ' ';
    assert |token| == 3;
    assert token == rest[..3] == "abc";
    assert "Bearer " + "" == "Bearer ";
    BearerSplit("");
  }

  /** `protected`: 401 "Missing token" for an absent, empty or non-bearer
      header; 401 "Invalid token" when decoding fails; otherwise a greeting
      with the payload's mail ("None" when the claim is missing). */
  function Protected(authorization: Option<string>, decode: string -> Option<Payload>): (r: Response<string>)
    ensures r == Raise(MissingToken) <==> authorization.None? || !IsBearer(authorization.value)
    ensures r == Raise(InvalidToken) <==>
              authorization.Some? && IsBearer(authorization.value) && decode(BearerToken(authorization.value)).None?
    ensures r.Ok? ==> authorization.Some? && IsBearer(authorization.value) &&
                      decode(BearerToken(authorization.value)).Some? &&
                      r.body == "Hello, " + MailText(decode(BearerToken(authorization.value)).value)
  {
    if authorization.None? || authorization.value == [] || !IsBearer(authorization.value) then
      Raise(MissingToken)
    else
      var token := BearerToken(authorization.value);
      match decode(token)
      case None => Raise(InvalidToken)
      case Some(payload) => Ok("Hello, " + MailText(payload))
  }
}
