/** Authentication (server/routes/auth.ts): an in-memory user table keyed
    by user id, login that signs up unknown e-mail addresses on the fly,
    registration, and a bearer-token check. The clock is a parameter: each
    `Date.now()` reading is passed in, one for the user id and one for the
    token. */
module Auth {
  import opened Api
  import opened Text

  // ---------------------------------------------------------------------------
  // Users and the user table
  // ---------------------------------------------------------------------------

  datatype User = User(id: string, name: string, email: string, password: string, token: string)

  /** A JavaScript `Map`: its keys in insertion order and the stored
      values. */
  datatype UserMap = UserMap(keys: seq<string>, values: map<string, User>)

  /** The keys are distinct and are exactly the keys that have values. */
  predicate WellFormed(m: UserMap) {
    && (forall i, j :: 0 <= i < j < |m.keys| ==> m.keys[i] != m.keys[j])
    && (forall i :: 0 <= i < |m.keys| ==> m.keys[i] in m.values)
    && (forall k :: k in m.values ==> k in m.keys)
  }

  const EmptyMap := UserMap([], map[])

  /** `Map.prototype.set`: a new key goes last, an existing key keeps its
      place and gets the new value. */
  function Set(m: UserMap, key: string, user: User): (r: UserMap)
    requires WellFormed(m)
    ensures WellFormed(r)
    ensures r.values == m.values[key := user]
    ensures key in m.values ==> r.keys == m.keys
    ensures key !in m.values ==> r.keys == m.keys + [key]
  {
    if key in m.values then UserMap(m.keys, m.values[key := user])
    else UserMap(m.keys + [key], m.values[key := user])
  }

  /** `Array.from(users.values())`. */
  function Values(m: UserMap): (r: seq<User>)
    requires WellFormed(m)
    ensures |r| == |m.values|
    ensures forall k :: k in m.values ==> m.values[k] in r
  {
    KeysCount(m.keys, m.values);
    var r := seq(|m.keys|, i requires 0 <= i < |m.keys| => m.values[m.keys[i]]);
    assert forall k :: k in m.values ==> m.values[k] in r by {
      forall k | k in m.values ensures m.values[k] in r {
        var i :| 0 <= i < |m.keys| && m.keys[i] == k;
        assert r[i] == m.values[k];
      }
    }
    r
  }

  /** Distinct keys that are exactly the keys of a map number as many as
      the map's entries. */
  lemma {:induction false} KeysCount(keys: seq<string>, values: map<string, User>)
    requires forall i, j :: 0 <= i < j < |keys| ==> keys[i] != keys[j]
    requires forall i :: 0 <= i < |keys| ==> keys[i] in values
    requires forall k :: k in values ==> k in keys
    ensures |values| == |keys|
    decreases |keys|
  {
    if keys == [] {
      assert values.Keys == {};
    } else {
      var last := keys[|keys| - 1];
      var init := keys[..|keys| - 1];
      var rest := values - {last};
      forall k | k in rest ensures k in init {
        var i :| 0 <= i < |keys| && keys[i] == k;
        assert i < |keys| - 1;
        assert init[i] == k;
      }
      KeysCount(init, rest);
      assert rest.Keys == values.Keys - {last};
      assert |values.Keys| == |rest.Keys| + 1;
    }
  }

  /** The values of the table are the stored users. */
  lemma ValuesMembers(m: UserMap, u: User)
    requires WellFormed(m)
    ensures u in Values(m) <==> exists k :: k in m.values && m.values[k] == u
  {
    if u in Values(m) {
      var i :| 0 <= i < |Values(m)| && Values(m)[i] == u;
      assert m.keys[i] in m.values;
    }
    if exists k :: k in m.values && m.values[k] == u {
      var k :| k in m.values && m.values[k] == u;
      var i :| 0 <= i < |m.keys| && m.keys[i] == k;
      assert Values(m)[i] == u;
    }
  }

  /** `user_${Date.now()}` */
  function UserKey(clock: nat): (key: string)
    ensures ' ' !in key && key != ""
  {
    NatToStringDigits(clock);
    "user_" + NatToString(clock)
  }

  /** `generateToken`: `token_${userId}_${Date.now()}` */
  function Token(id: string, clock: nat): (token: string)
    ensures ' ' !in id ==> ' ' !in token
    ensures |token| > |id|
  {
    NatToStringDigits(clock);
    "token_" + id + "_" + NatToString(clock)
  }

  /** A token determines the user id and the clock reading it was made
      from. */
  lemma TokenInjective(id1: string, c1: nat, id2: string, c2: nat)
    requires Token(id1, c1) == Token(id2, c2)
    ensures id1 == id2 && c1 == c2
  {
    NumberSuffixInjective("token_" + id1, c1, "token_" + id2, c2);
    assert id1 == ("token_" + id1)[6..];
    assert id2 == ("token_" + id2)[6..];
  }

  /** What every reachable table satisfies: each user is stored under its
      own id, which is `user_<clock>`, carries a token made from that id,
      and no two users share an e-mail address. */
  ghost predicate ValidTable(m: UserMap) {
    && WellFormed(m)
    && (forall k :: k in m.values ==> m.values[k].id == k)
    && (forall k :: k in m.values ==> exists c: nat :: k == UserKey(c))
    && (forall k :: k in m.values ==> exists c: nat :: m.values[k].token == Token(k, c))
    && (forall k1, k2 :: k1 in m.values && k2 in m.values && m.values[k1].email == m.values[k2].email ==> k1 == k2)
  }

  lemma EmptyMapValid()
    ensures ValidTable(EmptyMap) && Values(EmptyMap) == []
  {
  }

  /** No two stored users have the same token. */
  lemma TokensDistinct(m: UserMap, k1: string, k2: string)
    requires ValidTable(m) && k1 in m.values && k2 in m.values
    requires m.values[k1].token == m.values[k2].token
    ensures k1 == k2
  {
    var c1: nat :| m.values[k1].token == Token(k1, c1);
    var c2: nat :| m.values[k2].token == Token(k2, c2);
    TokenInjective(k1, c1, k2, c2);
  }

  // ---------------------------------------------------------------------------
  // Searching the values
  // ---------------------------------------------------------------------------

  /** `values.find(u => u.email === email)` */
  function FindByEmail(users: seq<User>, email: string): (r: Option<User>)
    ensures r.None? <==> forall u :: u in users ==> u.email != email
    ensures r.Some? ==> r.value in users && r.value.email == email
    ensures r.Some? ==> exists i :: 0 <= i < |users| && users[i] == r.value &&
                          forall j :: 0 <= j < i ==> users[j].email != email
    decreases |users|
  {
    if users == [] then None
    else if users[0].email == email then Some(users[0])
    else FindByEmail(users[1..], email)
  }

  /** `values.find(u => u.token === token)` */
  function FindByToken(users: seq<User>, token: string): (r: Option<User>)
    ensures r.None? <==> forall u :: u in users ==> u.token != token
    ensures r.Some? ==> r.value in users && r.value.token == token
    ensures r.Some? ==> exists i :: 0 <= i < |users| && users[i] == r.value &&
                          forall j :: 0 <= j < i ==> users[j].token != token
    decreases |users|
  {
    if users == [] then None
    else if users[0].token == token then Some(users[0])
    else FindByToken(users[1..], token)
  }

  /** In a valid table the user with a given e-mail address is found,
      whichever comes first. */
  lemma FindEmailUnique(m: UserMap, k: string)
    requires ValidTable(m) && k in m.values
    ensures FindByEmail(Values(m), m.values[k].email) == Some(m.values[k])
  {
    ValuesMembers(m, m.values[k]);
    var r := FindByEmail(Values(m), m.values[k].email);
    ValuesMembers(m, r.value);
  }

  /** In a valid table the user holding a token is found by it. */
  lemma FindTokenUnique(m: UserMap, k: string)
    requires ValidTable(m) && k in m.values
    ensures FindByToken(Values(m), m.values[k].token) == Some(m.values[k])
  {
    ValuesMembers(m, m.values[k]);
    var r := FindByToken(Values(m), m.values[k].token);
    ValuesMembers(m, r.value);
    var k' :| k' in m.values && m.values[k'] == r.value;
    TokensDistinct(m, k, k');
  }

  // ---------------------------------------------------------------------------
  // The handlers, on values
  // ---------------------------------------------------------------------------

  /** The table after a request, and the reply. */
  datatype Outcome = Outcome(users: UserMap, reply: Reply<LoginResponse>)

  /** The reply of a successful login or registration. */
  function Welcome(message: string, u: User): Reply<LoginResponse> {
    Ok(LoginResponse(true, message, Some(SessionUser(u.id, u.name, u.email, u.token))))
  }

  /** `email.split("@")[0]`: the part of the address before the first "@". */
  function NameFromEmail(email: string): (name: string)
    ensures '@' !in name
    ensures |name| <= |email| && email[..|name|] == name
    ensures |name| == |email| || email[|name|] == '@'
  {
    FirstFieldIsPrefix(email, '@');
    Split(email, '@')[0]
  }

  /** A user created by login or registration at clock readings
      `idClock` and `tokenClock`. */
  function NewUser(name: string, email: string, password: string, idClock: nat, tokenClock: nat): User {
    User(UserKey(idClock), name, email, password, Token(UserKey(idClock), tokenClock))
  }

  /** What `handleLogin` does: reject empty fields (400), sign an unknown
      address up with the part before "@" as its name, reject a wrong
      password (401), and otherwise answer with the stored user. */
  function Login(m: UserMap, req: LoginRequest, idClock: nat, tokenClock: nat): (r: Outcome)
    requires WellFormed(m)
    ensures r.reply.Fail? ==> r.users == m
    ensures r.reply.Fail? && r.reply.status == 400 <==> req.email == "" || req.password == ""
    ensures r.reply.Fail? ==> r.reply.status in {400, 401}
  {
    if req.email == "" || req.password == "" then
      Outcome(m, Fail(400, "Email and password are required"))
    else
      match FindByEmail(Values(m), req.email)
      case None =>
        var u := NewUser(NameFromEmail(req.email), req.email, req.password, idClock, tokenClock);
        Outcome(Set(m, u.id, u), Welcome("Login successful", u))
      case Some(u) =>
        if u.password != req.password then Outcome(m, Fail(401, "Invalid password"))
        else Outcome(m, Welcome("Login successful", u))
  }

  /** What `handleRegister` does: reject empty fields (400), a password
      that does not match its confirmation (400) and a known address
      (409), in that order; otherwise store the new user. */
  function Register(m: UserMap, req: RegisterRequest, idClock: nat, tokenClock: nat): (r: Outcome)
    requires WellFormed(m)
    ensures r.reply.Fail? ==> r.users == m
    ensures r.reply.Fail? <==>
      || req.name == "" || req.email == "" || req.password == "" || req.confirmPassword == ""
      || req.password != req.confirmPassword
      || exists u :: u in Values(m) && u.email == req.email
  {
    if req.name == "" || req.email == "" || req.password == "" || req.confirmPassword == "" then
      Outcome(m, Fail(400, "All fields are required"))
    else if req.password != req.confirmPassword then
      Outcome(m, Fail(400, "Passwords do not match"))
    else if FindByEmail(Values(m), req.email).Some? then
      Outcome(m, Fail(409, "User already exists"))
    else
      var u := NewUser(req.name, req.email, req.password, idClock, tokenClock);
      Outcome(Set(m, u.id, u), Welcome("Registration successful", u))
  }

  /** `authorization?.split(" ")[1]`, kept only when it is a non-empty
      string. */
  function BearerToken(authorization: Option<string>): (r: Option<string>)
    ensures r.Some? ==> r.value != "" && ' ' !in r.value
  {
    if authorization.None? then None
    else
      var parts := Split(authorization.value, ' ');
      SplitJoin(authorization.value, ' ');
      if |parts| < 2 || parts[1] == "" then None else Some(parts[1])
  }

  /** What `handleAuthCheck` answers. */
  function AuthCheck(m: UserMap, authorization: Option<string>): (r: AuthCheckResponse)
    requires WellFormed(m)
    ensures r.authenticated <==> r.user.Some?
    ensures BearerToken(authorization).None? ==> !r.authenticated
    ensures BearerToken(authorization).Some? ==>
      (r.authenticated <==> exists u :: u in Values(m) && u.token == BearerToken(authorization).value)
    ensures r.authenticated ==>
      exists u :: u in Values(m) && u.token == BearerToken(authorization).value &&
                  r.user.value == PublicUser(u.id, u.name, u.email)
  {
    match BearerToken(authorization)
    case None => AuthCheckResponse(false, None)
    case Some(token) =>
      match FindByToken(Values(m), token)
      case None => AuthCheckResponse(false, None)
      case Some(u) => AuthCheckResponse(true, Some(PublicUser(u.id, u.name, u.email)))
  }

  // ---------------------------------------------------------------------------
  // Properties of the handlers
  // ---------------------------------------------------------------------------

  /** Storing a new user whose address is not yet known keeps the table
      valid, also when its id replaces an older entry. */
  lemma {:induction false} AddUserValid(m: UserMap, u: User, idClock: nat, tokenClock: nat)
    requires ValidTable(m)
    requires u.id == UserKey(idClock) && u.token == Token(u.id, tokenClock)
    requires forall v :: v in Values(m) ==> v.email != u.email
    ensures ValidTable(Set(m, u.id, u))
  {
    var r := Set(m, u.id, u);
    forall k | k in r.values
      ensures exists c: nat :: k == UserKey(c)
    {
      if k == u.id {
        assert k == UserKey(idClock);
      }
    }
    forall k | k in r.values
      ensures exists c: nat :: r.values[k].token == Token(k, c)
    {
      if k == u.id {
        assert r.values[k].token == Token(k, tokenClock);
      } else {
        var c: nat :| m.values[k].token == Token(k, c);
        assert r.values[k].token == Token(k, c);
      }
    }
    forall k1, k2 | k1 in r.values && k2 in r.values && r.values[k1].email == r.values[k2].email
      ensures k1 == k2
    {
      if k1 != u.id {
        ValuesMembers(m, m.values[k1]);
      }
      if k2 != u.id {
        ValuesMembers(m, m.values[k2]);
      }
    }
  }

  lemma LoginPreservesValid(m: UserMap, req: LoginRequest, idClock: nat, tokenClock: nat)
    requires ValidTable(m)
    ensures ValidTable(Login(m, req, idClock, tokenClock).users)
  {
    if req.email != "" && req.password != "" && FindByEmail(Values(m), req.email).None? {
      var u := NewUser(NameFromEmail(req.email), req.email, req.password, idClock, tokenClock);
      AddUserValid(m, u, idClock, tokenClock);
    }
  }

  lemma RegisterPreservesValid(m: UserMap, req: RegisterRequest, idClock: nat, tokenClock: nat)
    requires ValidTable(m)
    ensures ValidTable(Register(m, req, idClock, tokenClock).users)
  {
    var r := Register(m, req, idClock, tokenClock);
    if r.reply.Ok? {
      var u := NewUser(req.name, req.email, req.password, idClock, tokenClock);
      AddUserValid(m, u, idClock, tokenClock);
    }
  }

  /** The replies of login: 401 exactly when the address is known and the
      password differs; on success the reply carries the stored user, which
      for an unknown address is new, named after the part before "@", with
      id `user_<idClock>` and token `token_<id>_<tokenClock>`. */
  lemma LoginReplies(m: UserMap, req: LoginRequest, idClock: nat, tokenClock: nat)
    requires ValidTable(m) && req.email != "" && req.password != ""
    ensures var r := Login(m, req, idClock, tokenClock);
      && (r.reply == Fail(401, "Invalid password") <==>
            exists k :: k in m.values && m.values[k].email == req.email && m.values[k].password != req.password)
      && (forall k :: k in m.values && m.values[k].email == req.email && m.values[k].password == req.password ==>
            r == Outcome(m, Welcome("Login successful", m.values[k])))
      && ((forall k :: k in m.values ==> m.values[k].email != req.email) ==>
            var u := NewUser(NameFromEmail(req.email), req.email, req.password, idClock, tokenClock);
            r == Outcome(Set(m, UserKey(idClock), u), Welcome("Login successful", u)))
  {
    var found := FindByEmail(Values(m), req.email);
    if found.Some? {
      ValuesMembers(m, found.value);
      var k :| k in m.values && m.values[k] == found.value;
      FindEmailUnique(m, k);
    } else {
      forall k | k in m.values ensures m.values[k].email != req.email {
        ValuesMembers(m, m.values[k]);
      }
    }
  }

  /** The replies of registration, case by case: the first failing check
      decides the error; a success stores the new user under
      `user_<idClock>`, leaving every other key as it was. */
  lemma RegisterReplies(m: UserMap, req: RegisterRequest, idClock: nat, tokenClock: nat)
    requires WellFormed(m)
    ensures var r := Register(m, req, idClock, tokenClock);
      var filled := req.name != "" && req.email != "" && req.password != "" && req.confirmPassword != "";
      var known := exists u :: u in Values(m) && u.email == req.email;
      var u := NewUser(req.name, req.email, req.password, idClock, tokenClock);
      && (!filled ==> r == Outcome(m, Fail(400, "All fields are required")))
      && (filled && req.password != req.confirmPassword ==> r == Outcome(m, Fail(400, "Passwords do not match")))
      && (filled && req.password == req.confirmPassword && known ==> r == Outcome(m, Fail(409, "User already exists")))
      && (r.reply.Ok? ==>
            && r.users.values == m.values[UserKey(idClock) := u]
            && r.reply == Welcome("Registration successful", u))
  {
  }

  /** Registering and then logging in with the same address and password
      succeeds, returns the registered user and changes nothing, whatever
      the clock says. */
  lemma RegisterThenLogin(m: UserMap, req: RegisterRequest, c1: nat, c2: nat, c3: nat, c4: nat)
    requires ValidTable(m)
    requires Register(m, req, c1, c2).reply.Ok?
    ensures var after := Register(m, req, c1, c2);
      Login(after.users, LoginRequest(req.email, req.password), c3, c4) ==
        Outcome(after.users, Welcome("Login successful", NewUser(req.name, req.email, req.password, c1, c2)))
  {
    var after := Register(m, req, c1, c2);
    var u := NewUser(req.name, req.email, req.password, c1, c2);
    RegisterPreservesValid(m, req, c1, c2);
    FindEmailUnique(after.users, u.id);
  }

  /** A second registration of the same address is refused with 409. */
  lemma RegisterTwiceConflicts(m: UserMap, req: RegisterRequest, c1: nat, c2: nat, c3: nat, c4: nat)
    requires ValidTable(m)
    requires Register(m, req, c1, c2).reply.Ok?
    ensures var after := Register(m, req, c1, c2);
      Register(after.users, req, c3, c4) == Outcome(after.users, Fail(409, "User already exists"))
  {
    var after := Register(m, req, c1, c2);
    var u := NewUser(req.name, req.email, req.password, c1, c2);
    RegisterPreservesValid(m, req, c1, c2);
    FindEmailUnique(after.users, u.id);
  }

  /** A generated token contains no space. */
  lemma TokenHasNoSpace(idClock: nat, tokenClock: nat)
    ensures ' ' !in Token(UserKey(idClock), tokenClock) && Token(UserKey(idClock), tokenClock) != ""
  {
    NatToStringDigits(idClock);
    NatToStringDigits(tokenClock);
    var d1, d2 := NatToString(idClock), NatToString(tokenClock);
    assert ' ' !in d1 && ' ' !in d2;
    assert Token(UserKey(idClock), tokenClock) == "token_user_" + d1 + "_" + d2;
  }

  /** `Bearer <token>` yields the token when it has no space. */
  lemma BearerRoundTrip(token: string)
    requires token != "" && ' ' !in token
    ensures BearerToken(Some("Bearer " + token)) == Some(token)
  {
    assert "Bearer " + token == "Bearer" + [' '] + token;
    SplitAfterWord("Bearer", ' ', token);
    SplitNoSeparator(token, ' ');
  }

  /** Any header: the token is the text between the first space and the
      next one (or the end), and there is none when that text is empty, as
      in "Bearer  abc". A header "Basic abc" yields "abc"; "Bearer a b"
      yields "a". */
  lemma BearerSecondField(x: string, token: string, rest: string)
    requires ' ' !in x && ' ' !in token
    requires rest == "" || rest[0] == ' '
    ensures BearerToken(Some(x + " " + token + rest)) == if token == "" then None else Some(token)
  {
    var h := x + " " + token + rest;
    assert h == x + [' '] + (token + rest);
    SplitAfterWord(x, ' ', token + rest);
    FirstFieldOfWord(token, ' ', rest);
  }

  /** A header without a space, or with nothing after the first space,
      carries no token. */
  lemma NoTokenWithoutSpace(header: string)
    requires ' ' !in header || (exists x :: header == x + " " && ' ' !in x)
    ensures BearerToken(Some(header)) == None
  {
    if ' ' in header {
      var x :| header == x + " " && ' ' !in x;
      assert header == x + [' '] + "";
      SplitAfterWord(x, ' ', "");
    } else {
      SplitNoSeparator(header, ' ');
    }
  }

  /** The token handed out by a registration authenticates the new user. */
  lemma RegisterThenAuthCheck(m: UserMap, req: RegisterRequest, c1: nat, c2: nat)
    requires ValidTable(m)
    requires Register(m, req, c1, c2).reply.Ok?
    ensures var after := Register(m, req, c1, c2);
      var u := NewUser(req.name, req.email, req.password, c1, c2);
      AuthCheck(after.users, Some("Bearer " + u.token)) ==
        AuthCheckResponse(true, Some(PublicUser(u.id, u.name, u.email)))
  {
    var after := Register(m, req, c1, c2);
    var u := NewUser(req.name, req.email, req.password, c1, c2);
    RegisterPreservesValid(m, req, c1, c2);
    TokenHasNoSpace(c1, c2);
    BearerRoundTrip(u.token);
    FindTokenUnique(after.users, u.id);
  }

  /** The token a login hands out authenticates the user it names. */
  lemma LoginThenAuthCheck(m: UserMap, req: LoginRequest, c1: nat, c2: nat)
    requires ValidTable(m)
    requires Login(m, req, c1, c2).reply.Ok?
    ensures var after := Login(m, req, c1, c2);
      var s := after.reply.body.user.value;
      AuthCheck(after.users, Some("Bearer " + s.token)) ==
        AuthCheckResponse(true, Some(PublicUser(s.id, s.name, s.email)))
  {
    var after := Login(m, req, c1, c2);
    LoginPreservesValid(m, req, c1, c2);
    var found := FindByEmail(Values(m), req.email);
    if found.None? {
      var u := NewUser(NameFromEmail(req.email), req.email, req.password, c1, c2);
      assert after.users.values[u.id] == u;
      assert after.reply == Welcome("Login successful", u);
      StoredTokenAuthenticates(after.users, u.id);
    } else {
      ValuesMembers(m, found.value);
      var k :| k in m.values && m.values[k] == found.value;
      StoredTokenAuthenticates(m, k);
    }
  }

  /** Any stored user's token, sent as a bearer token, authenticates that
      user. */
  lemma StoredTokenAuthenticates(m: UserMap, k: string)
    requires ValidTable(m) && k in m.values
    ensures var u := m.values[k];
      AuthCheck(m, Some("Bearer " + u.token)) == AuthCheckResponse(true, Some(PublicUser(u.id, u.name, u.email)))
  {
    var c: nat :| k == UserKey(c);
    var t: nat :| m.values[k].token == Token(k, t);
    TokenHasNoSpace(c, t);
    BearerRoundTrip(m.values[k].token);
    FindTokenUnique(m, k);
  }

  /** Two sign-ups in the same millisecond get the same id: the second
      replaces the first, whose address is then unknown again. */
  lemma SameMillisecondOverwrites(m: UserMap, a: RegisterRequest, b: RegisterRequest, clock: nat, t1: nat, t2: nat)
    requires ValidTable(m)
    requires Register(m, a, clock, t1).reply.Ok?
    requires Register(Register(m, a, clock, t1).users, b, clock, t2).reply.Ok?
    ensures var after := Register(Register(m, a, clock, t1).users, b, clock, t2).users;
      && after.values[UserKey(clock)].email == b.email
      && FindByEmail(Values(after), a.email).None?
  {
    var first := Register(m, a, clock, t1).users;
    RegisterPreservesValid(m, a, clock, t1);
    FindEmailUnique(first, UserKey(clock));
    var u := NewUser(b.name, b.email, b.password, clock, t2);
    assert Register(first, b, clock, t2).users == Set(first, UserKey(clock), u);
    ReplaceDropsEmail(first, UserKey(clock), u);
  }

  /** Replacing the only user with a given address by a user with another
      address leaves no user with the first address. */
  lemma ReplaceDropsEmail(m: UserMap, k: string, u: User)
    requires ValidTable(m) && k in m.values && u.email != m.values[k].email
    ensures FindByEmail(Values(Set(m, k, u)), m.values[k].email).None?
  {
    var after := Set(m, k, u);
    forall v | v in Values(after) ensures v.email != m.values[k].email {
      ValuesMembers(after, v);
      var k' :| k' in after.values && after.values[k'] == v;
      if k' != k {
        assert after.values[k'] == m.values[k'];
      }
    }
  }

  // ---------------------------------------------------------------------------
  // The server's user table
  // ---------------------------------------------------------------------------

  /** The module-level `users` map, shared by the three handlers. */
  class UserStore {
    var users: UserMap

    ghost predicate Valid()
      reads this
    {
      ValidTable(users)
    }

    constructor()
      ensures users == EmptyMap && Valid()
    {
      users := EmptyMap;
    }

    /** `Array.from(users.values()).find(u => u.email === email)`. */
    method FindEmail(email: string) returns (r: Option<User>)
      requires WellFormed(users)
      ensures r == FindByEmail(Values(users), email)
    {
      var i := 0;
      while i < |users.keys|
        invariant 0 <= i <= |users.keys|
        invariant FindByEmail(Values(users)[i..], email) == FindByEmail(Values(users), email)
      {
        var u := users.values[users.keys[i]];
        assert Values(users)[i..][0] == u;
        assert Values(users)[i..][1..] == Values(users)[i + 1..];
        if u.email == email {
          return Some(u);
        }
        i := i + 1;
      }
      return None;
    }

    /** `Array.from(users.values()).find(u => u.token === token)`. */
    method FindToken(token: string) returns (r: Option<User>)
      requires WellFormed(users)
      ensures r == FindByToken(Values(users), token)
    {
      var i := 0;
      while i < |users.keys|
        invariant 0 <= i <= |users.keys|
        invariant FindByToken(Values(users)[i..], token) == FindByToken(Values(users), token)
      {
        var u := users.values[users.keys[i]];
        assert Values(users)[i..][0] == u;
        assert Values(users)[i..][1..] == Values(users)[i + 1..];
        if u.token == token {
          return Some(u);
        }
        i := i + 1;
      }
      return None;
    }

    /** `handleLogin`. */
    method HandleLogin(req: LoginRequest, idClock: nat, tokenClock: nat) returns (r: Reply<LoginResponse>)
      requires Valid()
      modifies this
      ensures Valid()
      ensures Outcome(users, r) == Login(old(users), req, idClock, tokenClock)
    {
      LoginPreservesValid(users, req, idClock, tokenClock);
      if req.email == "" || req.password == "" {
        return Fail(400, "Email and password are required");
      }
      var found := FindEmail(req.email);
      if found.None? {
        var u := NewUser(NameFromEmail(req.email), req.email, req.password, idClock, tokenClock);
        users := Set(users, u.id, u);
        return Welcome("Login successful", u);
      }
      if found.value.password != req.password {
        return Fail(401, "Invalid password");
      }
      return Welcome("Login successful", found.value);
    }

    /** `handleRegister`. */
    method HandleRegister(req: RegisterRequest, idClock: nat, tokenClock: nat) returns (r: Reply<LoginResponse>)
      requires Valid()
      modifies this
      ensures Valid()
      ensures Outcome(users, r) == Register(old(users), req, idClock, tokenClock)
    {
      RegisterPreservesValid(users, req, idClock, tokenClock);
      if req.name == "" || req.email == "" || req.password == "" || req.confirmPassword == "" {
        return Fail(400, "All fields are required");
      }
      if req.password != req.confirmPassword {
        return Fail(400, "Passwords do not match");
      }
      var found := FindEmail(req.email);
      if found.Some? {
        return Fail(409, "User already exists");
      }
      var u := NewUser(req.name, req.email, req.password, idClock, tokenClock);
      users := Set(users, u.id, u);
      return Welcome("Registration successful", u);
    }

    /** `handleAuthCheck`; it changes nothing. */
    method HandleAuthCheck(authorization: Option<string>) returns (r: AuthCheckResponse)
      requires Valid()
      ensures r == AuthCheck(users, authorization)
    {
      var token := BearerToken(authorization);
      if token.None? {
        return AuthCheckResponse(false, None);
      }
      var found := FindToken(token.value);
      if found.None? {
        return AuthCheckResponse(false, None);
      }
      var u := found.value;
      return AuthCheckResponse(true, Some(PublicUser(u.id, u.name, u.email)));
    }
  }
}
