/** Login and API tokens: issuing, revoking, collecting, and the two ways a request is authenticated. */
module Tokens {
  import opened Model

  const DAY: int := 24 * 60 * 60 * 1_000_000_000

  datatype Token = Token(id: string, userId: string, note: string, expiresAt: Option<Time>)

  /** The tokens table, by the unique hash of the secret. */
  type Table = map<string, Token>

  /** The users of a run, by ID and by name, with the hashes of their passwords; and the hash functions. */
  datatype World = World(
    users: map<string, User>,
    userIds: map<string, string>,
    passwordHashes: map<string, string>,
    hashToken: string -> string,
    checkPassword: (string, string) -> bool)

  // ---------- authentication ----------

  datatype Identity = Anonymous | As(user: User) | Rejected

  const BEARER: string := "Bearer "

  function TrimBearer(header: string): string {
    if BEARER <= header then header[|BEARER|..] else header
  }

  predicate Expired(t: Token, now: Time) {
    t.expiresAt.Some? && now > t.expiresAt.value
  }

  /** The REST side: a request whose token does not hold goes on without a user. */
  function Middleware(w: World, tokens: Table, now: Time, header: string): Identity {
    var bearer := TrimBearer(header);
    if bearer == "" || bearer == header then Anonymous
    else
      var hash := w.hashToken(bearer);
      if hash !in tokens then Anonymous
      else if Expired(tokens[hash], now) then Anonymous
      else if tokens[hash].userId !in w.users then Anonymous
      else As(w.users[tokens[hash].userId])
  }

  /** The RPC side: a request whose token does not hold is turned away. */
  function Interceptor(w: World, tokens: Table, now: Time, header: string): Identity {
    var raw := TrimBearer(header);
    if raw == "" || raw == header then Anonymous
    else
      var hash := w.hashToken(raw);
      if hash !in tokens then Rejected
      else if Expired(tokens[hash], now) then Rejected
      else if tokens[hash].userId !in w.users then Rejected
      else As(w.users[tokens[hash].userId])
  }

  // ---------- the handlers, as steps on the table ----------

  datatype Event =
    | Login(time: Time, username: string, password: string, raw: string, id: string,
            cleanupFails: bool, createFails: bool)
    | Create(time: Time, header: string, note: string, raw: string, id: string, createFails: bool)
    | Revoke(time: Time, header: string, id: string)
    | Collect(time: Time)

  datatype Response = Unauthorized | TokenNotFound | Failed | Issued(raw: string) | Done

  /** The user whom a name and a password log in. */
  function LoginUser(w: World, username: string, password: string): Option<User> {
    if username !in w.userIds || w.userIds[username] !in w.users || w.userIds[username] !in w.passwordHashes then None
    else if !w.checkPassword(w.passwordHashes[w.userIds[username]], password) then None
    else Some(w.users[w.userIds[username]])
  }

  function DropNote(tokens: Table, userId: string, note: string): Table {
    map h | h in tokens && !(tokens[h].userId == userId && tokens[h].note == note) :: tokens[h]
  }

  function DropId(tokens: Table, userId: string, id: string): Table {
    map h | h in tokens && !(tokens[h].userId == userId && tokens[h].id == id) :: tokens[h]
  }

  function DropExpired(tokens: Table, now: Time): Table {
    map h | h in tokens && !(tokens[h].expiresAt.Some? && tokens[h].expiresAt.value < now) :: tokens[h]
  }

  /** Inserting a row fails when the backend fails or the hash is taken. */
  function Insert(tokens: Table, hash: string, t: Token, fails: bool, raw: string): (Table, Response) {
    if fails || hash in tokens then (tokens, Failed) else (tokens[hash := t], Issued(raw))
  }

  function Step(w: World, tokens: Table, e: Event): (Table, Response) {
    match e
    case Login(time, username, password, raw, id, cleanupFails, createFails) =>
      (match LoginUser(w, username, password)
       case None => (tokens, Unauthorized)
       case Some(u) =>
         var rest := if cleanupFails then tokens else DropNote(tokens, u.id, "login");
         Insert(rest, w.hashToken(raw), Token(id, u.id, "login", Some(time + DAY)), createFails, raw))
    case Create(time, header, note, raw, id, createFails) =>
      (match Middleware(w, tokens, time, header)
       case As(u) => Insert(tokens, w.hashToken(raw), Token(id, u.id, note, None), createFails, raw)
       case _ => (tokens, Unauthorized))
    case Revoke(time, header, id) =>
      (match Middleware(w, tokens, time, header)
       case As(u) =>
         var rest := DropId(tokens, u.id, id);
         (rest, if rest == tokens then TokenNotFound else Done)
       case _ => (tokens, Unauthorized))
    case Collect(time) => (DropExpired(tokens, time), Done)
  }

  /** A user sees those of their tokens that are neither expired nor login sessions. */
  predicate Listed(t: Token, userId: string, now: Time) {
    t.userId == userId && !(t.expiresAt.Some? && t.expiresAt.value < now) && t.note != "login"
  }

  /** ID and note of each token that a user sees. */
  function Listing(tokens: Table, userId: string, now: Time): map<string, (string, string)> {
    map h | h in tokens && Listed(tokens[h], userId, now) :: (tokens[h].id, tokens[h].note)
  }

  ghost function ListedAmong(tokens: Table, hashes: seq<string>, userId: string, now: Time): set<string> {
    set h | h in hashes && h in tokens && Listed(tokens[h], userId, now)
  }

  /** Every element of the set, once, in some order. */
  ghost predicate Enumerates(hashes: seq<string>, all: set<string>) {
    && (forall i, j :: 0 <= i < j < |hashes| ==> hashes[i] != hashes[j])
    && (forall h :: h in hashes <==> h in all)
  }

  /** The values under the hashes, in their order. */
  ghost predicate Shows<V>(values: seq<V>, rows: map<string, V>, hashes: seq<string>) {
    |values| == |hashes| && forall i :: 0 <= i < |values| ==> hashes[i] in rows && values[i] == rows[hashes[i]]
  }

  lemma EnumeratesMore(hashes: seq<string>, all: set<string>, h: string)
    requires Enumerates(hashes, all) && h !in all
    ensures Enumerates(hashes + [h], all + {h})
  {
  }

  // ---------- what the calls mean ----------

  ghost predicate WorldOk(w: World) {
    forall id :: id in w.users ==> w.users[id].id == id
  }

  predicate Matches(t: Token, userId: string, id: string) {
    t.userId == userId && t.id == id
  }

  /** The secret authenticates the user up to and including a last moment, if there is one. */
  ghost predicate Authenticates(w: World, tokens: Table, raw: string, user: User, until: Option<Time>) {
    forall now: Time ::
      && Middleware(w, tokens, now, BEARER + raw) == (if until.Some? && now > until.value then Anonymous else As(user))
      && Interceptor(w, tokens, now, BEARER + raw) == (if until.Some? && now > until.value then Rejected else As(user))
  }

  /** There is a user of this name, and the password is the one of that user. */
  predicate RightPassword(w: World, username: string, password: string) {
    && username in w.userIds && w.userIds[username] in w.users && w.userIds[username] in w.passwordHashes
    && w.checkPassword(w.passwordHashes[w.userIds[username]], password)
  }

  /** A login token of the user of this name, if the password is right. */
  predicate IsLoginTokenOf(w: World, username: string, password: string, t: Token) {
    RightPassword(w, username, password) && t.userId == w.users[w.userIds[username]].id && t.note == "login"
  }

  // A name and a password log in the user of that name exactly when the password is right.
  lemma LoginUserExact(w: World, username: string, password: string)
    ensures LoginUser(w, username, password)
      == if RightPassword(w, username, password) then Some(w.users[w.userIds[username]]) else None
  {
  }

  /** A row of a known user under the hash of the secret, not past its last moment. */
  predicate Holds(w: World, tokens: Table, now: Time, raw: string) {
    var h := w.hashToken(raw);
    && h in tokens && tokens[h].userId in w.users
    && (tokens[h].expiresAt == None || now <= tokens[h].expiresAt.value)
  }

  // A header without a bearer secret is let through as nobody by both sides. One with a secret is let through as
  // the user of its row where the row holds; otherwise the REST side goes on without a user, the RPC side refuses.
  lemma AuthenticationExact(w: World, tokens: Table, now: Time, header: string, raw: string)
    ensures !("Bearer " <= header) || header == "Bearer " ==>
      Middleware(w, tokens, now, header) == Anonymous == Interceptor(w, tokens, now, header)
    ensures raw != "" && Holds(w, tokens, now, raw) ==>
      && Middleware(w, tokens, now, "Bearer " + raw) == As(w.users[tokens[w.hashToken(raw)].userId])
      && Interceptor(w, tokens, now, "Bearer " + raw) == As(w.users[tokens[w.hashToken(raw)].userId])
    ensures raw != "" && !Holds(w, tokens, now, raw) ==>
      && Middleware(w, tokens, now, "Bearer " + raw) == Anonymous
      && Interceptor(w, tokens, now, "Bearer " + raw) == Rejected
  {
    assert TrimBearer("Bearer " + raw) == raw && |"Bearer " + raw| != |raw|;
  }

  lemma RowAuthenticates(w: World, tokens: Table, raw: string, user: User)
    requires raw != "" && w.hashToken(raw) in tokens && tokens[w.hashToken(raw)].userId in w.users
    requires w.users[tokens[w.hashToken(raw)].userId] == user
    ensures Authenticates(w, tokens, raw, user, tokens[w.hashToken(raw)].expiresAt)
  {
    assert TrimBearer(BEARER + raw) == raw && |BEARER + raw| != |raw|;
  }

  // A login with the right password issues a secret that holds for exactly a day, and takes away all login tokens
  // the user had, if the clean-up works; no other token comes or goes.
  lemma LoginMeans(w: World, tokens: Table, e: Event)
    requires e.Login? && WorldOk(w)
    ensures var (tokens', r) := Step(w, tokens, e);
      var hash := w.hashToken(e.raw);
      && (r == Unauthorized <==> !RightPassword(w, e.username, e.password))
      && (r == Unauthorized ==> tokens' == tokens)
      && (r.Issued? ==>
            && RightPassword(w, e.username, e.password) && r.raw == e.raw && hash in tokens'
            && tokens'[hash] == Token(e.id, w.userIds[e.username], "login", Some(e.time + DAY)))
      && (r.Issued? && e.raw != "" ==>
            Authenticates(w, tokens', e.raw, w.users[w.userIds[e.username]], Some(e.time + DAY)))
      && (r.Issued? && !e.cleanupFails ==>
            forall h :: h in tokens' && IsLoginTokenOf(w, e.username, e.password, tokens'[h]) ==> h == hash)
      && (forall h :: h in tokens && !IsLoginTokenOf(w, e.username, e.password, tokens[h]) ==>
            h in tokens' && tokens'[h] == tokens[h])
      && (forall h :: h in tokens' ==> (h in tokens && tokens'[h] == tokens[h]) || (r.Issued? && h == hash))
  {
    hide Authenticates, Middleware, Interceptor;
    var (tokens', r) := Step(w, tokens, e);
    LoginUserExact(w, e.username, e.password);
    if r.Issued? && e.raw != "" { RowAuthenticates(w, tokens', e.raw, w.users[w.userIds[e.username]]); }
  }

  // Whoever is logged in can create a token, which authenticates them with no end; no other token comes or goes.
  lemma CreateMeans(w: World, tokens: Table, e: Event)
    requires e.Create? && WorldOk(w)
    ensures var (tokens', r) := Step(w, tokens, e);
      var caller, hash := Middleware(w, tokens, e.time, e.header), w.hashToken(e.raw);
      && (r == Unauthorized <==> !caller.As?)
      && (!r.Issued? ==> tokens' == tokens)
      && (r.Issued? ==>
            && caller.As? && r.raw == e.raw && hash !in tokens && tokens'.Keys == tokens.Keys + {hash}
            && (forall h :: h in tokens ==> tokens'[h] == tokens[h])
            && tokens'[hash] == Token(e.id, caller.user.id, e.note, None)
            && (e.raw != "" ==> Authenticates(w, tokens', e.raw, caller.user, None)))
  {
    hide Authenticates, Middleware, Interceptor;
    var (tokens', r) := Step(w, tokens, e);
    if r.Issued? { KnownCaller(w, tokens, e.time, e.header); }
    if r.Issued? && e.raw != "" { RowAuthenticates(w, tokens', e.raw, Middleware(w, tokens, e.time, e.header).user); }
  }

  lemma KnownCaller(w: World, tokens: Table, now: Time, header: string)
    requires WorldOk(w) && Middleware(w, tokens, now, header).As?
    ensures var u := Middleware(w, tokens, now, header).user; u.id in w.users && w.users[u.id] == u
  {
  }

  // A revocation takes away exactly the caller's tokens of the ID, and says whether there were any.
  lemma RevokeMeans(w: World, tokens: Table, e: Event)
    requires e.Revoke?
    ensures var (tokens', r) := Step(w, tokens, e);
      var caller := Middleware(w, tokens, e.time, e.header);
      && (r == Unauthorized <==> !caller.As?)
      && (r == Unauthorized ==> tokens' == tokens)
      && (r == Done <==> caller.As? && exists h :: h in tokens && Matches(tokens[h], caller.user.id, e.id))
      && (caller.As? ==> forall h :: h in tokens' <==> h in tokens && !Matches(tokens[h], caller.user.id, e.id))
      && (forall h :: h in tokens' ==> h in tokens && tokens'[h] == tokens[h])
  {
    hide Middleware;
    var caller := Middleware(w, tokens, e.time, e.header);
    if caller.As? { RevocationFinds(tokens, caller.user.id, e.id); }
  }

  lemma RevocationFinds(tokens: Table, userId: string, id: string)
    ensures DropId(tokens, userId, id) != tokens <==> exists h :: h in tokens && Matches(tokens[h], userId, id)
  {
    if h :| h in tokens && Matches(tokens[h], userId, id) {
      assert h !in DropId(tokens, userId, id);
    } else {
      assert DropId(tokens, userId, id) == tokens;
    }
  }

  // A collection takes away exactly the rows whose last moment has passed.
  lemma CollectMeans(w: World, tokens: Table, e: Event)
    requires e.Collect?
    ensures var (tokens', r) := Step(w, tokens, e);
      && r == Done
      && (forall h :: h in tokens' <==>
            h in tokens && (tokens[h].expiresAt.Some? ==> e.time <= tokens[h].expiresAt.value))
      && (forall h :: h in tokens' ==> tokens'[h] == tokens[h])
  {
  }

  // The token list shows a token exactly when its secret would log the user in at that moment and it is not the
  // token of a login.
  lemma ListedExactly(w: World, tokens: Table, userId: string, now: Time, raw: string)
    requires WorldOk(w) && userId in w.users && raw != ""
    ensures var h, listing := w.hashToken(raw), Listing(tokens, userId, now);
      && (h in listing <==>
            && Middleware(w, tokens, now, "Bearer " + raw) == As(w.users[userId])
            && tokens[h].note != "login")
      && (h in listing ==> listing[h] == (tokens[h].id, tokens[h].note))
  {
    hide Middleware, Interceptor;
    AuthenticationExact(w, tokens, now, "", raw);
  }

  // ---------- the handlers ----------

  class TokenServer {
    const world: World
    var tokens: Table

    constructor (world: World)
      ensures this.world == world && tokens == map[]
    {
      this.world := world;
      tokens := map[];
    }

    method DeleteByUserAndNote(userId: string, note: string, fails: bool)
      modifies this
      ensures tokens == if fails then old(tokens) else DropNote(old(tokens), userId, note)
    {
      if !fails {
        tokens := map h | h in tokens && !(tokens[h].userId == userId && tokens[h].note == note) :: tokens[h];
      }
    }

    method CreateRow(hash: string, t: Token, fails: bool) returns (ok: bool)
      modifies this
      ensures ok <==> !fails && hash !in old(tokens)
      ensures tokens == if ok then old(tokens)[hash := t] else old(tokens)
    {
      if fails || hash in tokens {
        return false;
      }
      tokens := tokens[hash := t];
      return true;
    }

    method HandleLogin(time: Time, username: string, password: string, raw: string, id: string,
                       cleanupFails: bool, createFails: bool)
      returns (r: Response)
      modifies this
      ensures (tokens, r)
        == Step(world, old(tokens), Login(time, username, password, raw, id, cleanupFails, createFails))
      ensures r == Unauthorized <==> !RightPassword(world, username, password)
      ensures r == Unauthorized ==> tokens == old(tokens)
      ensures WorldOk(world) && r.Issued? && raw != "" ==>
        RightPassword(world, username, password)
        && Authenticates(world, tokens, raw, world.users[world.userIds[username]], Some(time + DAY))
      ensures WorldOk(world) && r.Issued? && !cleanupFails ==>
        forall h :: h in tokens && IsLoginTokenOf(world, username, password, tokens[h]) ==> h == world.hashToken(raw)
      ensures WorldOk(world) ==>
        && (forall h :: h in old(tokens) && !IsLoginTokenOf(world, username, password, old(tokens)[h]) ==>
              h in tokens && tokens[h] == old(tokens)[h])
        && (forall h :: h in tokens ==>
              (h in old(tokens) && tokens[h] == old(tokens)[h]) || (r.Issued? && h == world.hashToken(raw)))
    {
      if WorldOk(world) {
        LoginMeans(world, tokens, Login(time, username, password, raw, id, cleanupFails, createFails));
      }
      LoginUserExact(world, username, password);
      var u := LoginUser(world, username, password);
      if u.None? {
        return Unauthorized;
      }
      DeleteByUserAndNote(u.value.id, "login", cleanupFails);
      var created := CreateRow(world.hashToken(raw), Token(id, u.value.id, "login", Some(time + DAY)), createFails);
      return if created then Issued(raw) else Failed;
    }

    method HandleCreate(time: Time, header: string, note: string, raw: string, id: string, createFails: bool)
      returns (r: Response)
      modifies this
      ensures (tokens, r) == Step(world, old(tokens), Create(time, header, note, raw, id, createFails))
      ensures !r.Issued? ==> tokens == old(tokens)
      ensures WorldOk(world) && r.Issued? ==>
        && old(Middleware(world, tokens, time, header)).As?
        && (raw != "" ==> Authenticates(world, tokens, raw, old(Middleware(world, tokens, time, header)).user, None))
        && world.hashToken(raw) !in old(tokens) && tokens.Keys == old(tokens).Keys + {world.hashToken(raw)}
        && forall h :: h in old(tokens) ==> tokens[h] == old(tokens)[h]
    {
      if WorldOk(world) { CreateMeans(world, tokens, Create(time, header, note, raw, id, createFails)); }
      var caller := Middleware(world, tokens, time, header);
      if !caller.As? {
        return Unauthorized;
      }
      var created := CreateRow(world.hashToken(raw), Token(id, caller.user.id, note, None), createFails);
      return if created then Issued(raw) else Failed;
    }

    method HandleRevoke(time: Time, header: string, id: string) returns (r: Response)
      modifies this
      ensures (tokens, r) == Step(world, old(tokens), Revoke(time, header, id))
      ensures r == Unauthorized ==> tokens == old(tokens)
      ensures r != Unauthorized ==>
        var caller := old(Middleware(world, tokens, time, header));
        && caller.As?
        && (r == Done <==> exists h :: h in old(tokens) && Matches(old(tokens)[h], caller.user.id, id))
        && (forall h :: h in tokens <==> h in old(tokens) && !Matches(old(tokens)[h], caller.user.id, id))
        && (forall h :: h in tokens ==> tokens[h] == old(tokens)[h])
    {
      RevokeMeans(world, tokens, Revoke(time, header, id));
      var caller := Middleware(world, tokens, time, header);
      if !caller.As? {
        return Unauthorized;
      }
      var before := tokens;
      tokens := map h | h in tokens && !(tokens[h].userId == caller.user.id && tokens[h].id == id) :: tokens[h];
      return if tokens == before then TokenNotFound else Done;
    }

    method DeleteExpired(time: Time)
      modifies this
      ensures (tokens, Done) == Step(world, old(tokens), Collect(time))
    {
      tokens := map h | h in tokens && !(tokens[h].expiresAt.Some? && tokens[h].expiresAt.value < time) :: tokens[h];
    }

    /** The rows of a user, each once, in whatever order the table gives them. */
    method ListByUser(userId: string) returns (rows: seq<Token>)
      ensures exists hashes ::
        && Enumerates(hashes, set h | h in tokens && tokens[h].userId == userId)
        && Shows(rows, tokens, hashes)
    {
      rows := [];
      ghost var hashes: seq<string> := [];
      var left := tokens.Keys;
      while left != {}
        invariant left <= tokens.Keys
        invariant Enumerates(hashes, set h' | h' in tokens && h' !in left && tokens[h'].userId == userId)
        invariant Shows(rows, tokens, hashes)
        decreases left
      {
        var h :| h in left;
        left := left - {h};
        ghost var seen := set h' | h' in tokens && h' !in left + {h} && tokens[h'].userId == userId;
        assert (set h' | h' in tokens && h' !in left && tokens[h'].userId == userId)
          == if tokens[h].userId == userId then seen + {h} else seen;
        if tokens[h].userId == userId {
          EnumeratesMore(hashes, seen, h);
          rows, hashes := rows + [tokens[h]], hashes + [h];
        }
      }
    }

    /** Shows each token that the user sees exactly once. */
    method HandleList(userId: string, now: Time) returns (shown: seq<(string, string)>)
      ensures var listing := Listing(tokens, userId, now);
        exists hashes :: Enumerates(hashes, listing.Keys) && Shows(shown, listing, hashes)
    {
      var rows := ListByUser(userId);
      ghost var all :| Enumerates(all, set h | h in tokens && tokens[h].userId == userId) && Shows(rows, tokens, all);
      shown := [];
      ghost var hashes: seq<string> := [];
      for i := 0 to |rows|
        invariant |shown| == |hashes|
        invariant Enumerates(hashes, ListedAmong(tokens, all[..i], userId, now))
        invariant forall j :: 0 <= j < |shown| ==>
          hashes[j] in tokens && shown[j] == (tokens[hashes[j]].id, tokens[hashes[j]].note)
      {
        var t := rows[i];
        assert all[..i + 1] == all[..i] + [all[i]] && all[i] !in all[..i];
        assert all[i] in all && t.userId == userId;
        ghost var seen := ListedAmong(tokens, all[..i], userId, now);
        assert ListedAmong(tokens, all[..i + 1], userId, now)
          == if Listed(tokens[all[i]], userId, now) then seen + {all[i]} else seen;
        if !(t.expiresAt.Some? && t.expiresAt.value < now) && t.note != "login" {
          EnumeratesMore(hashes, seen, all[i]);
          shown, hashes := shown + [(t.id, t.note)], hashes + [all[i]];
        }
      }
      assert all[..|rows|] == all;
      assert ListedAmong(tokens, all, userId, now) == Listing(tokens, userId, now).Keys;
      assert Shows(shown, Listing(tokens, userId, now), hashes);
    }
  }

  // ---------- runs ----------

  /** The table after a run of events from an empty start. */
  function After(w: World, events: seq<Event>): Table {
    if events == [] then map[] else Step(w, After(w, events[..|events| - 1]), events[|events| - 1]).0
  }

  predicate Issues(e: Event) {
    e.Login? || e.Create?
  }

  /** The hashes of the secrets that a run draws. */
  function Secrets(w: World, events: seq<Event>): set<string> {
    if events == [] then {}
    else
      var last := events[|events| - 1];
      Secrets(w, events[..|events| - 1]) + if Issues(last) then {w.hashToken(last.raw)} else {}
  }

  /** Secrets are drawn fresh: none has the hash of one drawn before it. */
  predicate FreshSecrets(w: World, events: seq<Event>) {
    events == [] ||
    var before, last := events[..|events| - 1], events[|events| - 1];
    FreshSecrets(w, before) && (Issues(last) ==> w.hashToken(last.raw) !in Secrets(w, before))
  }

  ghost predicate InOrder(events: seq<Event>, now: Time) {
    && (forall i, j :: 0 <= i < j < |events| ==> events[i].time <= events[j].time)
    && (forall i :: 0 <= i < |events| ==> events[i].time <= now)
  }

  lemma InOrderPrefix(events: seq<Event>, now: Time, n: nat)
    requires InOrder(events, now) && n < |events|
    ensures InOrder(events[..n], events[n].time)
  {
  }

  lemma {:induction false} HashesAreDrawn(w: World, events: seq<Event>)
    ensures After(w, events).Keys <= Secrets(w, events)
  {
    if events != [] {
      HashesAreDrawn(w, events[..|events| - 1]);
    }
  }

  lemma {:induction false} SecretIsDrawn(w: World, events: seq<Event>, i: nat)
    requires i < |events| && Issues(events[i])
    ensures w.hashToken(events[i].raw) in Secrets(w, events)
  {
    if i < |events| - 1 {
      SecretIsDrawn(w, events[..|events| - 1], i);
    }
  }

  // ---------- collection is invisible ----------

  /** Two tables hold the same rows, as far as these have not expired. */
  ghost predicate SameLive(a: Table, b: Table, now: Time) {
    && (forall h :: h in a && !Expired(a[h], now) ==> h in b && b[h] == a[h])
    && (forall h :: h in b && !Expired(b[h], now) ==> h in a && a[h] == b[h])
  }

  /** The run with every collection left out. */
  function WithoutCollections(events: seq<Event>): seq<Event> {
    if events == [] then []
    else
      var rest, e := WithoutCollections(events[..|events| - 1]), events[|events| - 1];
      if e.Collect? then rest else rest + [e]
  }

  lemma LiveTablesLookTheSame(w: World, a: Table, b: Table, now: Time, header: string, userId: string)
    requires SameLive(a, b, now)
    ensures Middleware(w, a, now, header) == Middleware(w, b, now, header)
    ensures Interceptor(w, a, now, header) == Interceptor(w, b, now, header)
    ensures Listing(a, userId, now) == Listing(b, userId, now)
  {
    assert forall h :: h in a && Listed(a[h], userId, now) ==> h in b && b[h] == a[h];
    assert forall h :: h in b && Listed(b[h], userId, now) ==> h in a && a[h] == b[h];
  }

  lemma StepKeepsSameLive(w: World, a: Table, b: Table, e: Event)
    requires SameLive(a, b, e.time) && !e.Collect?
    requires Issues(e) ==> w.hashToken(e.raw) !in a && w.hashToken(e.raw) !in b
    ensures SameLive(Step(w, a, e).0, Step(w, b, e).0, e.time)
  {
    hide Middleware, LoginUser, DropExpired, Expired;
    if !e.Login? { SameCaller(w, a, b, e.time, e.header); }
  }

  lemma SameCaller(w: World, a: Table, b: Table, now: Time, header: string)
    requires SameLive(a, b, now)
    ensures Middleware(w, a, now, header) == Middleware(w, b, now, header)
  {
  }

  lemma CollectStep(w: World, a: Table, b: Table, e: Event)
    requires SameLive(a, b, e.time) && e.Collect?
    ensures SameLive(Step(w, a, e).0, b, e.time)
  {
  }

  lemma SnocWithoutCollections(events: seq<Event>)
    requires events != []
    ensures var before, e := events[..|events| - 1], events[|events| - 1];
      WithoutCollections(events) == if e.Collect? then WithoutCollections(before) else WithoutCollections(before) + [e]
  {
  }

  lemma AfterSnoc(w: World, events: seq<Event>, e: Event)
    ensures After(w, events + [e]) == Step(w, After(w, events), e).0
    ensures Secrets(w, events + [e]) == Secrets(w, events) + if Issues(e) then {w.hashToken(e.raw)} else {}
  {
    assert (events + [e])[..|events|] == events;
  }

  lemma {:induction false} SameLiveWithoutCollections(w: World, events: seq<Event>, now: Time)
    requires InOrder(events, now) && FreshSecrets(w, events)
    ensures SameLive(After(w, events), After(w, WithoutCollections(events)), now)
    ensures Secrets(w, WithoutCollections(events)) == Secrets(w, events)
  {
    hide Step, SameLive, After, WithoutCollections;
    if events == [] {
      NothingLive(w, now);
    } else {
      var before, e := events[..|events| - 1], events[|events| - 1];
      assert events == before + [e];
      InOrderPrefix(events, now, |before|);
      SameLiveWithoutCollections(w, before, e.time);
      SnocWithoutCollections(events);
      AfterSnoc(w, before, e);
      AfterSnoc(w, WithoutCollections(before), e);
      HashesAreDrawn(w, before);
      HashesAreDrawn(w, WithoutCollections(before));
      var a, b := After(w, before), After(w, WithoutCollections(before));
      if e.Collect? {
        CollectStep(w, a, b, e);
      } else {
        StepKeepsSameLive(w, a, b, e);
      }
      LaterStillSame(After(w, events), After(w, WithoutCollections(events)), e.time, now);
    }
  }

  lemma NothingLive(w: World, now: Time)
    ensures WithoutCollections([]) == [] && SameLive(After(w, []), After(w, []), now)
  {
  }

  lemma LaterStillSame(a: Table, b: Table, now: Time, later: Time)
    requires SameLive(a, b, now) && now <= later
    ensures SameLive(a, b, later)
  {
  }

  // Collections, wherever they happen in a run, change neither whom either authenticator lets through, nor
  // which user it attaches, nor what the token list shows.
  lemma CollectionIsInvisible(w: World, events: seq<Event>, now: Time, header: string, userId: string)
    requires InOrder(events, now) && FreshSecrets(w, events)
    ensures var a, b := After(w, events), After(w, WithoutCollections(events));
      && Middleware(w, a, now, header) == Middleware(w, b, now, header)
      && Interceptor(w, a, now, header) == Interceptor(w, b, now, header)
      && Listing(a, userId, now) == Listing(b, userId, now)
  {
    SameLiveWithoutCollections(w, events, now);
    LiveTablesLookTheSame(w, After(w, events), After(w, WithoutCollections(events)), now, header, userId);
  }

  // The answer to a revocation is the one place where a collection shows: it changes the answer exactly when
  // all the caller's tokens of that ID have expired, and there is one.
  lemma CollectionShowsInRevocation(w: World, tokens: Table, now: Time, header: string, id: string)
    requires Middleware(w, tokens, now, header).As?
    ensures var u := Middleware(w, tokens, now, header).user.id;
      Step(w, DropExpired(tokens, now), Revoke(now, header, id)).1 != Step(w, tokens, Revoke(now, header, id)).1
      <==>
      && (exists h :: h in tokens && Matches(tokens[h], u, id))
      && (forall h :: h in tokens && Matches(tokens[h], u, id) ==> Expired(tokens[h], now))
  {
    var u := Middleware(w, tokens, now, header).user.id;
    SameCaller(w, DropExpired(tokens, now), tokens, now, header);
    RevocationFinds(tokens, u, id);
    RevocationFinds(DropExpired(tokens, now), u, id);
  }

  // ---------- how long a token holds ----------

  /** The row that an event inserts when it issues a secret to a user. */
  function Row(e: Event, user: User): Token
    requires Issues(e)
  {
    if e.Login? then Token(e.id, user.id, "login", Some(e.time + DAY)) else Token(e.id, user.id, e.note, None)
  }

  /** The event issues its secret to this user: an accepted login, or a creation under a header that holds. */
  predicate IssuesTo(w: World, tokens: Table, e: Event, user: User) {
    match e
    case Login(_, username, password, _, _, _, createFails) =>
      RightPassword(w, username, password) && w.users[w.userIds[username]] == user && !createFails
    case Create(time, header, _, _, _, createFails) => Middleware(w, tokens, time, header) == As(user) && !createFails
    case _ => false
  }

  /** The event takes a token out of the table before its time: a revocation of its ID by its user, or, if it
      carries the note "login", an accepted login of its user whose clean-up works. */
  predicate Ends(w: World, tokens: Table, e: Event, t: Token) {
    match e
    case Login(_, username, password, _, _, cleanupFails, _) =>
      !cleanupFails && IsLoginTokenOf(w, username, password, t)
    case Revoke(time, header, id) =>
      id == t.id && Middleware(w, tokens, time, header).As? && Middleware(w, tokens, time, header).user.id == t.userId
    case _ => false
  }

  /** No event after the i-th ends the token. */
  ghost predicate Unended(w: World, events: seq<Event>, i: nat, t: Token) {
    forall j :: i < j < |events| ==> !Ends(w, After(w, events[..j]), events[j], t)
  }

  lemma {:induction false} IssuedTokenInTable(w: World, events: seq<Event>, now: Time, i: nat, user: User)
    requires InOrder(events, now) && FreshSecrets(w, events) && i < |events|
    requires IssuesTo(w, After(w, events[..i]), events[i], user)
    ensures var e, tokens := events[i], After(w, events);
      var h, t := w.hashToken(e.raw), Row(e, user);
      && (h in tokens ==> tokens[h] == t && Unended(w, events, i, t))
      && (h !in tokens ==> !Unended(w, events, i, t) || Expired(t, now))
    decreases |events|
  {
    hide Step, After, LoginUser, Ends, Middleware, Unended;
    var before, last := events[..|events| - 1], events[|events| - 1];
    assert events == before + [last] && events[..i] == before[..i];
    InOrderPrefix(events, now, |before|);
    AfterSnoc(w, before, last);
    HashesAreDrawn(w, before);
    if i == |before| {
      assert before[..i] == before;
      FreshRow(w, After(w, before), last, user);
      NothingAfter(w, events, i, Row(last, user));
    } else {
      var e := before[i];
      IssuedTokenInTable(w, before, last.time, i, user);
      SecretIsDrawn(w, before, i);
      LastEvent(w, events, i, Row(e, user));
      OtherRow(w, After(w, before), last, w.hashToken(e.raw));
    }
  }

  lemma FreshRow(w: World, tokens: Table, e: Event, user: User)
    requires IssuesTo(w, tokens, e, user) && w.hashToken(e.raw) !in tokens
    ensures var h, tokens' := w.hashToken(e.raw), Step(w, tokens, e).0;
      h in tokens' && tokens'[h] == Row(e, user)
  {
    hide Middleware, LoginUser, RightPassword;
    if e.Login? { LoginUserExact(w, e.username, e.password); }
  }

  lemma NothingAfter(w: World, events: seq<Event>, i: nat, t: Token)
    requires i == |events| - 1
    ensures Unended(w, events, i, t)
  {
  }

  lemma LastEvent(w: World, events: seq<Event>, i: nat, t: Token)
    requires i < |events| - 1
    ensures var before, last := events[..|events| - 1], events[|events| - 1];
      Unended(w, events, i, t) <==> Unended(w, before, i, t) && !Ends(w, After(w, before), last, t)
  {
    hide After, Ends;
    var before := events[..|events| - 1];
    assert forall j :: 0 <= j < |before| ==> before[..j] == events[..j] && before[j] == events[j];
  }

  // What one event does to a row that it does not insert.
  lemma OtherRow(w: World, tokens: Table, e: Event, h: string)
    requires Issues(e) ==> w.hashToken(e.raw) != h
    ensures var tokens' := Step(w, tokens, e).0;
      && (h in tokens' ==> h in tokens && tokens'[h] == tokens[h])
      && (h in tokens ==>
            (h in tokens' <==> !Ends(w, tokens, e, tokens[h]) && !(e.Collect? && Expired(tokens[h], e.time))))
  {
    hide Middleware, LoginUser, RightPassword;
    if e.Login? { LoginUserExact(w, e.username, e.password); }
  }

  // At every moment after a token was issued, its secret authenticates its user exactly when it has not expired
  // and nothing since has ended it.
  lemma TokenExactlyValid(w: World, events: seq<Event>, now: Time, i: nat, user: User)
    requires InOrder(events, now) && FreshSecrets(w, events) && i < |events|
    requires IssuesTo(w, After(w, events[..i]), events[i], user) && events[i].raw != ""
    requires user.id in w.users && w.users[user.id] == user
    ensures var e, tokens := events[i], After(w, events);
      var valid := !Expired(Row(e, user), now) && Unended(w, events, i, Row(e, user));
      && (Middleware(w, tokens, now, BEARER + e.raw) == As(user) <==> valid)
      && (Interceptor(w, tokens, now, BEARER + e.raw) == As(user) <==> valid)
  {
    hide After, Unended, FreshSecrets, InOrder, LoginUser;
    var e := events[i];
    IssuedTokenInTable(w, events, now, i, user);
    assert TrimBearer(BEARER + e.raw) == e.raw;
    assert |BEARER + e.raw| != |e.raw|;
  }

  // The token of a login holds exactly as long as no more than a day has passed, no later accepted login of the
  // same user has cleaned it up, and that user has not revoked it.
  lemma LoginTokenExactlyValid(w: World, events: seq<Event>, now: Time, i: nat, user: User)
    requires InOrder(events, now) && FreshSecrets(w, events) && i < |events|
    requires var e := events[i];
      && e.Login? && e.raw != "" && !e.createFails
      && RightPassword(w, e.username, e.password) && w.users[w.userIds[e.username]] == user
    requires user.id in w.users && w.users[user.id] == user
    ensures var e, tokens := events[i], After(w, events);
      var last := e.time + 86_400_000_000_000;
      var valid := now <= last && Unended(w, events, i, Token(e.id, user.id, "login", Some(last)));
      && (Middleware(w, tokens, now, BEARER + e.raw) == As(user) <==> valid)
      && (Interceptor(w, tokens, now, BEARER + e.raw) == As(user) <==> valid)
  {
    hide After, Unended, Middleware, Interceptor, FreshSecrets, InOrder;
    TokenExactlyValid(w, events, now, i, user);
  }

  // The token of a creation has no end of its own: it holds until its user revokes it, unless it carries the
  // note "login".
  lemma CreatedTokenExactlyValid(w: World, events: seq<Event>, now: Time, i: nat, user: User)
    requires InOrder(events, now) && FreshSecrets(w, events) && i < |events|
    requires var e := events[i];
      e.Create? && e.raw != "" && Middleware(w, After(w, events[..i]), e.time, e.header) == As(user) && !e.createFails
    requires user.id in w.users && w.users[user.id] == user
    ensures var e, tokens := events[i], After(w, events);
      var valid := Unended(w, events, i, Token(e.id, user.id, e.note, None));
      && (Middleware(w, tokens, now, BEARER + e.raw) == As(user) <==> valid)
      && (Interceptor(w, tokens, now, BEARER + e.raw) == As(user) <==> valid)
    ensures events[i].note != "login" ==>
      (Unended(w, events, i, Token(events[i].id, user.id, events[i].note, None)) <==>
         forall j :: i < j < |events| && events[j].Revoke? && events[j].id == events[i].id ==>
           !RevokedBy(w, After(w, events[..j]), events[j], user.id))
  {
    hide After, Middleware, Interceptor, FreshSecrets, InOrder;
    TokenExactlyValid(w, events, now, i, user);
  }

  predicate RevokedBy(w: World, tokens: Table, e: Event, userId: string)
    requires e.Revoke?
  {
    Middleware(w, tokens, e.time, e.header).As? && Middleware(w, tokens, e.time, e.header).user.id == userId
  }

  // A login leaves every token alone that is another user's or does not carry the note "login"; a token to
  // which the user gave that note goes with the login tokens.
  lemma LoginTouchesOnlyLoginTokens(w: World, tokens: Table, e: Event, h: string)
    requires e.Login? && h in tokens && h != w.hashToken(e.raw)
    ensures var tokens' := Step(w, tokens, e).0;
      && (h in tokens' ==> tokens'[h] == tokens[h])
      && (h !in tokens' <==>
            && RightPassword(w, e.username, e.password) && !e.cleanupFails
            && tokens[h].userId == w.users[w.userIds[e.username]].id && tokens[h].note == "login")
  {
    hide RightPassword;
    LoginUserExact(w, e.username, e.password);
  }

  // ---------- two runs ----------

  const ANN: User := User("u", "ann")

  /** One user, Ann, with the password "p"; hashes leave their argument as it is. */
  const DEMO: World := World(
    map["u" := ANN], map["ann" := "u"], map["u" := "p"], raw => raw, (hash, password) => hash == password)

  function LoginAt(time: Time, raw: string, id: string): Event {
    Login(time, "ann", "p", raw, id, false, false)
  }

  function CreateAt(time: Time, secret: string, note: string, raw: string, id: string): Event {
    Create(time, BEARER + secret, note, raw, id, false)
  }

  lemma RowAdmits(tokens: Table, now: Time, raw: string)
    requires raw != "" && raw in tokens && tokens[raw].userId == "u" && !Expired(tokens[raw], now)
    ensures Middleware(DEMO, tokens, now, BEARER + raw) == As(ANN)
  {
    assert TrimBearer(BEARER + raw) == raw && |BEARER + raw| != |raw|;
  }

  /** Ann logs in and makes herself an API token with this note. */
  function Setup(note: string): seq<Event> {
    [LoginAt(0, "r", "t"), CreateAt(1, "r", note, "s", "v")]
  }

  lemma SetupGives(note: string)
    ensures After(DEMO, Setup(note))
      == map["r" := Token("t", "u", "login", Some(DAY)), "s" := Token("v", "u", note, None)]
  {
    var events := Setup(note);
    assert events[..1] == [LoginAt(0, "r", "t")] && events[..1][..0] == [];
    assert After(DEMO, []) == map[];
    assert DropNote(map[], "u", "login") == map[];
    assert After(DEMO, events[..1]) == map["r" := Token("t", "u", "login", Some(DAY))];
    RowAdmits(After(DEMO, events[..1]), 1, "r");
  }

  // More than a day after a login, revoking its token through an API token succeeds, and finds nothing if the
  // expired tokens have been collected before.
  lemma CollectionShows()
    ensures var revoke := Revoke(DAY + 1, BEARER + "s", "t");
      && Step(DEMO, After(DEMO, Setup("ci")), revoke).1 == Done
      && Step(DEMO, After(DEMO, Setup("ci") + [Collect(DAY + 1)]), revoke).1 == TokenNotFound
  {
    hide After, Middleware, Setup;
    SetupGives("ci");
    var tokens, now := After(DEMO, Setup("ci")), DAY + 1;
    var collected := After(DEMO, Setup("ci") + [Collect(now)]);
    AfterSnoc(DEMO, Setup("ci"), Collect(now));
    RowAdmits(tokens, now, "s");
    assert collected == map["s" := Token("v", "u", "ci", None)];
    RowAdmits(collected, now, "s");
    assert "r" !in DropId(tokens, "u", "t");
    assert DropId(collected, "u", "t") == collected;
  }

  // An API token that its user gave the note "login" holds until the user's next login.
  lemma NotedTokenEnds()
    ensures Middleware(DEMO, After(DEMO, Setup("login")), 2, BEARER + "s") == As(ANN)
    ensures Middleware(DEMO, After(DEMO, Setup("login") + [LoginAt(2, "q", "w")]), 2, BEARER + "s") == Anonymous
  {
    hide After, Setup;
    SetupGives("login");
    var tokens := After(DEMO, Setup("login"));
    RowAdmits(tokens, 2, "s");
    AfterSnoc(DEMO, Setup("login"), LoginAt(2, "q", "w"));
    assert DropNote(tokens, "u", "login") == map[];
    assert TrimBearer(BEARER + "s") == "s" && |BEARER + "s"| != |"s"|;
  }
}
