/**
  Login, refresh-token rotation and logout. Transactions are serial. Hashes are injective, so a stored row is keyed by
  the token it was made from; a token is a function of its claims, and its expiry claim is in whole seconds (section
  4.1.4 of RFC 7519), while the clock and the stored rows are in microseconds.
 */
module Auth {
  import opened Common

  type UserId = nat

  const TICKS := 1_000_000
  const REFRESH_LIFE := 30 * 86400 * TICKS
  const ACCESS_LIFE := 30 * 60 * TICKS

  datatype TokenType = Access | Refresh

  datatype Token = Token(sub: UserId, exp: int, kind: TokenType)

  /** What a client presents: a token we signed, or anything else. */
  datatype Credential = Signed(token: Token) | Garbage(text: string)

  datatype PasswordHash = Hashed(password: string)

  datatype User = User(id: UserId, password: PasswordHash, isActive: bool)

  /** Where a login came from. */
  datatype Client = Client(ip: Option<string>, userAgent: Option<string>)

  const NO_CLIENT := Client(None, None)

  datatype TokenRow = TokenRow(userId: UserId, expiresAt: int, isRevoked: bool, client: Client)

  /** The columns of refresh_tokens take the values. */
  predicate Fits(client: Client) {
    Within(client.ip, 45) && Within(client.userAgent, 512)
  }

  /** Users by their unique email, refresh tokens by their unique hash. */
  datatype Tables = Tables(users: map<string, User>, tokens: map<Credential, TokenRow>)

  datatype Error =
    | EmailTaken | BadCredentials | Deactivated | InvalidOrExpired | InvalidToken | InvalidType | IntegrityError
    | DataError

  datatype Pair = Pair(access: Token, refresh: Credential)

  function MakeToken(sub: UserId, kind: TokenType, now: int): Token {
    Token(sub, (now + if kind == Access then ACCESS_LIFE else REFRESH_LIFE) / TICKS, kind)
  }

  function MakePair(sub: UserId, now: int): Pair {
    Pair(MakeToken(sub, Access, now), Signed(MakeToken(sub, Refresh, now)))
  }

  /** decode_token: signature and expiry claim; a token is accepted through its last second. */
  function Decode(c: Credential, now: int): Option<Token> {
    if c.Signed? && c.token.exp >= now / TICKS then Some(c.token) else None
  }

  /** get_by_hash: stored, not revoked, not expired. */
  function LiveRow(tokens: map<Credential, TokenRow>, c: Credential, now: int): Option<TokenRow> {
    if c in tokens && !tokens[c].isRevoked && tokens[c].expiresAt > now then Some(tokens[c]) else None
  }

  // ---------------------------------------------------------------------------------------------------------------
  // The four operations, each one transaction. `later` is the clock when the row's own expiry is computed.
  // ---------------------------------------------------------------------------------------------------------------

  function DoRegister(t: Tables, email: string, password: string, id: UserId): (Tables, Result<User, Error>) {
    if email in t.users then (t, Err(EmailTaken))
    else if exists e | e in t.users :: t.users[e].id == id then (t, Err(IntegrityError))
    else
      var user := User(id, Hashed(password), true);
      (t.(users := t.users[email := user]), Ok(user))
  }

  function DoLogin(t: Tables, email: string, password: string, client: Client, now: int, later: int)
    : (Tables, Result<Pair, Error>)
  {
    if email !in t.users || !t.users[email].isActive || t.users[email].password != Hashed(password) then
      (t, Err(BadCredentials))
    else if !t.users[email].isActive then (t, Err(Deactivated))
    else
      var pair := MakePair(t.users[email].id, now);
      if !Fits(client) then (t, Err(DataError))
      else if pair.refresh in t.tokens then (t, Err(IntegrityError))
      else
        var row := TokenRow(t.users[email].id, later + REFRESH_LIFE, false, client);
        (t.(tokens := t.tokens[pair.refresh := row]), Ok(pair))
  }

  function DoRefresh(t: Tables, c: Credential, now: int, later: int): (Tables, Result<Pair, Error>) {
    var stored := LiveRow(t.tokens, c, now);
    var payload := Decode(c, now);
    if stored == None then (t, Err(InvalidOrExpired))
    else if payload == None then (t, Err(InvalidToken))
    else if payload.value.kind != Refresh then (t, Err(InvalidType))
    else
      var revoked := t.tokens[c := stored.value.(isRevoked := true)];
      var pair := MakePair(payload.value.sub, now);
      if pair.refresh in revoked then (t, Err(IntegrityError))
      else
        var row := TokenRow(stored.value.userId, later + REFRESH_LIFE, false, NO_CLIENT);
        (t.(tokens := revoked[pair.refresh := row]), Ok(pair))
  }

  function DoLogout(t: Tables, c: Credential, now: int): Tables {
    var stored := LiveRow(t.tokens, c, now);
    if stored.Some? then t.(tokens := t.tokens[c := stored.value.(isRevoked := true)]) else t
  }

  // ---------------------------------------------------------------------------------------------------------------
  // Runs, with a record of who issued what
  // ---------------------------------------------------------------------------------------------------------------

  /** `lineage` maps each stored token to the login its chain began with; `exchanged` lists the exchanged tokens. */
  datatype World = World(
    tables: Tables,
    lineage: map<Credential, nat>,
    logins: nat,
    logouts: nat,
    exchanged: seq<Credential>)

  datatype Op =
    | Register(email: string, password: string, id: UserId)
    | Login(email: string, password: string, client: Client, now: int, later: int)
    | Exchange(c: Credential, now: int, later: int)
    | Logout(c: Credential, now: int)

  const START := World(Tables(map[], map[]), map[], 0, 0, [])

  function Step(w: World, op: Op): World {
    match op
    case Register(email, password, id) => w.(tables := DoRegister(w.tables, email, password, id).0)
    case Login(email, password, client, now, later) =>
      var (tables, r) := DoLogin(w.tables, email, password, client, now, later);
      if r.Ok? then
        w.(tables := tables, lineage := w.lineage[r.value.refresh := w.logins], logins := w.logins + 1)
      else w.(tables := tables)
    case Exchange(c, now, later) =>
      var (tables, r) := DoRefresh(w.tables, c, now, later);
      if r.Ok? && c in w.lineage then
        w.(tables := tables, lineage := w.lineage[r.value.refresh := w.lineage[c]], exchanged := w.exchanged + [c])
      else w.(tables := tables)
    case Logout(c, now) =>
      var effective := LiveRow(w.tables.tokens, c, now).Some?;
      w.(tables := DoLogout(w.tables, c, now), logouts := if effective then w.logouts + 1 else w.logouts)
  }

  function Run(w: World, ops: seq<Op>): World
    decreases |ops|
  {
    if ops == [] then w else Run(Step(w, ops[0]), ops[1..])
  }

  function Unrevoked(tokens: map<Credential, TokenRow>): set<Credential> {
    set c | c in tokens && !tokens[c].isRevoked
  }

  /** Every stored row belongs to the subject of the refresh token it was made from. */
  ghost predicate RowsMatchTokens(tokens: map<Credential, TokenRow>) {
    forall c :: c in tokens ==> c.Signed? && c.token.kind == Refresh && c.token.sub == tokens[c].userId
  }

  /** A chain has at most one token that is not revoked. */
  ghost predicate OneLivePerLineage(tokens: map<Credential, TokenRow>, lineage: map<Credential, nat>, logins: nat) {
    && lineage.Keys == tokens.Keys
    && (forall c :: c in lineage ==> lineage[c] < logins)
    && (forall a, b :: a in tokens && b in tokens && a != b && lineage[a] == lineage[b]
          ==> tokens[a].isRevoked || tokens[b].isRevoked)
  }

  /** No token is exchanged twice, and an exchanged token is revoked. */
  ghost predicate ExchangedOnce(tokens: map<Credential, TokenRow>, exchanged: seq<Credential>) {
    && (forall i, j :: 0 <= i < j < |exchanged| ==> exchanged[i] != exchanged[j])
    && (forall c :: c in exchanged ==> c in tokens && tokens[c].isRevoked)
  }

  ghost predicate Inv(w: World) {
    && RowsMatchTokens(w.tables.tokens)
    && OneLivePerLineage(w.tables.tokens, w.lineage, w.logins)
    && ExchangedOnce(w.tables.tokens, w.exchanged)
    && |Unrevoked(w.tables.tokens)| == w.logins - w.logouts
  }

  /** Storing a new, unrevoked token in a chain that has no live one. */
  lemma {:induction false} StoreLineage(tokens: map<Credential, TokenRow>, lineage: map<Credential, nat>, logins: nat,
                                        c: Credential, row: TokenRow, chain: nat, logins': nat)
    requires OneLivePerLineage(tokens, lineage, logins) && c !in tokens
    requires chain < logins' && logins <= logins'
    requires forall a :: a in tokens && lineage[a] == chain ==> tokens[a].isRevoked
    ensures OneLivePerLineage(tokens[c := row], lineage[c := chain], logins')
  {
  }

  lemma {:induction false} StoreCount(tokens: map<Credential, TokenRow>, c: Credential, row: TokenRow)
    requires c !in tokens && !row.isRevoked
    ensures |Unrevoked(tokens[c := row])| == |Unrevoked(tokens)| + 1
  {
    assert Unrevoked(tokens[c := row]) == Unrevoked(tokens) + {c};
  }

  lemma {:induction false} StoreOthers(tokens: map<Credential, TokenRow>, c: Credential, row: TokenRow,
                                       exchanged: seq<Credential>)
    requires RowsMatchTokens(tokens) && ExchangedOnce(tokens, exchanged) && c !in tokens
    requires c.Signed? && c.token.kind == Refresh && c.token.sub == row.userId
    ensures RowsMatchTokens(tokens[c := row]) && ExchangedOnce(tokens[c := row], exchanged)
  {
  }

  /** Revoking a live token leaves its chain without one. */
  lemma {:induction false} RevokeKeeps(tokens: map<Credential, TokenRow>, lineage: map<Credential, nat>, logins: nat,
                                       exchanged: seq<Credential>, c: Credential)
    requires RowsMatchTokens(tokens) && OneLivePerLineage(tokens, lineage, logins) && ExchangedOnce(tokens, exchanged)
    requires c in tokens && !tokens[c].isRevoked
    ensures var revoked := tokens[c := tokens[c].(isRevoked := true)];
      && RowsMatchTokens(revoked) && OneLivePerLineage(revoked, lineage, logins)
      && ExchangedOnce(revoked, exchanged) && ExchangedOnce(revoked, exchanged + [c])
      && |Unrevoked(revoked)| == |Unrevoked(tokens)| - 1
      && (forall a :: a in revoked && lineage[a] == lineage[c] ==> revoked[a].isRevoked)
  {
    var revoked := tokens[c := tokens[c].(isRevoked := true)];
    assert c in Unrevoked(tokens);
    assert Unrevoked(revoked) == Unrevoked(tokens) - {c};
  }

  lemma {:induction false} LoginKeeps(w: World, email: string, password: string, client: Client, now: int, later: int)
    requires Inv(w)
    ensures Inv(Step(w, Login(email, password, client, now, later)))
  {
    hide RowsMatchTokens, Unrevoked, ExchangedOnce;
    var tokens := w.tables.tokens;
    var r := DoLogin(w.tables, email, password, client, now, later).1;
    if r.Ok? {
      var row := TokenRow(w.tables.users[email].id, later + REFRESH_LIFE, false, client);
      assert forall a :: a in tokens ==> a in w.lineage && w.lineage[a] != w.logins;
      StoreLineage(tokens, w.lineage, w.logins, r.value.refresh, row, w.logins, w.logins + 1);
      StoreOthers(tokens, r.value.refresh, row, w.exchanged);
      StoreCount(tokens, r.value.refresh, row);
    }
  }

  lemma {:induction false} SubjectOfRow(tokens: map<Credential, TokenRow>, c: Credential)
    requires RowsMatchTokens(tokens) && c in tokens
    ensures c.Signed? && c.token.sub == tokens[c].userId
  {
  }

  lemma {:induction false} ExchangeKeeps(w: World, c: Credential, now: int, later: int)
    requires Inv(w)
    ensures Inv(Step(w, Exchange(c, now, later)))
  {
    hide RowsMatchTokens, Unrevoked, ExchangedOnce;
    var tokens := w.tables.tokens;
    var r := DoRefresh(w.tables, c, now, later).1;
    if r.Ok? {
      var revoked := tokens[c := tokens[c].(isRevoked := true)];
      var row := TokenRow(tokens[c].userId, later + REFRESH_LIFE, false, NO_CLIENT);
      SubjectOfRow(tokens, c);
      RevokeKeeps(tokens, w.lineage, w.logins, w.exchanged, c);
      StoreLineage(revoked, w.lineage, w.logins, r.value.refresh, row, w.lineage[c], w.logins);
      StoreOthers(revoked, r.value.refresh, row, w.exchanged + [c]);
      StoreCount(revoked, r.value.refresh, row);
    }
  }

  lemma {:induction false} LogoutKeeps(w: World, c: Credential, now: int)
    requires Inv(w)
    ensures Inv(Step(w, Logout(c, now)))
  {
    hide RowsMatchTokens, Unrevoked, ExchangedOnce, OneLivePerLineage;
    if LiveRow(w.tables.tokens, c, now).Some? {
      RevokeKeeps(w.tables.tokens, w.lineage, w.logins, w.exchanged, c);
    }
  }

  lemma {:induction false} StepKeepsInv(w: World, op: Op)
    requires Inv(w)
    ensures Inv(Step(w, op))
  {
    hide RowsMatchTokens, Unrevoked, DoLogin, DoRefresh, DoLogout;
    match op
    case Register(email, password, id) =>
    case Login(email, password, client, now, later) => LoginKeeps(w, email, password, client, now, later);
    case Exchange(c, now, later) => ExchangeKeeps(w, c, now, later);
    case Logout(c, now) => LogoutKeeps(w, c, now);
  }

  lemma {:induction false} RunKeepsInv(w: World, ops: seq<Op>)
    requires Inv(w)
    ensures Inv(Run(w, ops))
    decreases |ops|
  {
    hide Inv, Step;
    if ops == [] {
    } else {
      StepKeepsInv(w, ops[0]);
      RunKeepsInv(Step(w, ops[0]), ops[1..]);
    }
  }

  /**
    In every run: each login's chain has at most one token left unrevoked, no token is exchanged twice, each row's user
    is its token's subject, and the unrevoked tokens are the logins less the effective logouts.
   */
  lemma {:induction false} RotationIsSafe(ops: seq<Op>)
    ensures var w := Run(START, ops);
      && RowsMatchTokens(w.tables.tokens) && OneLivePerLineage(w.tables.tokens, w.lineage, w.logins)
      && ExchangedOnce(w.tables.tokens, w.exchanged)
      && |Unrevoked(w.tables.tokens)| == w.logins - w.logouts
  {
    assert Unrevoked(map[]) == {};
    assert Inv(START);
    hide Run;
    RunKeepsInv(START, ops);
  }

  lemma {:induction false} StepKeepsRevoked(w: World, op: Op, c: Credential)
    requires c in w.tables.tokens && w.tables.tokens[c].isRevoked
    ensures var t := Step(w, op).tables.tokens; c in t && t[c] == w.tables.tokens[c]
  {
  }

  /** A revoked token stays revoked, whatever happens next, and is never accepted again. */
  lemma {:induction false} RevocationIsPermanent(w: World, ops: seq<Op>, c: Credential, now: int, later: int)
    requires c in w.tables.tokens && w.tables.tokens[c].isRevoked
    ensures var t := Run(w, ops).tables;
      && c in t.tokens && t.tokens[c] == w.tables.tokens[c]
      && DoRefresh(t, c, now, later) == (t, Err(InvalidOrExpired)) && DoLogout(t, c, now) == t
    decreases |ops|
  {
    hide Step;
    if ops == [] {
    } else {
      StepKeepsRevoked(w, ops[0], c);
      RevocationIsPermanent(Step(w, ops[0]), ops[1..], c, now, later);
    }
  }

  /** The row of a token presented at `now` stands: stored, not revoked, not run out. */
  ghost predicate Stands(t: Tables, c: Credential, now: int) {
    c in t.tokens && !t.tokens[c].isRevoked && now < t.tokens[c].expiresAt
  }

  /** No stored token of the user runs out in the same second as one issued at `now` would, 30 days on. */
  ghost predicate SecondIsFree(t: Tables, user: UserId, now: int) {
    forall d :: d in t.tokens && t.tokens[d].userId == user ==>
      d.Signed? && d.token.exp != (now + 30 * 24 * 3600 * 1_000_000) / 1_000_000
  }

  /** A new access token of half an hour and a new refresh token of 30 days for the user. */
  ghost predicate PairFor(p: Pair, user: UserId, now: int) {
    && p.access == Token(user, (now + 30 * 60 * 1_000_000) / 1_000_000, Access)
    && p.refresh == Signed(Token(user, (now + 30 * 24 * 3600 * 1_000_000) / 1_000_000, TokenType.Refresh))
  }

  lemma {:induction false} SecondIsKey(t: Tables, user: UserId, now: int)
    requires RowsMatchTokens(t.tokens)
    ensures SecondIsFree(t, user, now) <==> MakePair(user, now).refresh !in t.tokens
    ensures PairFor(MakePair(user, now), user, now)
  {
    var issued := MakePair(user, now).refresh;
    forall d | d in t.tokens && t.tokens[d].userId == user
      ensures d == issued <==> d.token.exp == (now + 30 * 24 * 3600 * 1_000_000) / 1_000_000
    {
      assert d.token.kind == TokenType.Refresh && d.token.sub == user;
    }
    if issued in t.tokens {
      assert t.tokens[issued].userId == user;
    }
  }

  /**
    In a reachable state a credential is exchanged exactly when its row stands, its claim has not run out, and no token
    of the same user runs out in the second the new one would. Then the old row is revoked, one row is added that stands
    for 30 days, the new pair is the same user's, and no other row changes. Otherwise nothing changes.
   */
  lemma {:induction false} ExchangeExactly(ops: seq<Op>, c: Credential, now: int, later: int)
    ensures var t := Run(START, ops).tables;
      var (t', r) := DoRefresh(t, c, now, later);
      if !Stands(t, c, now) then r == Err(InvalidOrExpired) && t' == t
      else if !(c.Signed? && now / 1_000_000 <= c.token.exp) then r == Err(InvalidToken) && t' == t
      else if !SecondIsFree(t, t.tokens[c].userId, now) then r == Err(IntegrityError) && t' == t
      else
        var user := t.tokens[c].userId;
        && r.Ok? && PairFor(r.value, user, now) && r.value.refresh !in t.tokens
        && t'.users == t.users
        && t'.tokens == t.tokens[c := t.tokens[c].(isRevoked := true)]
                                [r.value.refresh := TokenRow(user, later + 30 * 24 * 3600 * 1_000_000, false,
                                                             Client(None, None))]
  {
    RotationIsSafe(ops);
    hide Run, OneLivePerLineage, ExchangedOnce;
    var t := Run(START, ops).tables;
    if Stands(t, c, now) {
      SubjectOfRow(t.tokens, c);
      SecondIsKey(t, t.tokens[c].userId, now);
      assert c.token.kind == TokenType.Refresh;
    }
    hide RowsMatchTokens, MakePair, PairFor, SecondIsFree;
  }

  lemma {:induction false} RunOneMore(w: World, ops: seq<Op>, op: Op)
    ensures Run(w, ops + [op]) == Step(Run(w, ops), op)
    decreases |ops|
  {
    hide Step;
    if ops == [] {
      assert [] + [op] == [op] && [op][1..] == [];
    } else {
      assert (ops + [op])[1..] == ops[1..] + [op];
      RunOneMore(Step(w, ops[0]), ops[1..], op);
    }
  }

  /**
    A chain goes on: the token an exchange returned is itself exchanged at any time before its row and its claim run
    out, unless a stored token of the user runs out in the second the next one would, as the token itself does in the
    second it was issued.
   */
  lemma {:induction false} ChainGoesOn(ops: seq<Op>, c: Credential, now: int, later: int, next: int, nextLater: int)
    requires DoRefresh(Run(START, ops).tables, c, now, later).1.Ok?
    ensures var (t, r) := DoRefresh(Run(START, ops).tables, c, now, later);
      DoRefresh(t, r.value.refresh, next, nextLater).1.Ok? <==>
      && next < later + 30 * 24 * 3600 * 1_000_000
      && next / 1_000_000 <= (now + 30 * 24 * 3600 * 1_000_000) / 1_000_000
      && SecondIsFree(t, t.tokens[c].userId, next)
  {
    var (t, r) := DoRefresh(Run(START, ops).tables, c, now, later);
    ExchangeExactly(ops, c, now, later);
    RunOneMore(START, ops, Exchange(c, now, later));
    ExchangeExactly(ops + [Exchange(c, now, later)], r.value.refresh, next, nextLater);
    StepTables(Run(START, ops), Exchange(c, now, later));
    hide Run, DoRefresh, SecondIsFree, Step;
  }

  lemma {:induction false} StepTables(w: World, op: Op)
    ensures op.Exchange? ==> Step(w, op).tables == DoRefresh(w.tables, op.c, op.now, op.later).0
    ensures op.Register? ==> Step(w, op).tables == DoRegister(w.tables, op.email, op.password, op.id).0
  {
    hide DoRefresh, DoRegister;
  }

  /**
    In a reachable state a login succeeds exactly when the account is active, the password is right, the client's
    address and agent fit their columns and no token of the account runs out in the second the new one would. Then one
    row is added, which stands for 30 days, and the pair is the account's. Otherwise nothing changes.
   */
  lemma {:induction false} LoginExactly(ops: seq<Op>, email: string, password: string, client: Client, now: int,
                                        later: int)
    ensures var t := Run(START, ops).tables;
      var (t', r) := DoLogin(t, email, password, client, now, later);
      if !(email in t.users && t.users[email].isActive && t.users[email].password == Hashed(password)) then
        r == Err(BadCredentials) && t' == t
      else if (client.ip.Some? && |client.ip.value| > 45) || (client.userAgent.Some? && |client.userAgent.value| > 512)
      then r == Err(DataError) && t' == t
      else if !SecondIsFree(t, t.users[email].id, now) then r == Err(IntegrityError) && t' == t
      else
        var user := t.users[email].id;
        && r.Ok? && PairFor(r.value, user, now) && r.value.refresh !in t.tokens
        && t'.users == t.users
        && t'.tokens == t.tokens[r.value.refresh := TokenRow(user, later + 30 * 24 * 3600 * 1_000_000, false, client)]
  {
    RotationIsSafe(ops);
    hide Run, OneLivePerLineage, ExchangedOnce;
    var t := Run(START, ops).tables;
    if email in t.users {
      SecondIsKey(t, t.users[email].id, now);
    }
    hide RowsMatchTokens, MakePair, PairFor, SecondIsFree;
  }

  /** A token cannot be exchanged in the clock second it was issued in: the attempt fails and leaves it valid. */
  lemma {:induction false} SameSecondExchangeFails(t: Tables, sub: UserId, issued: int, now: int, later: int)
    requires issued / TICKS == now / TICKS
    requires LiveRow(t.tokens, MakePair(sub, issued).refresh, now).Some?
    ensures DoRefresh(t, MakePair(sub, issued).refresh, now, later) == (t, Err(IntegrityError))
  {
    SecondsShift(issued);
    SecondsShift(now);
    assert MakePair(sub, now).refresh == MakePair(sub, issued).refresh;
  }

  lemma {:induction false} SecondsShift(now: int)
    ensures (now + REFRESH_LIFE) / TICKS == now / TICKS + 30 * 86400
  {
  }

  /** A logout revokes the row of a token that stands and changes nothing else; otherwise it changes nothing. */
  lemma {:induction false} LogoutExactly(t: Tables, c: Credential, now: int)
    ensures var t' := DoLogout(t, c, now);
      && t'.users == t.users
      && t'.tokens == if Stands(t, c, now) then t.tokens[c := t.tokens[c].(isRevoked := true)] else t.tokens
  {
  }

  // Accounts ---------------------------------------------------------------------------------------------------------

  /** Ids are unique, and every stored token belongs to an account. */
  ghost predicate AccountsOk(t: Tables) {
    && (forall a, b :: a in t.users && b in t.users && t.users[a].id == t.users[b].id ==> a == b)
    && (forall c :: c in t.tokens ==> HasAccount(t.users, t.tokens[c].userId))
  }

  ghost predicate HasAccount(users: map<string, User>, id: UserId) {
    exists email :: email in users && users[email].id == id
  }

  lemma {:induction false} StepKeepsAccounts(w: World, op: Op)
    requires AccountsOk(w.tables)
    ensures AccountsOk(Step(w, op).tables)
  {
    var t' := Step(w, op).tables;
    forall id | HasAccount(w.tables.users, id) ensures HasAccount(t'.users, id) {
      var email :| email in w.tables.users && w.tables.users[email].id == id;
      assert email in t'.users && t'.users[email].id == id;
    }
    hide MakePair, HasAccount, Decode;
    if op.Login? && op.email in w.tables.users {
      AccountOf(w.tables.users, op.email);
    }
  }

  lemma {:induction false} AccountOf(users: map<string, User>, email: string)
    requires email in users
    ensures HasAccount(users, users[email].id)
  {
  }

  lemma {:induction false} RunKeepsAccounts(w: World, ops: seq<Op>)
    requires AccountsOk(w.tables)
    ensures AccountsOk(Run(w, ops).tables)
    decreases |ops|
  {
    hide AccountsOk, Step;
    if ops == [] {
    } else {
      StepKeepsAccounts(w, ops[0]);
      RunKeepsAccounts(Step(w, ops[0]), ops[1..]);
    }
  }

  /**
    A registration fails on a taken email and on a taken id, and otherwise adds one active account. That account can log
    in at once from any client that fits, with its password and with no other.
   */
  lemma {:induction false} RegisterThenLogin(ops: seq<Op>, email: string, password: string, id: UserId, attempt: string,
                                             client: Client, now: int, later: int)
    ensures var t := Run(START, ops).tables;
      var (t', r) := DoRegister(t, email, password, id);
      if email in t.users then r == Err(EmailTaken) && t' == t
      else if exists e :: e in t.users && t.users[e].id == id then r == Err(IntegrityError) && t' == t
      else
        var user := User(id, Hashed(password), true);
        && r == Ok(user) && t' == Tables(t.users[email := user], t.tokens)
        && (DoLogin(t', email, attempt, client, now, later).1.Ok? <==>
              && attempt == password
              && (client.ip.Some? ==> |client.ip.value| <= 45)
              && (client.userAgent.Some? ==> |client.userAgent.value| <= 512))
  {
    var t := Run(START, ops).tables;
    var op := Register(email, password, id);
    assert AccountsOk(START.tables);
    RunKeepsAccounts(START, ops);
    RunOneMore(START, ops, op);
    StepTables(Run(START, ops), op);
    LoginExactly(ops + [op], email, attempt, client, now, later);
    hide Run, DoLogin, Step;
    if email !in t.users && !exists e :: e in t.users && t.users[e].id == id {
      assert forall c :: c in t.tokens ==> t.tokens[c].userId != id;
      assert SecondIsFree(DoRegister(t, email, password, id).0, id, now);
    }
  }

  // ---------------------------------------------------------------------------------------------------------------
  // The service object
  // ---------------------------------------------------------------------------------------------------------------

  class AuthService {
    var users: map<string, User>
    var tokens: map<Credential, TokenRow>

    constructor ()
      ensures State() == START.tables
    {
      users, tokens := map[], map[];
    }

    ghost function State(): Tables
      reads this
    {
      Tables(users, tokens)
    }

    method Register(email: string, password: string, id: UserId) returns (r: Result<User, Error>)
      modifies this
      ensures (State(), r) == DoRegister(old(State()), email, password, id)
    {
      if email in users {
        return Err(EmailTaken);
      }
      if exists e | e in users :: users[e].id == id {
        return Err(IntegrityError);
      }
      var user := User(id, Hashed(password), true);
      users := users[email := user];
      return Ok(user);
    }

    method Login(email: string, password: string, client: Client, now: int, later: int)
      returns (r: Result<Pair, Error>)
      modifies this
      ensures (State(), r) == DoLogin(old(State()), email, password, client, now, later)
    {
      if email !in users || !users[email].isActive {
        return Err(BadCredentials);
      }
      var user := users[email];
      if user.password != Hashed(password) {
        return Err(BadCredentials);
      }
      var refresh := Signed(MakeToken(user.id, TokenType.Refresh, now));
      if !Fits(client) {
        return Err(DataError);
      }
      if refresh in tokens {
        return Err(IntegrityError);
      }
      tokens := tokens[refresh := TokenRow(user.id, later + REFRESH_LIFE, false, client)];
      return Ok(Pair(MakeToken(user.id, Access, now), refresh));
    }

    /** The revocation is flushed first; a clash of the new token rolls it back. */
    method Refresh(c: Credential, now: int, later: int) returns (r: Result<Pair, Error>)
      modifies this
      ensures (State(), r) == DoRefresh(old(State()), c, now, later)
    {
      if c !in tokens || tokens[c].isRevoked || tokens[c].expiresAt <= now {
        return Err(InvalidOrExpired);
      }
      var stored := tokens[c];
      if !c.Signed? || c.token.exp < now / TICKS {
        return Err(InvalidToken);
      }
      if c.token.kind != TokenType.Refresh {
        return Err(InvalidType);
      }
      var before := tokens;
      tokens := tokens[c := stored.(isRevoked := true)];
      var renewed := Signed(MakeToken(c.token.sub, TokenType.Refresh, now));
      if renewed in tokens {
        tokens := before;
        return Err(IntegrityError);
      }
      tokens := tokens[renewed := TokenRow(stored.userId, later + REFRESH_LIFE, false, NO_CLIENT)];
      return Ok(Pair(MakeToken(c.token.sub, Access, now), renewed));
    }

    method Logout(c: Credential, now: int)
      modifies this
      ensures State() == DoLogout(old(State()), c, now)
    {
      if c in tokens && !tokens[c].isRevoked && tokens[c].expiresAt > now {
        tokens := tokens[c := tokens[c].(isRevoked := true)];
      }
    }
  }
}
