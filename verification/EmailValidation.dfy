/** Email verification and email change: core/src/auth/email-validation-service.ts.

    `Step` is one operation on the two tables. A run leaves a trace of what its callers saw:
    each operation, whether it reported success, and the mail that it sent. The theorems speak
    about that trace. The class at the end performs the same operations statement by statement. */
module EmailValidation {
  import opened Collections
  import opened Optional
  import opened Text

  const DAY_MS := 86_400_000

  datatype Kind = Initial | Change

  datatype User = User(
    email: Option<string>, verified: bool,
    pendingEmail: Option<string>, pendingToken: Option<string>, pendingExpires: Option<int>)

  datatype Verification = Verification(userId: nat, email: string, kind: Kind, expiresAt: int)

  /** `tokens` is the verification table, keyed by its unique column, the hash of the token. */
  datatype Db = Db(users: map<nat, User>, tokens: map<string, Verification>)

  // ----- tokens and signatures

  /** The hash, the signature under the token key, whether a secrets manager is set, and the
      format check on addresses. */
  datatype Env = Env(hash: string -> string, sign: string -> string, secrets: bool, validEmail: string -> bool)

  ghost predicate EnvOk(env: Env) {
    && (forall a, b :: env.hash(a) == env.hash(b) ==> a == b)
    && (forall a :: Lacks(env.sign(a), '.'))
  }

  function HexValue(c: char): int {
    if '0' <= c <= '9' then c as int - '0' as int
    else if 'a' <= c <= 'f' then c as int - 'a' as int + 10
    else if 'A' <= c <= 'F' then c as int - 'A' as int + 10
    else -1
  }

  /** `Buffer.from(s, 'hex')`: pairs of digits, up to the first pair that is none. */
  function HexBytes(s: string): seq<int> {
    if |s| < 2 || HexValue(s[0]) < 0 || HexValue(s[1]) < 0 then []
    else [16 * HexValue(s[0]) + HexValue(s[1])] + HexBytes(s[2..])
  }

  predicate VerifySignature(env: Env, raw: string, signature: string) {
    HexBytes(signature) == HexBytes(env.sign(raw))
  }

  function FinalToken(env: Env, raw: string): string {
    if env.secrets then raw + "." + env.sign(raw) else raw
  }

  /** The text whose hash is looked up for a presented token. */
  function Resolved(env: Env, token: string): Option<string> {
    if env.secrets && '.' in token && |Split(token, '.')| == 2 then
      var parts := Split(token, '.');
      if VerifySignature(env, parts[0], parts[1]) then Some(parts[0]) else None
    else Some(token)
  }

  /** A presented string stands for a raw token exactly when it is that token, or, with secrets
      set, that token, a dot and a dot-free text that decodes to the bytes of its signature. */
  lemma ResolvedIff(env: Env, token: string, raw: string)
    requires Lacks(raw, '.')
    ensures Resolved(env, token) == Some(raw) <==>
            token == raw || (env.secrets && exists sig :: Lacks(sig, '.') && VerifySignature(env, raw, sig) && token == raw + "." + sig)
  {
    if env.secrets && exists sig :: Lacks(sig, '.') && VerifySignature(env, raw, sig) && token == raw + "." + sig {
      var sig :| Lacks(sig, '.') && VerifySignature(env, raw, sig) && token == raw + "." + sig;
      SplitHead(raw, sig, '.');
      SplitWhole(sig, '.');
      assert token[|raw|] == '.';
    }
    if Resolved(env, token) == Some(raw) && token != raw {
      var parts := Split(token, '.');
      JoinOfSplit(token, '.');
      assert Join(parts, '.') == parts[0] + "." + parts[1];
    }
  }

  const LOWER_HEX := "0123456789abcdef"
  const UPPER_HEX := "0123456789ABCDEF"

  lemma HexValueIff(c: char, v: nat)
    requires v < 16
    ensures HexValue(c) == v <==> c == LOWER_HEX[v] || c == UPPER_HEX[v]
    ensures HexValue(c) < 16
  {
  }

  predicate IsHex(s: string) {
    forall i | 0 <= i < |s| :: 0 <= HexValue(s[i])
  }

  /** The same digits, of either case, are followed by no further pair of digits. */
  predicate ExtendsHex(t: string, s: string) {
    && |s| <= |t| && (forall i | 0 <= i < |s| :: HexValue(t[i]) == HexValue(s[i]))
    && !(|t| >= |s| + 2 && 0 <= HexValue(t[|s|]) && 0 <= HexValue(t[|s| + 1]))
  }

  lemma {:induction false} HexBytesIff(s: string, t: string)
    requires IsHex(s) && |s| % 2 == 0
    ensures HexBytes(t) == HexBytes(s) <==> ExtendsHex(t, s)
  {
    if s != "" {
      HexValueIff(s[0], 0);
      HexValueIff(s[1], 0);
      if |t| >= 2 && 0 <= HexValue(t[0]) && 0 <= HexValue(t[1]) {
        HexValueIff(t[0], 0);
        HexValueIff(t[1], 0);
        HexBytesIff(s[2..], t[2..]);
        HexBytesUnfold(s);
        HexBytesUnfold(t);
        ExtendsHexStep(t, s);
      }
    }
  }

  lemma HexBytesUnfold(s: string)
    requires |s| >= 2 && 0 <= HexValue(s[0]) < 16 && 0 <= HexValue(s[1]) < 16
    ensures |HexBytes(s)| == 1 + |HexBytes(s[2..])| && HexBytes(s)[1..] == HexBytes(s[2..])
    ensures HexBytes(s)[0] / 16 == HexValue(s[0]) && HexBytes(s)[0] % 16 == HexValue(s[1])
  {
  }

  lemma ExtendsHexStep(t: string, s: string)
    requires |s| >= 2 && |t| >= 2
    ensures ExtendsHex(t, s) <==>
            HexValue(t[0]) == HexValue(s[0]) && HexValue(t[1]) == HexValue(s[1]) && ExtendsHex(t[2..], s[2..])
  {
    if ExtendsHex(t[2..], s[2..]) && HexValue(t[0]) == HexValue(s[0]) && HexValue(t[1]) == HexValue(s[1]) {
      forall i | 0 <= i < |s| ensures HexValue(t[i]) == HexValue(s[i]) {
        if i >= 2 {
          assert t[2..][i - 2] == t[i] && s[2..][i - 2] == s[i];
        }
      }
    }
  }

  /** A presented signature verifies exactly when it starts with the digits of the signature, in
      either case, and they are not followed by two more digits. */
  lemma SignatureVerifiesIff(env: Env, raw: string, signature: string)
    requires IsHex(env.sign(raw)) && |env.sign(raw)| % 2 == 0
    ensures VerifySignature(env, raw, signature) <==> ExtendsHex(signature, env.sign(raw))
  {
    HexBytesIff(env.sign(raw), signature);
  }

  lemma FinalTokenResolves(env: Env, raw: string)
    requires EnvOk(env) && Lacks(raw, '.')
    ensures Resolved(env, FinalToken(env, raw)) == Some(raw)
  {
    ResolvedIff(env, FinalToken(env, raw), raw);
  }

  lemma {:induction false} HexBytesStop(s: string, tail: string)
    requires |s| % 2 == 0 && |tail| >= 1 && HexValue(tail[0]) < 0
    ensures HexBytes(s + tail) == HexBytes(s)
  {
    if |s| >= 2 {
      assert (s + tail)[2..] == s[2..] + tail;
      HexBytesStop(s[2..], tail);
    }
  }

  /** The accepted strings are more than the two that the service hands out: a signature of even
      length may be followed by anything that starts with a character that is no hex digit. */
  lemma SignatureTailIsIgnored(env: Env, raw: string, tail: string)
    requires EnvOk(env) && Lacks(raw, '.') && env.secrets && |env.sign(raw)| % 2 == 0
    requires tail != "" && HexValue(tail[0]) < 0 && Lacks(tail, '.')
    ensures Resolved(env, FinalToken(env, raw) + tail) == Some(raw)
  {
    var sig := env.sign(raw) + tail;
    HexBytesStop(env.sign(raw), tail);
    assert FinalToken(env, raw) + tail == raw + "." + sig;
    ResolvedIff(env, FinalToken(env, raw) + tail, raw);
  }

  // ----- the operations

  /** `mailing` is the time between drawing a change token and recording the pending change, which
      has the clock of the database read a second time. */
  datatype Op =
    | Request(userId: nat, newEmail: string, raw: string, now: int, mailing: nat)
    | Complete(token: string, now: int)
    | Cancel(userId: nat, now: int)
    | Send(userId: nat, raw: string, now: int)
    | VerifyCurrent(token: string, now: int)
    | Sweep(now: int)

  datatype Mail = Mail(to: string, token: string)

  datatype Outcome = Outcome(ok: bool, mail: Option<Mail>)

  const REFUSED := Outcome(false, None)
  const DONE := Outcome(true, None)

  /** `excludeUserId` 0 excludes nobody. */
  predicate EmailInUse(users: map<nat, User>, email: string, excludeUserId: nat) {
    exists id :: id in users && users[id].email == Some(email) && (excludeUserId == 0 || id != excludeUserId)
  }

  /** SQLite's `datetime()` keeps whole seconds. */
  function Second(ms: int): int {
    ms / 1000
  }

  function WithoutTokens(tokens: map<string, Verification>, userId: nat, kind: Kind): map<string, Verification> {
    map h | h in tokens && !(tokens[h].userId == userId && tokens[h].kind == kind) :: tokens[h]
  }

  function Issue(env: Env, tokens: map<string, Verification>, userId: nat, email: string, kind: Kind, raw: string, now: int)
    : map<string, Verification>
  {
    WithoutTokens(tokens, userId, kind)[env.hash(raw) := Verification(userId, email, kind, now + DAY_MS)]
  }

  /** The row of an unexpired token; looking up an expired one deletes it. */
  function Lookup(env: Env, db: Db, token: string, now: int): Option<Verification> {
    var raw := Resolved(env, token);
    if raw.Some? && env.hash(raw.value) in db.tokens && now < db.tokens[env.hash(raw.value)].expiresAt
    then Some(db.tokens[env.hash(raw.value)]) else None
  }

  function Purge(env: Env, db: Db, token: string, now: int): Db {
    var raw := Resolved(env, token);
    if raw.Some? && env.hash(raw.value) in db.tokens && db.tokens[env.hash(raw.value)].expiresAt <= now
    then db.(tokens := db.tokens - {env.hash(raw.value)}) else db
  }

  function Consume(env: Env, db: Db, token: string): map<string, Verification> {
    var raw := Resolved(env, token);
    if raw.Some? then db.tokens - {env.hash(raw.value)} else db.tokens
  }

  function ClearPending(user: User): User {
    user.(pendingEmail := None, pendingToken := None, pendingExpires := None)
  }

  function SweepUser(user: User, now: int): User {
    if user.pendingExpires.Some? && Second(user.pendingExpires.value) <= Second(now) then ClearPending(user) else user
  }

  function StepRequest(env: Env, db: Db, userId: nat, newEmail: string, raw: string, now: int, mailing: nat): (Db, Outcome) {
    if !env.validEmail(newEmail) || EmailInUse(db.users, newEmail, userId) || userId !in db.users then (db, REFUSED)
    else
      var user := db.users[userId].(pendingEmail := Some(newEmail), pendingToken := Some(FinalToken(env, raw)),
                                    pendingExpires := Some(1000 * Second(now + mailing) + DAY_MS));
      (Db(db.users[userId := user], Issue(env, db.tokens, userId, newEmail, Change, raw, now)),
       Outcome(true, Some(Mail(newEmail, FinalToken(env, raw)))))
  }

  function StepComplete(env: Env, db: Db, token: string, now: int): (Db, Outcome) {
    var row := Lookup(env, db, token, now);
    if row.None? then (Purge(env, db, token, now), REFUSED)
    else
      var v := row.value;
      if v.kind != Change || v.userId !in db.users || db.users[v.userId].pendingEmail != Some(v.email)
         || EmailInUse(db.users, v.email, v.userId) then (db, REFUSED)
      else
        var user := ClearPending(db.users[v.userId]).(email := Some(v.email), verified := true);
        (Db(db.users[v.userId := user], Consume(env, db, token)), DONE)
  }

  function StepCancel(db: Db, userId: nat): (Db, Outcome) {
    var users := if userId in db.users then db.users[userId := ClearPending(db.users[userId])] else db.users;
    (Db(users, WithoutTokens(db.tokens, userId, Change)), DONE)
  }

  function StepSend(env: Env, db: Db, userId: nat, raw: string, now: int): (Db, Outcome) {
    if userId !in db.users || db.users[userId].email.GetOr("") == "" || db.users[userId].verified then (db, REFUSED)
    else
      var email := db.users[userId].email.value;
      (db.(tokens := Issue(env, db.tokens, userId, email, Initial, raw, now)),
       Outcome(true, Some(Mail(email, FinalToken(env, raw)))))
  }

  function StepVerifyCurrent(env: Env, db: Db, token: string, now: int): (Db, Outcome) {
    var row := Lookup(env, db, token, now);
    if row.None? then (Purge(env, db, token, now), REFUSED)
    else if row.value.kind != Initial then (db, REFUSED)
    else
      var u := row.value.userId;
      var users := if u in db.users then db.users[u := db.users[u].(verified := true)] else db.users;
      (Db(users, Consume(env, db, token)), DONE)
  }

  function StepSweep(db: Db, now: int): (Db, Outcome) {
    (Db(map u | u in db.users :: SweepUser(db.users[u], now),
        map h | h in db.tokens && Second(db.tokens[h].expiresAt) > Second(now) :: db.tokens[h]), DONE)
  }

  function Step(env: Env, db: Db, op: Op): (Db, Outcome) {
    match op
    case Request(u, e, raw, now, mailing) => StepRequest(env, db, u, e, raw, now, mailing)
    case Complete(token, now) => StepComplete(env, db, token, now)
    case Cancel(u, _) => StepCancel(db, u)
    case Send(u, raw, now) => StepSend(env, db, u, raw, now)
    case VerifyCurrent(token, now) => StepVerifyCurrent(env, db, token, now)
    case Sweep(now) => StepSweep(db, now)
  }

  // ----- what an operation does, told without the step

  /** Nobody else has the address; user 0 counts as somebody else to itself. */
  predicate FreeFor(users: map<nat, User>, email: string, userId: nat) {
    forall v | v in users && users[v].email == Some(email) :: v == userId && userId != 0
  }

  /** The tokens of the user and kind are gone, and the new one stands for the address for a day. */
  ghost predicate Issued(env: Env, before: map<string, Verification>, after: map<string, Verification>,
      userId: nat, email: string, kind: Kind, raw: string, now: int)
  {
    forall h: string ::
      if h == env.hash(raw) then
        h in after && after[h] == Verification(userId, email, kind, now + 24 * 60 * 60 * 1000)
      else if h in before && !(before[h].userId == userId && before[h].kind == kind) then
        h in after && after[h] == before[h]
      else h !in after
  }

  /** The mail goes to the address, and the token in it stands for the raw token. */
  predicate Mails(env: Env, outcome: Outcome, to: string, raw: string) {
    outcome.ok && outcome.mail.Some? && outcome.mail.value.to == to && Resolved(env, outcome.mail.value.token) == Some(raw)
  }

  /** The whole seconds until a day after the instant, as `datetime('now', '+24 hours')` counts. */
  predicate DayAfter(expires: int, t: int) {
    expires % 1000 == 0 && expires <= t + 24 * 60 * 60 * 1000 < expires + 1000
  }

  /** A change is requested exactly for a valid address that nobody else has and a user who
      exists. Then the mailed token goes to that address and stands for the stored one, the user's
      pending change is that address, that token and its expiry, and nothing else about the users
      changes. Otherwise nothing happens. */
  lemma RequestIff(env: Env, db: Db, userId: nat, newEmail: string, raw: string, now: int, mailing: nat)
    requires EnvOk(env) && Lacks(raw, '.')
    ensures var s := Step(env, db, Request(userId, newEmail, raw, now, mailing));
            if env.validEmail(newEmail) && userId in db.users && FreeFor(db.users, newEmail, userId) then
              && Mails(env, s.1, newEmail, raw)
              && Issued(env, db.tokens, s.0.tokens, userId, newEmail, Change, raw, now)
              && exists e :: DayAfter(e, now + mailing)
                   && s.0.users == db.users[userId := User(db.users[userId].email, db.users[userId].verified, Some(newEmail),
                                                           Some(s.1.mail.value.token), Some(e))]
            else s.0 == db && !s.1.ok && s.1.mail.None?
  {
    FinalTokenResolves(env, raw);
    DayAfterSecond(now + mailing);
  }

  lemma DayAfterSecond(t: int)
    ensures DayAfter(1000 * Second(t) + DAY_MS, t)
  {
    assert 1000 * (t / 1000) + t % 1000 == t;
    assert (1000 * (t / 1000) + DAY_MS) % 1000 == 0;
  }

  /** An initial token is mailed exactly to a user who exists, has an address and is not verified;
      it goes to that address and stands for the stored one, and no user changes. */
  lemma SendIff(env: Env, db: Db, userId: nat, raw: string, now: int)
    requires EnvOk(env) && Lacks(raw, '.')
    ensures var s := Step(env, db, Send(userId, raw, now));
            if userId in db.users && !db.users[userId].verified && db.users[userId].email.Some? && db.users[userId].email.value != "" then
              && Mails(env, s.1, db.users[userId].email.value, raw)
              && Issued(env, db.tokens, s.0.tokens, userId, db.users[userId].email.value, Initial, raw, now)
              && s.0.users == db.users
            else s.0 == db && !s.1.ok && s.1.mail.None?
  {
    FinalTokenResolves(env, raw);
  }

  /** A cancellation always succeeds, and clears the user's pending change and change tokens and
      nothing else. */
  lemma CancelClears(env: Env, db: Db, userId: nat, now: int)
    ensures var s := Step(env, db, Cancel(userId, now));
            && s.1.ok && s.1.mail.None?
            && s.0.users.Keys == db.users.Keys
            && (forall v | v in db.users ::
                  s.0.users[v] == if v == userId then User(db.users[v].email, db.users[v].verified, None, None, None) else db.users[v])
            && (forall h :: h in s.0.tokens <==> h in db.tokens && !(db.tokens[h].userId == userId && db.tokens[h].kind == Change))
            && (forall h | h in s.0.tokens :: s.0.tokens[h] == db.tokens[h])
  {
  }

  /** A sweep clears a pending change exactly when its expiry lies in a second that is not after
      the present one, and nothing else about users. */
  lemma SweepClearsPending(env: Env, db: Db, now: int)
    ensures var s := Step(env, db, Sweep(now));
            && s.0.users.Keys == db.users.Keys
            && forall v | v in db.users ::
                 s.0.users[v] ==
                 if db.users[v].pendingExpires.Some? && SecondsBetween(now, db.users[v].pendingExpires.value) <= 0
                 then User(db.users[v].email, db.users[v].verified, None, None, None) else db.users[v]
  {
    forall v | v in db.users && db.users[v].pendingExpires.Some?
      ensures SecondsBetween(now, db.users[v].pendingExpires.value) ==
              Second(db.users[v].pendingExpires.value) - Second(now)
    {
      SecondsBetweenSeconds(now, db.users[v].pendingExpires.value);
    }
  }

  /** How many boundaries of seconds lie between two instants. */
  function SecondsBetween(from: int, to: int): int {
    (to - to % 1000 - (from - from % 1000)) / 1000
  }

  lemma SecondsBetweenSeconds(from: int, to: int)
    ensures SecondsBetween(from, to) == Second(to) - Second(from)
  {
    assert to - to % 1000 - (from - from % 1000) == 1000 * (to / 1000 - from / 1000);
  }

  // ----- runs and traces

  datatype Entry = Entry(op: Op, outcome: Outcome)

  function After(env: Env, db: Db, ops: seq<Op>): Db {
    if ops == [] then db else Step(env, After(env, db, ops[..|ops| - 1]), ops[|ops| - 1]).0
  }

  function Trace(env: Env, db: Db, ops: seq<Op>): (tr: seq<Entry>)
    ensures |tr| == |ops| && forall i | 0 <= i < |ops| :: tr[i].op == ops[i]
  {
    if ops == [] then []
    else
      var before, op := ops[..|ops| - 1], ops[|ops| - 1];
      Trace(env, db, before) + [Entry(op, Step(env, After(env, db, before), op).1)]
  }

  predicate Draws(op: Op) {
    op.Request? || op.Send?
  }

  /** Random tokens are dot-free and never drawn twice. */
  ghost predicate FreshTokens(ops: seq<Op>) {
    && (forall i | 0 <= i < |ops| && Draws(ops[i]) :: Lacks(ops[i].raw, '.'))
    && (forall i, j | 0 <= i < j < |ops| && Draws(ops[i]) && Draws(ops[j]) :: ops[i].raw != ops[j].raw)
  }

  /** The entry mailed a token. */
  predicate Mailed(e: Entry) {
    Draws(e.op) && e.outcome.mail.Some?
  }

  function KindOf(op: Op): Kind {
    if op.Send? then Initial else Change
  }

  function RowOf(e: Entry): Verification
    requires Mailed(e)
  {
    Verification(e.op.userId, e.outcome.mail.value.to, KindOf(e.op), e.op.now + DAY_MS)
  }

  /** The later entry ends the life of the token that the earlier one mailed: a new token of the
      same user and kind, a cancellation, an accepted use, a use after expiry, or a sweep. */
  predicate Ends(env: Env, later: Entry, issue: Entry)
    requires Mailed(issue)
  {
    var row := RowOf(issue);
    match later.op
    case Request(u, _, _, _, _) => later.outcome.ok && u == row.userId && row.kind == Change
    case Send(u, _, _) => later.outcome.ok && u == row.userId && row.kind == Initial
    case Cancel(u, _) => u == row.userId && row.kind == Change
    case Complete(token, now) => Resolved(env, token) == Some(issue.op.raw) && (later.outcome.ok || row.expiresAt <= now)
    case VerifyCurrent(token, now) => Resolved(env, token) == Some(issue.op.raw) && (later.outcome.ok || row.expiresAt <= now)
    case Sweep(now) => Second(row.expiresAt) <= Second(now)
  }

  ghost predicate Live(env: Env, tr: seq<Entry>, j: nat) {
    j < |tr| && Mailed(tr[j]) && forall i | j < i < |tr| :: !Ends(env, tr[i], tr[j])
  }

  // ----- the table holds exactly the live tokens

  /** What one operation does to the row of an earlier token. */
  lemma StepOnRow(env: Env, db: Db, op: Op, issue: Entry)
    requires EnvOk(env) && Mailed(issue) && (Draws(op) ==> op.raw != issue.op.raw)
    requires env.hash(issue.op.raw) in db.tokens ==> db.tokens[env.hash(issue.op.raw)] == RowOf(issue)
    ensures var s, h := Step(env, db, op), env.hash(issue.op.raw);
            && (h in s.0.tokens <==> h in db.tokens && !Ends(env, Entry(op, s.1), issue))
            && (h in s.0.tokens ==> s.0.tokens[h] == RowOf(issue))
  {
  }

  lemma StepOnNewRow(env: Env, db: Db, op: Op)
    requires Mailed(Entry(op, Step(env, db, op).1))
    ensures var s := Step(env, db, op);
            env.hash(op.raw) in s.0.tokens && s.0.tokens[env.hash(op.raw)] == RowOf(Entry(op, s.1))
  {
  }

  lemma StepAddsNoOther(env: Env, db: Db, op: Op, h: string)
    requires h !in db.tokens && h in Step(env, db, op).0.tokens
    ensures Mailed(Entry(op, Step(env, db, op).1)) && h == env.hash(op.raw)
  {
  }

  ghost predicate TokenTold(env: Env, db: Db, tr: seq<Entry>, j: nat) {
    j < |tr| && Mailed(tr[j]) ==>
      var h := env.hash(tr[j].op.raw);
      (h in db.tokens <==> Live(env, tr, j)) && (h in db.tokens ==> db.tokens[h] == RowOf(tr[j]))
  }

  ghost predicate RowTold(env: Env, db: Db, tr: seq<Entry>, h: string) {
    h in db.tokens ==> exists j: nat :: Live(env, tr, j) && h == env.hash(tr[j].op.raw)
  }

  lemma LiveNext(env: Env, tr: seq<Entry>, e: Entry, j: nat)
    requires j < |tr| && Mailed(tr[j])
    ensures Live(env, tr + [e], j) <==> Live(env, tr, j) && !Ends(env, e, tr[j])
  {
    var tr' := tr + [e];
    assert tr'[j] == tr[j] && tr'[|tr|] == e;
    if Live(env, tr', j) {
      forall i | j < i < |tr| ensures !Ends(env, tr[i], tr[j]) {
        assert tr'[i] == tr[i];
      }
    }
  }

  ghost predicate TableTold(env: Env, db: Db, tr: seq<Entry>) {
    && (forall j: nat :: TokenTold(env, db, tr, j))
    && (forall h :: RowTold(env, db, tr, h))
  }

  lemma TableToldNext(env: Env, db: Db, tr: seq<Entry>, op: Op)
    requires EnvOk(env) && TableTold(env, db, tr)
    requires forall j | 0 <= j < |tr| && Draws(tr[j].op) && Draws(op) :: op.raw != tr[j].op.raw
    ensures var s := Step(env, db, op); TableTold(env, s.0, tr + [Entry(op, s.1)])
  {
    var s := Step(env, db, op);
    var e := Entry(op, s.1);
    var tr' := tr + [e];
    forall j: nat ensures TokenTold(env, s.0, tr', j) {
      if j < |tr| && Mailed(tr[j]) {
        assert tr'[j] == tr[j] && TokenTold(env, db, tr, j);
        StepOnRow(env, db, op, tr[j]);
        LiveNext(env, tr, e, j);
      } else if j == |tr| && Mailed(e) {
        StepOnNewRow(env, db, op);
      }
    }
    forall h ensures RowTold(env, s.0, tr', h) {
      if h in s.0.tokens {
        RowToldNext(env, db, tr, op, h);
      }
    }
  }

  lemma RowToldNext(env: Env, db: Db, tr: seq<Entry>, op: Op, h: string)
    requires EnvOk(env) && TableTold(env, db, tr) && h in Step(env, db, op).0.tokens
    requires forall j | 0 <= j < |tr| && Draws(tr[j].op) && Draws(op) :: op.raw != tr[j].op.raw
    ensures var s := Step(env, db, op); RowTold(env, s.0, tr + [Entry(op, s.1)], h)
  {
    var s := Step(env, db, op);
    var e := Entry(op, s.1);
    var tr' := tr + [e];
    if h in db.tokens {
      assert RowTold(env, db, tr, h);
      var j: nat :| Live(env, tr, j) && h == env.hash(tr[j].op.raw);
      assert TokenTold(env, db, tr, j);
      StepOnRow(env, db, op, tr[j]);
      LiveNext(env, tr, e, j);
      assert tr'[j] == tr[j];
    } else {
      StepAddsNoOther(env, db, op, h);
      assert tr'[|tr|] == e && Live(env, tr', |tr|);
    }
  }

  lemma FreshPrefix(ops: seq<Op>)
    requires FreshTokens(ops) && ops != []
    ensures FreshTokens(ops[..|ops| - 1])
  {
  }

  /** In every run that starts without tokens, the verification table holds a row for exactly
      the live tokens, with the user, address, kind and expiry that they were mailed for. */
  lemma {:induction false} TableHoldsLiveTokens(env: Env, db: Db, ops: seq<Op>)
    requires EnvOk(env) && db.tokens == map[] && FreshTokens(ops)
    ensures TableTold(env, After(env, db, ops), Trace(env, db, ops))
  {
    if ops != [] {
      FreshPrefix(ops);
      TableHoldsLiveTokens(env, db, ops[..|ops| - 1]);
      TableToldNext(env, After(env, db, ops[..|ops| - 1]), Trace(env, db, ops[..|ops| - 1]), ops[|ops| - 1]);
    }
  }

  /** No user has two live tokens of one kind. */
  lemma LiveTokensAreUnique(env: Env, tr: seq<Entry>, i: nat, j: nat)
    requires Live(env, tr, i) && Live(env, tr, j)
    requires RowOf(tr[i]).userId == RowOf(tr[j]).userId && RowOf(tr[i]).kind == RowOf(tr[j]).kind
    requires forall n | 0 <= n < |tr| && Mailed(tr[n]) :: tr[n].outcome.ok
    ensures i == j
  {
    if i < j {
      assert Ends(env, tr[j], tr[i]);
    } else if j < i {
      assert Ends(env, tr[i], tr[j]);
    }
  }

  // ----- what the users table says

  /** The entry is a successful presentation of the raw token. */
  predicate Accepts(env: Env, e: Entry, raw: string) {
    (e.op.Complete? || e.op.VerifyCurrent?) && e.outcome.ok && Resolved(env, e.op.token) == Some(raw)
  }

  /** A token that was mailed to the address for the user has been presented and accepted. */
  ghost predicate Proved(env: Env, tr: seq<Entry>, u: nat, email: string) {
    exists j: nat, i: nat :: ProvedBy(env, tr, u, email, j, i)
  }

  ghost predicate ProvedBy(env: Env, tr: seq<Entry>, u: nat, email: string, j: nat, i: nat) {
    && j < i < |tr| && Mailed(tr[j]) && tr[j].op.userId == u && tr[j].outcome.mail.value.to == email
    && Accepts(env, tr[i], tr[j].op.raw)
  }

  lemma ProvedStays(env: Env, tr: seq<Entry>, e: Entry, u: nat, email: string)
    requires Proved(env, tr, u, email)
    ensures Proved(env, tr + [e], u, email)
  {
    var j: nat, i: nat :| ProvedBy(env, tr, u, email, j, i);
    assert ProvedBy(env, tr + [e], u, email, j, i);
  }

  /** The user's address is the one that the token was mailed to, or is proved already. */
  ghost predicate Covered(env: Env, db: Db, tr: seq<Entry>, u: nat, to: string) {
    u in db.users && db.users[u].email.Some? && (db.users[u].email.value == to || Proved(env, tr, u, db.users[u].email.value))
  }

  ghost predicate InitialCovered(env: Env, db: Db, tr: seq<Entry>, j: nat) {
    Live(env, tr, j) && tr[j].op.Send? ==> Covered(env, db, tr, tr[j].op.userId, tr[j].outcome.mail.value.to)
  }

  ghost predicate UserProved(env: Env, db: Db, tr: seq<Entry>, u: nat) {
    u in db.users && db.users[u].verified ==>
      db.users[u].email.Some? && Proved(env, tr, u, db.users[u].email.value)
  }

  /** The pending change of a user with a live change token is the one that was mailed, and the
      token expires in no later second. */
  ghost predicate PendingTold(env: Env, db: Db, tr: seq<Entry>, j: nat) {
    Live(env, tr, j) && tr[j].op.Request? ==>
      var row := RowOf(tr[j]);
      row.userId in db.users && db.users[row.userId].pendingEmail == Some(row.email)
      && db.users[row.userId].pendingExpires.Some?
      && Second(row.expiresAt) <= Second(db.users[row.userId].pendingExpires.value)
  }

  ghost predicate UsersTold(env: Env, db: Db, tr: seq<Entry>) {
    && (forall j: nat :: InitialCovered(env, db, tr, j) && PendingTold(env, db, tr, j))
    && (forall j | 0 <= j < |tr| && Mailed(tr[j]) :: tr[j].outcome.ok)
  }

  /** The row that an operation looked up belongs to a live token that the string stands for. */
  lemma LookupFindsLive(env: Env, db: Db, tr: seq<Entry>, token: string, now: int) returns (j: nat)
    requires EnvOk(env) && TableTold(env, db, tr) && Lookup(env, db, token, now).Some?
    ensures Live(env, tr, j) && Resolved(env, token) == Some(tr[j].op.raw)
    ensures Lookup(env, db, token, now) == Some(RowOf(tr[j])) && now < RowOf(tr[j]).expiresAt
  {
    var h := env.hash(Resolved(env, token).value);
    assert RowTold(env, db, tr, h);
    j :| Live(env, tr, j) && h == env.hash(tr[j].op.raw);
    assert TokenTold(env, db, tr, j);
  }

  /** A successful operation of the two that consume a token proves the address it was mailed to. */
  lemma AcceptedUseProves(env: Env, db: Db, tr: seq<Entry>, op: Op) returns (j: nat)
    requires EnvOk(env) && TableTold(env, db, tr) && (op.Complete? || op.VerifyCurrent?) && Step(env, db, op).1.ok
    ensures Live(env, tr, j) && Lookup(env, db, op.token, op.now) == Some(RowOf(tr[j]))
    ensures Resolved(env, op.token) == Some(tr[j].op.raw)
    ensures Proved(env, tr + [Entry(op, Step(env, db, op).1)], tr[j].op.userId, tr[j].outcome.mail.value.to)
  {
    j := LookupFindsLive(env, db, tr, op.token, op.now);
    assert ProvedBy(env, tr + [Entry(op, Step(env, db, op).1)], tr[j].op.userId, tr[j].outcome.mail.value.to, j, |tr|);
  }

  /** The operations that leave a user's address and verified mark as they are. */
  lemma OtherStepsKeepUser(env: Env, db: Db, op: Op, u: nat)
    requires (op.Complete? || op.VerifyCurrent?) && Step(env, db, op).1.ok ==>
               Lookup(env, db, op.token, op.now).value.userId != u
    ensures var users := Step(env, db, op).0.users;
            && (u in users <==> u in db.users)
            && (u in users ==> users[u].email == db.users[u].email && users[u].verified == db.users[u].verified)
  {
  }

  lemma UserProvedNext(env: Env, db: Db, tr: seq<Entry>, op: Op, u: nat)
    requires EnvOk(env) && TableTold(env, db, tr) && UsersTold(env, db, tr) && UserProved(env, db, tr, u)
    ensures var s := Step(env, db, op); UserProved(env, s.0, tr + [Entry(op, s.1)], u)
  {
    var s := Step(env, db, op);
    var e := Entry(op, s.1);
    if (op.Complete? || op.VerifyCurrent?) && s.1.ok && Lookup(env, db, op.token, op.now).value.userId == u {
      var j := AcceptedUseProves(env, db, tr, op);
      assert InitialCovered(env, db, tr, j);
      if op.VerifyCurrent? && Proved(env, tr, u, db.users[u].email.value) {
        ProvedStays(env, tr, e, u, db.users[u].email.value);
      }
    } else {
      OtherStepsKeepUser(env, db, op, u);
      if u in db.users && db.users[u].verified {
        ProvedStays(env, tr, e, u, db.users[u].email.value);
      }
    }
  }

  lemma InitialCoveredNext(env: Env, db: Db, tr: seq<Entry>, op: Op, j: nat)
    requires EnvOk(env) && TableTold(env, db, tr) && UsersTold(env, db, tr)
    ensures var s := Step(env, db, op); InitialCovered(env, s.0, tr + [Entry(op, s.1)], j)
  {
    var s := Step(env, db, op);
    var e := Entry(op, s.1);
    var tr' := tr + [e];
    if j < |tr| && Live(env, tr', j) && tr[j].op.Send? {
      assert tr'[j] == tr[j];
      LiveNext(env, tr, e, j);
      assert InitialCovered(env, db, tr, j);
      var u := tr[j].op.userId;
      if op.Complete? && s.1.ok && Lookup(env, db, op.token, op.now).value.userId == u {
        var n := AcceptedUseProves(env, db, tr, op);
      } else {
        EmailKept(env, db, op, u);
        if Proved(env, tr, u, db.users[u].email.value) {
          ProvedStays(env, tr, e, u, db.users[u].email.value);
        }
      }
    }
  }

  lemma EmailKept(env: Env, db: Db, op: Op, u: nat)
    requires op.Complete? && Step(env, db, op).1.ok ==> Lookup(env, db, op.token, op.now).value.userId != u
    ensures var users := Step(env, db, op).0.users;
            (u in users <==> u in db.users) && (u in users ==> users[u].email == db.users[u].email)
  {
  }

  lemma PendingToldNext(env: Env, db: Db, tr: seq<Entry>, op: Op, j: nat)
    requires EnvOk(env) && TableTold(env, db, tr) && UsersTold(env, db, tr)
    ensures var s := Step(env, db, op); PendingTold(env, s.0, tr + [Entry(op, s.1)], j)
  {
    var s := Step(env, db, op);
    var e := Entry(op, s.1);
    var tr' := tr + [e];
    if j < |tr| && Live(env, tr', j) && tr[j].op.Request? {
      assert tr'[j] == tr[j];
      LiveNext(env, tr, e, j);
      assert PendingTold(env, db, tr, j);
      if op.Complete? && s.1.ok {
        var n := LookupFindsLive(env, db, tr, op.token, op.now);
        if tr[n].op.userId == tr[j].op.userId {
          LiveTokensAreUnique(env, tr, n, j);
        }
      }
      PendingKept(env, db, op, tr[j]);
    } else if j == |tr| && op.Request? {
      DayLater(op.now, op.mailing);
    }
  }

  lemma DayLater(now: int, mailing: nat)
    ensures Second(now + DAY_MS) <= Second(1000 * Second(now + mailing) + DAY_MS)
  {
    assert now / 1000 <= (now + mailing) / 1000;
  }

  lemma PendingKept(env: Env, db: Db, op: Op, issue: Entry)
    requires Mailed(issue) && issue.op.Request? && !Ends(env, Entry(op, Step(env, db, op).1), issue)
    requires issue.op.userId in db.users && db.users[issue.op.userId].pendingExpires.Some?
    requires Second(RowOf(issue).expiresAt) <= Second(db.users[issue.op.userId].pendingExpires.value)
    requires op.Complete? && Step(env, db, op).1.ok ==> Lookup(env, db, op.token, op.now).value.userId != issue.op.userId
    ensures var users, u := Step(env, db, op).0.users, issue.op.userId;
            && u in users && users[u].pendingEmail == db.users[u].pendingEmail
            && users[u].pendingExpires == db.users[u].pendingExpires
  {
  }

  lemma {:induction false} RunTellsUsers(env: Env, db: Db, ops: seq<Op>)
    requires EnvOk(env) && db.tokens == map[] && FreshTokens(ops)
    ensures UsersTold(env, After(env, db, ops), Trace(env, db, ops))
  {
    if ops != [] {
      var before, op := ops[..|ops| - 1], ops[|ops| - 1];
      FreshPrefix(ops);
      RunTellsUsers(env, db, before);
      TableHoldsLiveTokens(env, db, before);
      var db1, tr := After(env, db, before), Trace(env, db, before);
      var e := Entry(op, Step(env, db1, op).1);
      forall j: nat ensures InitialCovered(env, After(env, db, ops), tr + [e], j) && PendingTold(env, After(env, db, ops), tr + [e], j) {
        InitialCoveredNext(env, db1, tr, op, j);
        PendingToldNext(env, db1, tr, op, j);
      }
    }
  }

  /** Over every run of the service's own operations from a table without tokens: a user who was
      not verified at the start and is marked verified has an address to which a token for that
      user was mailed, and that token was presented and accepted. */
  lemma {:induction false} VerifiedMeansProved(env: Env, db: Db, ops: seq<Op>, u: nat)
    requires EnvOk(env) && db.tokens == map[] && FreshTokens(ops)
    requires u in db.users ==> !db.users[u].verified
    ensures UserProved(env, After(env, db, ops), Trace(env, db, ops), u)
  {
    if ops != [] {
      var before := ops[..|ops| - 1];
      FreshPrefix(ops);
      VerifiedMeansProved(env, db, before, u);
      RunTellsUsers(env, db, before);
      TableHoldsLiveTokens(env, db, before);
      UserProvedNext(env, After(env, db, before), Trace(env, db, before), ops[|ops| - 1], u);
    }
  }

  ghost predicate Completes(env: Env, db: Db, tr: seq<Entry>, token: string, now: int, j: nat) {
    && Live(env, tr, j) && tr[j].op.Request? && Resolved(env, token) == Some(tr[j].op.raw)
    && now < RowOf(tr[j]).expiresAt && !EmailInUse(db.users, RowOf(tr[j]).email, tr[j].op.userId)
  }

  /** The user has the address, verified and with no change pending; the others are as before. */
  predicate Moved(before: map<nat, User>, after: map<nat, User>, u: nat, email: string) {
    u in before && after == before[u := User(Some(email), true, None, None, None)]
  }

  lemma CompletesChanges(env: Env, db: Db, tr: seq<Entry>, token: string, now: int, j: nat)
    requires EnvOk(env) && TableTold(env, db, tr) && UsersTold(env, db, tr) && Completes(env, db, tr, token, now, j)
    ensures var s := Step(env, db, Complete(token, now));
            s.1.ok && Moved(db.users, s.0.users, tr[j].op.userId, tr[j].outcome.mail.value.to)
  {
    assert TokenTold(env, db, tr, j) && PendingTold(env, db, tr, j);
    assert Lookup(env, db, token, now) == Some(RowOf(tr[j]));
  }

  /** A change succeeds exactly when the string stands for a live, unexpired change token whose
      address no other user has; and then the user of that token, and nobody else, gets exactly
      the address that it was mailed to. Live means the latest change token of the user, not
      cancelled, not used, not swept. */
  ghost predicate ChangeIsExact(env: Env, db: Db, tr: seq<Entry>, token: string, now: int) {
    var s := Step(env, db, Complete(token, now));
    && (s.1.ok <==> exists j: nat :: Completes(env, db, tr, token, now, j))
    && (forall j: nat | Completes(env, db, tr, token, now, j) ::
          Moved(db.users, s.0.users, tr[j].op.userId, tr[j].outcome.mail.value.to))
    && (!s.1.ok ==> s.0.users == db.users)
  }

  lemma ToldMakesChangeExact(env: Env, db: Db, tr: seq<Entry>, token: string, now: int)
    requires EnvOk(env) && TableTold(env, db, tr) && UsersTold(env, db, tr)
    ensures ChangeIsExact(env, db, tr, token, now)
  {
    forall j: nat | Completes(env, db, tr, token, now, j)
      ensures var s := Step(env, db, Complete(token, now));
              s.1.ok && Moved(db.users, s.0.users, tr[j].op.userId, tr[j].outcome.mail.value.to)
    {
      CompletesChanges(env, db, tr, token, now, j);
    }
    if Step(env, db, Complete(token, now)).1.ok {
      var j := LookupFindsLive(env, db, tr, token, now);
      assert Completes(env, db, tr, token, now, j);
    }
  }

  lemma ChangeIff(env: Env, db: Db, ops: seq<Op>, token: string, now: int)
    requires EnvOk(env) && db.tokens == map[] && FreshTokens(ops)
    ensures ChangeIsExact(env, After(env, db, ops), Trace(env, db, ops), token, now)
  {
    TableHoldsLiveTokens(env, db, ops);
    RunTellsUsers(env, db, ops);
    ToldMakesChangeExact(env, After(env, db, ops), Trace(env, db, ops), token, now);
  }

  /** Every token that a run mails stands for the raw token that was drawn for it. */
  lemma {:induction false} MailedTokensResolve(env: Env, db: Db, ops: seq<Op>, j: nat)
    requires EnvOk(env) && FreshTokens(ops) && j < |ops| && Mailed(Trace(env, db, ops)[j])
    ensures Resolved(env, Trace(env, db, ops)[j].outcome.mail.value.token) == Some(ops[j].raw)
    decreases |ops|
  {
    var before := ops[..|ops| - 1];
    if j < |before| {
      FreshPrefix(ops);
      MailedTokensResolve(env, db, before, j);
    } else {
      assert Lacks(ops[j].raw, '.');
      FinalTokenResolves(env, ops[j].raw);
    }
  }

  /** Whoever follows the link of a live change token within the day gets the address it was
      mailed to, unless somebody else has it by then. */
  lemma MailedChangeCompletes(env: Env, db: Db, ops: seq<Op>, j: nat, now: int)
    requires EnvOk(env) && db.tokens == map[] && FreshTokens(ops)
    requires var tr := Trace(env, db, ops);
             && Live(env, tr, j) && ops[j].Request? && now < ops[j].now + 24 * 60 * 60 * 1000
             && FreeFor(After(env, db, ops).users, tr[j].outcome.mail.value.to, ops[j].userId)
    ensures var mail := Trace(env, db, ops)[j].outcome.mail.value;
            var s := Step(env, After(env, db, ops), Complete(mail.token, now));
            s.1.ok && Moved(After(env, db, ops).users, s.0.users, ops[j].userId, mail.to)
  {
    MailedTokensResolve(env, db, ops, j);
    ChangeIff(env, db, ops, Trace(env, db, ops)[j].outcome.mail.value.token, now);
    assert Completes(env, After(env, db, ops), Trace(env, db, ops), Trace(env, db, ops)[j].outcome.mail.value.token, now, j);
  }

  ghost predicate Verifies(env: Env, tr: seq<Entry>, token: string, now: int, j: nat) {
    && Live(env, tr, j) && tr[j].op.Send? && Resolved(env, token) == Some(tr[j].op.raw)
    && now < RowOf(tr[j]).expiresAt
  }

  /** The user is marked; nothing else about the users changes. */
  predicate Marked(before: map<nat, User>, after: map<nat, User>, u: nat) {
    u in before && after == before[u := before[u].(verified := true)]
  }

  lemma VerifiesMarks(env: Env, db: Db, tr: seq<Entry>, token: string, now: int, j: nat)
    requires EnvOk(env) && TableTold(env, db, tr) && UsersTold(env, db, tr) && Verifies(env, tr, token, now, j)
    ensures var s := Step(env, db, VerifyCurrent(token, now)); s.1.ok && Marked(db.users, s.0.users, tr[j].op.userId)
  {
    assert TokenTold(env, db, tr, j) && InitialCovered(env, db, tr, j);
    assert Lookup(env, db, token, now) == Some(RowOf(tr[j]));
  }

  /** A verification succeeds exactly when the string stands for a live, unexpired initial
      token, and it marks the user of that token and changes nobody's address. */
  ghost predicate VerificationIsExact(env: Env, db: Db, tr: seq<Entry>, token: string, now: int) {
    var s := Step(env, db, VerifyCurrent(token, now));
    && (s.1.ok <==> exists j: nat :: Verifies(env, tr, token, now, j))
    && (forall j: nat | Verifies(env, tr, token, now, j) :: Marked(db.users, s.0.users, tr[j].op.userId))
    && (!s.1.ok ==> s.0.users == db.users)
  }

  lemma ToldMakesVerificationExact(env: Env, db: Db, tr: seq<Entry>, token: string, now: int)
    requires EnvOk(env) && TableTold(env, db, tr) && UsersTold(env, db, tr)
    ensures VerificationIsExact(env, db, tr, token, now)
  {
    forall j: nat | Verifies(env, tr, token, now, j)
      ensures var s := Step(env, db, VerifyCurrent(token, now)); s.1.ok && Marked(db.users, s.0.users, tr[j].op.userId)
    {
      VerifiesMarks(env, db, tr, token, now, j);
    }
    if Step(env, db, VerifyCurrent(token, now)).1.ok {
      var j := LookupFindsLive(env, db, tr, token, now);
      assert Verifies(env, tr, token, now, j);
    }
  }

  lemma VerifyIff(env: Env, db: Db, ops: seq<Op>, token: string, now: int)
    requires EnvOk(env) && db.tokens == map[] && FreshTokens(ops)
    ensures VerificationIsExact(env, After(env, db, ops), Trace(env, db, ops), token, now)
  {
    TableHoldsLiveTokens(env, db, ops);
    RunTellsUsers(env, db, ops);
    ToldMakesVerificationExact(env, After(env, db, ops), Trace(env, db, ops), token, now);
  }

  /** Whoever follows the link of a live initial token within the day is verified. */
  lemma MailedInitialVerifies(env: Env, db: Db, ops: seq<Op>, j: nat, now: int)
    requires EnvOk(env) && db.tokens == map[] && FreshTokens(ops)
    requires Live(env, Trace(env, db, ops), j) && ops[j].Send? && now < ops[j].now + 24 * 60 * 60 * 1000
    ensures var s := Step(env, After(env, db, ops), VerifyCurrent(Trace(env, db, ops)[j].outcome.mail.value.token, now));
            s.1.ok && Marked(After(env, db, ops).users, s.0.users, ops[j].userId)
  {
    MailedTokensResolve(env, db, ops, j);
    VerifyIff(env, db, ops, Trace(env, db, ops)[j].outcome.mail.value.token, now);
    assert Verifies(env, Trace(env, db, ops), Trace(env, db, ops)[j].outcome.mail.value.token, now, j);
  }

  /** There is at most one row for a user and a kind. */
  lemma OneTokenPerKind(env: Env, db: Db, ops: seq<Op>, h: string, h': string)
    requires EnvOk(env) && db.tokens == map[] && FreshTokens(ops)
    requires var t := After(env, db, ops).tokens;
             h in t && h' in t && t[h].userId == t[h'].userId && t[h].kind == t[h'].kind
    ensures h == h'
  {
    var db1, tr := After(env, db, ops), Trace(env, db, ops);
    TableHoldsLiveTokens(env, db, ops);
    RunTellsUsers(env, db, ops);
    assert RowTold(env, db1, tr, h) && RowTold(env, db1, tr, h');
    var i: nat :| Live(env, tr, i) && h == env.hash(tr[i].op.raw);
    var j: nat :| Live(env, tr, j) && h' == env.hash(tr[j].op.raw);
    assert TokenTold(env, db1, tr, i) && TokenTold(env, db1, tr, j);
    LiveTokensAreUnique(env, tr, i, j);
  }

  lemma {:induction false} TraceOfPrefix(env: Env, db: Db, ops: seq<Op>, n: nat)
    requires n <= |ops|
    ensures Trace(env, db, ops)[..n] == Trace(env, db, ops[..n])
    decreases |ops|
  {
    if n < |ops| {
      TraceOfPrefix(env, db, ops[..|ops| - 1], n);
      assert ops[..|ops| - 1][..n] == ops[..n];
      assert Trace(env, db, ops)[..n] == Trace(env, db, ops[..|ops| - 1])[..n];
    } else {
      assert ops[..n] == ops;
    }
  }

  lemma AcceptedWasLive(env: Env, db: Db, ops: seq<Op>, i: nat, raw: string) returns (n: nat)
    requires EnvOk(env) && db.tokens == map[] && FreshTokens(ops)
    requires i < |ops| && Accepts(env, Trace(env, db, ops)[i], raw)
    ensures n < i && Live(env, Trace(env, db, ops)[..i], n) && ops[n].raw == raw
  {
    TraceOfPrefix(env, db, ops, i);
    TraceOfPrefix(env, db, ops, i + 1);
    assert ops[..i + 1][..i] == ops[..i];
    assert Trace(env, db, ops)[i] == Trace(env, db, ops)[..i + 1][i];
    TableHoldsLiveTokens(env, db, ops[..i]);
    n := LookupFindsLive(env, After(env, db, ops[..i]), Trace(env, db, ops[..i]), ops[i].token, ops[i].now);
  }

  /** A token that has been accepted once is never accepted again, by either operation and in
      whatever form it is presented. */
  lemma AcceptedOnce(env: Env, db: Db, ops: seq<Op>, i: nat, j: nat, raw: string)
    requires EnvOk(env) && db.tokens == map[] && FreshTokens(ops)
    requires i < j < |ops| && Accepts(env, Trace(env, db, ops)[i], raw)
    ensures !Accepts(env, Trace(env, db, ops)[j], raw)
  {
    var tr := Trace(env, db, ops);
    var n := AcceptedWasLive(env, db, ops, i, raw);
    assert tr[..i][n] == tr[..j][n] == tr[n] && tr[..j][i] == tr[i];
    assert Ends(env, tr[i], tr[n]) && !Live(env, tr[..j], n);
    if Accepts(env, tr[j], raw) {
      var m := AcceptedWasLive(env, db, ops, j, raw);
    }
  }

  // ----- addresses stay distinct

  predicate DistinctEmails(users: map<nat, User>) {
    forall u, v | u in users && v in users && u != v && users[u].email.Some? :: users[v].email != users[u].email
  }

  lemma StepKeepsEmailsDistinct(env: Env, db: Db, op: Op)
    requires DistinctEmails(db.users)
    ensures DistinctEmails(Step(env, db, op).0.users)
  {
    var users := Step(env, db, op).0.users;
    forall u, v | u in users && v in users && u != v && users[u].email.Some? ensures users[v].email != users[u].email {
      if op.Complete? && Step(env, db, op).1.ok {
        assert !EmailInUse(db.users, Lookup(env, db, op.token, op.now).value.email, Lookup(env, db, op.token, op.now).value.userId);
      } else {
        EmailKept(env, db, op, u);
        EmailKept(env, db, op, v);
      }
    }
  }

  /** If no two users share an address, none ever do. */
  lemma {:induction false} EmailsStayDistinct(env: Env, db: Db, ops: seq<Op>)
    requires DistinctEmails(db.users)
    ensures DistinctEmails(After(env, db, ops).users)
  {
    if ops != [] {
      EmailsStayDistinct(env, db, ops[..|ops| - 1]);
      StepKeepsEmailsDistinct(env, After(env, db, ops[..|ops| - 1]), ops[|ops| - 1]);
    }
  }

  // ----- the sweep

  /** A sweep deletes every row that a lookup would reject, and no row with a second or more
      left; so a later lookup can come out differently only for a token in its last second. */
  lemma SweepIsExactToTheSecond(env: Env, db: Db, now: int, token: string, later: int)
    requires now <= later
    ensures var swept := StepSweep(db, now).0;
            && (forall h | h in db.tokens && db.tokens[h].expiresAt <= now :: h !in swept.tokens)
            && (forall h | h in db.tokens && now + 1000 <= db.tokens[h].expiresAt :: h in swept.tokens)
            && (Lookup(env, swept, token, later) != Lookup(env, db, token, later) ==>
                  Lookup(env, db, token, later).Some? &&
                  now < Lookup(env, db, token, later).value.expiresAt < now + 1000)
  {
    var swept := StepSweep(db, now).0;
    forall h | h in db.tokens ensures h in swept.tokens <==> Second(db.tokens[h].expiresAt) > Second(now) {
    }
  }

  // ----- the service, statement by statement

  class EmailValidationService {
    const env: Env
    var users: map<nat, User>
    var tokens: map<string, Verification>

    constructor (env: Env, users: map<nat, User>)
      ensures this.env == env && Tables() == Db(users, map[])
    {
      this.env, this.users, tokens := env, users, map[];
    }

    function Tables(): Db
      reads this
    {
      Db(users, tokens)
    }

    method CreateVerificationToken(userId: nat, email: string, kind: Kind, raw: string, now: int) returns (finalToken: string)
      modifies this`tokens
      ensures finalToken == FinalToken(env, raw) && tokens == Issue(env, old(tokens), userId, email, kind, raw, now)
    {
      finalToken := raw;
      if env.secrets {
        var signature := env.sign(raw);
        finalToken := raw + "." + signature;
      }
      var tokenHash := env.hash(raw);
      var expiresAt := now + DAY_MS;
      tokens := WithoutTokens(tokens, userId, kind);
      tokens := tokens[tokenHash := Verification(userId, email, kind, expiresAt)];
    }

    method VerifyToken(token: string, now: int) returns (row: Option<Verification>)
      modifies this`tokens
      ensures row == Lookup(env, old(Tables()), token, now)
      ensures Tables() == if row.Some? then old(Tables()) else Purge(env, old(Tables()), token, now)
      ensures row.Some? ==> Resolved(env, token).Some? && env.hash(Resolved(env, token).value) in tokens
    {
      var tokenToHash := token;
      if env.secrets && '.' in token {
        var parts := Split(token, '.');
        if |parts| == 2 {
          if !VerifySignature(env, parts[0], parts[1]) {
            return None;
          }
          tokenToHash := parts[0];
        }
      }
      var tokenHash := env.hash(tokenToHash);
      if tokenHash !in tokens {
        return None;
      }
      var verification := tokens[tokenHash];
      if verification.expiresAt <= now {
        tokens := tokens - {tokenHash};
        return None;
      }
      return Some(verification);
    }

    method RequestEmailChange(userId: nat, newEmail: string, raw: string, now: int, mailing: nat)
      returns (outcome: Outcome)
      modifies this
      ensures (Tables(), outcome) == Step(env, old(Tables()), Request(userId, newEmail, raw, now, mailing))
    {
      if !env.validEmail(newEmail) {
        return REFUSED;
      }
      if EmailInUse(users, newEmail, userId) {
        return REFUSED;
      }
      if userId !in users {
        return REFUSED;
      }
      var verificationToken := CreateVerificationToken(userId, newEmail, Change, raw, now);
      users := users[userId := users[userId].(pendingEmail := Some(newEmail), pendingToken := Some(verificationToken),
                                              pendingExpires := Some(1000 * Second(now + mailing) + DAY_MS))];
      return Outcome(true, Some(Mail(newEmail, verificationToken)));
    }

    method CompleteEmailChange(token: string, now: int) returns (outcome: Outcome)
      modifies this
      ensures (Tables(), outcome) == Step(env, old(Tables()), Complete(token, now))
    {
      var row := VerifyToken(token, now);
      if row.None? {
        return REFUSED;
      }
      var verification := row.value;
      if verification.kind != Change || verification.userId !in users {
        return REFUSED;
      }
      var user := users[verification.userId];
      if user.pendingEmail != Some(verification.email) {
        return REFUSED;
      }
      if EmailInUse(users, verification.email, verification.userId) {
        return REFUSED;
      }
      users := users[verification.userId := User(Some(verification.email), true, None, None, None)];
      tokens := tokens - {env.hash(Resolved(env, token).value)};
      return DONE;
    }

    method CancelEmailChange(userId: nat, now: int) returns (outcome: Outcome)
      modifies this
      ensures (Tables(), outcome) == Step(env, old(Tables()), Cancel(userId, now))
    {
      if userId in users {
        users := users[userId := ClearPending(users[userId])];
      }
      tokens := WithoutTokens(tokens, userId, Change);
      return DONE;
    }

    method SendEmailVerification(userId: nat, raw: string, now: int) returns (outcome: Outcome)
      modifies this
      ensures (Tables(), outcome) == Step(env, old(Tables()), Send(userId, raw, now))
    {
      if userId !in users || users[userId].email.GetOr("") == "" || users[userId].verified {
        return REFUSED;
      }
      var email := users[userId].email.value;
      var verificationToken := CreateVerificationToken(userId, email, Initial, raw, now);
      return Outcome(true, Some(Mail(email, verificationToken)));
    }

    method VerifyCurrentEmail(token: string, now: int) returns (outcome: Outcome)
      modifies this
      ensures (Tables(), outcome) == Step(env, old(Tables()), VerifyCurrent(token, now))
    {
      var row := VerifyToken(token, now);
      if row.None? || row.value.kind != Initial {
        return REFUSED;
      }
      var userId := row.value.userId;
      if userId in users {
        users := users[userId := users[userId].(verified := true)];
      }
      tokens := tokens - {env.hash(Resolved(env, token).value)};
      return DONE;
    }

    method CleanupExpiredTokens(now: int) returns (deleted: nat)
      modifies this
      ensures Tables() == Step(env, old(Tables()), Sweep(now)).0
      ensures deleted == |old(tokens)| - |tokens|
    {
      var kept := map h | h in tokens && Second(tokens[h].expiresAt) > Second(now) :: tokens[h];
      SubsetSize(kept.Keys, tokens.Keys);
      assert |kept| == |kept.Keys| && |tokens| == |tokens.Keys|;
      deleted := |tokens| - |kept|;
      tokens := kept;
      users := map u | u in users :: SweepUser(users[u], now);
    }
  }
}
