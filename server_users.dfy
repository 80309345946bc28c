/** The `users` table and the routes that read and write it
    (appointment-scheduler/server.js: `/register`, `/login`, `/forgot-password`,
    `GET` and `PUT /api/user/profile`).

    Each route is first a function from the rows before the request to the reply and
    the rows after it (`...Outcome`); the class `UserTable` holds the rows and applies
    those functions, one method per route. SQL queries become searches over the rows
    in table order, bcrypt is the `Digest` record below, and the clock, bcrypt's salt,
    the random reset token and the mailer's fate are inputs. */
module Users {
  import opened Options
  import opened Text
  import opened Lists
  import opened Sessions

  // ---------------------------------------------------------------- passwords

  /** `bcrypt.hash(password, 12)`: an opaque digest; `salt` stands for the random salt
      bcrypt draws. */
  datatype Digest = Digest(cost: nat, salt: string, secret: string)

  const Cost: nat := 12

  function Hash(password: string, salt: string): (d: Digest)
    ensures d.cost == Cost && Compare(password, d)
  {
    Digest(Cost, salt, password)
  }

  /** `bcrypt.compare(password, digest)`. */
  predicate Compare(password: string, d: Digest) {
    d.secret == password
  }

  // ---------------------------------------------------------------- rows and replies

  /** One row of `users`. Times are milliseconds; the reset fields are `NULL` until a
      reset is requested. */
  datatype Account = Account(
    id: nat,
    firstName: string,
    lastName: string,
    username: string,
    email: string,
    password: Digest,
    role: string,
    location: string,
    avatar: string,
    resetToken: Option<string>,
    resetExpires: Option<int>,
    createdAt: int,
    updatedAt: int)

  /** What `/login` returns about the account: no password field. */
  datatype PublicUser = PublicUser(id: nat, email: string, name: string, role: string, avatar: string)

  /** What `GET /api/user/profile` returns. */
  datatype ProfileView = ProfileView(id: nat, name: string, email: string, role: string, location: string, avatar: string)

  datatype Body =
    | Message(text: string)
    | LoggedIn(token: SessionToken, user: PublicUser)
    | Profile(view: ProfileView)

  /** An HTTP reply, or `Unanswered` when the handler throws outside its `try` block. */
  datatype Reply = Reply(status: nat, body: Body) | Unanswered

  /** A route's reply and the table it leaves behind. */
  datatype Outcome = Outcome(reply: Reply, rows: seq<Account>)

  const MsgUnavailable: string := "Database service unavailable"
  const MsgFieldsRequired: string := "All fields are required and cannot be empty."
  const MsgInvalidEmail: string := "Please enter a valid email address."
  const MsgShortPassword: string := "Password must be at least 6 characters long."
  const MsgEmailExists: string := "An account with this email already exists."
  const MsgUsernameTaken: string := "This username is already taken."
  const MsgRegistered: string := "User registered successfully!"
  const MsgRegisterFailed: string := "Registration failed. Please try again."
  const MsgLoginRequired: string := "Email and password are required."
  const MsgBadCredentials: string := "Invalid email or password."
  const MsgEmailRequired: string := "Email is required."
  const MsgResetSent: string := "If an account with this email exists, a password reset link has been sent."
  const MsgResetFailed: string := "Server error. Please try again."
  const MsgTokenRequired: string := "Access token required"
  const MsgTokenInvalid: string := "Invalid or expired token"
  const MsgUserNotFound: string := "User not found."
  const MsgServerError: string := "Server error"
  const MsgProfileUpdated: string := "Profile updated successfully."

  /** The table's own guarantees: `id` is the primary key, `username` and `email` are
      UNIQUE, ids come from AUTO_INCREMENT, and the route that sets a reset token sets
      its expiry with it. */
  ghost predicate Consistent(rows: seq<Account>, nextId: nat) {
    && 0 < nextId
    && (forall i, j :: 0 <= i < j < |rows| ==>
          rows[i].id != rows[j].id && rows[i].email != rows[j].email && rows[i].username != rows[j].username)
    && (forall i :: 0 <= i < |rows| ==>
          0 < rows[i].id < nextId && (rows[i].resetToken.Some? <==> rows[i].resetExpires.Some?))
  }

  /** A row can be appended when its id is fresh and its email and username are new. */
  lemma AppendKeepsConsistent(rows: seq<Account>, nextId: nat, a: Account)
    requires Consistent(rows, nextId)
    requires a.id == nextId && a.resetToken.None? && a.resetExpires.None?
    requires forall i :: 0 <= i < |rows| ==> rows[i].email != a.email && rows[i].username != a.username
    ensures Consistent(rows + [a], nextId + 1)
  {
    var r := rows + [a];
    assert forall i :: 0 <= i < |rows| ==> r[i] == rows[i];
    assert r[|rows|] == a;
  }

  /** Rewriting rows without touching their keys, and keeping token and expiry paired,
      keeps the table consistent. */
  lemma SameKeysKeepConsistent(rows: seq<Account>, rows': seq<Account>, nextId: nat)
    requires Consistent(rows, nextId) && |rows'| == |rows|
    requires forall i :: 0 <= i < |rows| ==>
      && rows'[i].id == rows[i].id && rows'[i].email == rows[i].email && rows'[i].username == rows[i].username
      && (rows'[i].resetToken.Some? <==> rows'[i].resetExpires.Some?)
    ensures Consistent(rows', nextId)
  {
  }

  function HasId(id: nat): Account -> bool {
    (a: Account) => a.id == id
  }

  /** `WHERE email = ? OR username = ?`, and equally what trips a UNIQUE key. */
  function SameIdentity(email: string, username: string): Account -> bool {
    (a: Account) => a.email == email || a.username == username
  }

  // ---------------------------------------------------------------- /register

  /** The request body of `/register`; a missing field is `None`. */
  datatype RegisterForm = RegisterForm(
    firstName: Option<string>,
    lastName: Option<string>,
    username: Option<string>,
    email: Option<string>,
    password: Option<string>)

  /** `value?.trim()` is truthy. */
  predicate Filled(v: Option<string>) {
    v.Some? && !Blank(v.value)
  }

  /** `value` is truthy. */
  predicate Given(v: Option<string>) {
    v.Some? && v.value != ""
  }

  predicate FormComplete(f: RegisterForm) {
    Filled(f.firstName) && Filled(f.lastName) && Filled(f.username) && Filled(f.email) && Given(f.password)
  }

  /** A character `[^\s@]` accepts. */
  predicate Plain(c: char) {
    !IsSpace(c) && c != '@'
  }

  predicate AllPlain(s: string) {
    forall k :: 0 <= k < |s| ==> Plain(s[k])
  }

  /** `s` splits as `[^\s@]+` `@` `[^\s@]+` `\.` `[^\s@]+`, with the `@` at `i` and the
      dot at `j`. */
  predicate PatternAt(s: string, i: int, j: int) {
    && 0 < i && i + 1 < j && j + 1 < |s|
    && s[i] == '@' && s[j] == '.'
    && AllPlain(s[..i]) && AllPlain(s[i + 1..j]) && AllPlain(s[j + 1..])
  }

  /** What the regular expression `^[^\s@]+@[^\s@]+\.[^\s@]+$` accepts. */
  ghost predicate EmailPattern(s: string) {
    exists i, j :: PatternAt(s, i, j)
  }

  /** The same test read as a scan: one `@` with something before it, no white space,
      and a dot in the domain that is neither its first nor its last character. */
  predicate ValidEmail(s: string) {
    && '@' in s
    && var local, domain := Before(s, '@'), After(s, '@');
    && local != [] && AllPlain(local) && AllPlain(domain)
    && |domain| >= 3 && '.' in domain[1..|domain| - 1]
  }

  lemma AllPlainSlice(s: string, lo: int, hi: int)
    requires 0 <= lo <= hi <= |s| && AllPlain(s)
    ensures AllPlain(s[lo..hi])
  {
    forall k | 0 <= k < hi - lo ensures Plain(s[lo..hi][k]) {
      assert s[lo..hi][k] == s[lo + k];
    }
  }

  lemma AllPlainJoin(a: string, b: string)
    requires AllPlain(a) && AllPlain(b)
    ensures AllPlain(a + b)
  {
    forall k | 0 <= k < |a + b| ensures Plain((a + b)[k]) {
      if k < |a| {
        assert (a + b)[k] == a[k];
      } else {
        assert (a + b)[k] == b[k - |a|];
      }
    }
  }

  lemma ValidEmailMatches(s: string)
    requires ValidEmail(s)
    ensures EmailPattern(s)
  {
    var local, domain := Before(s, '@'), After(s, '@');
    var i := |local|;
    assert s == local + "@" + domain;
    var inner := domain[1..|domain| - 1];
    var m :| 0 <= m < |inner| && inner[m] == '.';
    var j := i + 2 + m;
    assert s[..i] == local;
    assert s[i + 1..j] == domain[..m + 1];
    assert s[j + 1..] == domain[m + 2..];
    AllPlainSlice(domain, 0, m + 1);
    AllPlainSlice(domain, m + 2, |domain|);
    assert domain[m + 2..|domain|] == domain[m + 2..];
    assert PatternAt(s, i, j);
  }

  lemma PlainHasNoAt(t: string)
    requires AllPlain(t)
    ensures '@' !in t
  {
    forall k | 0 <= k < |t| ensures t[k] != '@' {
      assert Plain(t[k]);
    }
  }

  /** The domain of a match holds no white space and an inner dot. */
  lemma MatchDomain(s: string, i: int, j: int)
    requires PatternAt(s, i, j)
    ensures var domain := s[i + 1..];
      AllPlain(domain) && |domain| >= 3 && '.' in domain[1..|domain| - 1]
  {
    var domain, mid, tail := s[i + 1..], s[i + 1..j], s[j + 1..];
    assert domain == mid + "." + tail;
    assert Plain('.');
    AllPlainJoin(mid, ".");
    AllPlainJoin(mid + ".", tail);
    assert domain[1..|domain| - 1][j - i - 2] == '.';
  }

  lemma MatchIsValidEmail(s: string, i: int, j: int)
    requires PatternAt(s, i, j)
    ensures ValidEmail(s)
  {
    PlainHasNoAt(s[..i]);
    CutAt(s, '@', i);
    MatchDomain(s, i, j);
  }

  /** The scan accepts exactly the strings the regular expression matches. */
  lemma ValidEmailIffPattern(s: string)
    ensures ValidEmail(s) <==> EmailPattern(s)
  {
    if ValidEmail(s) {
      ValidEmailMatches(s);
    }
    if EmailPattern(s) {
      var i, j :| PatternAt(s, i, j);
      MatchIsValidEmail(s, i, j);
    }
  }

  /** Valid email addresses hold no white space, so trimming leaves them alone. */
  lemma ValidEmailIsTrimmed(s: string)
    requires ValidEmail(s)
    ensures Trim(s) == s && Trim(Lower(s)) == Lower(s)
  {
    var local, domain := Before(s, '@'), After(s, '@');
    assert s == local + "@" + domain;
    assert NoSpace(s) by {
      forall k | 0 <= k < |s| ensures !IsSpace(s[k]) {
        if k < |local| {
          assert s[k] == local[k];
        } else if k > |local| {
          assert s[k] == domain[k - |local| - 1];
        }
      }
    }
    TrimNoSpace(s);
    LowerKeepsSpace(s);
    TrimNoSpace(Lower(s));
  }

  /** The checks of `/register` in the order the route makes them: every field present
      and not blank (the password only non-empty), then the email pattern, then the
      password length, which counts UTF-16 code units as JavaScript's `length` does. */
  function RegistrationError(f: RegisterForm): (r: Option<string>)
    ensures r.None? <==> FormComplete(f) && EmailPattern(f.email.value) && Utf16Length(f.password.value) >= 6
    ensures !FormComplete(f) ==> r == Some(MsgFieldsRequired)
    ensures FormComplete(f) && !EmailPattern(f.email.value) ==> r == Some(MsgInvalidEmail)
    ensures FormComplete(f) && EmailPattern(f.email.value) && Utf16Length(f.password.value) < 6 ==> r == Some(MsgShortPassword)
  {
    if !FormComplete(f) then Some(MsgFieldsRequired)
    else
      ValidEmailIffPattern(f.email.value);
      if !ValidEmail(f.email.value) then Some(MsgInvalidEmail)
      else if Utf16Length(f.password.value) < 6 then Some(MsgShortPassword)
      else None
  }

  /** The answer to the duplicate query `WHERE email = ? OR username = ?`: the first
      matching row decides which of the two messages is given. */
  function DuplicateMessage(rows: seq<Account>, email: string, username: string): (r: Option<string>)
    ensures r.None? <==> forall i :: 0 <= i < |rows| ==> rows[i].email != email && rows[i].username != username
    ensures r.Some? ==> r == Some(MsgEmailExists) || r == Some(MsgUsernameTaken)
    ensures r == Some(MsgEmailExists) <==>
      var k := IndexWhere(rows, SameIdentity(email, username));
      k < |rows| && rows[k].email == email
  {
    match Find(rows, SameIdentity(email, username))
    case None => None
    case Some(u) => if u.email == email then Some(MsgEmailExists) else Some(MsgUsernameTaken)
  }

  /** The row INSERT writes: names trimmed, username and email lower-cased and
      trimmed, the password hashed, role 'User', no location, no avatar. */
  function NewAccount(id: nat, f: RegisterForm, salt: string, now: int): (a: Account)
    requires FormComplete(f)
    ensures a.id == id && a.role == "User" && a.location == "" && a.avatar == ""
    ensures a.resetToken.None? && a.resetExpires.None?
    ensures a.username == Trim(Lower(f.username.value)) && a.email == Trim(Lower(f.email.value))
    ensures a.firstName == Trim(f.firstName.value) && a.lastName == Trim(f.lastName.value)
    ensures Compare(f.password.value, a.password)
  {
    Account(id, Trim(f.firstName.value), Trim(f.lastName.value),
            Trim(Lower(f.username.value)), Trim(Lower(f.email.value)),
            Hash(f.password.value, salt), "User", "", "", None, None, now, now)
  }

  /** `/register` with the database connected. The duplicate query uses the lower-cased
      username as typed, but the INSERT stores it trimmed, and a row the UNIQUE keys
      reject makes the route fail with 500. */
  function RegisterOutcome(rows: seq<Account>, nextId: nat, f: RegisterForm, salt: string, now: int): (o: Outcome)
    ensures o.reply.Reply? && o.reply.body.Message?
    ensures o.reply.status in {201, 400, 500}
    ensures o.reply.status == 201 <==>
      && RegistrationError(f).None?
      && DuplicateMessage(rows, Lower(f.email.value), Lower(f.username.value)).None?
      && Find(rows, SameIdentity(Trim(Lower(f.email.value)), Trim(Lower(f.username.value)))).None?
    ensures o.reply.status == 201 ==> o.rows == rows + [NewAccount(nextId, f, salt, now)]
    ensures o.reply.status != 201 ==> o.rows == rows
  {
    match RegistrationError(f)
    case Some(msg) => Outcome(Reply(400, Message(msg)), rows)
    case None =>
      match DuplicateMessage(rows, Lower(f.email.value), Lower(f.username.value))
      case Some(msg) => Outcome(Reply(400, Message(msg)), rows)
      case None =>
        var a := NewAccount(nextId, f, salt, now);
        if Find(rows, SameIdentity(a.email, a.username)).Some? then
          Outcome(Reply(500, Message(MsgRegisterFailed)), rows)
        else
          Outcome(Reply(201, Message(MsgRegistered)), rows + [a])
  }

  /** What each answer of `/register` says: a failed check is a 400 with that check's
      message; past the checks, a clash with the lower-cased email or username is a 400
      with the duplicate message; a 500 says the registration failed and a 201 that it
      succeeded. */
  lemma RegisterReplies(rows: seq<Account>, nextId: nat, f: RegisterForm, salt: string, now: int)
    ensures var o := RegisterOutcome(rows, nextId, f, salt, now);
      && (RegistrationError(f).Some? ==> o == Outcome(Reply(400, Message(RegistrationError(f).value)), rows))
      && (RegistrationError(f).None? ==>
            var dup := DuplicateMessage(rows, Lower(f.email.value), Lower(f.username.value));
            dup.Some? ==> o == Outcome(Reply(400, Message(dup.value)), rows))
      && (o.reply.status == 500 ==> o.reply.body == Message(MsgRegisterFailed))
      && (o.reply.status == 201 ==> o.reply.body == Message(MsgRegistered))
  {
  }

  /** A rejected registration, for whichever reason, answers 400 or 500 and changes nothing;
      an accepted one adds exactly one row at the end. Uniqueness of ids, emails and
      usernames survives every registration. */
  lemma RegisterKeepsConsistent(rows: seq<Account>, nextId: nat, f: RegisterForm, salt: string, now: int)
    requires Consistent(rows, nextId)
    ensures var o := RegisterOutcome(rows, nextId, f, salt, now);
      Consistent(o.rows, if o.reply.status == 201 then nextId + 1 else nextId)
  {
    var o := RegisterOutcome(rows, nextId, f, salt, now);
    if o.reply.status == 201 {
      var a := NewAccount(nextId, f, salt, now);
      assert forall i :: 0 <= i < |rows| ==> !SameIdentity(a.email, a.username)(rows[i]);
      AppendKeepsConsistent(rows, nextId, a);
    }
  }

  /** Skipping a value of the id counter keeps the table consistent. */
  lemma CounterGapKeepsConsistent(rows: seq<Account>, nextId: nat)
    requires Consistent(rows, nextId)
    ensures Consistent(rows, nextId + 1)
  {
  }

  /** What an accepted registration implies: the form passed every check and the new
      row clashes with no existing one. */
  lemma RegisterAccepted(rows: seq<Account>, nextId: nat, f: RegisterForm, salt: string, now: int)
    requires RegisterOutcome(rows, nextId, f, salt, now).reply.status == 201
    ensures FormComplete(f) && EmailPattern(f.email.value) && Utf16Length(f.password.value) >= 6
    ensures var a := NewAccount(nextId, f, salt, now);
      && RegisterOutcome(rows, nextId, f, salt, now).rows == rows + [a]
      && forall i :: 0 <= i < |rows| ==> rows[i].email != a.email && rows[i].username != a.username
  {
    var a := NewAccount(nextId, f, salt, now);
    assert forall i :: 0 <= i < |rows| ==> !SameIdentity(a.email, a.username)(rows[i]);
  }

  /** A request whose email or username (lower-cased) is already taken is refused with
      400 and leaves the table alone; the first clashing row decides the message. */
  lemma RegisterRefusesDuplicate(rows: seq<Account>, nextId: nat, f: RegisterForm, salt: string, now: int, i: nat)
    requires RegistrationError(f).None?
    requires i < |rows| && (rows[i].email == Lower(f.email.value) || rows[i].username == Lower(f.username.value))
    ensures var e, u := Lower(f.email.value), Lower(f.username.value);
      var k := IndexWhere(rows, SameIdentity(e, u));
      && k <= i
      && RegisterOutcome(rows, nextId, f, salt, now)
         == Outcome(Reply(400, Message(if rows[k].email == e then MsgEmailExists else MsgUsernameTaken)), rows)
  {
    DuplicateAt(rows, Lower(f.email.value), Lower(f.username.value), i);
  }

  /** A row at `i` clashing with the query makes the duplicate answer that of the first
      clashing row, at or before `i`. */
  lemma DuplicateAt(rows: seq<Account>, email: string, username: string, i: nat)
    requires i < |rows| && (rows[i].email == email || rows[i].username == username)
    ensures var k := IndexWhere(rows, SameIdentity(email, username));
      && k <= i
      && DuplicateMessage(rows, email, username) == Some(if rows[k].email == email then MsgEmailExists else MsgUsernameTaken)
  {
    assert SameIdentity(email, username)(rows[i]);
  }

  /** Because only the stored username is trimmed, a username whose lower-cased form
      differs from a taken one, but whose trimmed form equals it, slips past the
      (exactly compared) duplicate query and is refused by the UNIQUE key: the caller
      sees 500, not "This username is already taken.". Under the column's PAD SPACE
      collation only leading white space gets that far; trailing white space is already
      matched by the query. */
  lemma RegisterTrimClash(rows: seq<Account>, nextId: nat, f: RegisterForm, salt: string, now: int, k: nat)
    requires RegistrationError(f).None?
    requires forall i :: 0 <= i < |rows| ==>
      rows[i].email != Lower(f.email.value) && rows[i].username != Lower(f.username.value)
    requires k < |rows| && rows[k].username == Trim(Lower(f.username.value))
    ensures RegisterOutcome(rows, nextId, f, salt, now) == Outcome(Reply(500, Message(MsgRegisterFailed)), rows)
  {
    var a := NewAccount(nextId, f, salt, now);
    assert SameIdentity(a.email, a.username)(rows[k]);
  }

  /** An instance: with "b" taken, registering " b" fails with 500. */
  lemma RegisterPaddedUsername(a: Account, f: RegisterForm, salt: string, now: int)
    requires a.username == "b" && a.email == "b@c.d"
    requires f == RegisterForm(Some("A"), Some("B"), Some(" b"), Some("a@b.c"), Some("secret"))
    ensures RegisterOutcome([a], a.id + 1, f, salt, now).reply == Reply(500, Message(MsgRegisterFailed))
  {
    PaddedForm(f);
    assert a.email[0] != f.email.value[0];
    RegisterTrimClash([a], a.id + 1, f, salt, now, 0);
  }

  lemma PaddedForm(f: RegisterForm)
    requires f == RegisterForm(Some("A"), Some("B"), Some(" b"), Some("a@b.c"), Some("secret"))
    ensures RegistrationError(f).None?
    ensures Lower(f.email.value) == "a@b.c" && Lower(f.username.value) == " b"
    ensures Trim(Lower(f.username.value)) == "b"
  {
    SampleForm(f);
    PaddedName(f.username.value);
  }

  /** A password of three emoji is three characters but six UTF-16 code units, so
      `/register` accepts it. */
  lemma AstralPasswordAccepted(f: RegisterForm)
    requires f.firstName == Some("A") && f.lastName == Some("B") && f.username == Some("a")
    requires f.email == Some("a@b.c") && f.password == Some("\U{1F600}\U{1F600}\U{1F600}")
    ensures |f.password.value| == 3
    ensures RegistrationError(f).None?
  {
    ThreeEmoji();
    SampleForm(f.(password := Some("secret")));
  }

  /** The sample forms pass every check of `/register`, and their email is already
      lower-case and trimmed. */
  lemma SampleForm(f: RegisterForm)
    requires f.firstName == Some("A") && f.lastName == Some("B") && f.password == Some("secret")
    requires f.username == Some(" b") || f.username == Some("a")
    requires f.email == Some("a@b.c")
    ensures RegistrationError(f).None?
    ensures Lower(f.email.value) == f.email.value && Trim(f.email.value) == f.email.value
  {
    SampleEmail(f.email.value);
    SampleComplete(f);
    assert Utf16Length(f.password.value) >= |f.password.value| == 6;
  }

  lemma SampleEmail(e: string)
    requires e == "a@b.c"
    ensures EmailPattern(e) && Lower(e) == e && Trim(e) == e
  {
    assert e[..1] == "a" && e[2..3] == "b" && e[4..] == "c";
    assert PatternAt(e, 1, 3);
    LowerFixed(e);
    Word(e);
  }

  lemma SampleComplete(f: RegisterForm)
    requires f.firstName == Some("A") && f.lastName == Some("B") && f.password == Some("secret")
    requires f.username == Some(" b") || f.username == Some("a")
    requires f.email == Some("a@b.c")
    ensures FormComplete(f)
  {
    Word(f.email.value);
    Word(f.firstName.value);
    Word(f.lastName.value);
    if f.username == Some(" b") {
      PaddedName(f.username.value);
    } else {
      Word(f.username.value);
    }
  }

  lemma PaddedName(s: string)
    requires s == " b"
    ensures Lower(s) == s && Trim(s) == "b" && Filled(Some(s))
  {
    assert s == [' '] + "b";
    TrimOneSpace("b");
    LowerFixed(s);
  }

  lemma TrimOneSpace(w: string)
    requires w != [] && NoSpace(w)
    ensures Trim([' '] + w) == w
  {
    var s := [' '] + w;
    assert s[1..] == w;
    assert TrimStart(w) == w;
    assert TrimStart(s) == w;
    TrimNoSpace(w);
  }

  lemma Word(s: string)
    requires s != [] && NoSpace(s)
    ensures Filled(Some(s)) && Trim(s) == s
  {
    TrimNoSpace(s);
  }

  lemma LowerFixed(s: string)
    requires forall k :: 0 <= k < |s| ==> !('A' <= s[k] <= 'Z')
    ensures Lower(s) == s
  {
  }

  // ---------------------------------------------------------------- /login

  /** The request body of `/login`: `email` carries an email address or a username. */
  datatype LoginForm = LoginForm(email: Option<string>, password: Option<string>)

  /** `WHERE username = ? OR email = ?` with the same key twice. */
  function SignInMatch(key: string): Account -> bool {
    (a: Account) => a.username == key || a.email == key
  }

  /** The row `/login` works with: the first whose username or email is the
      lower-cased, trimmed identifier. */
  function LoginRow(rows: seq<Account>, f: LoginForm): (r: Option<Account>)
    requires f.email.Some?
    ensures r.None? <==> forall i :: 0 <= i < |rows| ==>
      rows[i].username != Trim(Lower(f.email.value)) && rows[i].email != Trim(Lower(f.email.value))
    ensures r.Some? ==> r.value in rows
  {
    Find(rows, SignInMatch(Trim(Lower(f.email.value))))
  }

  /** `user.firstName + " " + user.lastName`, as `/login` and the profile route build it. */
  function DisplayName(a: Account): string {
    a.firstName + " " + a.lastName
  }

  /** `updated_at = NOW()` on the row with `id`. */
  function Touch(rows: seq<Account>, id: nat, now: int): (r: seq<Account>)
    ensures |r| == |rows|
    ensures forall i :: 0 <= i < |rows| ==> r[i] == if rows[i].id == id then rows[i].(updatedAt := now) else rows[i]
  {
    MapWhere(rows, HasId(id), (a: Account) => a.(updatedAt := now))
  }

  /** `/login` with the database connected, at `now` milliseconds. `touched` says
      whether the best-effort `updated_at` write went through. */
  function LoginOutcome(rows: seq<Account>, f: LoginForm, now: nat, touched: bool): (o: Outcome)
    ensures o.reply.Reply? && o.reply.status in {200, 400}
    ensures o.reply.status == 400 ==> o.rows == rows && o.reply.body.Message?
    ensures |o.rows| == |rows|
    ensures forall i :: 0 <= i < |rows| ==> o.rows[i] == rows[i] || o.rows[i] == rows[i].(updatedAt := now)
  {
    if !Filled(f.email) || !Given(f.password) then Outcome(Reply(400, Message(MsgLoginRequired)), rows)
    else
      match LoginRow(rows, f)
      case None => Outcome(Reply(400, Message(MsgBadCredentials)), rows)
      case Some(u) =>
        if !Compare(f.password.value, u.password) then Outcome(Reply(400, Message(MsgBadCredentials)), rows)
        else
          var token := Sign(Claims(u.id, u.email), now);
          var user := PublicUser(u.id, u.email, DisplayName(u), u.role, OrElse(Some(u.avatar), ""));
          Outcome(Reply(200, LoggedIn(token, user)), if touched then Touch(rows, u.id, now) else rows)
  }

  /** Logging in at most moves `updated_at`, so the table stays consistent. */
  lemma LoginKeepsConsistent(rows: seq<Account>, nextId: nat, f: LoginForm, now: nat, touched: bool)
    requires Consistent(rows, nextId)
    ensures Consistent(LoginOutcome(rows, f, now, touched).rows, nextId)
  {
    SameKeysKeepConsistent(rows, LoginOutcome(rows, f, now, touched).rows, nextId);
  }

  /** An unknown identifier and a wrong password get the same reply, and neither changes
      the table. */
  lemma LoginFailuresAlike(rows: seq<Account>, f: LoginForm, now: nat, touched: bool)
    requires Filled(f.email) && Given(f.password)
    requires LoginRow(rows, f).None? || !Compare(f.password.value, LoginRow(rows, f).value.password)
    ensures LoginOutcome(rows, f, now, touched) == Outcome(Reply(400, Message(MsgBadCredentials)), rows)
  {
  }

  /** A right password gets a token for `{ id, email }` expiring 24 hours later, and the
      account's public fields. */
  lemma LoginSucceeds(rows: seq<Account>, f: LoginForm, now: nat, touched: bool)
    requires Filled(f.email) && Given(f.password)
    requires LoginRow(rows, f).Some? && Compare(f.password.value, LoginRow(rows, f).value.password)
    ensures var u := LoginRow(rows, f).value;
      var o := LoginOutcome(rows, f, now, touched);
      && o.reply == Reply(200, LoggedIn(Sign(Claims(u.id, u.email), now),
                                        PublicUser(u.id, u.email, u.firstName + " " + u.lastName, u.role, u.avatar)))
      && o.reply.body.token.expiresAt == o.reply.body.token.issuedAt + 86400
  {
  }

  /** After a registration, logging in with the same email and password succeeds,
      provided no earlier account has that email as its username. */
  lemma LoginAfterRegister(rows: seq<Account>, nextId: nat, f: RegisterForm, salt: string, now: int, later: nat, touched: bool)
    requires RegisterOutcome(rows, nextId, f, salt, now).reply.status == 201
    requires forall i :: 0 <= i < |rows| ==> rows[i].username != Trim(Lower(f.email.value))
    ensures var after := RegisterOutcome(rows, nextId, f, salt, now).rows;
      var o := LoginOutcome(after, LoginForm(f.email, f.password), later, touched);
      o.reply.Reply? && o.reply.status == 200 && o.reply.body.LoggedIn? && o.reply.body.token.claims.id == nextId
  {
    var a := NewAccount(nextId, f, salt, now);
    RegisterAccepted(rows, nextId, f, salt, now);
    var key := Trim(Lower(f.email.value));
    assert forall i :: 0 <= i < |rows| ==> !SignInMatch(key)(rows[i]);
    FindAfterMisses(rows, a, SignInMatch(key));
    LoginSucceeds(rows + [a], LoginForm(f.email, f.password), later, touched);
  }

  /** The proviso above is needed: a username may look like an email address, and the
      login query then finds that older account first and refuses the new one. */
  lemma LoginShadowed(rows: seq<Account>, nextId: nat, f: RegisterForm, salt: string, now: int, later: nat, touched: bool, k: nat)
    requires RegisterOutcome(rows, nextId, f, salt, now).reply.status == 201
    requires k < |rows| && rows[k].username == Trim(Lower(f.email.value)) && !Compare(f.password.value, rows[k].password)
    requires forall j :: 0 <= j < k ==> !SignInMatch(Trim(Lower(f.email.value)))(rows[j])
    ensures LoginOutcome(RegisterOutcome(rows, nextId, f, salt, now).rows, LoginForm(f.email, f.password), later, touched)
            == Outcome(Reply(400, Message(MsgBadCredentials)), RegisterOutcome(rows, nextId, f, salt, now).rows)
  {
    RegisterAccepted(rows, nextId, f, salt, now);
    var after := RegisterOutcome(rows, nextId, f, salt, now).rows;
    var key := Trim(Lower(f.email.value));
    assert after[k] == rows[k];
    assert forall j :: 0 <= j < k ==> after[j] == rows[j];
    assert IndexWhere(after, SignInMatch(key)) == k;
  }

  /** An instance: the older account's username is the new account's email. */
  lemma LoginAfterRegisterMissed(prior: Account, f: RegisterForm, salt: string, now: int, later: nat)
    requires prior == Account(1, "C", "D", "a@b.c", "c@d.e", Hash("hunter", salt), "User", "", "", None, None, 0, 0)
    requires f == RegisterForm(Some("A"), Some("B"), Some("a"), Some("a@b.c"), Some("secret"))
    ensures RegisterOutcome([prior], 2, f, salt, now).reply.status == 201
    ensures LoginOutcome(RegisterOutcome([prior], 2, f, salt, now).rows, LoginForm(f.email, f.password), later, true).reply
            == Reply(400, Message(MsgBadCredentials))
  {
    SampleForm(f);
    LowerFixed(f.username.value);
    assert prior.email[0] != f.email.value[0];
    assert |prior.username| != |f.username.value|;
    assert prior.password.secret[0] != f.password.value[0];
    ShadowedByOlderUsername(prior, f, salt, now, later);
  }

  /** A fresh form whose email is the username of the one older account registers,
      and then logging in with that email finds the older account. */
  lemma ShadowedByOlderUsername(prior: Account, f: RegisterForm, salt: string, now: int, later: nat)
    requires RegistrationError(f).None?
    requires Lower(f.email.value) == Trim(Lower(f.email.value)) && Lower(f.username.value) == Trim(Lower(f.username.value))
    requires prior.email != Lower(f.email.value) && prior.username != Lower(f.username.value)
    requires prior.username == Trim(Lower(f.email.value)) && !Compare(f.password.value, prior.password)
    ensures RegisterOutcome([prior], 2, f, salt, now).reply.status == 201
    ensures LoginOutcome(RegisterOutcome([prior], 2, f, salt, now).rows, LoginForm(f.email, f.password), later, true).reply
            == Reply(400, Message(MsgBadCredentials))
  {
    RegisterFresh([prior], 2, f, salt, now);
    LoginShadowed([prior], 2, f, salt, now, later, true, 0);
  }

  /** A form that passes the checks and clashes with no row is accepted. */
  lemma RegisterFresh(rows: seq<Account>, nextId: nat, f: RegisterForm, salt: string, now: int)
    requires RegistrationError(f).None?
    requires Lower(f.email.value) == Trim(Lower(f.email.value)) && Lower(f.username.value) == Trim(Lower(f.username.value))
    requires forall i :: 0 <= i < |rows| ==>
      rows[i].email != Lower(f.email.value) && rows[i].username != Lower(f.username.value)
    ensures RegisterOutcome(rows, nextId, f, salt, now).reply.status == 201
  {
    assert DuplicateMessage(rows, Lower(f.email.value), Lower(f.username.value)).None?;
    var a := NewAccount(nextId, f, salt, now);
    assert forall i :: 0 <= i < |rows| ==> !SameIdentity(a.email, a.username)(rows[i]);
    assert Find(rows, SameIdentity(a.email, a.username)).None?;
  }

  // ---------------------------------------------------------------- /forgot-password

  /** How the reset mail went: no transporter configured, sent, or `sendMail` threw. */
  datatype MailResult = NoTransport | Sent | SendFailed

  /** A reset link is good for an hour. */
  const ResetWindow: int := 3600000

  /** `crypto.randomBytes(32).toString('hex')`: 64 lower-case hexadecimal digits. */
  predicate HexToken(t: string) {
    |t| == 64 && forall k :: 0 <= k < |t| ==> t[k] in "0123456789abcdef"
  }

  function HasEmail(email: string): Account -> bool {
    (a: Account) => a.email == email
  }

  /** The UPDATE of the reset columns (and, through ON UPDATE, `updated_at`). */
  function SetReset(rows: seq<Account>, id: nat, token: string, now: int): (r: seq<Account>)
    ensures |r| == |rows|
    ensures forall i :: 0 <= i < |rows| ==>
      r[i] == if rows[i].id == id
              then rows[i].(resetToken := Some(token), resetExpires := Some(now + ResetWindow), updatedAt := now)
              else rows[i]
  {
    MapWhere(rows, HasId(id),
      (a: Account) => a.(resetToken := Some(token), resetExpires := Some(now + ResetWindow), updatedAt := now))
  }

  /** `/forgot-password` with the database connected. */
  function ForgotOutcome(rows: seq<Account>, email: Option<string>, token: string, now: int, mail: MailResult): (o: Outcome)
    ensures o.reply.Reply? && o.reply.body.Message?
    ensures !Filled(email) ==> o == Outcome(Reply(400, Message(MsgEmailRequired)), rows)
    ensures Filled(email) && Find(rows, HasEmail(Trim(Lower(email.value)))).None? ==>
      o == Outcome(Reply(200, Message(MsgResetSent)), rows)
    ensures Filled(email) && mail != SendFailed ==> o.reply == Reply(200, Message(MsgResetSent))
  {
    if !Filled(email) then Outcome(Reply(400, Message(MsgEmailRequired)), rows)
    else
      match Find(rows, HasEmail(Trim(Lower(email.value))))
      case None => Outcome(Reply(200, Message(MsgResetSent)), rows)
      case Some(u) =>
        var rows' := SetReset(rows, u.id, token, now);
        if mail == SendFailed then Outcome(Reply(500, Message(MsgResetFailed)), rows')
        else Outcome(Reply(200, Message(MsgResetSent)), rows')
  }

  /** For a known email the matching row, and only it, gets the token and an expiry an
      hour from now, whether or not the mail goes out. */
  lemma ForgotSetsToken(rows: seq<Account>, nextId: nat, email: Option<string>, token: string, now: int, mail: MailResult, k: nat)
    requires Consistent(rows, nextId)
    requires Filled(email) && k < |rows| && rows[k].email == Trim(Lower(email.value))
    ensures var o := ForgotOutcome(rows, email, token, now, mail);
      && |o.rows| == |rows|
      && o.rows[k] == rows[k].(resetToken := Some(token), resetExpires := Some(now + 3600000), updatedAt := now)
      && (forall i :: 0 <= i < |rows| && i != k ==> o.rows[i] == rows[i])
      && o.reply.status == (if mail == SendFailed then 500 else 200)
      && Consistent(o.rows, nextId)
  {
    var p := HasEmail(Trim(Lower(email.value)));
    var j := IndexWhere(rows, p);
    assert j == k;
  }

  /** The stored token does not depend on how the mail went. */
  lemma ForgotIndependentOfMail(rows: seq<Account>, email: Option<string>, token: string, now: int, m1: MailResult, m2: MailResult)
    ensures ForgotOutcome(rows, email, token, now, m1).rows == ForgotOutcome(rows, email, token, now, m2).rows
  {
  }

  // ---------------------------------------------------------------- /api/user/profile

  /** `GET /api/user/profile` for the account `id` from the token. */
  function ProfileReply(rows: seq<Account>, id: nat): (r: Reply)
    ensures r.Reply? && r.status in {200, 404}
    ensures r.status == 404 <==> forall i :: 0 <= i < |rows| ==> rows[i].id != id
    ensures r.status == 404 ==> r.body == Message(MsgUserNotFound)
    ensures r.status == 200 ==> r.body.Profile? && r.body.view.id == id
    ensures r.status == 200 ==>
      var k := IndexWhere(rows, HasId(id));
      && k < |rows|
      && var a := rows[k];
      r.body == Profile(ProfileView(id, a.firstName + " " + a.lastName, a.email, a.role, a.location, a.avatar))
  {
    match Find(rows, HasId(id))
    case None => Reply(404, Message(MsgUserNotFound))
    case Some(a) => Reply(200, Profile(ProfileView(a.id, DisplayName(a), a.email, a.role, a.location, a.avatar)))
  }

  /** The request body of `PUT /api/user/profile`. */
  datatype ProfileForm = ProfileForm(
    name: Option<string>,
    email: Option<string>,
    role: Option<string>,
    location: Option<string>,
    avatar: Option<string>)

  /** `const [firstName, ...rest] = name.split(' '); lastName = rest.join(' ')`. */
  function SplitName(name: string): (r: (string, string))
    ensures ' ' !in r.0
    ensures ' ' in name ==> r.0 + " " + r.1 == name
    ensures ' ' !in name ==> r.0 == name && r.1 == ""
  {
    var parts := Split(name, ' ');
    SplitFirst(name, ' ');
    if ' ' in name then
      JoinSplit(After(name, ' '), ' ');
      (parts[0], Join(parts[1..], ' '))
    else (parts[0], Join(parts[1..], ' '))
  }

  /** The UPDATE of the profile columns on one row; MySQL moves `updated_at` only when a
      value actually changes. */
  function ApplyProfile(a: Account, first: string, last: string, f: ProfileForm, now: int): (b: Account)
    requires f.email.Some?
    ensures b.firstName == first && b.lastName == last && b.email == f.email.value
    ensures b.role == OrElse(f.role, "") && b.location == OrElse(f.location, "") && b.avatar == OrElse(f.avatar, "")
    ensures b.(firstName := a.firstName, lastName := a.lastName, email := a.email, role := a.role,
               location := a.location, avatar := a.avatar, updatedAt := a.updatedAt) == a
    ensures b.updatedAt == a.updatedAt || b.updatedAt == now
  {
    var b := a.(firstName := first, lastName := last, email := f.email.value, role := OrElse(f.role, ""),
                location := OrElse(f.location, ""), avatar := OrElse(f.avatar, ""));
    if b == a then a else b.(updatedAt := now)
  }

  /** Another row than `id` already has `email`. */
  predicate EmailTakenByOther(rows: seq<Account>, id: nat, email: string) {
    exists i :: 0 <= i < |rows| && rows[i].id != id && rows[i].email == email
  }

  /** The UNIQUE key refuses the UPDATE: `WHERE id = ?` selects a row and the new email
      is another row's. An UPDATE that selects no row checks no key. */
  predicate UpdateClashes(rows: seq<Account>, id: nat, email: string) {
    HasKey(rows, (a: Account) => a.id as int, id) && EmailTakenByOther(rows, id, email)
  }

  /** `PUT /api/user/profile` for the account `id` from the token, with the database
      connected. A missing name throws before the `try`; a missing email is an unbound
      SQL parameter and fails with 500; missing role, location and avatar become ''. */
  function ProfileUpdateOutcome(rows: seq<Account>, id: nat, f: ProfileForm, now: int): (o: Outcome)
    ensures f.name.None? ==> o == Outcome(Unanswered, rows)
    ensures o.reply != Reply(200, Message(MsgProfileUpdated)) ==> o.rows == rows
    ensures |o.rows| == |rows|
    ensures forall i :: 0 <= i < |rows| && rows[i].id != id ==> o.rows[i] == rows[i]
    ensures o.reply == Reply(200, Message(MsgProfileUpdated)) <==>
      f.name.Some? && f.email.Some? && !UpdateClashes(rows, id, f.email.value)
    ensures o.reply == Reply(200, Message(MsgProfileUpdated)) ==>
      var (first, last) := SplitName(f.name.value);
      forall i :: 0 <= i < |rows| && rows[i].id == id ==> o.rows[i] == ApplyProfile(rows[i], first, last, f, now)
  {
    if f.name.None? then Outcome(Unanswered, rows)
    else if f.email.None? then Outcome(Reply(500, Message(MsgServerError)), rows)
    else if UpdateClashes(rows, id, f.email.value) then Outcome(Reply(500, Message(MsgServerError)), rows)
    else
      var (first, last) := SplitName(f.name.value);
      Outcome(Reply(200, Message(MsgProfileUpdated)),
              MapWhere(rows, HasId(id), (a: Account) => ApplyProfile(a, first, last, f, now)))
  }

  /** An update for an id that has no row answers 200 and changes nothing, whatever
      email it sends. */
  lemma UpdateOfAbsentId(rows: seq<Account>, id: nat, f: ProfileForm, now: int)
    requires f.name.Some? && f.email.Some?
    requires forall i :: 0 <= i < |rows| ==> rows[i].id != id
    ensures ProfileUpdateOutcome(rows, id, f, now) == Outcome(Reply(200, Message(MsgProfileUpdated)), rows)
  {
    var after := ProfileUpdateOutcome(rows, id, f, now).rows;
    assert !HasKey(rows, (a: Account) => a.id as int, id);
    assert forall i :: 0 <= i < |rows| ==> after[i] == rows[i];
    assert after == rows;
  }

  /** Reading the profile back after an update gives the name that was sent when it
      holds a space, and the name followed by a space when it does not; the other
      fields read back as written. */
  lemma ProfileRoundTrip(rows: seq<Account>, nextId: nat, id: nat, f: ProfileForm, now: int, k: nat)
    requires Consistent(rows, nextId)
    requires k < |rows| && rows[k].id == id
    requires ProfileUpdateOutcome(rows, id, f, now).reply == Reply(200, Message(MsgProfileUpdated))
    ensures var r := ProfileReply(ProfileUpdateOutcome(rows, id, f, now).rows, id);
      && r.Reply? && r.status == 200
      && r.body.view.name == (if ' ' in f.name.value then f.name.value else f.name.value + " ")
      && r.body.view.email == f.email.value
      && r.body.view.role == OrElse(f.role, "")
      && r.body.view.location == OrElse(f.location, "")
      && r.body.view.avatar == OrElse(f.avatar, "")
  {
    var after := ProfileUpdateOutcome(rows, id, f, now).rows;
    var j := IndexWhere(after, HasId(id));
    assert after[k].id == id;
    assert j == k;
  }

  /** A successful update keeps ids, usernames and emails unique. */
  lemma ProfileUpdateKeepsConsistent(rows: seq<Account>, nextId: nat, id: nat, f: ProfileForm, now: int)
    requires Consistent(rows, nextId)
    ensures Consistent(ProfileUpdateOutcome(rows, id, f, now).rows, nextId)
  {
  }

  /** The reply for a request `authenticateToken` stops. */
  function AuthReply(a: AuthOutcome): (r: Reply)
    requires !a.Authenticated?
    ensures a == MissingToken ==> r == Reply(401, Message(MsgTokenRequired))
    ensures a == RejectedToken ==> r == Reply(403, Message(MsgTokenInvalid))
  {
    if a == MissingToken then Reply(401, Message(MsgTokenRequired)) else Reply(403, Message(MsgTokenInvalid))
  }

  // ---------------------------------------------------------------- the table

  /** The `users` table behind the routes; `connected` is whether the server reached
      its database at start-up (the routes answer 503 otherwise). */
  class UserTable {
    var rows: seq<Account>
    var nextId: nat
    var connected: bool

    ghost predicate Valid()
      reads this
    {
      Consistent(rows, nextId)
    }

    constructor (connected: bool)
      ensures Valid() && rows == [] && this.connected == connected
    {
      rows := [];
      nextId := 1;
      this.connected := connected;
    }

    /** `POST /register`. The id counter is InnoDB's AUTO_INCREMENT: the INSERT takes
        the next value whether it succeeds (201) or a UNIQUE key refuses it (500). */
    method Register(f: RegisterForm, salt: string, now: int) returns (reply: Reply)
      requires Valid()
      modifies this
      ensures Valid() && connected == old(connected)
      ensures !connected ==> reply == Reply(503, Message(MsgUnavailable)) && rows == old(rows) && nextId == old(nextId)
      ensures connected ==>
        var o := RegisterOutcome(old(rows), old(nextId), f, salt, now);
        && reply == o.reply && rows == o.rows
        && nextId == (if reply.status == 201 || reply.status == 500 then old(nextId) + 1 else old(nextId))
    {
      if !connected {
        return Reply(503, Message(MsgUnavailable));
      }
      var o := RegisterOutcome(rows, nextId, f, salt, now);
      RegisterKeepsConsistent(rows, nextId, f, salt, now);
      if o.reply.status == 500 {
        CounterGapKeepsConsistent(rows, nextId);
        reply, nextId := o.reply, nextId + 1;
      } else {
        reply, rows, nextId := o.reply, o.rows, if o.reply.status == 201 then nextId + 1 else nextId;
      }
    }

    /** `POST /login`. */
    method Login(f: LoginForm, now: nat, touched: bool) returns (reply: Reply)
      requires Valid()
      modifies this
      ensures Valid() && connected == old(connected) && nextId == old(nextId)
      ensures !connected ==> reply == Reply(503, Message(MsgUnavailable)) && rows == old(rows)
      ensures connected ==>
        var o := LoginOutcome(old(rows), f, now, touched);
        reply == o.reply && rows == o.rows
    {
      if !connected {
        return Reply(503, Message(MsgUnavailable));
      }
      var o := LoginOutcome(rows, f, now, touched);
      LoginKeepsConsistent(rows, nextId, f, now, touched);
      reply := o.reply;
      rows := o.rows;
    }

    /** `POST /forgot-password`, with `token` the random value drawn for this request. */
    method ForgotPassword(email: Option<string>, token: string, now: int, mail: MailResult) returns (reply: Reply)
      requires Valid() && HexToken(token)
      modifies this
      ensures Valid() && connected == old(connected) && nextId == old(nextId)
      ensures !connected ==> reply == Reply(503, Message(MsgUnavailable)) && rows == old(rows)
      ensures connected ==>
        var o := ForgotOutcome(old(rows), email, token, now, mail);
        reply == o.reply && rows == o.rows
    {
      if !connected {
        return Reply(503, Message(MsgUnavailable));
      }
      var o := ForgotOutcome(rows, email, token, now, mail);
      if Filled(email) {
        var found := Find(rows, HasEmail(Trim(Lower(email.value))));
        if found.Some? {
          ForgotSetsToken(rows, nextId, email, token, now, mail, IndexWhere(rows, HasEmail(Trim(Lower(email.value)))));
        }
      }
      reply := o.reply;
      rows := o.rows;
    }

    /** `GET /api/user/profile` behind `authenticateToken`. */
    method GetProfile(header: Option<string>, decode: string -> Option<SessionToken>, now: nat) returns (reply: Reply)
      ensures !Authenticate(header, decode, now).Authenticated? ==> reply == AuthReply(Authenticate(header, decode, now))
      ensures Authenticate(header, decode, now).Authenticated? && !connected ==> reply == Reply(503, Message(MsgUnavailable))
      ensures Authenticate(header, decode, now).Authenticated? && connected ==>
        reply == ProfileReply(rows, Authenticate(header, decode, now).claims.id)
    {
      var auth := Authenticate(header, decode, now);
      if !auth.Authenticated? {
        return AuthReply(auth);
      }
      if !connected {
        return Reply(503, Message(MsgUnavailable));
      }
      reply := ProfileReply(rows, auth.claims.id);
    }

    /** `PUT /api/user/profile` behind `authenticateToken`. */
    method UpdateProfile(header: Option<string>, decode: string -> Option<SessionToken>, now: nat, f: ProfileForm)
      returns (reply: Reply)
      requires Valid()
      modifies this
      ensures Valid() && connected == old(connected) && nextId == old(nextId)
      ensures !Authenticate(header, decode, now).Authenticated? ==>
        reply == AuthReply(Authenticate(header, decode, now)) && rows == old(rows)
      ensures Authenticate(header, decode, now).Authenticated? && !connected ==>
        reply == Reply(503, Message(MsgUnavailable)) && rows == old(rows)
      ensures Authenticate(header, decode, now).Authenticated? && connected ==>
        var o := ProfileUpdateOutcome(old(rows), Authenticate(header, decode, now).claims.id, f, now);
        reply == o.reply && rows == o.rows
    {
      var auth := Authenticate(header, decode, now);
      if !auth.Authenticated? {
        return AuthReply(auth);
      }
      if !connected {
        return Reply(503, Message(MsgUnavailable));
      }
      var o := ProfileUpdateOutcome(rows, auth.claims.id, f, now);
      ProfileUpdateKeepsConsistent(rows, nextId, auth.claims.id, f, now);
      reply := o.reply;
      rows := o.rows;
    }
  }
}
