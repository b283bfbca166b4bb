/** How a user signs in: a password, stored in two copies, and a linked Google account. Every operation that
    writes either, over the user table and the account table with the database's unique indexes. */
module SignInMethods {
  import opened Wrappers

  datatype Provider = PASSWORD | GOOGLE

  /** An Argon2 hash: verification accepts exactly the hashed password. */
  datatype Hash = Argon2(password: string, salt: nat)

  predicate Verify(hash: Hash, password: string) {
    hash.password == password
  }

  /** providerAccountId: an e-mail address, else the user's own id; or Google's subject claim. */
  datatype ExternalId = Mail(email: string) | Own(userId: Uuid) | Sub(subject: string)

  datatype User = User(
    email: Option<string>,
    passwordHash: Option<Hash>,
    emailVerified: bool,
    active: bool,
    deleted: bool)

  datatype Account = Account(
    userId: Uuid,
    provider: Provider,
    providerAccountId: ExternalId,
    passwordHash: Option<Hash>)

  datatype Db = Db(users: map<Uuid, User>, accounts: seq<Account>)

  datatype Error =
    | InvalidCredentials
    | EmailNotVerified
    | AccountInactive
    | AccountDeleted
    | EmailTaken
    | UserNotFound
    | PasswordAlreadySet
    | NoPasswordSet
    | WrongPassword
    | GoogleLinkedHere
    | GoogleLinkedElsewhere
    | GoogleAlreadyLinked
    | LastMethod
    | MethodNotLinked
    | BadOtp
    | UniqueViolation

  // --------------------------------------------------------------- the tables

  predicate Clash(a: Account, b: Account) {
    a.provider == b.provider && (a.userId == b.userId || a.providerAccountId == b.providerAccountId)
  }

  predicate SameEmail(a: User, b: User) {
    a.email.Some? && a.email == b.email
  }

  /** The unique indexes: e-mail; user and provider; provider and external id. */
  ghost predicate Indexed(db: Db) {
    && (forall u, v :: u in db.users && v in db.users && SameEmail(db.users[u], db.users[v]) ==> u == v)
    && (forall i, j :: 0 <= i < j < |db.accounts| ==> !Clash(db.accounts[i], db.accounts[j]))
  }

  predicate HasEmail(users: map<Uuid, User>, email: string) {
    exists u :: u in users && users[u].email == Some(email)
  }

  function UserByEmail(db: Db, email: string): (u: Uuid)
    requires Indexed(db) && HasEmail(db.users, email)
    ensures u in db.users && db.users[u].email == Some(email)
  {
    var u :| u in db.users && db.users[u].email == Some(email);
    u
  }

  function Find(accounts: seq<Account>, userId: Uuid, provider: Provider): (r: Option<nat>)
    ensures r.Some? ==> r.value < |accounts|
    ensures r.Some? ==> accounts[r.value].userId == userId && accounts[r.value].provider == provider
    ensures r.None? ==> forall a :: a in accounts ==> a.userId != userId || a.provider != provider
  {
    if accounts == [] then None
    else if accounts[0].userId == userId && accounts[0].provider == provider then Some(0)
    else
      var r := Find(accounts[1..], userId, provider);
      assert accounts == [accounts[0]] + accounts[1..];
      if r.Some? then Some(r.value + 1) else None
  }

  function AccountsOf(accounts: seq<Account>, userId: Uuid): seq<Account> {
    if accounts == [] then []
    else (if accounts[0].userId == userId then [accounts[0]] else []) + AccountsOf(accounts[1..], userId)
  }

  predicate Violates(accounts: seq<Account>, a: Account) {
    exists i :: 0 <= i < |accounts| && Clash(accounts[i], a)
  }

  function CreateAccount(db: Db, a: Account): Result<Db, Error> {
    if Violates(db.accounts, a) then Err(UniqueViolation) else Ok(db.(accounts := db.accounts + [a]))
  }

  function SetRowHash(db: Db, u: Uuid, hash: Option<Hash>): Db
    requires u in db.users
  {
    db.(users := db.users[u := db.users[u].(passwordHash := hash)])
  }

  /** Create the PASSWORD account or overwrite its hash, and its external id when one is given. */
  function UpsertPassword(db: Db, u: Uuid, fallback: ExternalId, newId: Option<ExternalId>, hash: Hash)
    : Result<Db, Error>
  {
    var i := Find(db.accounts, u, PASSWORD);
    if i.None? then CreateAccount(db, Account(u, PASSWORD, fallback, Some(hash)))
    else
      var a := db.accounts[i.value];
      var b := a.(passwordHash := Some(hash),
                  providerAccountId := if newId.Some? then newId.value else a.providerAccountId);
      if exists j :: 0 <= j < |db.accounts| && j != i.value && Clash(db.accounts[j], b) then Err(UniqueViolation)
      else Ok(db.(accounts := db.accounts[i.value := b]))
  }

  /** The hash a login verifies against: the account's, else the user row's. */
  function LoginHash(db: Db, u: Uuid): Option<Hash>
    requires u in db.users
  {
    var i := Find(db.accounts, u, PASSWORD);
    if i.Some? && db.accounts[i.value].passwordHash.Some? then db.accounts[i.value].passwordHash
    else db.users[u].passwordHash
  }

  function OwnExternalId(db: Db, u: Uuid): ExternalId
    requires u in db.users
  {
    if db.users[u].email.Some? then Mail(db.users[u].email.value) else Own(u)
  }

  predicate Live(db: Db, u: Uuid) {
    u in db.users && !db.users[u].deleted
  }

  predicate IsGoogle(a: Account, subject: string) {
    a.provider == GOOGLE && a.providerAccountId == Sub(subject)
  }

  predicate GoogleLinked(db: Db, subject: string) {
    exists i :: 0 <= i < |db.accounts| && IsGoogle(db.accounts[i], subject)
  }

  function GoogleOwner(db: Db, subject: string): (u: Uuid)
    requires Indexed(db) && GoogleLinked(db, subject)
    ensures exists a :: a in db.accounts && a.provider == GOOGLE && a.providerAccountId == Sub(subject) && a.userId == u
  {
    var i :| 0 <= i < |db.accounts| && IsGoogle(db.accounts[i], subject);
    assert db.accounts[i] in db.accounts;
    db.accounts[i].userId
  }

  // ----------------------------------------------------------- the operations

  datatype Op =
    | Register(id: Uuid, email: string, hash: Hash)
    | VerifyEmail(email: string)
    | Login(email: string, password: string)
    | GoogleSignIn(id: Uuid, email: string, subject: string)
    | SetPassword(u: Uuid, hash: Hash)
    | ChangePassword(u: Uuid, current: string, hash: Hash)
    | ResetPassword(email: string, otpMatches: bool, hash: Hash)
    | LinkGoogle(u: Uuid, subject: string)
    | Unlink(u: Uuid, provider: Provider)

  function RegisterOutcome(db: Db, id: Uuid, email: string, hash: Hash): Result<Db, Error>
    requires Indexed(db)
  {
    if HasEmail(db.users, email) then
      var u := UserByEmail(db, email);
      if db.users[u].emailVerified then Err(EmailTaken)
      else
        var r := UpsertPassword(SetRowHash(db, u, Some(hash)), u, Mail(email), Some(Mail(email)), hash);
        if r.Ok? then r else Err(EmailTaken)
    else if id in db.users then Err(EmailTaken)
    else
      var created := db.(users := db.users[id := User(Some(email), Some(hash), false, true, false)]);
      var r := CreateAccount(created, Account(id, PASSWORD, Mail(email), Some(hash)));
      if r.Ok? then r else Err(EmailTaken)
  }

  function LoginOutcome(db: Db, email: string, password: string): Result<Db, Error>
    requires Indexed(db)
  {
    if !HasEmail(db.users, email) || db.users[UserByEmail(db, email)].deleted then Err(InvalidCredentials)
    else
      var u := UserByEmail(db, email);
      var hash := LoginHash(db, u);
      if hash.None? || !Verify(hash.value, password) then Err(InvalidCredentials)
      else if !db.users[u].emailVerified then Err(EmailNotVerified)
      else if !db.users[u].active then Err(AccountInactive)
      else if Find(db.accounts, u, PASSWORD).Some? then Ok(db)
      else
        // The lazy migration's failure is swallowed.
        var r := CreateAccount(db, Account(u, PASSWORD, OwnExternalId(db, u), hash));
        if r.Ok? then r else Ok(db)
  }

  function GoogleOutcome(db: Db, id: Uuid, email: string, subject: string): Result<Db, Error>
    requires Indexed(db)
  {
    if GoogleLinked(db, subject) then
      var u := GoogleOwner(db, subject);
      if !Live(db, u) then Err(AccountDeleted)
      else if !db.users[u].active then Err(AccountInactive)
      else Ok(db)
    else if HasEmail(db.users, email) && !db.users[UserByEmail(db, email)].deleted then
      var u := UserByEmail(db, email);
      if !db.users[u].active then Err(AccountInactive)
      else
        var r := CreateAccount(db, Account(u, GOOGLE, Sub(subject), None));
        if r.Err? then r
        else Ok(r.value.(users := db.users[u := db.users[u].(emailVerified := true)]))
    else if id in db.users || HasEmail(db.users, email) then Err(UniqueViolation)
    else
      CreateAccount(db.(users := db.users[id := User(Some(email), None, true, true, false)]),
                    Account(id, GOOGLE, Sub(subject), None))
  }

  function SetPasswordOutcome(db: Db, u: Uuid, hash: Hash): Result<Db, Error> {
    if !Live(db, u) then Err(UserNotFound)
    else if Find(db.accounts, u, PASSWORD).Some? || db.users[u].passwordHash.Some? then Err(PasswordAlreadySet)
    else
      var r := CreateAccount(db, Account(u, PASSWORD, OwnExternalId(db, u), Some(hash)));
      if r.Err? then r else Ok(SetRowHash(r.value, u, Some(hash)))
  }

  function ChangePasswordOutcome(db: Db, u: Uuid, current: string, hash: Hash): Result<Db, Error> {
    if !Live(db, u) then Err(UserNotFound)
    else
      var currentHash := LoginHash(db, u);
      if currentHash.None? then Err(NoPasswordSet)
      else if !Verify(currentHash.value, current) then Err(WrongPassword)
      else UpsertPassword(SetRowHash(db, u, Some(hash)), u, OwnExternalId(db, u), None, hash)
  }

  function ResetPasswordOutcome(db: Db, email: string, otpMatches: bool, hash: Hash): Result<Db, Error>
    requires Indexed(db)
  {
    if !otpMatches then Err(BadOtp)
    else if !HasEmail(db.users, email) then Err(UserNotFound)
    else
      var u := UserByEmail(db, email);
      UpsertPassword(SetRowHash(db, u, Some(hash)), u, Mail(email), None, hash)
  }

  function LinkGoogleOutcome(db: Db, u: Uuid, subject: string): Result<Db, Error>
    requires Indexed(db)
  {
    if !Live(db, u) then Err(UserNotFound)
    else if GoogleLinked(db, subject) then
      Err(if GoogleOwner(db, subject) == u then GoogleLinkedHere else GoogleLinkedElsewhere)
    else if Find(db.accounts, u, GOOGLE).Some? then Err(GoogleAlreadyLinked)
    else CreateAccount(db, Account(u, GOOGLE, Sub(subject), None))
  }

  /** What unlinkProvider counts before it removes anything. */
  function EffectiveCount(db: Db, u: Uuid): nat
    requires u in db.users
  {
    |AccountsOf(db.accounts, u)| +
    (if db.users[u].passwordHash.Some? && Find(db.accounts, u, PASSWORD).None? then 1 else 0)
  }

  function RemoveAt(accounts: seq<Account>, i: nat): seq<Account>
    requires i < |accounts|
  {
    accounts[..i] + accounts[i + 1..]
  }

  function UnlinkOutcome(db: Db, u: Uuid, provider: Provider): Result<Db, Error> {
    if !Live(db, u) then Err(UserNotFound)
    else if EffectiveCount(db, u) <= 1 then Err(LastMethod)
    else
      var i := Find(db.accounts, u, provider);
      if i.None? && !(provider.PASSWORD? && db.users[u].passwordHash.Some?) then Err(MethodNotLinked)
      else
        var removed := if i.Some? then db.(accounts := RemoveAt(db.accounts, i.value)) else db;
        Ok(if provider.PASSWORD? then SetRowHash(removed, u, None) else removed)
  }

  function Outcome(db: Db, op: Op): Result<Db, Error>
    requires Indexed(db)
  {
    match op
    case Register(id, email, hash) => RegisterOutcome(db, id, email, hash)
    case VerifyEmail(email) =>
      if !HasEmail(db.users, email) then Err(UserNotFound)
      else
        var u := UserByEmail(db, email);
        Ok(db.(users := db.users[u := db.users[u].(emailVerified := true)]))
    case Login(email, password) => LoginOutcome(db, email, password)
    case GoogleSignIn(id, email, subject) => GoogleOutcome(db, id, email, subject)
    case SetPassword(u, hash) => SetPasswordOutcome(db, u, hash)
    case ChangePassword(u, current, hash) => ChangePasswordOutcome(db, u, current, hash)
    case ResetPassword(email, otpMatches, hash) => ResetPasswordOutcome(db, email, otpMatches, hash)
    case LinkGoogle(u, subject) => LinkGoogleOutcome(db, u, subject)
    case Unlink(u, provider) => UnlinkOutcome(db, u, provider)
  }

  function After(db: Db, op: Op): Db
    requires Indexed(db)
  {
    var r := Outcome(db, op);
    if r.Ok? then r.value else db
  }

  /** The account list shown to a user, by provider. */
  function ListAuthAccounts(db: Db, u: Uuid): seq<Provider>
    requires u in db.users
  {
    Providers(AccountsOf(db.accounts, u)) +
    (if db.users[u].passwordHash.Some? && Find(db.accounts, u, PASSWORD).None? then [PASSWORD] else [])
  }

  function Providers(accounts: seq<Account>): (ps: seq<Provider>)
    ensures |ps| == |accounts|
  {
    seq(|accounts|, i requires 0 <= i < |accounts| => accounts[i].provider)
  }

  /** Nobody has linked this subject. */
  ghost predicate NewSubject(accounts: seq<Account>, subject: string) {
    forall a :: a in accounts && a.provider == GOOGLE ==> a.providerAccountId != Sub(subject)
  }

  /** Another user's PASSWORD account has this external id. */
  ghost predicate Occupied(accounts: seq<Account>, ext: ExternalId, u: Uuid) {
    exists a :: a in accounts && a.provider == PASSWORD && a.providerAccountId == ext && a.userId != u
  }

  // -------------------------------------------------------------- the services

  /** The user and account tables with the statements the services run against them. */
  class AuthTables {
    var users: map<Uuid, User>
    var accounts: seq<Account>

    ghost function Model(): Db
      reads this
    {
      Db(users, accounts)
    }

    constructor ()
      ensures Model() == Db(map[], [])
    {
      users, accounts := map[], [];
    }

    /** An insert that the unique indexes may refuse. */
    method InsertAccount(a: Account) returns (inserted: bool)
      modifies this`accounts
      ensures inserted <==> CreateAccount(old(Model()), a).Ok?
      ensures inserted ==> Model() == CreateAccount(old(Model()), a).value
      ensures !inserted ==> Model() == old(Model())
      // Taken exactly when nobody has the provider for the same user or with the same external id.
      ensures inserted <==>
              forall i :: 0 <= i < |old(accounts)| && old(accounts)[i].provider == a.provider ==>
                old(accounts)[i].userId != a.userId && old(accounts)[i].providerAccountId != a.providerAccountId
      ensures accounts == if inserted then old(accounts) + [a] else old(accounts)
    {
      for i := 0 to |accounts|
        invariant Model() == old(Model())
        invariant forall j :: 0 <= j < i ==> !Clash(accounts[j], a)
      {
        if Clash(accounts[i], a) {
          return false;
        }
      }
      accounts := accounts + [a];
      return true;
    }

    /** Transaction: the row's hash, then the account's; both or neither. */
    method WritePassword(u: Uuid, fallback: ExternalId, newId: Option<ExternalId>, hash: Hash) returns (written: bool)
      requires u in users
      modifies this
      ensures var r := UpsertPassword(SetRowHash(old(Model()), u, Some(hash)), u, fallback, newId, hash);
              && (written <==> r.Ok?)
              && Model() == if r.Ok? then r.value else old(Model())
      // Written exactly when the external id the account is to have is not another user's.
      ensures old(Indexed(Model())) ==>
                (written <==> if Has(old(accounts), u, PASSWORD)
                              then newId.None? || !Occupied(old(accounts), newId.value, u)
                              else !Occupied(old(accounts), fallback, u))
      // An account that was there keeps its external id, unless a new one is given; a new account has the fallback.
      ensures written ==>
                var i := Find(old(accounts), u, PASSWORD);
                var ext := if i.None? then fallback
                           else if newId.Some? then newId.value
                           else old(accounts)[i.value].providerAccountId;
                Account(u, PASSWORD, ext, Some(hash)) in accounts && users[u].passwordHash == Some(hash)
    {
      FindIffHas(accounts, u, PASSWORD);
      var saved := users;
      users := users[u := users[u].(passwordHash := Some(hash))];
      var i := Find(accounts, u, PASSWORD);
      if i.None? {
        written := InsertAccount(Account(u, PASSWORD, fallback, Some(hash)));
      } else {
        var b := accounts[i.value].(passwordHash := Some(hash));
        if newId.Some? {
          b := b.(providerAccountId := newId.value);
        }
        written := !exists j :: 0 <= j < |accounts| && j != i.value && Clash(accounts[j], b);
        if written {
          accounts := accounts[i.value := b];
          assert accounts[i.value] == b;
        }
      }
      if !written {
        users := saved;
      }
    }

    method Register(id: Uuid, email: string, hash: Hash) returns (r: Result<Uuid, Error>)
      requires Indexed(Model())
      modifies this
      ensures Model() == After(old(Model()), Op.Register(id, email, hash))
      ensures r.Ok? <==> Outcome(old(Model()), Op.Register(id, email, hash)).Ok?
      ensures r.Err? ==> Outcome(old(Model()), Op.Register(id, email, hash)) == Err(r.error) && Model() == old(Model())
      // Refused exactly for a verified e-mail and for what the unique indexes do not take; otherwise the user of the
      // e-mail, or a new one with this id, has a PASSWORD account with this e-mail and hash.
      ensures r.Err? ==> r.error == EmailTaken
      ensures old(Inv(Model())) ==> forall u :: u in old(users) && old(users)[u].email == Some(email) ==>
                r == if old(users)[u].emailVerified || Occupied(old(accounts), Mail(email), u) then Err(EmailTaken)
                     else Ok(u)
      ensures old(Inv(Model())) && (forall u :: u in old(users) ==> old(users)[u].email != Some(email)) ==>
                r == if id in old(users) || Occupied(old(accounts), Mail(email), id) then Err(EmailTaken) else Ok(id)
      ensures r.Ok? ==> Account(r.value, PASSWORD, Mail(email), Some(hash)) in accounts
    {
      var written;
      if HasEmail(users, email) {
        var u := UserByEmail(Db(users, accounts), email);
        if users[u].emailVerified {
          return Err(EmailTaken);
        }
        written := WritePassword(u, Mail(email), Some(Mail(email)), hash);
        return if written then Ok(u) else Err(EmailTaken);
      }
      if id in users {
        return Err(EmailTaken);
      }
      var saved := users;
      assert Inv(Model()) ==> forall i :: 0 <= i < |accounts| ==> accounts[i] in accounts && accounts[i].userId != id;
      users := users[id := User(Some(email), Some(hash), false, true, false)];
      written := InsertAccount(Account(id, PASSWORD, Mail(email), Some(hash)));
      if !written {
        users := saved;
        return Err(EmailTaken);
      }
      return Ok(id);
    }

    method Login(email: string, password: string) returns (r: Result<Uuid, Error>)
      requires Indexed(Model())
      modifies this
      ensures Model() == After(old(Model()), Op.Login(email, password))
      ensures r.Ok? <==> Outcome(old(Model()), Op.Login(email, password)).Ok?
      ensures r.Err? ==> Outcome(old(Model()), Op.Login(email, password)) == Err(r.error)
      ensures r.Ok? ==> Live(old(Model()), r.value) && old(Model()).users[r.value].email == Some(email)
      // The answer, from the user's row alone: nobody of the e-mail, the password, the e-mail's state, the user's.
      ensures (forall u :: u in old(users) && old(users)[u].email == Some(email) ==> old(users)[u].deleted) ==>
                r == Err(InvalidCredentials)
      ensures old(Inv(Model())) ==>
                forall u :: u in old(users) && old(users)[u].email == Some(email) && !old(users)[u].deleted ==>
                  var row := old(users)[u];
                  r == if row.passwordHash.None? || row.passwordHash.value.password != password
                       then Err(InvalidCredentials)
                       else if !row.emailVerified then Err(EmailNotVerified)
                       else if !row.active then Err(AccountInactive)
                       else Ok(u)
      // Nothing changes but that a missing PASSWORD account is made, if the e-mail is no other account's.
      ensures users == old(users) && (r.Err? ==> accounts == old(accounts))
      ensures old(Inv(Model())) && r.Ok? ==>
                accounts == if Has(old(accounts), r.value, PASSWORD) || Occupied(old(accounts), Mail(email), r.value)
                            then old(accounts)
                            else old(accounts) + [Account(r.value, PASSWORD, Mail(email), users[r.value].passwordHash)]
    {
      if !HasEmail(users, email) {
        return Err(InvalidCredentials);
      }
      if Inv(Model()) {
        LoginHashIsRowHash(Model(), UserByEmail(Model(), email));
      }
      var u := UserByEmail(Db(users, accounts), email);
      if users[u].deleted {
        return Err(InvalidCredentials);
      }
      var passwordAccount := Find(accounts, u, PASSWORD);
      var hashToVerify :=
        if passwordAccount.Some? && accounts[passwordAccount.value].passwordHash.Some?
        then accounts[passwordAccount.value].passwordHash
        else users[u].passwordHash;
      if hashToVerify.None? || !Verify(hashToVerify.value, password) {
        return Err(InvalidCredentials);
      }
      if !users[u].emailVerified {
        return Err(EmailNotVerified);
      }
      if !users[u].active {
        return Err(AccountInactive);
      }
      if passwordAccount.None? {
        var ext := if users[u].email.Some? then Mail(users[u].email.value) else Own(u);
        var _ := InsertAccount(Account(u, PASSWORD, ext, hashToVerify));
      }
      return Ok(u);
    }

    method AuthenticateWithGoogle(id: Uuid, email: string, subject: string) returns (r: Result<Uuid, Error>)
      requires Indexed(Model())
      modifies this
      ensures Model() == After(old(Model()), GoogleSignIn(id, email, subject))
      ensures r.Ok? <==> Outcome(old(Model()), GoogleSignIn(id, email, subject)).Ok?
      ensures r.Err? ==> Outcome(old(Model()), GoogleSignIn(id, email, subject)) == Err(r.error)
      ensures r.Err? ==> Model() == old(Model())
      // Who is signed in: the subject's user; else the user of the e-mail, who is linked; else a new one.
      ensures old(Inv(Model())) ==>
                forall a :: a in old(accounts) && a.provider == GOOGLE && a.providerAccountId == Sub(subject) ==>
                  r == if old(users)[a.userId].deleted then Err(AccountDeleted)
                       else if !old(users)[a.userId].active then Err(AccountInactive)
                       else Ok(a.userId)
      ensures old(Inv(Model())) && NewSubject(old(accounts), subject) ==>
                forall u :: u in old(users) && old(users)[u].email == Some(email) ==>
                  r == if old(users)[u].deleted then Err(UniqueViolation)
                       else if !old(users)[u].active then Err(AccountInactive)
                       else if Has(old(accounts), u, GOOGLE) then Err(UniqueViolation)
                       else Ok(u)
      ensures old(Inv(Model())) && NewSubject(old(accounts), subject)
              && (forall u :: u in old(users) ==> old(users)[u].email != Some(email)) ==>
                r == if id in old(users) then Err(UniqueViolation) else Ok(id)
      ensures r.Ok? && NewSubject(old(accounts), subject) ==>
                && Account(r.value, GOOGLE, Sub(subject), None) in accounts
                && r.value in users && users[r.value].emailVerified
      ensures r.Ok? && !NewSubject(old(accounts), subject) ==> Model() == old(Model())
    {
      if GoogleLinked(Db(users, accounts), subject) {
        var u := GoogleOwner(Db(users, accounts), subject);
        if u !in users || users[u].deleted {
          return Err(AccountDeleted);
        }
        if !users[u].active {
          return Err(AccountInactive);
        }
        return Ok(u);
      }
      var inserted;
      if HasEmail(users, email) && !users[UserByEmail(Db(users, accounts), email)].deleted {
        var u := UserByEmail(Db(users, accounts), email);
        if !users[u].active {
          return Err(AccountInactive);
        }
        inserted := InsertAccount(Account(u, GOOGLE, Sub(subject), None));
        if !inserted {
          return Err(UniqueViolation);
        }
        users := users[u := users[u].(emailVerified := true)];
        return Ok(u);
      }
      if id in users || HasEmail(users, email) {
        return Err(UniqueViolation);
      }
      var saved := users;
      assert Inv(Model()) ==> forall i :: 0 <= i < |accounts| ==> accounts[i] in accounts && accounts[i].userId != id;
      users := users[id := User(Some(email), None, true, true, false)];
      inserted := InsertAccount(Account(id, GOOGLE, Sub(subject), None));
      if !inserted {
        users := saved;
        return Err(UniqueViolation);
      }
      return Ok(id);
    }

    method SetPassword(u: Uuid, hash: Hash) returns (error: Option<Error>)
      requires Indexed(Model())
      modifies this
      ensures Model() == After(old(Model()), Op.SetPassword(u, hash))
      ensures error.None? <==> Outcome(old(Model()), Op.SetPassword(u, hash)).Ok?
      ensures error.Some? ==> Outcome(old(Model()), Op.SetPassword(u, hash)) == Err(error.value)
      // A user without a password gets this one, and nobody's other ways to sign in change.
      ensures old(Inv(Model())) ==> Inv(Model()) && (error.None? ==> GainsOnly(old(Model()), Model(), u, PASSWORD))
      ensures old(Inv(Model())) && error.None? ==> SignsInWith(Model(), u, hash)
      // The answer: the user must exist and have no password in either copy, and its external id must be free.
      ensures error.Some? ==> Model() == old(Model())
      ensures error == Some(UserNotFound) <==> u !in old(users) || old(users)[u].deleted
      ensures u in old(users) && !old(users)[u].deleted ==>
                var ext := if old(users)[u].email.Some? then Mail(old(users)[u].email.value) else Own(u);
                error == if Has(old(accounts), u, PASSWORD) || old(users)[u].passwordHash.Some?
                         then Some(PasswordAlreadySet)
                         else if Occupied(old(accounts), ext, u) then Some(UniqueViolation)
                         else None
    {
      if Inv(Model()) {
        OpDescribed(Model(), Op.SetPassword(u, hash));
        SetPasswordGains(Model(), u, hash);
      }
      if u !in users || users[u].deleted {
        return Some(UserNotFound);
      }
      if Find(accounts, u, PASSWORD).Some? || users[u].passwordHash.Some? {
        return Some(PasswordAlreadySet);
      }
      var ext := if users[u].email.Some? then Mail(users[u].email.value) else Own(u);
      var inserted := InsertAccount(Account(u, PASSWORD, ext, Some(hash)));
      if !inserted {
        return Some(UniqueViolation);
      }
      users := users[u := users[u].(passwordHash := Some(hash))];
      return None;
    }

    method ChangePassword(u: Uuid, currentPassword: string, newHash: Hash) returns (error: Option<Error>)
      requires Indexed(Model())
      modifies this
      ensures Model() == After(old(Model()), Op.ChangePassword(u, currentPassword, newHash))
      ensures error.None? <==> Outcome(old(Model()), Op.ChangePassword(u, currentPassword, newHash)).Ok?
      ensures error.Some? ==> Outcome(old(Model()), Op.ChangePassword(u, currentPassword, newHash)) == Err(error.value)
      // Only with the password in use, and then the new one is in use instead; nobody's ways to sign in change.
      ensures old(Inv(Model())) ==> Inv(Model())
      ensures old(Inv(Model())) && error.None? ==>
                && u in old(users) && LoginHash(old(Model()), u).Some?
                && Verify(LoginHash(old(Model()), u).value, currentPassword)
                && SignsInWith(Model(), u, newHash)
                && GainsOnly(old(Model()), Model(), u, PASSWORD)
      // The answer: the user must exist and give the password in use; a new account needs its external id free.
      ensures error.Some? ==> Model() == old(Model())
      ensures error == Some(UserNotFound) <==> u !in old(users) || old(users)[u].deleted
      ensures old(Inv(Model())) && u in old(users) && !old(users)[u].deleted ==>
                var row := old(users)[u];
                var ext := if row.email.Some? then Mail(row.email.value) else Own(u);
                error == if row.passwordHash.None? then Some(NoPasswordSet)
                         else if row.passwordHash.value.password != currentPassword then Some(WrongPassword)
                         else if !Has(old(accounts), u, PASSWORD) && Occupied(old(accounts), ext, u)
                         then Some(UniqueViolation)
                         else None
      ensures error.None? && !Has(old(accounts), u, PASSWORD) ==>
                var row := old(users)[u];
                var ext := if row.email.Some? then Mail(row.email.value) else Own(u);
                Account(u, PASSWORD, ext, Some(newHash)) in accounts
    {
      if Inv(Model()) {
        OpDescribed(Model(), Op.ChangePassword(u, currentPassword, newHash));
        PasswordReplaced(Model(), Op.ChangePassword(u, currentPassword, newHash), u, newHash);
      }
      if u !in users || users[u].deleted {
        return Some(UserNotFound);
      }
      var currentHash := LoginHash(Db(users, accounts), u);
      if currentHash.None? {
        return Some(NoPasswordSet);
      }
      if !Verify(currentHash.value, currentPassword) {
        return Some(WrongPassword);
      }
      FindIffHas(accounts, u, PASSWORD);
      var written := WritePassword(u, OwnExternalId(Db(users, accounts), u), None, newHash);
      return if written then None else Some(UniqueViolation);
    }

    method ResetPassword(email: string, otpMatches: bool, hash: Hash) returns (error: Option<Error>)
      requires Indexed(Model())
      modifies this
      ensures Model() == After(old(Model()), Op.ResetPassword(email, otpMatches, hash))
      ensures error.None? <==> Outcome(old(Model()), Op.ResetPassword(email, otpMatches, hash)).Ok?
      ensures error.Some? ==> Outcome(old(Model()), Op.ResetPassword(email, otpMatches, hash)) == Err(error.value)
      // The user of the e-mail signs in with this password from now on; nobody else's ways to sign in change.
      ensures old(Inv(Model())) ==> Inv(Model())
      ensures old(Inv(Model())) && error.None? ==>
                && HasEmail(old(users), email)
                && SignsInWith(Model(), UserByEmail(old(Model()), email), hash)
                && GainsOnly(old(Model()), Model(), UserByEmail(old(Model()), email), PASSWORD)
      // The answer: never without the right code, nor for an unknown e-mail; a new account needs its external id free.
      ensures error.Some? ==> Model() == old(Model())
      ensures error.None? ==> otpMatches
      ensures error == Some(BadOtp) <==> !otpMatches
      ensures error == Some(UserNotFound) <==>
              otpMatches && forall u :: u in old(users) ==> old(users)[u].email != Some(email)
      ensures otpMatches ==> forall u :: u in old(users) && old(users)[u].email == Some(email) ==>
                && error == (if !Has(old(accounts), u, PASSWORD) && Occupied(old(accounts), Mail(email), u)
                             then Some(UniqueViolation)
                             else None)
                && (error.None? && !Has(old(accounts), u, PASSWORD) ==>
                      Account(u, PASSWORD, Mail(email), Some(hash)) in accounts)
    {
      if Inv(Model()) {
        OpDescribed(Model(), Op.ResetPassword(email, otpMatches, hash));
        if HasEmail(users, email) {
          PasswordReplaced(Model(), Op.ResetPassword(email, otpMatches, hash), UserByEmail(Model(), email), hash);
        }
      }
      if !otpMatches {
        return Some(BadOtp);
      }
      if !HasEmail(users, email) {
        return Some(UserNotFound);
      }
      var written := WritePassword(UserByEmail(Db(users, accounts), email), Mail(email), None, hash);
      return if written then None else Some(UniqueViolation);
    }

    method LinkGoogle(u: Uuid, subject: string) returns (error: Option<Error>)
      requires Indexed(Model())
      modifies this
      ensures Model() == After(old(Model()), Op.LinkGoogle(u, subject))
      ensures error.None? <==> Outcome(old(Model()), Op.LinkGoogle(u, subject)).Ok?
      ensures error.Some? ==> Outcome(old(Model()), Op.LinkGoogle(u, subject)) == Err(error.value)
      // The subject now signs in this user and nobody else's ways to sign in change.
      ensures old(Inv(Model())) ==> Inv(Model())
      ensures old(Inv(Model())) && error.None? ==>
                && GainsOnly(old(Model()), Model(), u, GOOGLE)
                && !GoogleLinked(old(Model()), subject)
                && GoogleLinked(Model(), subject) && GoogleOwner(Model(), subject) == u
      // The answer: the user must exist, the subject be nobody's, and the user have no other one.
      ensures error.Some? ==> Model() == old(Model())
      ensures error == Some(UserNotFound) <==> u !in old(users) || old(users)[u].deleted
      ensures u in old(users) && !old(users)[u].deleted ==>
                && (forall a :: a in old(accounts) && a.provider == GOOGLE && a.providerAccountId == Sub(subject) ==>
                      error == Some(if a.userId == u then GoogleLinkedHere else GoogleLinkedElsewhere))
                && (NewSubject(old(accounts), subject) ==>
                      error == if Has(old(accounts), u, GOOGLE) then Some(GoogleAlreadyLinked) else None)
    {
      if Inv(Model()) {
        OpDescribed(Model(), Op.LinkGoogle(u, subject));
        LinkGoogleGains(Model(), u, subject);
      }
      if u !in users || users[u].deleted {
        return Some(UserNotFound);
      }
      if GoogleLinked(Db(users, accounts), subject) {
        if GoogleOwner(Db(users, accounts), subject) == u {
          return Some(GoogleLinkedHere);
        }
        return Some(GoogleLinkedElsewhere);
      }
      if Find(accounts, u, GOOGLE).Some? {
        return Some(GoogleAlreadyLinked);
      }
      var inserted := InsertAccount(Account(u, GOOGLE, Sub(subject), None));
      return if inserted then None else Some(UniqueViolation);
    }

    method UnlinkProvider(u: Uuid, provider: Provider) returns (error: Option<Error>)
      requires Indexed(Model())
      modifies this
      ensures Model() == After(old(Model()), Unlink(u, provider))
      ensures error.None? <==> Outcome(old(Model()), Unlink(u, provider)).Ok?
      ensures error.Some? ==> Outcome(old(Model()), Unlink(u, provider)) == Err(error.value)
      // Accepted for a method the user has besides another one; just that method of just that user is gone.
      ensures old(Inv(Model())) ==> Inv(Model())
      ensures old(Inv(Model())) ==>
                (error.None? <==> && Live(old(Model()), u) && provider in Methods(old(Model()), u)
                                  && |Methods(old(Model()), u)| > 1)
      ensures old(Inv(Model())) && error.None? ==> forall v :: v in old(users) ==>
                && v in users
                && Methods(Model(), v) == Methods(old(Model()), v) - (if v == u then {provider} else {})
      // The answer, with two providers: the user must exist and have both.
      ensures error.Some? ==> Model() == old(Model())
      ensures old(Inv(Model())) ==>
                error == if u !in old(users) || old(users)[u].deleted then Some(UserNotFound)
                         else if old(users)[u].passwordHash.Some? && Has(old(accounts), u, GOOGLE) then None
                         else Some(LastMethod)
    {
      if Inv(Model()) {
        OpDescribed(Model(), Unlink(u, provider));
        UnlinkAcceptedIff(Model(), u, provider);
        UnlinkAnswers(Model(), u, provider);
        if Outcome(Model(), Unlink(u, provider)).Ok? {
          forall v | v in users
            ensures v in After(Model(), Unlink(u, provider)).users
            ensures Methods(After(Model(), Unlink(u, provider)), v) ==
                    Methods(Model(), v) - (if v == u then {provider} else {})
          {
            UnlinkRemovesExactly(Model(), u, provider, v);
          }
        }
      }
      if u !in users || users[u].deleted {
        return Some(UserNotFound);
      }
      var hasLegacyPassword := users[u].passwordHash.Some? && Find(accounts, u, PASSWORD).None?;
      var effectiveCount := |AccountsOf(accounts, u)| + if hasLegacyPassword then 1 else 0;
      if effectiveCount <= 1 {
        return Some(LastMethod);
      }
      var target := Find(accounts, u, provider);
      if target.None? && !(provider.PASSWORD? && users[u].passwordHash.Some?) {
        return Some(MethodNotLinked);
      }
      if target.Some? {
        accounts := accounts[..target.value] + accounts[target.value + 1..];
      }
      if provider.PASSWORD? {
        users := users[u := users[u].(passwordHash := None)];
      }
      return None;
    }
  }

  // ------------------------------------------------------------- what runs keep

  /** Accounts belong to users; a PASSWORD account holds the very hash its user's row holds, a GOOGLE account none. */
  ghost predicate Inv(db: Db) {
    && Indexed(db)
    && (forall a :: a in db.accounts ==> GoodAccount(db.users, a))
  }

  predicate GoodAccount(users: map<Uuid, User>, a: Account) {
    && a.userId in users
    && (a.provider.PASSWORD? ==> a.passwordHash.Some? && users[a.userId].passwordHash == a.passwordHash)
    && (a.provider.GOOGLE? ==> a.passwordHash.None?)
  }

  /** The ways u can sign in: by password when a login finds a hash to verify against, by Google when linked. */
  function Methods(db: Db, u: Uuid): set<Provider>
    requires u in db.users
  {
    (if LoginHash(db, u).Some? then {PASSWORD} else {}) +
    (if Find(db.accounts, u, GOOGLE).Some? then {GOOGLE} else {})
  }

  /** A login of u verifies against this hash. */
  ghost predicate SignsInWith(db: Db, u: Uuid, hash: Hash) {
    u in db.users && LoginHash(db, u) == Some(hash)
  }

  /** u has p from now on; apart from that everybody has the ways to sign in they had. */
  ghost predicate GainsOnly(db: Db, db': Db, u: Uuid, p: Provider) {
    forall v :: v in db.users ==>
      v in db'.users && Methods(db', v) == Methods(db, v) + (if v == u then {p} else {})
  }

  // ------------------------------------------------------------- table lemmas

  /** Whether u has an account with p. */
  ghost predicate Has(accounts: seq<Account>, u: Uuid, p: Provider) {
    exists a :: a in accounts && a.userId == u && a.provider == p
  }

  lemma FindIffHas(accounts: seq<Account>, u: Uuid, p: Provider)
    ensures Find(accounts, u, p).Some? <==> Has(accounts, u, p)
  {
    var i := Find(accounts, u, p);
    if i.Some? {
      assert accounts[i.value] in accounts;
    }
  }

  lemma LoginHashIsRowHash(db: Db, u: Uuid)
    requires Inv(db) && u in db.users
    ensures LoginHash(db, u) == db.users[u].passwordHash
  {
    var i := Find(db.accounts, u, PASSWORD);
    if i.Some? {
      assert db.accounts[i.value] in db.accounts;
    }
  }

  // ---------------------------------------------- the three ways tables change

  /** Add an account that breaks no index. */
  lemma CreateKeeps(db: Db, a: Account)
    requires Inv(db) && GoodAccount(db.users, a) && CreateAccount(db, a).Ok?
    ensures var db' := CreateAccount(db, a).value;
            && Inv(db')
            && forall v, p :: Has(db'.accounts, v, p) <==> Has(db.accounts, v, p) || (v == a.userId && p == a.provider)
  {
    var db' := CreateAccount(db, a).value;
    forall v, p
      ensures Has(db'.accounts, v, p) <==> Has(db.accounts, v, p) || (v == a.userId && p == a.provider)
    {
      assert a in db'.accounts;
      forall b ensures b in db'.accounts <==> b in db.accounts || b == a {
      }
    }
  }

  /** Set both copies of u's password hash. */
  lemma UpsertKeeps(db: Db, u: Uuid, fallback: ExternalId, newId: Option<ExternalId>, hash: Hash)
    requires Inv(db) && u in db.users
    requires UpsertPassword(SetRowHash(db, u, Some(hash)), u, fallback, newId, hash).Ok?
    ensures var db' := UpsertPassword(SetRowHash(db, u, Some(hash)), u, fallback, newId, hash).value;
            && Inv(db')
            && db'.users == db.users[u := db.users[u].(passwordHash := Some(hash))]
            && forall v, p :: Has(db'.accounts, v, p) <==> Has(db.accounts, v, p) || (v == u && p == PASSWORD)
  {
    var db' := UpsertPassword(SetRowHash(db, u, Some(hash)), u, fallback, newId, hash).value;
    var i := Find(db.accounts, u, PASSWORD);
    if i.None? {
      var a := Account(u, PASSWORD, fallback, Some(hash));
      assert db'.accounts == db.accounts + [a];
      forall b | b in db'.accounts ensures GoodAccount(db'.users, b) {
        if b in db.accounts && b.userId == u {
          assert b.provider == GOOGLE;
        }
      }
      AppendHas(db.accounts, a);
    } else {
      UpsertExisting(db, db', u, i.value, hash);
    }
  }

  lemma AppendHas(accounts: seq<Account>, a: Account)
    ensures forall v, p :: Has(accounts + [a], v, p) <==> Has(accounts, v, p) || (v == a.userId && p == a.provider)
  {
    forall v, p ensures Has(accounts + [a], v, p) <==> Has(accounts, v, p) || (v == a.userId && p == a.provider) {
      assert a in accounts + [a];
      assert forall b :: b in accounts + [a] <==> b in accounts || b == a;
    }
  }

  lemma UpsertExisting(db: Db, db': Db, u: Uuid, i: nat, hash: Hash)
    requires Inv(db) && u in db.users && Find(db.accounts, u, PASSWORD) == Some(i)
    requires db'.users == db.users[u := db.users[u].(passwordHash := Some(hash))]
    requires |db'.accounts| == |db.accounts|
    requires forall j :: 0 <= j < |db.accounts| && j != i ==>
               db'.accounts[j] == db.accounts[j] && !Clash(db.accounts[j], db'.accounts[i])
    requires db'.accounts[i] == Account(u, PASSWORD, db'.accounts[i].providerAccountId, Some(hash))
    ensures Inv(db')
    ensures forall v, p :: Has(db'.accounts, v, p) <==> Has(db.accounts, v, p)
  {
    forall j, k | 0 <= j < k < |db'.accounts| ensures !Clash(db'.accounts[j], db'.accounts[k]) {
      assert !Clash(db.accounts[j], db.accounts[k]);
    }
    forall b | b in db'.accounts ensures GoodAccount(db'.users, b) {
      var j :| 0 <= j < |db'.accounts| && db'.accounts[j] == b;
      if j != i {
        assert GoodAccount(db.users, db.accounts[j]);
        assert !Clash(db.accounts[j], db'.accounts[i]);
      }
    }
    forall v, p ensures Has(db'.accounts, v, p) <==> Has(db.accounts, v, p) {
      SameOwners(db.accounts, db'.accounts, v, p);
      SameOwners(db'.accounts, db.accounts, v, p);
    }
  }

  lemma SameOwners(a: seq<Account>, b: seq<Account>, v: Uuid, p: Provider)
    requires |a| == |b|
    requires forall j :: 0 <= j < |a| ==> a[j].userId == b[j].userId && a[j].provider == b[j].provider
    ensures Has(a, v, p) ==> Has(b, v, p)
  {
    if Has(a, v, p) {
      var x :| x in a && x.userId == v && x.provider == p;
      var j :| 0 <= j < |a| && a[j] == x;
      assert b[j] in b;
    }
  }

  /** Remove u's account with p, and with PASSWORD the row's hash too. */
  lemma RemoveKeeps(db: Db, u: Uuid, p: Provider)
    requires Inv(db) && UnlinkOutcome(db, u, p).Ok?
    ensures var db' := UnlinkOutcome(db, u, p).value;
            && Inv(db')
            && db'.users == (if p.PASSWORD? then db.users[u := db.users[u].(passwordHash := None)] else db.users)
            && forall v, q :: Has(db'.accounts, v, q) <==> Has(db.accounts, v, q) && !(v == u && q == p)
  {
    var db' := UnlinkOutcome(db, u, p).value;
    var i := Find(db.accounts, u, p);
    if i.Some? {
      RemoveAtMembers(db, i.value);
      RemoveAtNoClash(db.accounts, i.value);
    } else {
      FindIffHas(db.accounts, u, p);
    }
    forall a | a in db'.accounts ensures GoodAccount(db'.users, a) {
      assert GoodAccount(db.users, a);
    }
  }

  lemma RemoveAtNoClash(accounts: seq<Account>, i: nat)
    requires i < |accounts|
    requires forall j, k :: 0 <= j < k < |accounts| ==> !Clash(accounts[j], accounts[k])
    ensures forall j, k :: 0 <= j < k < |accounts| - 1 ==> !Clash(RemoveAt(accounts, i)[j], RemoveAt(accounts, i)[k])
  {
    forall j, k | 0 <= j < k < |accounts| - 1 ensures !Clash(RemoveAt(accounts, i)[j], RemoveAt(accounts, i)[k]) {
      assert !Clash(accounts[if j < i then j else j + 1], accounts[if k < i then k else k + 1]);
    }
  }

  lemma RemoveAtMembers(db: Db, i: nat)
    requires Indexed(db) && i < |db.accounts|
    ensures var u, p := db.accounts[i].userId, db.accounts[i].provider;
            && (forall a :: a in RemoveAt(db.accounts, i) <==> a in db.accounts && !(a.userId == u && a.provider == p))
            && forall v, q :: Has(RemoveAt(db.accounts, i), v, q) <==> Has(db.accounts, v, q) && !(v == u && q == p)
  {
    var u, p := db.accounts[i].userId, db.accounts[i].provider;
    var rest := RemoveAt(db.accounts, i);
    forall a ensures a in rest <==> a in db.accounts && !(a.userId == u && a.provider == p) {
      if a in rest {
        var j :| 0 <= j < |rest| && rest[j] == a;
        var k := if j < i then j else j + 1;
        assert db.accounts[k] == a;
        assert !Clash(db.accounts[if k < i then k else i], db.accounts[if k < i then i else k]);
      }
      if a in db.accounts && !(a.userId == u && a.provider == p) {
        var k :| 0 <= k < |db.accounts| && db.accounts[k] == a;
        assert rest[if k < i then k else k - 1] == a;
      }
    }
    forall v, q ensures Has(rest, v, q) <==> Has(db.accounts, v, q) && !(v == u && q == p) {
      if Has(db.accounts, v, q) && !(v == u && q == p) {
        var a :| a in db.accounts && a.userId == v && a.provider == q;
        assert a in rest;
      }
    }
  }

  // ------------------------------------------------------- what every operation does

  /** The password a user has after an operation: a new one if the operation set it for that user, none if it
      unlinked it, otherwise the one the user had. */
  function PasswordAfter(db: Db, op: Op, u: Uuid): Option<Hash>
    requires Indexed(db) && u in db.users
  {
    if Outcome(db, op).Err? then db.users[u].passwordHash
    else
      match op
      case Register(_, email, hash) => if db.users[u].email == Some(email) then Some(hash) else db.users[u].passwordHash
      case SetPassword(v, hash) => if u == v then Some(hash) else db.users[u].passwordHash
      case ChangePassword(v, _, hash) => if u == v then Some(hash) else db.users[u].passwordHash
      case ResetPassword(email, _, hash) =>
        if db.users[u].email == Some(email) then Some(hash) else db.users[u].passwordHash
      case Unlink(v, provider) => if u == v && provider.PASSWORD? then None else db.users[u].passwordHash
      case _ => db.users[u].passwordHash
  }

  /** Whether a user has Google linked after an operation. */
  ghost predicate GoogleAfter(db: Db, op: Op, u: Uuid)
    requires Indexed(db) && u in db.users
  {
    if Outcome(db, op).Err? then Has(db.accounts, u, GOOGLE)
    else
      match op
      case GoogleSignIn(_, email, subject) =>
        || Has(db.accounts, u, GOOGLE)
        || (!GoogleLinked(db, subject) && db.users[u].email == Some(email) && !db.users[u].deleted)
      case LinkGoogle(v, _) => Has(db.accounts, u, GOOGLE) || u == v
      case Unlink(v, provider) => Has(db.accounts, u, GOOGLE) && !(u == v && provider.GOOGLE?)
      case _ => Has(db.accounts, u, GOOGLE)
  }

  /** E-mails verified by code, or vouched for by Google when the accounts are first linked. */
  predicate VerifiedAfter(db: Db, op: Op, u: Uuid)
    requires Indexed(db) && u in db.users
  {
    || db.users[u].emailVerified
    || (Outcome(db, op).Ok? && op.VerifyEmail? && db.users[u].email == Some(op.email))
    || (Outcome(db, op).Ok? && op.GoogleSignIn? && !GoogleLinked(db, op.subject)
        && db.users[u].email == Some(op.email) && !db.users[u].deleted)
  }

  /** The new database is consistent; of an old user nothing but the password, the Google link and the verified flag
      changes, and those as said above; a new user has the password registered with, or just Google. */
  ghost predicate Describes(db: Db, op: Op)
    requires Indexed(db)
  {
    var db' := After(db, op);
    && Inv(db')
    && (forall u :: u in db.users ==>
          && u in db'.users
          && db'.users[u] == db.users[u].(passwordHash := PasswordAfter(db, op, u),
                                          emailVerified := VerifiedAfter(db, op, u))
          && (Has(db'.accounts, u, GOOGLE) <==> GoogleAfter(db, op, u)))
    && (forall u :: u in db'.users && u !in db.users ==>
          && (op.Register? || op.GoogleSignIn?) && u == op.id
          && db'.users[u] == User(Some(op.email), if op.Register? then Some(op.hash) else None, op.GoogleSignIn?,
                                  true, false)
          && (Has(db'.accounts, u, GOOGLE) <==> op.GoogleSignIn?))
  }

  /** A new user together with the first account. */
  lemma NewUserKeeps(db: Db, id: Uuid, user: User, a: Account)
    requires Inv(db) && id !in db.users && (user.email.None? || !HasEmail(db.users, user.email.value))
    requires a.userId == id && GoodAccount(db.users[id := user], a)
    requires CreateAccount(db.(users := db.users[id := user]), a).Ok?
    ensures var db' := CreateAccount(db.(users := db.users[id := user]), a).value;
            && Inv(db') && db'.users == db.users[id := user]
            && forall v, p :: Has(db'.accounts, v, p) <==> Has(db.accounts, v, p) || (v == id && p == a.provider)
  {
    var created := db.(users := db.users[id := user]);
    assert Inv(created);
    CreateKeeps(created, a);
  }

  lemma RegisteredAgain(db: Db, op: Op)
    requires Inv(db) && op.Register? && Outcome(db, op).Ok? && HasEmail(db.users, op.email)
    ensures Describes(db, op)
  {
    UpsertKeeps(db, UserByEmail(db, op.email), Mail(op.email), Some(Mail(op.email)), op.hash);
  }

  lemma RegisteredNew(db: Db, op: Op)
    requires Inv(db) && op.Register? && Outcome(db, op).Ok? && !HasEmail(db.users, op.email)
    ensures Describes(db, op)
  {
    NewUserKeeps(db, op.id, User(Some(op.email), Some(op.hash), false, true, false),
                 Account(op.id, PASSWORD, Mail(op.email), Some(op.hash)));
  }

  lemma LoginDescribed(db: Db, op: Op)
    requires Inv(db) && op.Login? && Outcome(db, op).Ok?
    ensures Describes(db, op)
  {
    var u := UserByEmail(db, op.email);
    LoginHashIsRowHash(db, u);
    if After(db, op) != db {
      CreateKeeps(db, Account(u, PASSWORD, OwnExternalId(db, u), LoginHash(db, u)));
    }
  }

  lemma VerifyDescribed(db: Db, op: Op)
    requires Inv(db) && op.VerifyEmail? && Outcome(db, op).Ok?
    ensures Describes(db, op)
  {
  }

  lemma GoogleDescribed(db: Db, op: Op)
    requires Inv(db) && op.GoogleSignIn? && Outcome(db, op).Ok?
    ensures Describes(db, op)
  {
    if !GoogleLinked(db, op.subject) {
      if HasEmail(db.users, op.email) {
        GoogleLinksDescribed(db, op);
      } else {
        NewUserKeeps(db, op.id, User(Some(op.email), None, true, true, false),
                     Account(op.id, GOOGLE, Sub(op.subject), None));
      }
    }
  }

  lemma GoogleLinksDescribed(db: Db, op: Op)
    requires Inv(db) && op.GoogleSignIn? && Outcome(db, op).Ok?
    requires !GoogleLinked(db, op.subject) && HasEmail(db.users, op.email)
    ensures Describes(db, op)
  {
    CreateKeeps(db, Account(UserByEmail(db, op.email), GOOGLE, Sub(op.subject), None));
  }

  lemma ChangeDescribed(db: Db, op: Op)
    requires Inv(db) && op.ChangePassword? && Outcome(db, op).Ok?
    ensures Describes(db, op)
  {
    UpsertKeeps(db, op.u, OwnExternalId(db, op.u), None, op.hash);
  }

  lemma ResetDescribed(db: Db, op: Op)
    requires Inv(db) && op.ResetPassword? && Outcome(db, op).Ok?
    ensures Describes(db, op)
  {
    UpsertKeeps(db, UserByEmail(db, op.email), Mail(op.email), None, op.hash);
  }

  lemma SetPasswordDescribed(db: Db, op: Op)
    requires Inv(db) && op.SetPassword? && Outcome(db, op).Ok?
    ensures Describes(db, op)
  {
    // Creating the account and then setting the row is the upsert of a password that is not there yet.
    UpsertKeeps(db, op.u, OwnExternalId(db, op.u), None, op.hash);
    assert After(db, op) ==
           UpsertPassword(SetRowHash(db, op.u, Some(op.hash)), op.u, OwnExternalId(db, op.u), None, op.hash).value;
  }

  lemma LinkDescribed(db: Db, op: Op)
    requires Inv(db) && (op.LinkGoogle? || op.Unlink?) && Outcome(db, op).Ok?
    ensures Describes(db, op)
  {
    if op.LinkGoogle? {
      CreateKeeps(db, Account(op.u, GOOGLE, Sub(op.subject), None));
    } else {
      RemoveKeeps(db, op.u, op.provider);
    }
  }

  /** Every operation on every consistent database: keeps it consistent, and does to each user's password and
      Google link exactly what PasswordAfter and GoogleAfter say. */
  lemma OpDescribed(db: Db, op: Op)
    requires Inv(db)
    ensures Describes(db, op)
  {
    if Outcome(db, op).Ok? {
      match op {
        case Register(_, email, _) =>
          if HasEmail(db.users, email) { RegisteredAgain(db, op); } else { RegisteredNew(db, op); }
        case VerifyEmail(_) => VerifyDescribed(db, op);
        case Login(_, _) => LoginDescribed(db, op);
        case GoogleSignIn(_, _, _) => GoogleDescribed(db, op);
        case SetPassword(_, _) => SetPasswordDescribed(db, op);
        case ChangePassword(_, _, _) => ChangeDescribed(db, op);
        case ResetPassword(_, _, _) => ResetDescribed(db, op);
        case LinkGoogle(_, _) => LinkDescribed(db, op);
        case Unlink(_, _) => LinkDescribed(db, op);
      }
    }
  }

  ghost function Run(db: Db, ops: seq<Op>): Db
    requires Inv(db)
    decreases |ops|
  {
    if ops == [] then db
    else
      OpDescribed(db, ops[0]);
      Run(After(db, ops[0]), ops[1..])
  }

  /** Over every serial run the two password copies agree, there is at most one account per user and provider, and a
      user who could sign in at the start can still sign in. */
  lemma {:induction false} RunKeepsSignIn(db: Db, ops: seq<Op>, u: Uuid)
    requires Inv(db) && u in db.users
    ensures Inv(Run(db, ops))
    ensures u in Run(db, ops).users
    ensures Methods(db, u) != {} ==> Methods(Run(db, ops), u) != {}
    decreases |ops|
  {
    if ops != [] {
      var db' := After(db, ops[0]);
      OpDescribed(db, ops[0]);
      OpKeepsAMethod(db, ops[0], u);
      RunKeepsSignIn(db', ops[1..], u);
    }
  }

  lemma MethodsByTable(db: Db, u: Uuid)
    requires Inv(db) && u in db.users
    ensures PASSWORD in Methods(db, u) <==> db.users[u].passwordHash.Some?
    ensures GOOGLE in Methods(db, u) <==> Has(db.accounts, u, GOOGLE)
  {
    LoginHashIsRowHash(db, u);
    FindIffHas(db.accounts, u, GOOGLE);
  }

  lemma OpKeepsAMethod(db: Db, op: Op, u: Uuid)
    requires Inv(db) && u in db.users
    ensures u in After(db, op).users
    ensures Methods(db, u) != {} ==> Methods(After(db, op), u) != {}
    ensures !op.Unlink? ==> Methods(db, u) <= Methods(After(db, op), u)
  {
    OpDescribed(db, op);
    if op.Unlink? {
      UnlinkAcceptedIff(db, op.u, op.provider);
      if Outcome(db, op).Ok? {
        UnlinkRemovesExactly(db, op.u, op.provider, u);
        assert u == op.u ==> Methods(db, u) != {op.provider};
      }
    } else {
      MethodsByTable(db, u);
      MethodsByTable(After(db, op), u);
    }
  }

  // ------------------------------------------------------ counting and unlinking

  lemma {:induction false} AccountsOfCounted(accounts: seq<Account>, u: Uuid, p: Provider)
    requires forall i, j :: 0 <= i < j < |accounts| ==> !Clash(accounts[i], accounts[j])
    ensures multiset(Providers(AccountsOf(accounts, u)))[p] == if Find(accounts, u, p).Some? then 1 else 0
  {
    if accounts != [] {
      var a, rest := accounts[0], accounts[1..];
      forall i, j | 0 <= i < j < |rest| ensures !Clash(rest[i], rest[j]) {
        assert !Clash(accounts[i + 1], accounts[j + 1]);
      }
      AccountsOfCounted(rest, u, p);
      if a.userId == u {
        assert Providers(AccountsOf(accounts, u)) == [a.provider] + Providers(AccountsOf(rest, u));
        var i := Find(rest, u, a.provider);
        assert i.Some? ==> Clash(accounts[0], accounts[i.value + 1]);
      } else {
        assert AccountsOf(accounts, u) == AccountsOf(rest, u);
      }
    }
  }

  /** The list shown to a user names each way to sign in exactly once, and unlinkProvider counts its length. */
  lemma ListIsMethods(db: Db, u: Uuid)
    requires Inv(db) && u in db.users
    ensures multiset(ListAuthAccounts(db, u)) == multiset(Methods(db, u))
    ensures |ListAuthAccounts(db, u)| == EffectiveCount(db, u) == |Methods(db, u)|
  {
    var listed, methods := ListAuthAccounts(db, u), Methods(db, u);
    forall p: Provider ensures multiset(listed)[p] == multiset(methods)[p] {
      ListedOnce(db, u, p);
    }
    assert multiset(listed) == multiset(methods);
    assert |multiset(listed)| == |listed| && |multiset(methods)| == |methods|;
  }

  lemma ListedOnce(db: Db, u: Uuid, p: Provider)
    requires Inv(db) && u in db.users
    ensures multiset(ListAuthAccounts(db, u))[p] == if p in Methods(db, u) then 1 else 0
  {
    AccountsOfCounted(db.accounts, u, p);
    MethodsByTable(db, u);
    FindIffHas(db.accounts, u, p);
    var i := Find(db.accounts, u, PASSWORD);
    assert i.Some? ==> db.accounts[i.value] in db.accounts;
    var legacy := if db.users[u].passwordHash.Some? && i.None? then [PASSWORD] else [];
    assert ListAuthAccounts(db, u) == Providers(AccountsOf(db.accounts, u)) + legacy;
  }

  lemma MethodFound(db: Db, u: Uuid, p: Provider)
    requires Inv(db) && u in db.users
    ensures p in Methods(db, u) <==> Find(db.accounts, u, p).Some? || (p.PASSWORD? && db.users[u].passwordHash.Some?)
  {
    LoginHashIsRowHash(db, u);
    var i := Find(db.accounts, u, PASSWORD);
    assert i.Some? ==> db.accounts[i.value] in db.accounts;
  }

  /** Unlinking is accepted exactly for a method the user has when it is not the only one. */
  lemma UnlinkAcceptedIff(db: Db, u: Uuid, p: Provider)
    requires Inv(db)
    ensures UnlinkOutcome(db, u, p).Ok? <==> Live(db, u) && p in Methods(db, u) && |Methods(db, u)| > 1
  {
    if Live(db, u) {
      ListIsMethods(db, u);
      MethodFound(db, u, p);
    }
  }

  /** There being two providers, a user with one method is told it is the last, whichever is named. */
  lemma UnlinkAnswers(db: Db, u: Uuid, p: Provider)
    requires Inv(db)
    ensures var r := UnlinkOutcome(db, u, p);
            if u !in db.users || db.users[u].deleted then r == Err(UserNotFound)
            else if db.users[u].passwordHash.Some? && Has(db.accounts, u, GOOGLE) then r.Ok?
            else r == Err(LastMethod)
  {
    if Live(db, u) {
      ListIsMethods(db, u);
      MethodsByTable(db, u);
      MethodFound(db, u, p);
      assert p == PASSWORD || p == GOOGLE;
      assert Methods(db, u) <= {PASSWORD, GOOGLE};
    }
  }

  /** Unlinking removes just the named method, from just that user. */
  lemma UnlinkRemovesExactly(db: Db, u: Uuid, p: Provider, v: Uuid)
    requires Inv(db) && UnlinkOutcome(db, u, p).Ok? && v in db.users
    ensures v in UnlinkOutcome(db, u, p).value.users
    ensures Methods(UnlinkOutcome(db, u, p).value, v) == Methods(db, v) - (if v == u then {p} else {})
  {
    var db' := UnlinkOutcome(db, u, p).value;
    RemoveKeeps(db, u, p);
    MethodsByTable(db, v);
    MethodsByTable(db', v);
    forall q: Provider ensures q in Methods(db', v) <==> q in Methods(db, v) && !(v == u && q == p) {
      assert q == PASSWORD || q == GOOGLE;
    }
  }

  /** After any operation a live user's login is refused for its credentials exactly when the password is not the one
      PasswordAfter names, whichever of the two copies it reads. */
  lemma LoginFollowsPassword(db: Db, op: Op, u: Uuid, email: string, password: string)
    requires Inv(db) && u in db.users
    ensures Inv(After(db, op)) && u in After(db, op).users
    ensures Live(After(db, op), u) && After(db, op).users[u].email == Some(email) ==>
              var hash := PasswordAfter(db, op, u);
              LoginOutcome(After(db, op), email, password) == Err(InvalidCredentials) <==>
              hash.None? || !Verify(hash.value, password)
  {
    OpDescribed(db, op);
    LoginHashIsRowHash(After(db, op), u);
  }

  // -------------------------------------------------------- what callers get

  lemma PasswordGained(db: Db, op: Op, u: Uuid, hash: Hash)
    requires Inv(db) && Outcome(db, op).Ok? && u in db.users
    requires op.SetPassword? || op.ChangePassword? || op.ResetPassword?
    requires forall v :: v in db.users ==>
               PasswordAfter(db, op, v) == if v == u then Some(hash) else db.users[v].passwordHash
    ensures GainsOnly(db, After(db, op), u, PASSWORD) && SignsInWith(After(db, op), u, hash)
  {
    var db' := After(db, op);
    OpDescribed(db, op);
    LoginHashIsRowHash(db', u);
    forall v | v in db.users
      ensures v in db'.users && Methods(db', v) == Methods(db, v) + (if v == u then {PASSWORD} else {})
    {
      MethodsByTable(db, v);
      MethodsByTable(db', v);
    }
  }

  lemma SetPasswordGains(db: Db, u: Uuid, hash: Hash)
    requires Inv(db)
    ensures Outcome(db, SetPassword(u, hash)).Ok? ==>
              && GainsOnly(db, After(db, SetPassword(u, hash)), u, PASSWORD)
              && SignsInWith(After(db, SetPassword(u, hash)), u, hash)
  {
    if Outcome(db, SetPassword(u, hash)).Ok? {
      PasswordGained(db, SetPassword(u, hash), u, hash);
    }
  }

  lemma PasswordReplaced(db: Db, op: Op, u: Uuid, hash: Hash)
    requires Inv(db)
    requires || (op.ChangePassword? && op.u == u && op.hash == hash)
             || (op.ResetPassword? && HasEmail(db.users, op.email) && UserByEmail(db, op.email) == u && op.hash == hash)
    ensures Outcome(db, op).Ok? ==> GainsOnly(db, After(db, op), u, PASSWORD) && SignsInWith(After(db, op), u, hash)
  {
    if Outcome(db, op).Ok? {
      PasswordGained(db, op, u, hash);
    }
  }

  lemma LinkedIsOwned(db: Db, u: Uuid, subject: string)
    requires Indexed(db) && Account(u, GOOGLE, Sub(subject), None) in db.accounts
    ensures GoogleLinked(db, subject) && GoogleOwner(db, subject) == u
  {
    var a := Account(u, GOOGLE, Sub(subject), None);
    var i :| 0 <= i < |db.accounts| && db.accounts[i] == a;
    var b :| b in db.accounts && b.provider == GOOGLE && b.providerAccountId == Sub(subject)
             && b.userId == GoogleOwner(db, subject);
    var j :| 0 <= j < |db.accounts| && db.accounts[j] == b;
  }

  lemma GoogleGained(db: Db, u: Uuid, subject: string)
    requires Inv(db) && Outcome(db, LinkGoogle(u, subject)).Ok?
    ensures GainsOnly(db, After(db, LinkGoogle(u, subject)), u, GOOGLE)
  {
    var db' := After(db, LinkGoogle(u, subject));
    OpDescribed(db, LinkGoogle(u, subject));
    forall v | v in db.users
      ensures v in db'.users && Methods(db', v) == Methods(db, v) + (if v == u then {GOOGLE} else {})
    {
      MethodsByTable(db, v);
      MethodsByTable(db', v);
    }
  }

  lemma LinkAdds(db: Db, u: Uuid, subject: string)
    requires Indexed(db) && Outcome(db, LinkGoogle(u, subject)).Ok?
    ensures Account(u, GOOGLE, Sub(subject), None) in After(db, LinkGoogle(u, subject)).accounts
  {
  }

  lemma LinkGoogleGains(db: Db, u: Uuid, subject: string)
    requires Inv(db)
    ensures var db' := After(db, LinkGoogle(u, subject));
            && Inv(db')
            && (Outcome(db, LinkGoogle(u, subject)).Ok? ==>
                  && GainsOnly(db, db', u, GOOGLE)
                  && GoogleLinked(db', subject) && GoogleOwner(db', subject) == u)
  {
    var db' := After(db, LinkGoogle(u, subject));
    OpDescribed(db, LinkGoogle(u, subject));
    if Outcome(db, LinkGoogle(u, subject)).Ok? {
      GoogleGained(db, u, subject);
      LinkAdds(db, u, subject);
      LinkedIsOwned(db', u, subject);
    }
  }

  // ------------------------------------------------------- linking by e-mail

  /** Google sign-in links itself to the user of the e-mail whether that e-mail was verified or not, and then counts
      it as verified: a password someone registered the address with before was refused for the unverified e-mail
      until then, and signs in from then on, exactly when the e-mail had not been verified. */
  lemma UnverifiedPasswordSurvivesLink(db: Db, op: Op, password: string)
    requires Inv(db) && op.GoogleSignIn? && Outcome(db, op).Ok?
    requires !GoogleLinked(db, op.subject) && HasEmail(db.users, op.email)
    ensures Inv(After(db, op))
    ensures var u := UserByEmail(db, op.email);
            var right := LoginHash(db, u).Some? && Verify(LoginHash(db, u).value, password);
            && (LoginOutcome(After(db, op), op.email, password).Ok? <==> right)
            && (right ==>
                  (LoginOutcome(db, op.email, password) == Err(EmailNotVerified) <==> !db.users[u].emailVerified))
  {
    var u := UserByEmail(db, op.email);
    OpDescribed(db, op);
    LoginHashIsRowHash(db, u);
    LoginHashIsRowHash(After(db, op), u);
  }

  /** The external id of a password account is the user's own id exactly when the user has no e-mail address. */
  lemma ExternalIdIsOwnIff(db: Db, u: Uuid, hash: Hash)
    requires Inv(db) && Outcome(db, SetPassword(u, hash)).Ok?
    ensures var db' := After(db, SetPassword(u, hash));
            && Has(db'.accounts, u, PASSWORD)
            && forall a :: a in db'.accounts && a.userId == u && a.provider == PASSWORD ==>
                 (a.providerAccountId == Own(u) <==> db.users[u].email.None?)
  {
    var added := Account(u, PASSWORD, OwnExternalId(db, u), Some(hash));
    assert After(db, SetPassword(u, hash)).accounts == db.accounts + [added];
    FindIffHas(db.accounts, u, PASSWORD);
    AppendHas(db.accounts, added);
    assert forall a :: a in db.accounts + [added] <==> a in db.accounts || a == added;
  }
}
