/**
  The account rules of `AccountService` in
  `src/main/java/com/coderacer/service/AccountService.java`: sign-up,
  profile updates, deletion, password change, e-mail verification, login
  and the rating update after a game.

  The account and verification-token repositories are map fields of the
  service class. Ids, the random verification token, the clock and the
  repository's existing levels are inputs. Password checking (BCrypt) and
  token signing (JWT) are function parameters the model does not look
  into. Times are integer milliseconds.
*/
module Accounts {
  import opened Wrappers
  import opened Numeric
  import Rating

  datatype Role = User | Admin

  /** An `Account` row. `password` is the stored credential that the
      password checker compares an attempt against. */
  datatype Account = Account(
    id: nat,
    username: string,
    email: string,
    password: string,
    rating: int,
    verified: bool,
    role: Role)

  /** An `EmailVerificationToken` row: the account it verifies and when it expires. */
  datatype VerificationToken = VerificationToken(accountId: nat, expiryDate: int)

  /** The exceptions the service throws. */
  datatype AccountError =
    | UsernameConflict(username: string)
    | EmailConflict(email: string)
    | AccountNotFound
    | EmailNotVerified
    | PasswordVerification
    | LevelNotFound

  /** The HTTP answer of `verifyAccount`. */
  datatype Response = BadRequest(body: string) | OkResponse(body: string)

  const InvalidTokenBody: string := "Invalid or expired token."
  const VerifiedBody: string := "Email verified successfully. You can now log in."

  /** A verification token lives for 24 hours. */
  const TokenLifetime: int := 24 * 60 * 60 * 1000

  /** The account a rating update leaves: the delta of the rating
      algorithm added with Java's 32-bit `int` wrap-around. */
  function RatedAccount(account: Account, performanceScore: int): (a: Account)
    ensures a == account.(rating := a.rating)
    ensures IsInt32(a.rating)
    ensures IsInt32(account.rating + Rating.CalculateDelta(account.rating, performanceScore))
      ==> a.rating == account.rating + Rating.CalculateDelta(account.rating, performanceScore)
  {
    account.(rating := WrapInt32(account.rating + Rating.CalculateDelta(account.rating, performanceScore)))
  }

  /** A game never moves a rating by more than the K factor: below the cap the
      rating changes by the rounded share of K, and overflow aside. */
  lemma RatedAccountBounded(account: Account, performanceScore: int)
    requires IsInt32(account.rating) && 0 <= account.rating < 0x7FFF_FF00
    requires performanceScore >= 0
    ensures account.rating <= RatedAccount(account, performanceScore).rating
        <= account.rating + Rating.KFactor(account.rating)
  {
    Rating.DeltaSign(account.rating, performanceScore);
  }

  /** A rating update changes nothing but the rating. */
  lemma RatedAccountKeeps(account: Account, performanceScore: int)
    ensures var a := RatedAccount(account, performanceScore);
      a.id == account.id && a.username == account.username && a.email == account.email
      && a.password == account.password && a.verified == account.verified && a.role == account.role
  {
  }

  /** Accounts are stored under their own ids, and usernames and e-mail
      addresses are unique, as the columns' constraints require. Ratings
      are Java `int`s. */
  predicate WellFormed(accounts: map<nat, Account>) {
    && (forall id :: id in accounts ==> accounts[id].id == id && IsInt32(accounts[id].rating))
    && (forall a, b :: a in accounts && b in accounts && accounts[a].username == accounts[b].username ==> a == b)
    && (forall a, b :: a in accounts && b in accounts && accounts[a].email == accounts[b].email ==> a == b)
  }

  /** Storing an account under its own id keeps the store well formed when
      no other account has its username or e-mail address. */
  lemma StoreKeepsWellFormed(accounts: map<nat, Account>, account: Account)
    requires WellFormed(accounts) && IsInt32(account.rating)
    requires forall id :: id in accounts && id != account.id ==>
               accounts[id].username != account.username && accounts[id].email != account.email
    ensures WellFormed(accounts[account.id := account])
  {
  }

  class AccountService {
    var accounts: map<nat, Account>
    var tokens: map<string, VerificationToken>
    var levels: set<nat>

    predicate Valid()
      reads this
    {
      WellFormed(accounts)
    }

    /** `existsByUsername`. */
    predicate UsernameTaken(username: string)
      reads this
    {
      exists id :: id in accounts && accounts[id].username == username
    }

    /** `existsByEmail`. */
    predicate EmailTaken(email: string)
      reads this
    {
      exists id :: id in accounts && accounts[id].email == email
    }

    constructor(levels: set<nat>)
      ensures Valid()
      ensures accounts == map[] && tokens == map[] && this.levels == levels
    {
      accounts := map[];
      tokens := map[];
      this.levels := levels;
    }

    /** `createAccount`: a taken username is refused first, then a taken
        e-mail address; otherwise a fresh unverified user with rating 0 is
        stored under the new id, with a token that expires a day later. */
    method CreateAccount(username: string, email: string, password: string,
                         newId: nat, token: string, now: int)
      returns (r: Result<Account, AccountError>)
      requires Valid() && newId !in accounts
      modifies this
      ensures Valid() && levels == old(levels)
      ensures old(UsernameTaken(username)) ==> r == Err(UsernameConflict(username))
      ensures !old(UsernameTaken(username)) && old(EmailTaken(email)) ==> r == Err(EmailConflict(email))
      ensures r.Err? ==> accounts == old(accounts) && tokens == old(tokens)
      ensures r.Ok? <==> !old(UsernameTaken(username)) && !old(EmailTaken(email))
      ensures r.Ok? ==>
        && r.value == Account(newId, username, email, password, 0, false, User)
        && accounts == old(accounts)[newId := r.value]
        && tokens == old(tokens)[token := VerificationToken(newId, now + TokenLifetime)]
    {
      if UsernameTaken(username) {
        return Err(UsernameConflict(username));
      }
      if EmailTaken(email) {
        return Err(EmailConflict(email));
      }
      var account := Account(newId, username, email, password, 0, false, User);
      StoreKeepsWellFormed(accounts, account);
      accounts := accounts[newId := account];
      tokens := tokens[token := VerificationToken(newId, now + TokenLifetime)];
      return Ok(account);
    }

    /** `updateAccount`: a new e-mail address that is taken is refused;
        otherwise each given field is set, the rating clamped at 0. */
    method UpdateAccount(id: nat, email: Option<string>, rating: Option<int>, verified: Option<bool>)
      returns (r: Result<Account, AccountError>)
      requires Valid()
      requires rating.Some? ==> IsInt32(rating.value)
      modifies this
      ensures Valid() && tokens == old(tokens) && levels == old(levels)
      ensures id !in old(accounts) ==> r == Err(AccountNotFound)
      ensures (id in old(accounts) && email.Some? && email.value != old(accounts[id].email)
               && old(EmailTaken(email.value))) ==> r == Err(EmailConflict(email.value))
      ensures r.Ok? <==> id in old(accounts)
                         && !(email.Some? && email.value != old(accounts[id].email)
                              && old(EmailTaken(email.value)))
      ensures r.Err? ==> accounts == old(accounts)
      ensures r.Ok? ==> id in old(accounts) && var a := old(accounts[id]);
        && r.value == a.(
             email := if email.Some? then email.value else a.email,
             rating := if rating.Some? then (if rating.value > 0 then rating.value else 0) else a.rating,
             verified := if verified.Some? then verified.value else a.verified)
        && accounts == old(accounts)[id := r.value]
    {
      if id !in accounts {
        return Err(AccountNotFound);
      }
      var account := accounts[id];
      if email.Some? && email.value != account.email {
        if EmailTaken(email.value) {
          return Err(EmailConflict(email.value));
        }
        account := account.(email := email.value);
      }
      if rating.Some? {
        account := account.(rating := if rating.value > 0 then rating.value else 0);
      }
      if verified.Some? {
        account := account.(verified := verified.value);
      }
      StoreKeepsWellFormed(accounts, account);
      accounts := accounts[id := account];
      return Ok(account);
    }

    /** `deleteAccount`: an unknown id throws; otherwise the account is removed. */
    method DeleteAccount(id: nat) returns (r: Result<(), AccountError>)
      requires Valid()
      modifies this
      ensures Valid() && tokens == old(tokens) && levels == old(levels)
      ensures r.Err? <==> id !in old(accounts)
      ensures r.Err? ==> r.error == AccountNotFound && accounts == old(accounts)
      ensures r.Ok? ==> accounts == old(accounts) - {id}
    {
      if id !in accounts {
        return Err(AccountNotFound);
      }
      accounts := accounts - {id};
      return Ok(());
    }

    /** `changePassword`: the current password must check out. */
    method ChangePassword(id: nat, currentPassword: string, newPassword: string,
                          verifyPassword: (string, string) -> bool)
      returns (r: Result<(), AccountError>)
      requires Valid()
      modifies this
      ensures Valid() && tokens == old(tokens) && levels == old(levels)
      ensures id !in old(accounts) ==> r == Err(AccountNotFound)
      ensures (id in old(accounts) && !verifyPassword(old(accounts[id].password), currentPassword))
              ==> r == Err(PasswordVerification)
      ensures r.Ok? <==> id in old(accounts) && verifyPassword(old(accounts[id].password), currentPassword)
      ensures r.Err? ==> accounts == old(accounts)
      ensures r.Ok? ==>
                id in old(accounts) && accounts == old(accounts)[id := old(accounts[id]).(password := newPassword)]
    {
      if id !in accounts {
        return Err(AccountNotFound);
      }
      var account := accounts[id];
      if !verifyPassword(account.password, currentPassword) {
        return Err(PasswordVerification);
      }
      StoreKeepsWellFormed(accounts, account.(password := newPassword));
      accounts := accounts[id := account.(password := newPassword)];
      return Ok(());
    }

    /** `verifyAccount(token)` at time `now`: a missing or expired token is a
        bad request that changes nothing; otherwise the token's account is
        marked verified and the token deleted. */
    method VerifyAccount(token: string, now: int) returns (response: Response)
      requires Valid()
      modifies this
      ensures Valid() && levels == old(levels)
      ensures response.OkResponse? <==> token in old(tokens) && !(old(tokens[token]).expiryDate < now)
      ensures response == if response.OkResponse? then OkResponse(VerifiedBody) else BadRequest(InvalidTokenBody)
      ensures response.BadRequest? ==> accounts == old(accounts) && tokens == old(tokens)
      ensures response.OkResponse? ==> var owner := old(tokens[token]).accountId;
        && tokens == old(tokens) - {token}
        && accounts == if owner in old(accounts)
             then old(accounts)[owner := old(accounts[owner]).(verified := true)]
             else old(accounts)
    {
      if token !in tokens || tokens[token].expiryDate < now {
        return BadRequest(InvalidTokenBody);
      }
      var owner := tokens[token].accountId;
      if owner in accounts {
        StoreKeepsWellFormed(accounts, accounts[owner].(verified := true));
        accounts := accounts[owner := accounts[owner].(verified := true)];
      }
      tokens := tokens - {token};
      return OkResponse(VerifiedBody);
    }

    /** `attemptLogin`: an unknown username, then an unverified account, then
        a wrong password make the login fail; otherwise a token is signed
        for the username and role. */
    method AttemptLogin(username: string, password: string,
                        verifyPassword: (string, string) -> bool,
                        generateToken: (string, Role) -> string)
      returns (r: Result<string, AccountError>)
      requires Valid()
      ensures !UsernameTaken(username) ==> r == Err(AccountNotFound)
      ensures forall id :: id in accounts && accounts[id].username == username ==>
                             r == LoginOutcome(accounts[id], password, verifyPassword, generateToken)
    {
      if !UsernameTaken(username) {
        return Err(AccountNotFound);
      }
      var id :| id in accounts && accounts[id].username == username;
      var account := accounts[id];
      if !account.verified {
        return Err(EmailNotVerified);
      }
      if !verifyPassword(account.password, password) {
        return Err(PasswordVerification);
      }
      return Ok(generateToken(account.username, account.role));
    }

    /** `updateRating` with the rounded performance score passed in: an
        unknown account throws, then an unknown level; otherwise the rating
        moves by the rating algorithm's delta. */
    method UpdateRating(accountId: nat, levelId: nat, performanceScore: int)
      returns (r: Result<(), AccountError>)
      requires Valid()
      modifies this
      ensures Valid() && tokens == old(tokens) && levels == old(levels)
      ensures accountId !in old(accounts) ==> r == Err(AccountNotFound)
      ensures accountId in old(accounts) && levelId !in levels ==> r == Err(LevelNotFound)
      ensures r.Err? ==> accounts == old(accounts)
      ensures r.Ok? <==> accountId in old(accounts) && levelId in levels
      ensures r.Ok? ==> accounts == old(accounts)[accountId := RatedAccount(old(accounts[accountId]), performanceScore)]
    {
      if accountId !in accounts {
        return Err(AccountNotFound);
      }
      if levelId !in levels {
        return Err(LevelNotFound);
      }
      StoreKeepsWellFormed(accounts, RatedAccount(accounts[accountId], performanceScore));
      accounts := accounts[accountId := RatedAccount(accounts[accountId], performanceScore)];
      return Ok(());
    }
  }

  /** The checks of `attemptLogin` once the account is found, in their order. */
  function LoginOutcome(account: Account, password: string,
                        verifyPassword: (string, string) -> bool,
                        generateToken: (string, Role) -> string): (r: Result<string, AccountError>)
    ensures r.Ok? <==> account.verified && verifyPassword(account.password, password)
    ensures !account.verified ==> r == Err(EmailNotVerified)
    ensures account.verified && !verifyPassword(account.password, password) ==> r == Err(PasswordVerification)
    ensures r.Ok? ==> r.value == generateToken(account.username, account.role)
  {
    if !account.verified then Err(EmailNotVerified)
    else if !verifyPassword(account.password, password) then Err(PasswordVerification)
    else Ok(generateToken(account.username, account.role))
  }
}
