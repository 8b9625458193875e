/**
 * User records and their creation (app/core/models.py): the custom user
 * manager's `create_user`, email normalization and the unique-email table.
 */
module Accounts {
  import opened Results
  import opened Text

  /**
   * What `set_password` stores: the digest of a raw password, or the
   * unusable marker that `set_password(None)` leaves.
   */
  datatype Password = Unusable | Hashed(digest: string)

  /** One row of the user table. `username` is among the registration fields. */
  datatype User = User(
    id: int,
    email: string,
    username: string,
    name: string,
    password: Password,
    isActive: bool,
    isStaff: bool)

  datatype CreateError =
    | EmptyEmail   // ValueError("User must have an email")
    | DuplicateEmail   // the unique constraint on `email` refuses the save

  // ---------------------------------------------------------------------
  // Email normalization (the manager's normalize_email).
  // ---------------------------------------------------------------------

  /** Index of the last `c` in `s`, if any (what `rsplit(c, 1)` splits at). */
  function LastIndexOf(s: string, c: char): (r: Option<nat>)
    ensures r.Some? ==> r.value < |s| && s[r.value] == c && c !in s[r.value + 1..]
    ensures r.None? ==> c !in s
  {
    if |s| == 0 then None
    else if s[|s| - 1] == c then Some(|s| - 1)
    else
      var r := LastIndexOf(s[..|s| - 1], c);
      assert r.Some? ==> s[r.value + 1..] == s[..|s| - 1][r.value + 1..] + [s[|s| - 1]];
      assert s == s[..|s| - 1] + [s[|s| - 1]];
      r
  }

  /**
   * Strips the address, splits it at its last `@` and lower-cases the
   * domain part; an address without `@` is returned as given.
   */
  function NormalizeEmail(email: string): string
  {
    var t := Strip(email);
    match LastIndexOf(t, '@')
    case None => email
    case Some(k) => t[..k] + "@" + Lower(t[k + 1..])
  }

  /** The last `@` of `local + "@" + domain` is the one before `domain` when `domain` has none. */
  lemma LastAtBeforeDomain(local: string, domain: string)
    requires '@' !in domain
    ensures LastIndexOf(local + "@" + domain, '@') == Some(|local|)
  {
    var s := local + "@" + domain;
    assert s[|local|] == '@';
    assert s[|local| + 1..] == domain;
  }

  /**
   * Normalization keeps the local part, splits at the last `@` and
   * lower-cases the domain.
   */
  lemma NormalizeKeepsLocalLowersDomain(local: string, domain: string)
    requires '@' !in domain
    requires |local| > 0 ==> !IsSpace(local[0])
    requires |domain| > 0 ==> !IsSpace(domain[|domain| - 1])
    ensures NormalizeEmail(local + "@" + domain) == local + "@" + Lower(domain)
  {
    var s := local + "@" + domain;
    StripUnchanged(s);
    LastAtBeforeDomain(local, domain);
    assert s[..|local|] == local;
    assert s[|local| + 1..] == domain;
  }

  /** An address whose domain has no upper-case letter is stored unchanged. */
  lemma LowerDomainUnchanged(local: string, domain: string)
    requires '@' !in domain
    requires |local| > 0 ==> !IsSpace(local[0])
    requires |domain| > 0 ==> !IsSpace(domain[|domain| - 1])
    requires forall i :: 0 <= i < |domain| ==> !IsUpper(domain[i])
    ensures NormalizeEmail(local + "@" + domain) == local + "@" + domain
  {
    NormalizeKeepsLocalLowersDomain(local, domain);
    assert Lower(domain) == domain;
  }

  /** Normalizing twice is the same as normalizing once. */
  lemma NormalizeIdempotent(email: string)
    ensures NormalizeEmail(NormalizeEmail(email)) == NormalizeEmail(email)
  {
    var t := Strip(email);
    match LastIndexOf(t, '@')
    case None =>
    case Some(k) =>
      var local, domain := t[..k], t[k + 1..];
      LowerFacts(domain);
      if |local| > 0 {
        assert local[0] == t[0];
      }
      if |domain| > 0 {
        assert domain[|domain| - 1] == t[|t| - 1];
      }
      NormalizeKeepsLocalLowersDomain(local, Lower(domain));
  }

  /**
   * An address of the model tests: `TEST3@EXAMPLE.COM` keeps its local
   * part and gets a lower-case domain. The two parts are parameters fixed
   * by the precondition, which keeps the solver from evaluating the
   * literal through every string function.
   */
  lemma UpperCaseAddressExample(local: string, domain: string)
    requires local == "TEST3" && domain == "EXAMPLE.COM"
    ensures NormalizeEmail(local + "@" + domain) == local + "@" + "example.com"
  {
    assert forall i :: 0 <= i < |domain| ==> domain[i] != '@';
    NormalizeKeepsLocalLowersDomain(local, domain);
    assert Lower(domain) == "example.com";
  }

  // ---------------------------------------------------------------------
  // Passwords. The hasher is a parameter standing for the framework's
  // password hashing, which this model does not open.
  // ---------------------------------------------------------------------

  /** `user.set_password(raw)`. */
  function SetPassword(hash: string -> string, raw: Option<string>): Password
  {
    match raw
    case None => Unusable
    case Some(p) => Hashed(hash(p))
  }

  /** `user.check_password(raw)`: never true for an unusable password. */
  predicate CheckPassword(hash: string -> string, u: User, raw: string)
  {
    u.password.Hashed? && u.password.digest == hash(raw)
  }

  /**
   * The record `create_user` builds before saving it: normalized email,
   * the given extra fields, the hashed password and the field defaults.
   */
  function NewUser(id: int, email: string, password: Option<string>, username: string, name: string,
                   hash: string -> string): (u: User)
    ensures u.id == id && u.email == NormalizeEmail(email) && u.username == username && u.name == name
    ensures u.isActive && !u.isStaff
    ensures password.Some? ==> CheckPassword(hash, u, password.value)
    ensures password.None? ==> forall raw :: !CheckPassword(hash, u, raw)
  {
    User(id, NormalizeEmail(email), username, name, SetPassword(hash, password), true, false)
  }

  // ---------------------------------------------------------------------
  // The user table.
  // ---------------------------------------------------------------------

  predicate EmailTaken(users: seq<User>, email: string)
  {
    exists i :: 0 <= i < |users| && users[i].email == email
  }

  predicate UniqueEmails(users: seq<User>)
  {
    forall i, j :: 0 <= i < j < |users| ==> users[i].email != users[j].email
  }

  predicate UniqueIds(users: seq<User>)
  {
    forall i, j :: 0 <= i < j < |users| ==> users[i].id != users[j].id
  }

  predicate IdsBelow(users: seq<User>, bound: int)
  {
    forall i :: 0 <= i < |users| ==> users[i].id < bound
  }

  /** The stored users; `nextId` is the next primary key the database hands out. */
  class UserTable {
    var users: seq<User>
    var nextId: int
    const hash: string -> string

    ghost predicate Valid()
      reads this
    {
      UniqueEmails(users) && UniqueIds(users) && IdsBelow(users, nextId)
    }

    constructor (hash: string -> string)
      ensures Valid() && users == [] && this.hash == hash
    {
      users := [];
      nextId := 1;
      this.hash := hash;
    }

    /**
     * `ProfileManager.create_user`: an empty email raises before anything
     * is built; otherwise the new record is saved, which the unique
     * constraint on `email` refuses when the normalized address is taken.
     */
    method CreateUser(email: string, password: Option<string>, username: string, name: string)
      returns (r: Result<User, CreateError>)
      requires Valid()
      modifies this
      ensures Valid()
      ensures email == "" ==> r == Err(EmptyEmail)
      ensures email != "" && EmailTaken(old(users), NormalizeEmail(email)) ==> r == Err(DuplicateEmail)
      ensures r.Ok? <==> email != "" && !EmailTaken(old(users), NormalizeEmail(email))
      ensures r.Ok? ==> r.value == NewUser(old(nextId), email, password, username, name, hash)
      ensures r.Ok? ==> users == old(users) + [r.value]
      ensures r.Err? ==> users == old(users)
      ensures nextId == if r.Ok? then old(nextId) + 1 else old(nextId)
    {
      if email == "" {
        return Err(EmptyEmail);
      }
      var user := NewUser(nextId, email, password, username, name, hash);
      if EmailTaken(users, user.email) {
        return Err(DuplicateEmail);
      }
      users := users + [user];
      nextId := nextId + 1;
      return Ok(user);
    }
  }
}
