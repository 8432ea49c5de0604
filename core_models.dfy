/**
  The custom user model of the core app and its manager: a table of user
  records keyed by e-mail address, filled by `create_user` and
  `create_superuser` and rewritten by `save`.
 */
module CoreModels {
  import opened Outcomes
  import opened Util

  /** The salted one-way password hasher: (salt, raw password) to digest. */
  type Hasher = (nat, string) -> seq<bv8>

  /** What `set_password` stores: a salted digest, or the unusable marker that
      `set_password(None)` leaves. The raw password itself is never kept. */
  datatype PasswordHash = Unusable | Salted(salt: nat, digest: seq<bv8>)

  /** `set_password(raw)` with the salt drawn for it. */
  function MakePassword(hasher: Hasher, raw: Option<string>, salt: nat): (h: PasswordHash)
    ensures raw.Some? ==> CheckPassword(hasher, h, raw.value)
    ensures raw.None? ==> forall pw :: !CheckPassword(hasher, h, pw)
  {
    match raw
    case None => Unusable
    case Some(pw) => Salted(salt, hasher(salt, pw))
  }

  /** `check_password(raw)`: re-hashes `raw` with the stored salt and compares. */
  predicate CheckPassword(hasher: Hasher, h: PasswordHash, raw: string): (ok: bool)
    ensures h.Unusable? ==> !ok
  {
    h.Salted? && hasher(h.salt, raw) == h.digest
  }

  /** A stored hash checks against `raw` exactly when it is what
      `set_password(raw)` would store with the same salt. */
  lemma CheckMatchesMakePassword(hasher: Hasher, h: PasswordHash, raw: string)
    ensures CheckPassword(hasher, h, raw) <==> h.Salted? && h == MakePassword(hasher, Some(raw), h.salt)
  {
  }

  /** One row of the user table. */
  datatype User = User(
    id: nat,
    email: string,
    name: string,
    password: PasswordHash,
    isActive: bool,
    isStaff: bool,
    isSuperuser: bool,
    isVerified: bool)

  /** The keyword arguments `**extra_fields` may set on a new user; None means
      "not given", so the column default applies. */
  datatype ExtraFields = ExtraFields(
    name: Option<string>,
    isActive: Option<bool>,
    isStaff: Option<bool>,
    isSuperuser: Option<bool>,
    isVerified: Option<bool>)

  const NoExtras := ExtraFields(None, None, None, None, None)

  /** Only a name among the extra fields, as the user serializer passes it. */
  function NameOnly(name: string): (x: ExtraFields)
    ensures x.name == Some(name)
    ensures x.isActive.None? && x.isStaff.None? && x.isSuperuser.None? && x.isVerified.None?
  {
    NoExtras.(name := Some(name))
  }

  /** Python truthiness of the `email` argument: neither None nor empty. */
  predicate Present(email: Option<string>) {
    email.Some? && email.value != ""
  }

  /** The record `create_user` builds: the normalised email, the extra
      fields over the column defaults, and the hash of the password. */
  function NewUser(hasher: Hasher, id: nat, email: string, password: Option<string>,
                   extra: ExtraFields, salt: nat): (u: User)
    ensures u.id == id
    ensures u.email == NormalizeEmail(Some(email))
    ensures password.Some? ==> CheckPassword(hasher, u.password, password.value)
    ensures password.None? ==> forall pw :: !CheckPassword(hasher, u.password, pw)
    ensures u.name == extra.name.GetOr("")
    ensures u.isActive == extra.isActive.GetOr(true)
    ensures u.isStaff == extra.isStaff.GetOr(false)
    ensures u.isSuperuser == extra.isSuperuser.GetOr(false)
    ensures u.isVerified == extra.isVerified.GetOr(false)
  {
    User(id, NormalizeEmail(Some(email)), extra.name.GetOr(""), MakePassword(hasher, password, salt),
         extra.isActive.GetOr(true), extra.isStaff.GetOr(false), extra.isSuperuser.GetOr(false),
         extra.isVerified.GetOr(false))
  }

  /** A user made without extra fields is active, not staff, not a superuser
      and not yet verified. */
  lemma NewUserDefaults(hasher: Hasher, id: nat, email: string, password: string, salt: nat)
    ensures var u := NewUser(hasher, id, email, Some(password), NoExtras, salt);
      u.isActive && !u.isStaff && !u.isSuperuser && !u.isVerified && u.name == ""
      && CheckPassword(hasher, u.password, password)
  {
  }

  /** Why `create_user` or `save` raise. */
  datatype CreateError =
    | EmailRequired   // ValueError("Users must have email address!")
    | DuplicateEmail  // the unique constraint on the email column

  /** The user table behind `User.objects`. */
  class UserManager {
    const hasher: Hasher
    /** The rows, keyed by their `email` column. */
    var users: map<string, User>
    /** The next value of the auto-increment primary key. */
    var nextId: nat

    /** Every row is stored under its own email; primary keys are distinct
        and below `nextId`. */
    ghost predicate Valid()
      reads this
    {
      && (forall e | e in users :: users[e].email == e && users[e].id < nextId)
      && (forall e1, e2 | e1 in users && e2 in users && e1 != e2 :: users[e1].id != users[e2].id)
    }

    /** Some row has primary key `id`. */
    ghost predicate HasId(id: nat)
      reads this
    {
      exists e | e in users :: users[e].id == id
    }

    /** The email of the row whose primary key is `id`. */
    ghost function KeyOfId(id: nat): (e: string)
      requires Valid() && HasId(id)
      reads this
      ensures e in users && users[e].id == id
      ensures forall e' | e' in users && users[e'].id == id :: e' == e
    {
      var e :| e in users && users[e].id == id; e
    }

    constructor (hasher: Hasher)
      ensures Valid()
      ensures this.hasher == hasher && users == map[] && nextId == 0
    {
      this.hasher := hasher;
      users := map[];
      nextId := 0;
    }

    /** `UserManager.create_user(email, password, **extra_fields)`. */
    method CreateUser(email: Option<string>, password: Option<string>, extra: ExtraFields, salt: nat)
      returns (r: Result<User, CreateError>)
      requires Valid()
      modifies this
      ensures Valid()
      ensures !Present(email) ==>
        r == Err(EmailRequired) && users == old(users) && nextId == old(nextId)
      ensures Present(email) && NormalizeEmail(email) in old(users) ==>
        r == Err(DuplicateEmail) && users == old(users) && nextId == old(nextId)
      ensures Present(email) && NormalizeEmail(email) !in old(users) ==>
        && r == Ok(NewUser(hasher, old(nextId), email.value, password, extra, salt))
        && users == old(users)[r.value.email := r.value]
        && nextId == old(nextId) + 1
    {
      if !Present(email) {
        return Err(EmailRequired);
      }
      var u := NewUser(hasher, nextId, email.value, password, extra, salt);
      if u.email in users {
        return Err(DuplicateEmail);
      }
      users := users[u.email := u];
      nextId := nextId + 1;
      r := Ok(u);
    }

    /** `UserManager.create_superuser(email, password)`: `create_user` without
        extra fields, then `is_staff` and `is_superuser` set and saved again. */
    method CreateSuperuser(email: Option<string>, password: Option<string>, salt: nat)
      returns (r: Result<User, CreateError>)
      requires Valid()
      modifies this
      ensures Valid()
      ensures !Present(email) ==>
        r == Err(EmailRequired) && users == old(users) && nextId == old(nextId)
      ensures Present(email) && NormalizeEmail(email) in old(users) ==>
        r == Err(DuplicateEmail) && users == old(users) && nextId == old(nextId)
      ensures Present(email) && NormalizeEmail(email) !in old(users) ==>
        && r == Ok(NewUser(hasher, old(nextId), email.value, password, NoExtras, salt)
                     .(isStaff := true, isSuperuser := true))
        && users == old(users)[r.value.email := r.value]
        && nextId == old(nextId) + 1
    {
      r := CreateUser(email, password, NoExtras, salt);
      if r.Err? {
        return;
      }
      var u := r.value.(isStaff := true, isSuperuser := true);
      var saved := Save(u.email, u);
      r := Ok(u);
    }

    /** `user.save()` for a row read under `key`, possibly with a new email:
        fails on the unique constraint when that email belongs to another row,
        and otherwise moves the row to its new email. */
    method Save(key: string, u: User) returns (ok: bool)
      requires Valid() && key in users && users[key].id == u.id
      modifies this
      ensures Valid() && nextId == old(nextId)
      ensures ok == (u.email == key || u.email !in old(users))
      ensures ok ==> users == (old(users) - {key})[u.email := u]
      ensures u.email == key ==> ok && users == old(users)[key := u]
      ensures !ok ==> users == old(users)
    {
      ok := u.email == key || u.email !in users;
      if ok {
        users := (users - {key})[u.email := u];
        if u.email == key {
          assert users == old(users)[key := u];
        }
      }
    }
  }
}
