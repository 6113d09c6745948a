/** The credential store: a map from normalized username to password digest. */
module Users {
  import opened Text

  /** Normalized username to password digest (the `password` field of each record in the users file). */
  type Credentials = map<string, string>

  /** The password digest. The model never looks inside it. */
  type Hasher = string -> string

  ghost predicate Injective(hash: Hasher) {
    forall p, q :: hash(p) == hash(q) ==> p == q
  }

  /** Every key is a non-empty normalized username: what registration alone can produce. */
  ghost predicate WellFormed(users: Credentials) {
    forall key :: key in users ==> key != "" && Normalize(key) == key
  }

  /** The new map, and what `register_user` returned. */
  datatype Registration = Registration(users: Credentials, ok: bool)

  /** The guards of `register_user`: a non-empty normalized name, a non-empty password, a name not yet taken. */
  predicate Admissible(users: Credentials, username: string, password: string) {
    var key := Normalize(username);
    key != "" && password != "" && key !in users
  }

  /** `register_user`. `saved` is what the full rewrite of the users file reported; the record
      is inserted in memory before that write, whatever it reports. */
  function Register(users: Credentials, username: string, password: string, hash: Hasher, saved: bool): (r: Registration)
    ensures !Admissible(users, username, password) ==> r == Registration(users, false)
    ensures Admissible(users, username, password) ==>
      && r.ok == saved
      && r.users.Keys == users.Keys + {Normalize(username)}
      && r.users[Normalize(username)] == hash(password)
      && forall key :: key in users ==> r.users[key] == users[key]
  {
    var key := Normalize(username);
    if key == "" || password == "" then
      Registration(users, false)
    else if key in users then
      Registration(users, false)
    else
      Registration(users[key := hash(password)], saved)
  }

  /** `verify_user`: the normalized name is known and the stored digest is the digest of `password`. */
  function Verify(users: Credentials, username: string, password: string, hash: Hasher): (b: bool)
    ensures b ==> Exists(users, username)
  {
    var key := Normalize(username);
    if key !in users then false else users[key] == hash(password)
  }

  /** `user_exists`: whether the normalized name is a stored key. The login window asks it just
      before registering, so a name exists exactly when registration would refuse it as taken. */
  function Exists(users: Credentials, username: string): (b: bool)
    ensures b ==> forall p :: !Admissible(users, username, p)
    ensures !b && Normalize(username) != "" ==> forall p :: p != "" ==> Admissible(users, username, p)
  {
    Normalize(username) in users
  }

  /** Asking about a name or about its normalized form gives the same answer. */
  lemma {:induction false} ExistsUnderNormalize(users: Credentials, username: string)
    ensures Exists(users, Normalize(username)) == Exists(users, username)
  {
    NormalizeIdempotent(username);
  }

  /** After a registration that passes the guards, every spelling of the name that normalizes alike
      signs in with that password and is reported as existing, whether or not the file write succeeded. */
  lemma RegisterThenVerify(users: Credentials, username: string, password: string, hash: Hasher, saved: bool, other: string)
    requires Admissible(users, username, password)
    requires Normalize(other) == Normalize(username)
    ensures var r := Register(users, username, password, hash, saved);
      Verify(r.users, other, password, hash) && Exists(r.users, other)
  {
  }

  /** A rejected registration leaves every answer of the store as it was. */
  lemma RegisterRejectedChangesNothing(users: Credentials, username: string, password: string, hash: Hasher, saved: bool, other: string, guess: string)
    requires !Admissible(users, username, password)
    ensures var r := Register(users, username, password, hash, saved);
      && !r.ok
      && Verify(r.users, other, guess, hash) == Verify(users, other, guess, hash)
      && Exists(r.users, other) == Exists(users, other)
  {
  }

  /** Registering a name a second time fails and keeps the digest of the first registration. */
  lemma RegisterTwice(users: Credentials, username: string, password: string, again: string, password2: string, hash: Hasher, saved: bool, saved2: bool)
    requires Admissible(users, username, password)
    requires Normalize(again) == Normalize(username)
    ensures var r := Register(users, username, password, hash, saved);
      var r2 := Register(r.users, again, password2, hash, saved2);
      && !r2.ok
      && r2.users == r.users
      && r2.users[Normalize(username)] == hash(password)
  {
  }

  /** A name absent after normalization never signs in. */
  lemma VerifyUnknown(users: Credentials, username: string, password: string, hash: Hasher)
    requires !Exists(users, username)
    ensures !Verify(users, username, password, hash)
  {
  }

  /** After an accepted registration, a password signs in under that name exactly when its digest
      equals the registered password's digest. */
  lemma VerifyMatchesDigest(users: Credentials, username: string, password: string, hash: Hasher, saved: bool, other: string, guess: string)
    requires Admissible(users, username, password)
    requires Normalize(other) == Normalize(username)
    ensures var r := Register(users, username, password, hash, saved);
      Verify(r.users, other, guess, hash) <==> hash(guess) == hash(password)
  {
  }

  /** With an injective digest, only the registered password signs in. */
  lemma VerifyWrongPassword(users: Credentials, username: string, password: string, hash: Hasher, saved: bool, other: string, guess: string)
    requires Injective(hash)
    requires Admissible(users, username, password)
    requires Normalize(other) == Normalize(username)
    requires guess != password
    ensures var r := Register(users, username, password, hash, saved);
      !Verify(r.users, other, guess, hash)
  {
  }

  /** Registration keeps the store's keys non-empty and normalized. */
  lemma {:induction false} RegisterPreservesWellFormed(users: Credentials, username: string, password: string, hash: Hasher, saved: bool)
    requires WellFormed(users)
    ensures WellFormed(Register(users, username, password, hash, saved).users)
  {
    var r := Register(users, username, password, hash, saved);
    if Admissible(users, username, password) {
      var added := Normalize(username);
      NormalizeIdempotent(username);
      forall key | key in r.users
        ensures key != "" && Normalize(key) == key
      {
        if key != added {
          assert key in users;
        }
      }
    }
  }

  /** Sign-in ignores case and surrounding whitespace: after registering `a + t + b`, with whitespace
      `a` and `b`, the password signs in under `t` and under `t` lower-cased. */
  lemma CaseInsensitiveSignIn(users: Credentials, a: string, t: string, b: string, password: string, hash: Hasher, saved: bool)
    requires AllSpace(a) && AllSpace(b) && IsStripped(t) && t != []
    requires password != ""
    requires Lower(t) !in users
    ensures var r := Register(users, a + t + b, password, hash, saved);
      r.ok == saved && Verify(r.users, t, password, hash) && Verify(r.users, Lower(t), password, hash)
  {
    NormalizeIgnoresCaseAndSpace(a, t, b);
  }
}
