/**
 * The `users` table: one row per registered user, keyed by the UNIQUE
 * username column and holding only the password digest.
 */
module Accounts {

  /** What `hash_password` returns (a SHA-256 hex digest); the hash itself is a parameter of the server. */
  type Digest = string

  /** username -> stored password digest */
  type UserTable = map<string, Digest>

  datatype Registration = Registration(ok: bool, users: UserTable)

  /**
   * `register_user`: the INSERT succeeds exactly when no row has the name
   * yet; on the UNIQUE violation the table is left as it was.
   */
  function Register(users: UserTable, username: string, digest: Digest): (r: Registration)
    ensures r.ok <==> username !in users
    ensures r.users.Keys == users.Keys + {username}
    ensures forall n :: n in users ==> r.users[n] == users[n]
    ensures r.ok ==> r.users[username] == digest
  {
    if username in users then Registration(false, users)
    else Registration(true, users[username := digest])
  }

  /** The text `register_user` answers with (the in-memory table raises no other error). */
  function RegisterMessage(ok: bool): string
  {
    if ok then "Registration successful!" else "Username already exists!"
  }

  /** `authenticate_user`: some row has this username and this password digest. */
  predicate Matches(users: UserTable, username: string, digest: Digest)
  {
    username in users && users[username] == digest
  }

  /**
   * Registering makes the new credentials authenticate, and never changes
   * whether any other credentials do; a refused registration changes nothing.
   */
  lemma RegisterThenAuthenticate(users: UserTable, username: string, digest: Digest)
    ensures var r := Register(users, username, digest);
      && (r.ok ==> Matches(r.users, username, digest))
      && (r.ok ==> forall d :: Matches(r.users, username, d) <==> d == digest)
      && (!r.ok ==> forall n, d :: Matches(r.users, n, d) == Matches(users, n, d))
      && (forall n, d :: n != username ==> Matches(r.users, n, d) == Matches(users, n, d))
  {
  }

  /** One registration attempt, in the order the store serialises them. */
  datatype Attempt = Attempt(username: string, digest: Digest)

  datatype Batch = Batch(outcomes: seq<bool>, users: UserTable)

  /** Runs the attempts one after another against the table. */
  function RegisterAll(users: UserTable, attempts: seq<Attempt>): (b: Batch)
    ensures |b.outcomes| == |attempts|
    decreases |attempts|
  {
    if attempts == [] then Batch([], users)
    else
      var reg := Register(users, attempts[0].username, attempts[0].digest);
      var rest := RegisterAll(reg.users, attempts[1..]);
      Batch([reg.ok] + rest.outcomes, rest.users)
  }

  /** How many of the attempts for `name` succeeded. */
  function Successes(attempts: seq<Attempt>, outcomes: seq<bool>, name: string): nat
    requires |outcomes| == |attempts|
    decreases |attempts|
  {
    if attempts == [] then 0
    else (if attempts[0].username == name && outcomes[0] then 1 else 0)
         + Successes(attempts[1..], outcomes[1..], name)
  }

  predicate Attempted(attempts: seq<Attempt>, name: string) {
    exists i :: 0 <= i < |attempts| && attempts[i].username == name
  }

  /**
   * However many times a username is registered, exactly one attempt
   * succeeds if the name was free, and none if it was already taken.
   */
  lemma {:induction false} ExactlyOneRegistration(users: UserTable, attempts: seq<Attempt>, name: string)
    ensures Successes(attempts, RegisterAll(users, attempts).outcomes, name)
            == if name !in users && Attempted(attempts, name) then 1 else 0
    decreases |attempts|
  {
    if attempts != [] {
      var a := attempts[0];
      var reg := Register(users, a.username, a.digest);
      var b := RegisterAll(users, attempts);
      var rest := RegisterAll(reg.users, attempts[1..]);
      assert b.outcomes[1..] == rest.outcomes;
      ExactlyOneRegistration(reg.users, attempts[1..], name);
      if a.username == name {
        assert Attempted(attempts, name);
      } else {
        assert Attempted(attempts, name) <==> Attempted(attempts[1..], name) by {
          if Attempted(attempts, name) {
            var i :| 0 <= i < |attempts| && attempts[i].username == name;
            assert attempts[1..][i - 1].username == name;
          }
          if Attempted(attempts[1..], name) {
            var i :| 0 <= i < |attempts[1..]| && attempts[1..][i].username == name;
            assert attempts[i + 1].username == name;
          }
        }
      }
    }
  }
}
