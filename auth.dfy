/**
 * The session record and the three transitions that touch it: the
 * `login_required` guard (app.py:23-34), `login` (app.py:37-47) and `logout`
 * (app.py:50-53), written as functions from the old session to the new one.
 *
 * The password fingerprint is SHA-256 in the source (app.py:20); here it is a
 * function-valued parameter `fingerprint` about which nothing is assumed.
 */
module Auth {
  import opened Wrappers
  import opened Messages

  /**
   * The keys of Flask's session the application uses.  `flashes` is the queue
   * `flash()` appends to; Flask keeps it inside the session too, so clearing the
   * session empties it.
   */
  datatype Session = Session(loggedIn: Option<bool>, passwordHash: Option<string>, flashes: seq<Message>)

  const Empty: Session := Session(None, None, [])

  /** `flash(text, category)`: append one message to the queue. */
  function WithFlash(s: Session, m: Message): Session
  {
    s.(flashes := s.flashes + [m])
  }

  /** Python truthiness of `session.get('logged_in')`; the application only ever stores True. */
  predicate Truthy(v: Option<bool>)
  {
    v == Some(true)
  }

  /** The guard lets the wrapped handler run. */
  predicate Admits(s: Session, current: string)
  {
    Truthy(s.loggedIn) && s.passwordHash == Some(current)
  }

  /** The session after the guard has checked it against the current fingerprint. */
  function Guarded(s: Session, current: string): Session
  {
    if !Truthy(s.loggedIn) then s
    else if s.passwordHash != Some(current) then WithFlash(Empty, SessionExpired)
    else s
  }

  /** The session after a POST to the login form carrying `submitted`. */
  function LoggedIn(s: Session, submitted: Option<string>, password: string, current: string): Session
  {
    if submitted == Some(password) then s.(loggedIn := Some(true), passwordHash := Some(current))
    else WithFlash(s, InvalidPassword)
  }

  /** `session.pop('logged_in', None)`. */
  function LoggedOut(s: Session): Session
  {
    s.(loggedIn := None)
  }

  /** A session the guard admits passes through it unchanged. */
  lemma AdmittedUnchanged(s: Session, current: string)
    ensures Admits(s, current) ==> Guarded(s, current) == s
  {
  }

  /**
   * For a logged-in session the guard's decision shows in the session it
   * leaves: it is admitted exactly when the guard leaves it as it was, and
   * otherwise it is replaced by one holding only the expiry message.
   */
  lemma LoggedInAdmittedIffUnchanged(s: Session, current: string)
    requires Truthy(s.loggedIn)
    ensures Admits(s, current) <==> Guarded(s, current) == s
    ensures !Admits(s, current) ==> Guarded(s, current) == WithFlash(Empty, SessionExpired)
  {
  }

  /**
   * A logged-in session whose fingerprint differs from the current one is
   * emptied and left holding exactly the expiry message.
   */
  lemma MismatchClearsSession(s: Session, current: string)
    requires Truthy(s.loggedIn) && s.passwordHash != Some(current)
    ensures !Admits(s, current)
    ensures Guarded(s, current).loggedIn == None && Guarded(s, current).passwordHash == None
    ensures Guarded(s, current).flashes == [SessionExpired]
  {
  }

  /** A session that is not logged in is redirected with nothing changed and no message. */
  lemma AnonymousUntouched(s: Session, current: string)
    requires !Truthy(s.loggedIn)
    ensures !Admits(s, current) && Guarded(s, current) == s
  {
  }

  /** The guard is idempotent: a second check changes nothing and decides the same. */
  lemma GuardIdempotent(s: Session, current: string)
    ensures Guarded(Guarded(s, current), current) == Guarded(s, current)
    ensures Admits(Guarded(s, current), current) == Admits(s, current)
  {
  }

  /** After a correct password the guard under the same fingerprint admits, whatever the session was. */
  lemma LoginAdmits(s: Session, password: string, fingerprint: string -> string)
    ensures Admits(LoggedIn(s, Some(password), password, fingerprint(password)), fingerprint(password))
    ensures LoggedIn(s, Some(password), password, fingerprint(password)).flashes == s.flashes
  {
  }

  /** A wrong or missing password adds one error message and changes nothing else. */
  lemma WrongPasswordKeepsSession(s: Session, submitted: Option<string>, password: string, current: string)
    requires submitted != Some(password)
    ensures LoggedIn(s, submitted, password, current).loggedIn == s.loggedIn
    ensures LoggedIn(s, submitted, password, current).passwordHash == s.passwordHash
    ensures LoggedIn(s, submitted, password, current).flashes == s.flashes + [InvalidPassword]
    ensures Admits(LoggedIn(s, submitted, password, current), current) == Admits(s, current)
  {
  }

  /**
   * Forced logout on password change: a session issued under `p1` is admitted
   * under `p2` exactly when the two fingerprints agree; when they differ the
   * guard empties it, with no logout in between.
   */
  lemma PasswordRotation(s: Session, p1: string, p2: string, fingerprint: string -> string)
    ensures var issued := LoggedIn(s, Some(p1), p1, fingerprint(p1));
      Admits(issued, fingerprint(p2)) <==> fingerprint(p1) == fingerprint(p2)
    ensures var issued := LoggedIn(s, Some(p1), p1, fingerprint(p1));
      fingerprint(p1) != fingerprint(p2) ==> Guarded(issued, fingerprint(p2)) == WithFlash(Empty, SessionExpired)
  {
  }

  /**
   * Logout keeps the stored fingerprint and the queued messages, and no guarded
   * request is admitted afterwards; the guard then redirects without a message.
   */
  lemma LogoutRejects(s: Session, current: string)
    ensures LoggedOut(s).passwordHash == s.passwordHash && LoggedOut(s).flashes == s.flashes
    ensures !Admits(LoggedOut(s), current)
    ensures Guarded(LoggedOut(s), current) == LoggedOut(s)
  {
  }
}
