/**
 * The request handlers of app.py as methods of one application object.  The
 * object holds the configuration fixed at start-up (the password, its
 * fingerprint `PASSWORD_HASH`, app.py:16-20), the session of the client making
 * the requests, and the upload folder.  Each guarded handler first runs the
 * guard of `login_required` (app.py:25-33) and returns its redirect when the
 * guard refuses.
 *
 * Filesystem exceptions are the `fault` parameters: `Some(reason)` says the
 * call raises with `str(e) == reason`.
 */
module Server {
  import opened Wrappers
  import opened Messages
  import opened Auth
  import opened Storage

  datatype Page = LoginPage | IndexPage

  /** A redirect, or the page a template renders (the listing with its rows). */
  datatype Response = Redirect(to: Page) | RenderLogin | RenderIndex(files: seq<Row>)

  class App {
    const appPassword: string
    const fingerprint: string -> string
    const passwordHash: string
    /**
     * werkzeug's `secure_filename`, whose rules are not part of this model
     * beyond this one: its result never holds a path separator.
     */
    const secureFilename: string -> string
    var session: Session
    var folder: Folder

    ghost predicate Valid()
      reads this
    {
      && passwordHash == fingerprint(appPassword)
      && WellFormed(folder)
      && (forall s :: '/' !in secureFilename(s))
    }

    /** Start-up with the configured password, and the cookie the client presents. */
    constructor (appPassword: string, fingerprint: string -> string, secureFilename: string -> string,
                 cookie: Session, folder: Folder)
      requires WellFormed(folder)
      requires forall s :: '/' !in secureFilename(s)
      ensures Valid()
      ensures this.appPassword == appPassword && this.fingerprint == fingerprint
      ensures this.secureFilename == secureFilename
      ensures passwordHash == fingerprint(appPassword)
      ensures session == cookie && this.folder == folder
    {
      this.appPassword := appPassword;
      this.fingerprint := fingerprint;
      this.passwordHash := fingerprint(appPassword);
      this.secureFilename := secureFilename;
      this.session := cookie;
      this.folder := folder;
    }

    /** `decorated_function`: true when the wrapped handler may run. */
    method Guard() returns (admitted: bool)
      modifies this`session
      ensures admitted == Admits(old(session), passwordHash)
      ensures session == Guarded(old(session), passwordHash)
    {
      if !Truthy(session.loggedIn) {
        return false;
      }
      if session.passwordHash != Some(passwordHash) {
        session := Empty;
        session := WithFlash(session, SessionExpired);
        return false;
      }
      return true;
    }

    /** `login`: a GET renders the form; a POST compares the `password` field. */
    method Login(isPost: bool, password: Option<string>) returns (r: Response)
      modifies this`session
      ensures !isPost ==> r == RenderLogin && session == old(session)
      ensures isPost ==> session == LoggedIn(old(session), password, appPassword, passwordHash)
      ensures isPost && password == Some(appPassword) ==> r == Redirect(IndexPage)
      ensures isPost && password != Some(appPassword) ==> r == RenderLogin
    {
      if isPost {
        if password == Some(appPassword) {
          session := session.(loggedIn := Some(true));
          session := session.(passwordHash := Some(passwordHash));
          return Redirect(IndexPage);
        } else {
          session := WithFlash(session, InvalidPassword);
        }
      }
      return RenderLogin;
    }

    /** `logout`: only `logged_in` leaves the session. */
    method Logout() returns (r: Response)
      modifies this`session
      ensures r == Redirect(LoginPage)
      ensures session == LoggedOut(old(session))
    {
      session := session.(loggedIn := None);
      return Redirect(LoginPage);
    }

    /** `index`: the listing, or an empty one with a message when `os.listdir` raises. */
    method Index(listFault: Option<string>) returns (r: Response)
      modifies this`session
      ensures !Admits(old(session), passwordHash) ==>
        r == Redirect(LoginPage) && session == Guarded(old(session), passwordHash)
      ensures Admits(old(session), passwordHash) && listFault.None? ==>
        r == RenderIndex(Visible(folder)) && session == old(session)
      ensures Admits(old(session), passwordHash) && listFault.Some? ==>
        r == RenderIndex([]) && session == WithFlash(old(session), ListingFailed(listFault.value))
    {
      var admitted := Guard();
      if !admitted {
        return Redirect(LoginPage);
      }
      if listFault.Some? {
        session := WithFlash(session, ListingFailed(listFault.value));
        return RenderIndex([]);
      }
      var files := ListFiles(folder);
      return RenderIndex(files);
    }

    /**
     * `upload_file`: `field` is the file name of the form's `file` part, or
     * None when there is no such part; `stream` is that part's body; `fault`
     * is an exception raised by `open`.
     */
    method Upload(field: Option<string>, stream: Stream, fault: Option<string>) returns (r: Response)
      requires Valid() && stream.Valid()
      modifies this`session, this`folder, stream
      ensures Valid() && stream.Valid()
      ensures !Admits(old(session), passwordHash) ==>
        && r == Redirect(LoginPage) && session == Guarded(old(session), passwordHash)
        && folder == old(folder) && stream.Remaining() == old(stream.Remaining())
      ensures Admits(old(session), passwordHash) ==> r == Redirect(IndexPage)
      ensures Admits(old(session), passwordHash) && (field.None? || field == Some("")) ==>
        && folder == old(folder) && stream.Remaining() == old(stream.Remaining())
        && session == WithFlash(old(session), NoFileSelected)
      ensures Admits(old(session), passwordHash) && field.Some? && field.value != "" ==>
        var name := secureFilename(field.value);
        && (Resolve(old(folder), name) == IsDirectory ==>
              && folder == old(folder) && stream.Remaining() == old(stream.Remaining())
              && session == WithFlash(old(session), UploadFailed(IsADirectoryError(JoinPath(name)))))
        && (Resolve(old(folder), name) != IsDirectory && fault.Some? ==>
              && folder == old(folder) && stream.Remaining() == old(stream.Remaining())
              && session == WithFlash(old(session), UploadFailed(fault.value)))
        && (Resolve(old(folder), name) != IsDirectory && fault.None? ==>
              && folder == Stored(old(folder), name, old(stream.Remaining()))
              && stream.Remaining() == []
              && session == WithFlash(old(session), Uploaded(name)))
    {
      var admitted := Guard();
      if !admitted {
        return Redirect(LoginPage);
      }
      if field.None? {
        session := WithFlash(session, NoFileSelected);
        return Redirect(IndexPage);
      }
      if field.value == "" {
        session := WithFlash(session, NoFileSelected);
        return Redirect(IndexPage);
      }
      var name := secureFilename(field.value);
      if Resolve(folder, name) == IsDirectory {
        session := WithFlash(session, UploadFailed(IsADirectoryError(JoinPath(name))));
      } else if fault.Some? {
        session := WithFlash(session, UploadFailed(fault.value));
      } else {
        var written, _ := CopyStream(stream);
        StoredWellFormed(folder, name, written);
        folder := Stored(folder, name, written);
        session := WithFlash(session, Uploaded(name));
      }
      return Redirect(IndexPage);
    }

    /** `delete_file`: `fault` is an exception raised by `os.remove`. */
    method Delete(name: string, fault: Option<string>) returns (r: Response)
      requires Valid()
      modifies this`session, this`folder
      ensures Valid()
      ensures !Admits(old(session), passwordHash) ==>
        r == Redirect(LoginPage) && session == Guarded(old(session), passwordHash) && folder == old(folder)
      ensures Admits(old(session), passwordHash) ==> r == Redirect(IndexPage)
      ensures Admits(old(session), passwordHash) && Resolve(old(folder), name) == Absent ==>
        folder == old(folder) && session == WithFlash(old(session), NotFound(name))
      ensures Admits(old(session), passwordHash) && Resolve(old(folder), name) == IsDirectory ==>
        folder == old(folder) && session == WithFlash(old(session), DeleteFailed(IsADirectoryError(JoinPath(name))))
      ensures Admits(old(session), passwordHash) && Resolve(old(folder), name).Present? && fault.Some? ==>
        folder == old(folder) && session == WithFlash(old(session), DeleteFailed(fault.value))
      ensures Admits(old(session), passwordHash) && Resolve(old(folder), name).Present? && fault.None? ==>
        folder == Without(old(folder), name) && session == WithFlash(old(session), Deleted(name))
    {
      var admitted := Guard();
      if !admitted {
        return Redirect(LoginPage);
      }
      match Resolve(folder, name) {
        case Absent =>
          session := WithFlash(session, NotFound(name));
        case IsDirectory =>
          session := WithFlash(session, DeleteFailed(IsADirectoryError(JoinPath(name))));
        case Present(_) =>
          if fault.Some? {
            session := WithFlash(session, DeleteFailed(fault.value));
          } else {
            WithoutThenAbsent(folder, name);
            folder := Without(folder, name);
            session := WithFlash(session, Deleted(name));
          }
      }
      return Redirect(IndexPage);
    }
  }

  /**
   * A client logs in while the password is `p1`; the server restarts with
   * `p2`, whose fingerprint differs, and the client keeps its cookie.  Its next
   * request to the listing is sent to the login page, and its session then
   * holds nothing but the expiry message.
   */
  method PasswordChangeForcesLogout(p1: string, p2: string, fingerprint: string -> string,
                                    secureFilename: string -> string, folder: Folder)
    returns (r: Response, cookie: Session)
    requires WellFormed(folder)
    requires forall s :: '/' !in secureFilename(s)
    requires fingerprint(p1) != fingerprint(p2)
    ensures r == Redirect(LoginPage)
    ensures cookie == Session(None, None, [SessionExpired])
  {
    var before := new App(p1, fingerprint, secureFilename, Empty, folder);
    var landing := before.Login(true, Some(p1));
    assert landing == Redirect(IndexPage);
    var after := new App(p2, fingerprint, secureFilename, before.session, before.folder);
    r := after.Index(None);
    cookie := after.session;
  }

  /**
   * Log in, upload a file, see it listed with its size in bytes, delete it and
   * see the listing without it.
   */
  method UploadListDelete(password: string, fingerprint: string -> string, name: string, data: seq<byte>)
    returns (listed: Response, relisted: Response)
    requires !Special(name) && !Hidden(name) && '/' !in name && |data| < 1024
    ensures listed == RenderIndex([Row(name, SizeFormat.SizeText(|data| as real, 0))])
    ensures relisted == RenderIndex([])
  {
    var secure: string -> string := s => name;
    assert forall s :: '/' !in secure(s);
    var app := new App(password, fingerprint, secure, Empty, []);
    var landing := app.Login(true, Some(password));
    assert Admits(app.session, app.passwordHash);
    var stream := new Stream(data);
    assert Resolve([], name) == Absent;
    assert app.secureFilename(name) == name;
    var uploaded := app.Upload(Some(name), stream, None);
    var file := Entry(name, RegularFile, data);
    assert app.folder == Stored([], name, data) == [file];
    assert Admits(app.session, app.passwordHash);
    listed := app.Index(None);
    assert Visible([file]) == Visible([]) + [RowOf(file)];
    SizeFormat.UnitIsLeast(|data|, 0);
    assert RowOf(file) == Row(name, SizeFormat.SizeText(|data| as real, 0));
    assert Resolve(app.folder, name) == Present(file);
    var deleted := app.Delete(name, None);
    assert app.folder == Without([file], name) == [];
    assert Admits(app.session, app.passwordHash);
    relisted := app.Index(None);
  }
}
