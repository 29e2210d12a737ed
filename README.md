# giveme: a password-gated file repository, modelled in Dafny

giveme is a small Flask application (`app.py`). One shared password gates a
flat upload folder that can be listed, uploaded to and deleted from. This
project models the logic under the HTTP layer:

- **the session guard** (`login_required`, `login`, `logout`). The session is a
  record with the optional keys `logged_in` and `password_hash` and the
  flash-message queue. The guard admits a request only when `logged_in` is
  truthy and the stored hash equals the fingerprint `PASSWORD_HASH` computed
  from the current password at start-up. On a mismatch it clears the session
  and queues one expiry message. Changing the password therefore logs every
  client out. (`auth.dfy`, `server.dfy`)
- **the unit choice of `format_size`**: B, KB, MB, GB, TB, with PB as the
  fallback. (`size_format.dfy`)
- **the storage operations** over an abstract folder: the listing loop, the
  chunked upload copy, the upload's rejection of a missing or empty file
  name, and the exists/remove branch of delete. (`storage.dfy`, `server.dfy`)
- the flash texts and categories. (`messages.dfy`)

Modelling choices:

- The fingerprint (`hashlib.sha256(...).hexdigest()[:16]`) is a
  function-valued parameter `fingerprint: string -> string`. No property of it
  is assumed, and in particular not injectivity, so forced logout is stated
  under the hypothesis `fingerprint(p1) != fingerprint(p2)`.
- werkzeug's `secure_filename` is a function-valued parameter too. The only
  thing assumed of it is that its result never contains `/`.
- Flask keeps the flash queue inside the session under `_flashes`. This is why
  the model's `Session` carries it. It also means `session.clear()`
  (app.py:30) drops any pending messages, so the guard's mismatch branch
  leaves exactly `[SessionExpired]` in the session.
- One `App` object holds the start-up configuration, the session of the
  client making requests, and the folder. A password change is modelled as a
  new `App` built with the new password and the client's old cookie.
- The folder is a sequence of entries in `os.listdir` order. Each entry is a
  regular file with its bytes, or a directory. `os.path.isfile` holds of
  exactly the regular files, and `os.path.getsize` is the length of the bytes.
- `os.path.join(UPLOAD_FOLDER, name)` is `"./data/" + name`. The names `""`,
  `"."` and `".."` resolve to directories, namely the folder and its parent.
  `open(..., 'wb')` and `os.remove` on a directory raise CPython's
  `IsADirectoryError`. The model builds its Linux text, quoting the path plainly
  (see "## Left out" for the names where Python's `repr` would differ).
- Every other filesystem exception is a `fault: Option<string>` parameter,
  with `Some(str(e))` when the call raises. A failed call leaves the folder
  unchanged and queues the source's error message.
- `format_size` divides by `1024.0`, a power of two. This is exact in binary
  floating point. The largest threshold the loop tests is 1024^5 = 2^50, at TB.
  Converting an integer to a float can round only from 2^53 up, and rounding
  to nearest is monotone, so it never takes a count of 2^53 or more below
  2^53. Such a count therefore fails every test and is shown in PB, as the
  model says. So the unit is computed over integers.
  Below 2^53 the displayed value is exactly the real `n / 1024^k`.
- The upload stream's `read(8192)` returns between 1 and 8192 bytes while data
  remains, and nothing after that. The exact count is left open.

The model follows the code on these points, where a reader might expect otherwise:

- logout only pops `logged_in` and keeps `password_hash` (app.py:52);
- the password comparison is plain `==` (app.py:41);
- the listing keeps `os.listdir` order and does not sort (app.py:61);
- `delete_file` joins the raw name without sanitising it (app.py:128);
- the unit chosen is the *first* one whose value is below 1024, not the
  largest (app.py:142-145).

## Model

| member | source | states |
|---|---|---|
| `SizeFormat.UnitFrom` | app.py:142-145 | starting at unit k, the unit chosen is the least u ≥ k with n < 1024^(u+1), or PB (index 5) when every unit up to TB is too small |
| `SizeFormat.UnitIndex` | app.py:142-146 | the unit of n is ≤ 5; below PB, n < 1024^(u+1); every earlier unit has n ≥ 1024^(j+1) |
| `SizeFormat.FormatSize` | app.py:140-146 | the divide-by-1024 loop returns exactly `Formatted(n)`: unit `UnitIndex(n)` and value n / 1024^unit, with a value below 1024 in every unit but PB |
| `SizeFormat.UnitIsLeast` | app.py:142-145 | the least-unit characterisation determines the unit uniquely |
| `SizeFormat.UnitMonotone` | app.py:142-145 | a larger byte count is never shown in a smaller unit |
| `SizeFormat.FormattedValue` | app.py:143-146 | the shown value is < 1024 except in PB, at least 1 except in B, and times 1024^unit gives back n exactly |
| `Auth.AdmittedUnchanged` | app.py:26-33 | an admitted session passes through the guard unchanged |
| `Auth.LoggedInAdmittedIffUnchanged` | app.py:26-33 | for a session whose `logged_in` is truthy, the guard admits it if and only if it leaves the session unchanged; otherwise it leaves a session holding only the expiry message |
| `Auth.MismatchClearsSession` | app.py:29-32 | a logged-in session with another fingerprint is refused, and both keys are gone, leaving exactly one queued message, the expiry |
| `Auth.AnonymousUntouched` | app.py:26-27 | a session without a truthy `logged_in` is refused with no change and no message |
| `Auth.GuardIdempotent` | app.py:25-33 | checking a second time changes nothing and decides the same |
| `Auth.LoginAdmits` | app.py:41-44 | after the correct password the guard admits under that password's fingerprint, and the queue is unchanged |
| `Auth.WrongPasswordKeepsSession` | app.py:41-46 | a wrong or missing password leaves both keys and the guard's decision as they were and appends one `Invalid password` message |
| `Auth.PasswordRotation` | app.py:18-32 | a session issued under p1 is admitted under p2 if and only if the fingerprints agree; when they differ the guard leaves only the expiry message |
| `Auth.LogoutRejects` | app.py:52 | logout keeps `password_hash` and the queue, and afterwards every guarded request is refused, with no message |
| `Server.App.constructor` | app.py:16-20 | the fingerprint is computed from the configured password at start-up |
| `Server.App.Guard` | app.py:25-33 | the handler runs iff `Admits`; the new session is `Guarded` of the old |
| `Server.App.Login` | app.py:37-47 | GET renders the form with nothing changed; POST sets both keys and redirects to the index on the right password, or flashes an error and re-renders |
| `Server.App.Logout` | app.py:50-53 | the session loses only `logged_in`; the response redirects to login |
| `Server.App.Index` | app.py:56-75 | refused requests go to login; admitted ones render exactly `Visible(folder)`, or an empty listing plus an error message when listing raises |
| `Server.App.Upload` | app.py:78-107 | refused requests change nothing; a missing `file` part or an empty name leaves the folder and stream untouched with `No file selected`; a directory target or a raised `open` leaves the folder unchanged with an error; otherwise the folder is `Stored(folder, secure_filename(name), whole stream)` with the success message |
| `Server.App.Delete` | app.py:124-137 | absent: folder unchanged, `not found`; a directory or a raising `os.remove`: folder unchanged, an error; a file: the folder is `Without(folder, name)` with the success message |
| `Server.PasswordChangeForcesLogout` | app.py:18-32 | log in under p1, restart under p2 with a different fingerprint: the next listing request is redirected to login and the cookie holds only the expiry message |
| `Server.UploadListDelete` | app.py:56-137 | log in, upload a file under 1024 bytes, and the listing is exactly that one row in unit B; delete it, and the listing is empty |
| `Storage.ListFiles` | app.py:59-71 | the listing loop returns exactly `Visible(d)`: one row of name and formatted size per non-hidden regular file, in folder order |
| `Storage.VisibleAppend` | app.py:61 | listing distributes over concatenation, so folder order is kept |
| `Storage.VisibleExactly` | app.py:61-71 | a row is listed iff some entry that is not hidden and is a regular file produced it |
| `Storage.VisibleLength` | app.py:61-71 | never more rows than entries; all rows when all entries are shown; none when none is |
| `Storage.Find` | app.py:129 | the entry found has the name and is in the folder; none found means no entry has the name |
| `Storage.Stored` | app.py:97-102 | the write adds one entry exactly when the name was new |
| `Storage.StoredPlace` | app.py:97 | an existing file is overwritten in place; a new one is added at the end |
| `Storage.StoredThenResolve` | app.py:97-102 | save then read returns exactly the written bytes as a regular file |
| `Storage.StoredOthers` | app.py:97-102 | writing one file changes what no other name resolves to |
| `Storage.StoredWellFormed` | app.py:97 | writes keep names unique |
| `Storage.StoredMembers` | app.py:97 | after a write every entry is the new file or an old entry |
| `Storage.WithoutMembers` | app.py:130 | after removal exactly the entries with other names remain |
| `Storage.WithoutExactly` | app.py:129-130 | removing an existing name takes out exactly that entry and keeps the others in order |
| `Storage.WithoutAbsent` | app.py:129-133 | removing a name no entry has changes nothing |
| `Storage.WithoutThenAbsent` | app.py:129-133 | after delete the name resolves to absent, so a later delete reports not found; names stay unique |
| `Storage.Stream.Read` | app.py:99 | a read returns at most the requested bytes, is a prefix of what remains, and is empty only at the end |
| `Storage.CopyStream` | app.py:97-102 | the loop stops at the first empty read; every chunk is non-empty and at most 8192 bytes; the file holds their concatenation, which is the whole stream |

## Left out

- Flask routing, `render_template`, `url_for` and cookie signing are not modelled. Responses are tags (`Redirect`, `RenderLogin`, `RenderIndex`). Templates may consume the flash queue when they render, and that is not modelled either.
- `hashlib.sha256` is a foreign call, so the fingerprint is a parameter with no assumed properties.
- `secure_filename` and `send_from_directory` are werkzeug and Flask helpers whose logic is not visible. The download handler (app.py:110-121) consists of `send_from_directory` with an error flash, so it is left out.
- No path-traversal safety is claimed. `delete_file` does not sanitise its name, and the model says only what a flat folder does with it.
- The `%.2f` text of `format_size` is float formatting. The model keeps the exact value and the unit, and leaves out the rounding to two decimals.
- `Storage.CopyStream`: an exception in the middle of the copy would leave a truncated file. Failures are modelled only at `open`, where they leave the folder unchanged.
- `Server.App.Index`: an exception raised part-way through the listing loop (a file vanishing between `listdir` and `getsize`) would render the rows collected so far. A failure is modelled only as `os.listdir` raising, which gives an empty listing.
- Symbolic links, special files and the platform's order for newly created entries are not modelled. A new file is placed at the end of the listing order.
- `IsADirectoryError` text: Python renders the path with `repr`. `repr` switches to double quotes when the path contains a single quote, and it escapes backslashes and non-printable characters. The model quotes the path as it is, so for such names its text differs.
- `SizeFormat.FormatSize`: from 2^53 bytes up, converting the count to a float rounds it, so the real value differs slightly from the source's float (2^53 + 1 bytes shows as exactly 8.0 PB). From just below 2^1024 bytes up (2^1024 − 2^970, the first count that rounds past the largest float), the conversion raises `OverflowError`, and the model has no such case. The unit choice is exact for every count below that.
- `MAX_CONTENT_LENGTH` is enforced by the framework, not by this code.
- The environment bootstrap and `app.run` (app.py:8-16, 149-151) are not modelled, and neither is concurrency between requests.
