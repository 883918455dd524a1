/**
 * The Basic-auth backend of the DAV server (include/RedDAV/RedBasicAuthBackend.php):
 * the same identity fields and password check as the shared auth object,
 * plus `authenticate`, which lets an already known observer in, lets an
 * anonymous GET of a public file in (a directory, meant to get in with
 * `davguest`, ends the request instead), and otherwise asks for HTTP Basic
 * credentials.
 */
module AuthBackend {
  import opened Wrappers
  import opened PhpString
  import opened Store
  import opened Tree
  import opened BasicAuth

  /** What the anonymous-GET shortcut of `authenticate` decides. */
  datatype Probe =
    | Admit                  // return true without credentials
    | Throw(error: DavError) // an exception of the resolver escapes `authenticate`
    | Fatal                  // a directory node cannot be built with the backend: the request dies
    | AskCredentials         // go on to HTTP Basic authentication

  /** The owner id `RedFileData` leaves bound for `path`, starting from `ownerId`. */
  function BoundId(channels: seq<Channel>, path: string, ownerId: nat): (id: nat)
    ensures BoundOwner(channels, path).Some? ==> id == BoundOwner(channels, path).value.id
    ensures BoundOwner(channels, path).None? ==> id == ownerId
  {
    match BoundOwner(channels, path)
    case Some(c) => c.id
    case None => ownerId
  }

  /**
   * The anonymous-GET shortcut as written, given what `RedFileData($path, $this)`
   * resolved to. `$this` is the backend, not a `RedBasicAuth`, but every
   * directory `RedFileData` returns is built by `new RedDirectory(..., $auth)`,
   * whose constructor only takes a `RedBasicAuth`: in PHP 5 that is a
   * catchable fatal error no handler catches, so a directory (the root
   * included) ends the request whatever `davguest` says. A file admits; the
   * resolver's Forbidden for a hidden file escapes, because the
   * `catch (Exception $e)` in the `RedMatrix\RedDAV` namespace names a class
   * that does not exist; anything else asks for credentials.
   */
  function AnonymousGet(res: Resolution): (p: Probe)
    ensures p == Admit <==> res.FileAt?
    ensures p == Fatal <==> res.DirAt?
    ensures p.Throw? <==> res == Denied
    ensures p.Throw? ==> p.error == Forbidden
    ensures p == AskCredentials <==> res.Nothing? || res.Flag?
  {
    match res
    case FileAt(_, _) => Admit
    case DirAt(_) => Fatal
    case Denied => Throw(Forbidden)
    case Flag(_) => AskCredentials
    case Nothing => AskCredentials
  }

  /**
   * The shortcut as its comments intend it: a directory admits with
   * `davguest` once its constructor walk succeeds, the walk's exception
   * escapes otherwise, and without `davguest` a directory asks for
   * credentials; the other outcomes are those of `AnonymousGet`.
   */
  function IntendedAnonymousGet(res: Resolution, rows: seq<Attach>, env: Env, uid: nat, davguest: bool): (p: Probe)
    ensures p != Fatal
    ensures p == Admit <==> res.FileAt? || (davguest && res.DirAt? && DirOpen(rows, env, uid, res.path).Walked?)
    ensures p == Throw(Forbidden) <==> res == Denied || (res.DirAt? && DirOpen(rows, env, uid, res.path) == WalkFailed(Forbidden))
    ensures !res.DirAt? ==> p == AnonymousGet(res)
  {
    match res
    case DirAt(p) =>
      (match DirOpen(rows, env, uid, p)
       case Walked(_, _) => if davguest then Admit else AskCredentials
       case WalkFailed(e) => Throw(e))
    case _ => AnonymousGet(res)
  }

  /**
   * The root of the tree is a directory, so an anonymous GET of it always
   * ends in the fatal error, with or without `davguest`.
   */
  lemma AnonymousRoot(channels: seq<Channel>, rows: seq<Attach>, env: Env, path: string)
    requires !Truthy(path) || path == "/"
    ensures AnonymousGet(Resolve(channels, rows, env, path, false)) == Fatal
  {
    RootIsDirectory(channels, rows, env, path);
  }

  /** `RedFileData` of the root (or of a falsy path) is the root directory. */
  lemma RootIsDirectory(channels: seq<Channel>, rows: seq<Attach>, env: Env, path: string)
    requires !Truthy(path) || path == "/"
    ensures Resolve(channels, rows, env, path, false) == DirAt("/")
  {
  }

  /**
   * Had the constructor accepted the backend, the root would get in exactly
   * with `davguest` and ask for credentials without.
   */
  lemma IntendedAnonymousRoot(channels: seq<Channel>, rows: seq<Attach>, env: Env, uid: nat, path: string, davguest: bool)
    requires !Truthy(path) || path == "/"
    ensures IntendedAnonymousGet(Resolve(channels, rows, env, path, false), rows, env, uid, davguest)
      == if davguest then Admit else AskCredentials
  {
    RootIsDirectory(channels, rows, env, path);
    RootOpens(rows, env, uid);
  }

  /**
   * The two shortcuts part only on directories, where the code as written
   * dies; with `davguest` the root shows it: the intended shortcut admits, the
   * written one is fatal.
   */
  lemma DavguestRootDies(channels: seq<Channel>, rows: seq<Attach>, env: Env, uid: nat, res: Resolution)
    ensures AnonymousGet(res) != IntendedAnonymousGet(res, rows, env, uid, true) ==> res.DirAt? && AnonymousGet(res) == Fatal
    ensures var root := Resolve(channels, rows, env, "/", false);
      AnonymousGet(root) == Fatal && IntendedAnonymousGet(root, rows, env, uid, true) == Admit
  {
    IntendedAnonymousRoot(channels, rows, env, uid, "/", true);
    AnonymousRoot(channels, rows, env, "/");
  }

  /**
   * An anonymous GET is thrown out with Forbidden, instead of being asked for
   * credentials, when the resolver finds a row named like the requested leaf
   * that the observer may not see.
   */
  lemma HiddenLeafForbidsAnonymous(channels: seq<Channel>, rows: seq<Attach>, env: Env, path: string)
    requires AnonymousGet(Resolve(channels, rows, env, path, false)) == Throw(Forbidden)
    ensures BoundOwner(channels, path).Some?
    ensures exists a :: (a in rows && a.uid == BoundOwner(channels, path).value.id
      && a.filename == Basename(Trim(path, Slash)) && !env.visible(a.uid, a))
  {
    DeniedOnlyIfHidden(channels, rows, env, path);
  }

  /**
   * What the HTTP Basic step leaves behind, from the login part `before` and
   * the session `vars0`: NotAuthenticated without credentials or with
   * rejected ones, otherwise success with the login `validateUserPass` made.
   */
  predicate BasicOutcome(b: RedBasicAuthBackend, r: Option<DavError>, credentials: Option<(string, string)>,
                         verified: Option<Account>, whirlpool: string -> string, db: Database,
                         before: Identity, vars0: map<string, SessionValue>, session: Session)
    reads b, db, session
  {
    if credentials.None? then r == Some(NotAuthenticated) && b.Ident() == before && session.vars == vars0
    else
      var outcome := LoginOutcome(db.channels, db.accounts, credentials.value.0, credentials.value.1, verified, whirlpool);
      (r == if outcome.Rejected? then Some(NotAuthenticated) else None)
      && b.Ident() == AfterLogin(outcome, before) && session.vars == SessionAfterLogin(outcome, vars0)
  }

  /** The authentication backend object. */
  class RedBasicAuthBackend {
    var channelName: Option<string>
    var channelId: nat
    var channelAccountId: Option<nat>
    var observer: string
    var ownerId: nat
    var ownerNick: string
    var ownerHash: string
    var timezone: string

    /** The property defaults. */
    constructor ()
      ensures channelName == None && channelId == 0 && channelAccountId == None && observer == ""
      ensures ownerId == 0 && ownerNick == "" && ownerHash == "" && timezone == ""
    {
      channelName := None;
      channelId := 0;
      channelAccountId := None;
      observer := "";
      ownerId := 0;
      ownerNick := "";
      ownerHash := "";
      timezone := "";
    }

    /** The login part of this object. */
    function Ident(): Identity
      reads this
    {
      Identity(channelName, channelId, channelAccountId, observer)
    }

    /** `getCurrentUser()`: the address of the locally logged-in channel, if any. */
    function GetCurrentUser(): (r: Option<string>)
      reads this
      ensures r == channelName
    {
      channelName
    }

    /** `getTimezone()`. */
    function GetTimezone(): (r: string)
      reads this
      ensures r == timezone
    {
      timezone
    }

    /** `setCurrentUser($name)`: later `getCurrentUser()` calls return `name`. */
    method SetCurrentUser(name: string)
      modifies this
      ensures GetCurrentUser() == Some(name)
      ensures channelId == old(channelId) && channelAccountId == old(channelAccountId) && observer == old(observer)
      ensures ownerId == old(ownerId) && ownerNick == old(ownerNick) && ownerHash == old(ownerHash) && timezone == old(timezone)
    {
      channelName := Some(name);
    }

    /** `setTimezone($timezone)`: later `getTimezone()` calls return `tz`. */
    method SetTimezone(tz: string)
      modifies this
      ensures GetTimezone() == tz
      ensures Ident() == old(Ident())
      ensures ownerId == old(ownerId) && ownerNick == old(ownerNick) && ownerHash == old(ownerHash)
    {
      timezone := tz;
    }

    /**
     * `setAuthenticated($r)`: binds channel `c` as the logged-in channel and as
     * the observer, records it in the session, and succeeds.
     */
    method SetAuthenticated(c: Channel, session: Session) returns (ok: bool)
      modifies this, session
      ensures ok
      ensures Ident() == LoggedIn(c)
      ensures ownerId == old(ownerId) && ownerNick == old(ownerNick) && ownerHash == old(ownerHash) && timezone == old(timezone)
      ensures session.vars == old(session.vars)["uid" := IntVal(c.id)]["account_id" := IntVal(c.accountId)]["authenticated" := BoolVal(true)]
    {
      SetCurrentUser(c.address);
      channelId := c.id;
      observer := c.hash;
      channelAccountId := Some(c.accountId);
      session.vars := session.vars["uid" := IntVal(c.id)];
      session.vars := session.vars["account_id" := IntVal(c.accountId)];
      session.vars := session.vars["authenticated" := BoolVal(true)];
      ok := true;
    }

    /**
     * `validateUserPass($username, $password)`: succeeds unless the decision
     * is Rejected; a login as a channel binds it as `setAuthenticated` does,
     * the guest sentinel and a rejection change nothing.
     */
    method ValidateUserPass(username: string, password: string, verified: Option<Account>,
                            whirlpool: string -> string, db: Database, session: Session) returns (ok: bool)
      modifies this, session
      ensures var outcome := LoginOutcome(db.channels, db.accounts, username, password, verified, whirlpool);
        ok == !outcome.Rejected? && Ident() == AfterLogin(outcome, old(Ident()))
        && session.vars == SessionAfterLogin(outcome, old(session.vars))
      ensures ownerId == old(ownerId) && ownerNick == old(ownerNick) && ownerHash == old(ownerHash) && timezone == old(timezone)
    {
      if Trim(password, Whitespace) == "+++" {
        return true;
      }
      if verified.Some? && verified.value.defaultChannel != 0 {
        var r := ChannelOfAccount(db.channels, verified.value.id, verified.value.defaultChannel);
        if r.Some? {
          ok := SetAuthenticated(r.value, session);
          return;
        }
      }
      var r := ChannelByAddress(db.channels, username, true);
      if r.Some? {
        var x := AccountById(db.accounts, r.value.accountId);
        if x.Some? {
          var record := x.value;
          if record.flags == ACCOUNT_OK
             || (record.flags == ACCOUNT_UNVERIFIED && whirlpool(record.salt + password) == record.password) {
            ok := SetAuthenticated(r.value, session);
            return;
          }
        }
      }
      ok := false;
    }

    /**
     * The inherited HTTP Basic step (`parent::authenticate`): without
     * credentials, or with credentials `validateUserPass` rejects, it throws
     * NotAuthenticated, which escapes `authenticate` for the same namespace
     * reason as above; otherwise it succeeds.
     */
    method BasicLogin(credentials: Option<(string, string)>, verified: Option<Account>, whirlpool: string -> string,
                      db: Database, session: Session) returns (r: Option<DavError>)
      modifies this, session
      ensures BasicOutcome(this, r, credentials, verified, whirlpool, db, old(Ident()), old(session.vars), session)
      ensures ownerId == old(ownerId) && ownerNick == old(ownerNick) && ownerHash == old(ownerHash) && timezone == old(timezone)
    {
      if credentials.None? {
        return Some(NotAuthenticated);
      }
      var ok := ValidateUserPass(credentials.value.0, credentials.value.1, verified, whirlpool, db, session);
      r := if ok then None else Some(NotAuthenticated);
    }

    /**
     * The part of `authenticate` for a request with an observer: the local
     * channel, when there is one, is copied in (its timezone only when set),
     * the observer is bound, and the request passes unless public access is
     * blocked and no local channel id is known.
     */
    method ObserverLogin(obHash: string, local: Option<Channel>, env: Env) returns (r: Option<DavError>)
      modifies this
      ensures observer == obHash && ownerId == old(ownerId) && ownerNick == old(ownerNick) && ownerHash == old(ownerHash)
      ensures channelName == (if local.Some? then Some(local.value.address) else old(channelName))
      ensures channelId == (if local.Some? then local.value.id else old(channelId))
      ensures channelAccountId == (if local.Some? then Some(local.value.accountId) else old(channelAccountId))
      ensures timezone == (if local.Some? && Truthy(local.value.timezone) then local.value.timezone else old(timezone))
      ensures r == (if env.blockPublic && channelId == 0 then Some(Forbidden) else None)
    {
      if local.Some? {
        SetCurrentUser(local.value.address);
        channelId := local.value.id;
        channelAccountId := Some(local.value.accountId);
        if Truthy(local.value.timezone) {
          SetTimezone(local.value.timezone);
        }
      }
      observer := obHash;
      if env.blockPublic && channelId == 0 {
        return Some(Forbidden);
      }
      return None;
    }

    /**
     * The part of `authenticate` for a request without an observer: a GET
     * first tries the anonymous shortcut through `RedFileData`, which binds
     * the owner; a file admits, a directory ends the request (`fatal`), the
     * resolver's Forbidden escapes, and whatever it does not settle goes to
     * HTTP Basic.
     */
    method AnonymousOrBasic(httpMethod: string, path: string, credentials: Option<(string, string)>,
                            verified: Option<Account>, whirlpool: string -> string,
                            db: Database, env: Env, session: Session) returns (r: Option<DavError>, fatal: bool)
      modifies this, session
      ensures var probe := if httpMethod == "GET"
          then AnonymousGet(Resolve(db.channels, db.attach, env, path, false))
          else AskCredentials;
        ownerId == (if httpMethod == "GET" then BoundId(db.channels, path, old(ownerId)) else old(ownerId))
        && timezone == old(timezone) && ownerNick == old(ownerNick) && ownerHash == old(ownerHash)
        && (fatal <==> probe == Fatal)
        && (probe == Admit || probe == Fatal ==> r == None && Ident() == old(Ident()) && session.vars == old(session.vars))
        && (probe.Throw? ==> r == Some(probe.error) && Ident() == old(Ident()) && session.vars == old(session.vars))
        && (probe == AskCredentials ==> BasicOutcome(this, r, credentials, verified, whirlpool, db, old(Ident()), old(session.vars), session))
    {
      fatal := false;
      if httpMethod == "GET" {
        var probe := Shortcut(path, db, env);
        if probe == Admit {
          return None, false;
        }
        if probe == Fatal {
          return None, true;
        }
        if probe.Throw? {
          return Some(probe.error), false;
        }
      }
      r := BasicLogin(credentials, verified, whirlpool, db, session);
    }

    /**
     * The `RedFileData($path, $this)` call of the GET shortcut: it binds the
     * owner the path names and yields what the shortcut makes of the result.
     */
    method Shortcut(path: string, db: Database, env: Env) returns (probe: Probe)
      modifies this
      ensures probe == AnonymousGet(Resolve(db.channels, db.attach, env, path, false))
      ensures ownerId == BoundId(db.channels, path, old(ownerId))
      ensures Ident() == old(Ident()) && timezone == old(timezone) && ownerNick == old(ownerNick) && ownerHash == old(ownerHash)
    {
      ownerId := BoundId(db.channels, path, ownerId);
      probe := AnonymousGet(Resolve(db.channels, db.attach, env, path, false));
    }

    /**
     * `authenticate($server, $realm)`. `obHash` is `get_observer_hash()`,
     * `local` the locally logged-in channel, `credentials` the HTTP Basic
     * user and password the request carries, `verified` what
     * `account_verify_password` returns for them. `fatal` is the request
     * dying; otherwise `None` is `return true`.
     */
    method Authenticate(httpMethod: string, path: string, obHash: string, local: Option<Channel>,
                        credentials: Option<(string, string)>, verified: Option<Account>, whirlpool: string -> string,
                        db: Database, env: Env, session: Session) returns (r: Option<DavError>, fatal: bool)
      modifies this, session
      ensures Truthy(obHash) ==>
        !fatal && observer == obHash && ownerId == old(ownerId) && session.vars == old(session.vars)
        && channelName == (if local.Some? then Some(local.value.address) else old(channelName))
        && channelId == (if local.Some? then local.value.id else old(channelId))
        && channelAccountId == (if local.Some? then Some(local.value.accountId) else old(channelAccountId))
        && timezone == (if local.Some? && Truthy(local.value.timezone) then local.value.timezone else old(timezone))
        && r == (if env.blockPublic && channelId == 0 then Some(Forbidden) else None)
      ensures !Truthy(obHash) ==>
        var probe := if httpMethod == "GET"
          then AnonymousGet(Resolve(db.channels, db.attach, env, path, false))
          else AskCredentials;
        ownerId == (if httpMethod == "GET" then BoundId(db.channels, path, old(ownerId)) else old(ownerId))
        && timezone == old(timezone)
        && (fatal <==> probe == Fatal)
        && (probe == Admit || probe == Fatal ==> r == None && Ident() == old(Ident()) && session.vars == old(session.vars))
        && (probe.Throw? ==> r == Some(probe.error) && Ident() == old(Ident()) && session.vars == old(session.vars))
        && (probe == AskCredentials ==> BasicOutcome(this, r, credentials, verified, whirlpool, db, old(Ident()), old(session.vars), session))
    {
      if Truthy(obHash) {
        r := ObserverLogin(obHash, local, env);
        fatal := false;
      } else {
        r, fatal := AnonymousOrBasic(httpMethod, path, credentials, verified, whirlpool, db, env, session);
      }
    }
  }
}
