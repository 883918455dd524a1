/**
 * The /cloud entry point (mod/cloud.php): recovering Basic credentials from
 * the CGI headers, cleaning the query string and request URI, binding the
 * observer and local channel into a fresh auth object, and deciding whether
 * the request must authenticate over HTTP before the DAV server runs.
 */
module Cloud {
  import opened Wrappers
  import opened PhpString
  import Base64
  import opened Store
  import opened Tree
  import opened BasicAuth
  import opened RedDav

  const UserKey: string := "PHP_AUTH_USER"
  const PasswordKey: string := "PHP_AUTH_PW"
  const RedirectKey: string := "REDIRECT_REMOTE_USER"
  const AuthorizationKey: string := "HTTP_AUTHORIZATION"
  const QueryKey: string := "QUERY_STRING"
  const UriKey: string := "REQUEST_URI"

  /** A user name and a password; the password is `null` when the decoded text has no `:`. */
  type UserPass = (string, Option<string>)

  // ---------------------------------------------------------------- Basic credentials

  /**
   * `base64_decode(substr($v, 6))` as `strlen` and `explode` read it: a failed
   * decoding (`false`) is the empty text.
   */
  function DecodedText(v: string): string {
    match Base64.Decode(Substr(v, 6))
    case None => ""
    case Some(t) => t
  }

  /**
   * `base64_decode(substr($v, 6))` split by `explode(':', ·)`: nothing when the
   * decoding fails or the decoded text is empty; otherwise the user is the text before the first
   * `:`, and the password the text between the first and the second `:` (the
   * rest is dropped), or `null` when there is no `:` at all.
   */
  function DecodeUserPass(v: string): (r: Option<UserPass>)
    ensures r.None? <==> Base64.Decode(Substr(v, 6)).None? || Base64.Decode(Substr(v, 6)) == Some("")
    ensures r.Some? ==> ':' !in r.value.0 && (r.value.1.Some? ==> ':' !in r.value.1.value)
    ensures r.Some? ==> (r.value.1.None? <==> ':' !in Base64.Decode(Substr(v, 6)).value)
  {
    var userpass := DecodedText(v);
    if |userpass| == 0 then None
    else
      var parts := Explode(':', userpass);
      if |parts| > 1 then
        assert ':' in userpass by {
          if ':' !in userpass {
            ExplodeNoDelimiter(':', userpass);
          }
        }
        Some((parts[0], Some(parts[1])))
      else
        JoinExplode(':', userpass);
        Some((parts[0], None))
  }

  /**
   * A `Basic` header (any six-character scheme prefix) round-trips user and
   * password when neither holds a `:`, the case RFC 7617 section 2 leaves
   * unambiguous.
   */
  lemma BasicRoundTrip(scheme: string, user: string, password: string)
    requires |scheme| == 6
    requires ':' !in user && ':' !in password
    requires Base64.IsBytes(user + ":" + password)
    ensures DecodeUserPass(scheme + Base64.Encode(user + ":" + password)) == Some((user, Some(password)))
  {
    var text := user + ":" + password;
    assert Substr(scheme + Base64.Encode(text), 6) == Base64.Encode(text);
    Base64.DecodeEncode(text);
    assert text == user + [':'] + password;
    ExplodeAppend(':', user, password);
    ExplodeNoDelimiter(':', user);
    ExplodeNoDelimiter(':', password);
  }

  /**
   * A password that itself holds a `:` is cut at it, although RFC 7617
   * section 2 allows colons in the password.
   */
  lemma ColonTruncatesPassword(scheme: string, user: string, p1: string, p2: string)
    requires |scheme| == 6
    requires ':' !in user && ':' !in p1
    requires Base64.IsBytes(user + ":" + p1 + ":" + p2)
    ensures DecodeUserPass(scheme + Base64.Encode(user + ":" + p1 + ":" + p2)) == Some((user, Some(p1)))
  {
    var text := user + ":" + p1 + ":" + p2;
    assert Substr(scheme + Base64.Encode(text), 6) == Base64.Encode(text);
    Base64.DecodeEncode(text);
    assert text == user + [':'] + (p1 + [':'] + p2);
    ExplodePrefix(':', user, p1 + [':'] + p2);
    ExplodePrefix(':', p1, p2);
  }

  /** `x($_SERVER, $key)` followed by the decoding: the credentials a header carries, if any. */
  function HeaderCredentials(vars: map<string, string>, key: string): Option<UserPass> {
    if key in vars && Truthy(vars[key]) then DecodeUserPass(vars[key]) else None
  }

  /** Storing decoded credentials: a `null` password unsets `PHP_AUTH_PW`. */
  function WithCredentials(vars: map<string, string>, c: Option<UserPass>): map<string, string> {
    match c
    case None => vars
    case Some((name, Some(password))) => vars[UserKey := name][PasswordKey := password]
    case Some((name, None)) => vars[UserKey := name] - {PasswordKey}
  }

  /** The CGI workaround: `REDIRECT_REMOTE_USER` first, then `HTTP_AUTHORIZATION`. */
  function CgiWorkaround(vars: map<string, string>): map<string, string> {
    var v1 := WithCredentials(vars, HeaderCredentials(vars, RedirectKey));
    WithCredentials(v1, HeaderCredentials(v1, AuthorizationKey))
  }

  /** Storing credentials leaves the two header entries as they were. */
  lemma CredentialsKeepHeaders(vars: map<string, string>, c: Option<UserPass>)
    ensures HeaderCredentials(WithCredentials(vars, c), AuthorizationKey) == HeaderCredentials(vars, AuthorizationKey)
  {
  }

  /**
   * When both headers carry credentials, `HTTP_AUTHORIZATION` wins because it
   * is processed second; when only the redirect header does, its credentials
   * are used; when neither does, the variables are untouched.
   */
  lemma {:induction false} AuthorizationHeaderWins(vars: map<string, string>)
    ensures var out := CgiWorkaround(vars);
      match HeaderCredentials(vars, AuthorizationKey)
      case Some((name, pw)) =>
        UserKey in out && out[UserKey] == name
        && (if pw.Some? then PasswordKey in out && out[PasswordKey] == pw.value else PasswordKey !in out)
      case None =>
        match HeaderCredentials(vars, RedirectKey)
        case Some((name, pw)) =>
          UserKey in out && out[UserKey] == name
          && (if pw.Some? then PasswordKey in out && out[PasswordKey] == pw.value else PasswordKey !in out)
        case None => out == vars
  {
    CredentialsKeepHeaders(vars, HeaderCredentials(vars, RedirectKey));
  }

  // ---------------------------------------------------------------- query-string cleanup

  /** The characters the regex `[\?&]` matches. */
  predicate Separator(c: char) {
    c == '?' || c == '&'
  }

  /** Where the lazy `(.*?)` of the davguest regex stops: before `?`, `&`, a newline (`$` under `/m`), or at the end. */
  predicate Stop(c: char) {
    Separator(c) || c == '\n'
  }

  /** The parameter the cleanup deletes, with its `=`. */
  const Marker: string := "davguest="

  /** `[\?&]davguest=`, case-insensitively (`/i`), at the start of `s`: the nine characters after the separator lower to the marker. */
  predicate MatchesAt(s: string) {
    |s| >= 10 && Separator(s[0]) && forall i :: 1 <= i < 10 ==> LowerChar(s[i]) == Marker[i - 1]
  }

  /** The first stop at or after `j`, or the end. */
  function ValueStop(s: string, j: nat): (k: nat)
    requires j <= |s|
    ensures j <= k <= |s|
    ensures k < |s| ==> Stop(s[k])
    ensures forall i :: j <= i < k ==> !Stop(s[i])
    decreases |s| - j
  {
    if j == |s| || Stop(s[j]) then j else ValueStop(s, j + 1)
  }

  /** The end of the match at the start of `s`: a closing `?` or `&` is consumed, a newline is not. */
  function MatchEnd(s: string): (e: nat)
    requires MatchesAt(s)
    ensures 10 <= e <= |s|
  {
    var k := ValueStop(s, 10);
    if k < |s| && Separator(s[k]) then k + 1 else k
  }

  /** `preg_replace('/[\?&]davguest=(.*?)([\?&]|$)/ism', '', $s)`: every match, left to right, is deleted. */
  function StripDavguest(s: string): (r: string)
    ensures |r| <= |s|
    decreases |s|
  {
    if s == [] then []
    else if MatchesAt(s) then StripDavguest(s[MatchEnd(s)..])
    else [s[0]] + StripDavguest(s[1..])
  }

  /** The regex only deletes: every character of the result comes from the text. */
  lemma {:induction false} StripOnlyDeletes(s: string)
    ensures multiset(StripDavguest(s)) <= multiset(s)
    decreases |s|
  {
    if s == [] {
    } else if MatchesAt(s) {
      var e := MatchEnd(s);
      StripOnlyDeletes(s[e..]);
      assert s == s[..e] + s[e..];
      assert multiset(s) == multiset(s[..e]) + multiset(s[e..]);
    } else {
      StripOnlyDeletes(s[1..]);
      assert s == [s[0]] + s[1..];
      assert multiset(s) == multiset([s[0]]) + multiset(s[1..]);
    }
  }

  /** The text with `?f=` and `&f=` removed, the zids stripped and the davguest parameter deleted. */
  function RewriteQuery(s: string, stripZids: string -> string): (r: string)
    ensures (forall x :: |stripZids(x)| <= |x|) ==> |r| <= |s|
  {
    StrReplaceDeleteShrinks(s, "?f=");
    StrReplaceDeleteShrinks(StrReplace(s, "?f=", ""), "&f=");
    StripDavguest(stripZids(StrReplace(StrReplace(s, "?f=", ""), "&f=", "")))
  }

  /** The marker has nine characters, none of them a stop, and is its own lower case. */
  lemma MarkerFacts()
    ensures |Marker| == 9
    ensures forall i :: 0 <= i < 9 ==> !Stop(Marker[i]) && LowerChar(Marker[i]) == Marker[i]
  {
  }

  /** A prefix without `?` or `&` is never touched. */
  lemma {:induction false} StripPlainPrefix(p: string, t: string)
    requires forall i :: 0 <= i < |p| ==> !Separator(p[i])
    ensures StripDavguest(p + t) == p + StripDavguest(t)
  {
    if p == [] {
      assert p + t == t;
    } else {
      assert (p + t)[0] == p[0];
      assert (p + t)[1..] == p[1..] + t;
      assert !MatchesAt(p + t);
      assert StripDavguest(p + t) == [p[0]] + StripDavguest(p[1..] + t);
      StripPlainPrefix(p[1..], t);
      assert [p[0]] + (p[1..] + StripDavguest(t)) == p + StripDavguest(t);
    }
  }

  /** Text without `?` or `&` comes out unchanged. */
  lemma StripPlain(s: string)
    requires forall i :: 0 <= i < |s| ==> !Separator(s[i])
    ensures StripDavguest(s) == s
  {
    StripPlainPrefix(s, []);
    assert s + [] == s;
  }

  /** A davguest parameter closed by `?` or `&` is deleted together with that separator. */
  lemma StripParamThenSeparator(sep: char, v: string, sep2: char, tail: string)
    requires Separator(sep) && Separator(sep2)
    requires forall i :: 0 <= i < |v| ==> !Stop(v[i])
    ensures StripDavguest([sep] + Marker + v + [sep2] + tail) == StripDavguest(tail)
  {
    MarkerFacts();
    var s := [sep] + Marker + v + [sep2] + tail;
    assert s[1..10] == Marker;
    var k := 10 + |v|;
    assert forall i :: 10 <= i < k ==> s[i] == v[i - 10];
    assert s[k] == sep2;
    assert ValueStop(s, 10) == k;
    assert s[k + 1..] == tail;
  }

  /** A davguest parameter at the very end is deleted. */
  lemma StripParamAtEnd(sep: char, v: string)
    requires Separator(sep)
    requires forall i :: 0 <= i < |v| ==> !Stop(v[i])
    ensures StripDavguest([sep] + Marker + v) == []
  {
    MarkerFacts();
    var s := [sep] + Marker + v;
    assert s[1..10] == Marker;
    assert forall i :: 10 <= i < |s| ==> s[i] == v[i - 10];
    assert ValueStop(s, 10) == |s|;
  }

  /**
   * Deleting the closing `&` too glues the next parameter onto what came
   * before: `p?davguest=v&q` becomes `pq`, so in a request URI the next
   * parameter ends up in the path.
   */
  lemma DavguestGluesNextParam(p: string, v: string, q: string)
    requires forall i :: 0 <= i < |p| ==> !Separator(p[i])
    requires forall i :: 0 <= i < |v| ==> !Stop(v[i])
    requires forall i :: 0 <= i < |q| ==> !Separator(q[i])
    ensures StripDavguest(p + (['?'] + Marker + v + ['&'] + q)) == p + q
  {
    StripPlainPrefix(p, ['?'] + Marker + v + ['&'] + q);
    StripParamThenSeparator('?', v, '&', q);
    StripPlain(q);
  }

  /**
   * The regex needs a `?` or `&` in front, which a query string does not have
   * before its first parameter: `davguest=v` as the whole query string stays.
   */
  lemma LeadingDavguestKept(v: string)
    requires forall i :: 0 <= i < |v| ==> !Separator(v[i])
    ensures StripDavguest(Marker + v) == Marker + v
  {
    MarkerFacts();
    StripPlainPrefix(Marker, v);
    StripPlain(v);
  }

  /**
   * A doubled separator keeps the second parameter: the first match eats the
   * `&` the second one needed, so `??davguest=1&davguest=2` becomes
   * `?davguest=2`.
   */
  lemma DoubledSeparatorKeepsSecond()
    ensures StripDavguest(['?', '?'] + Marker + ['1', '&'] + Marker + ['2'])
      == ['?'] + Marker + ['2']
  {
    MarkerFacts();
    var s := ['?', '?'] + Marker + ['1', '&'] + Marker + ['2'];
    assert LowerChar(s[1]) == '?' && Marker[0] == 'd';
    assert !MatchesAt(s);
    assert s[1..] == ['?'] + Marker + ['1'] + ['&'] + (Marker + ['2']);
    StripParamThenSeparator('?', ['1'], '&', Marker + ['2']);
    LeadingDavguestKept(['2']);
  }

  /** A needle that starts with `?` or `&` does not occur in text without them. */
  lemma SeparatorNeedleAbsent(s: string, needle: string)
    requires |needle| > 0 && Separator(needle[0])
    requires forall i :: 0 <= i < |s| ==> !Separator(s[i])
    ensures forall j :: !OccursAt(s, needle, j)
  {
    forall j ensures !OccursAt(s, needle, j) {
      if 0 <= j && j + |needle| <= |s| {
        assert s[j..j + |needle|][0] == s[j];
      }
    }
  }

  /** Text without `?` or `&` that `strip_zids` leaves alone passes the whole cleanup unchanged. */
  lemma PlainQueryUnchanged(s: string, stripZids: string -> string)
    requires forall i :: 0 <= i < |s| ==> !Separator(s[i])
    requires stripZids(s) == s
    ensures RewriteQuery(s, stripZids) == s
  {
    SeparatorNeedleAbsent(s, "?f=");
    StrReplaceAbsent(s, "?f=", "");
    SeparatorNeedleAbsent(s, "&f=");
    StrReplaceAbsent(s, "&f=", "");
    StripPlain(s);
  }

  /** `$_SERVER['key']`, with an unset entry read as `""` (PHP's `null` in string functions). */
  function Get(vars: map<string, string>, key: string): string {
    if key in vars then vars[key] else ""
  }

  /** `$_SERVER`, which the entry point rewrites in place. */
  class ServerVars {
    var vars: map<string, string>

    constructor (vars: map<string, string>)
      ensures this.vars == vars
    {
      this.vars := vars;
    }

    /**
     * The CGI workaround at the top of mod/cloud.php: each of the two
     * headers, when set, is decoded and, unless the decoded text is empty,
     * becomes `PHP_AUTH_USER` and `PHP_AUTH_PW`.
     */
    method CgiAuthWorkaround()
      modifies this
      ensures vars == CgiWorkaround(old(vars))
    {
      ApplyHeader(RedirectKey);
      ApplyHeader(AuthorizationKey);
    }

    /** One header of the workaround. */
    method ApplyHeader(key: string)
      modifies this
      ensures vars == WithCredentials(old(vars), HeaderCredentials(old(vars), key))
    {
      if key in vars && Truthy(vars[key]) {
        var userpass := DecodedText(vars[key]);
        if |userpass| > 0 {
          var parts := Explode(':', userpass);
          vars := vars[UserKey := parts[0]];
          if |parts| > 1 {
            vars := vars[PasswordKey := parts[1]];
          } else {
            vars := vars - {PasswordKey};
          }
        }
      }
    }

    /** Lines 62-68: the same cleanup of `QUERY_STRING` and of `REQUEST_URI`. */
    method RewriteUris(stripZids: string -> string)
      modifies this
      ensures vars == old(vars)[QueryKey := RewriteQuery(Get(old(vars), QueryKey), stripZids)]
                               [UriKey := RewriteQuery(Get(old(vars), UriKey), stripZids)]
    {
      var q := Get(vars, QueryKey);
      q := StrReplace(StrReplace(q, "?f=", ""), "&f=", "");
      q := stripZids(q);
      q := StripDavguest(q);
      vars := vars[QueryKey := q];
      var u := Get(vars, UriKey);
      u := StrReplace(StrReplace(u, "?f=", ""), "&f=", "");
      u := stripZids(u);
      u := StripDavguest(u);
      vars := vars[UriKey := u];
    }
  }

  // ---------------------------------------------------------------- cloud_init

  /** How `cloud_init` ends: the DAV server runs, or `http_status_exit` ends the request with this code. */
  datatype CloudOutcome = Serve | StatusExit(code: int)

  /** `getHTTPCode()` of Sabre's NotAuthenticated. */
  const NotAuthenticatedCode: int := 401

  /** The identity bound for observer hash `obHash` and local channel `local`. */
  function Bound(obHash: string, local: Option<Channel>): Identity {
    if !Truthy(obHash) then Identity(None, 0, None, "")
    else if local.Some? then Identity(Some(local.value.address), local.value.id, Some(local.value.accountId), obHash)
    else Identity(None, 0, None, obHash)
  }

  /**
   * Lines 45-57: with an observer, the local channel (if any) becomes the
   * current user with its id and account, its timezone only when set, and
   * the observer is bound; without one nothing happens.
   */
  method BindObserver(auth: RedBasicAuth, obHash: string, local: Option<Channel>)
    modifies auth
    ensures Truthy(obHash) ==> auth.observer == obHash
    ensures !Truthy(obHash) ==> auth.Ident() == old(auth.Ident()) && auth.timezone == old(auth.timezone)
    ensures Truthy(obHash) && local.Some? ==>
      auth.channelName == Some(local.value.address) && auth.channelId == local.value.id
      && auth.channelAccountId == Some(local.value.accountId)
      && auth.timezone == (if Truthy(local.value.timezone) then local.value.timezone else old(auth.timezone))
    ensures Truthy(obHash) && local.None? ==>
      auth.channelName == old(auth.channelName) && auth.channelId == old(auth.channelId)
      && auth.channelAccountId == old(auth.channelAccountId) && auth.timezone == old(auth.timezone)
    ensures auth.ownerId == old(auth.ownerId) && auth.ownerNick == old(auth.ownerNick) && auth.ownerHash == old(auth.ownerHash)
  {
    if Truthy(obHash) {
      if local.Some? {
        auth.SetCurrentUser(local.value.address);
        auth.channelId := local.value.id;
        auth.channelAccountId := Some(local.value.accountId);
        if Truthy(local.value.timezone) {
          auth.SetTimezone(local.value.timezone);
        }
      }
      auth.observer := obHash;
    }
  }

  /**
   * The inherited HTTP Basic `authenticate` of the auth object: without
   * credentials, or with credentials `validateUserPass` rejects, it throws
   * NotAuthenticated; otherwise the request goes on.
   */
  method HttpAuthenticate(auth: RedBasicAuth, credentials: Option<(string, string)>, verified: Option<Account>,
                          whirlpool: string -> string, db: Database, session: Session)
    returns (r: Option<DavError>)
    modifies auth, session
    ensures credentials.None? ==> r == Some(NotAuthenticated) && auth.Ident() == old(auth.Ident()) && session.vars == old(session.vars)
    ensures credentials.Some? ==>
      var o := LoginOutcome(db.channels, db.accounts, credentials.value.0, credentials.value.1, verified, whirlpool);
      r == (if o.Rejected? then Some(NotAuthenticated) else None)
      && auth.Ident() == AfterLogin(o, old(auth.Ident())) && session.vars == SessionAfterLogin(o, old(session.vars))
  {
    if credentials.None? {
      return Some(NotAuthenticated);
    }
    var ok := auth.ValidateUserPass(credentials.value.0, credentials.value.1, verified, whirlpool, db, session);
    r := if ok then None else Some(NotAuthenticated);
  }

  /**
   * `cloud_init`. `obHash` is `get_observer_hash()`, `local` the local
   * channel (`local_channel()` and `get_channel()`), `davguestParam`
   * `$_GET['davguest']`, `credentials` what Sabre's Basic helper reads from
   * the request and `verified` / `whirlpool` the password collaborators.
   * The public-file probe resolves `/`, which is always a directory, so it
   * never spares the prompt; HTTP authentication is asked for exactly when
   * there is no observer and `davguest` is not in the session, and a failed
   * one ends the request with 401.
   */
  method CloudInit(obHash: string, local: Option<Channel>, davguestParam: Option<string>, httpMethod: string,
                   credentials: Option<(string, string)>, verified: Option<Account>, whirlpool: string -> string,
                   db: Database, env: Env, session: Session)
    returns (outcome: CloudOutcome, auth: RedBasicAuth)
    modifies session
    ensures var vars1 := if Truthy(davguestParam.GetOr("")) then old(session.vars)["davguest" := BoolVal(true)] else old(session.vars);
      if Truthy(obHash) || SessionFlag(vars1, "davguest") then
        outcome == Serve && auth.Ident() == Bound(obHash, local) && session.vars == vars1
      else if credentials.None? then
        outcome == StatusExit(NotAuthenticatedCode) && auth.Ident() == Bound(obHash, local) && session.vars == vars1
      else
        var o := LoginOutcome(db.channels, db.accounts, credentials.value.0, credentials.value.1, verified, whirlpool);
        outcome == (if o.Rejected? then StatusExit(NotAuthenticatedCode) else Serve)
        && auth.Ident() == AfterLogin(o, Bound(obHash, local)) && session.vars == SessionAfterLogin(o, vars1)
  {
    auth := new RedBasicAuth();
    BindObserver(auth, obHash, local);
    assert auth.Ident() == Bound(obHash, local);
    if Truthy(davguestParam.GetOr("")) {
      session.vars := session.vars["davguest" := BoolVal(true)];
    }
    var isPublicFile := false;
    var davguest := SessionFlag(session.vars, "davguest");
    if !Truthy(auth.observer) && httpMethod == "GET" {
      ghost var before := auth.Ident();
      var x := RedFileData("/", auth, db, env, false);
      assert auth.Ident() == before;
      isPublicFile := x.Node? && x.node.FileNode?;
      assert !isPublicFile;
    }
    outcome := Serve;
    if !Truthy(auth.observer) && !isPublicFile && !davguest {
      var e := HttpAuthenticate(auth, credentials, verified, whirlpool, db, session);
      if e.Some? {
        outcome := StatusExit(NotAuthenticatedCode);
      }
    }
  }
}
