/**
 * The Basic-auth identity object of the DAV tree (include/RedDAV/RedBasicAuth.php):
 * who is logged in locally (`channel_*`), who is looking (`observer`) and
 * whose files are being looked at (`owner_*`), plus the password check both
 * auth classes share.
 */
module BasicAuth {
  import opened Wrappers
  import opened PhpString
  import opened Store

  /** A value stored in `$_SESSION`. */
  datatype SessionValue = IntVal(n: nat) | BoolVal(b: bool)

  /** `$_SESSION`, kept as a map from key to value. */
  class Session {
    var vars: map<string, SessionValue>

    constructor (vars: map<string, SessionValue>)
      ensures this.vars == vars
    {
      this.vars := vars;
    }
  }

  /** The outcome of the password check. */
  datatype Login =
    | Guest                    // the "+++" sentinel: accepted, nobody is bound
    | AsChannel(channel: Channel) // accepted as this channel
    | Rejected

  /**
   * `validateUserPass`'s decision. `verified` is what `account_verify_password`
   * returned for the credentials and `whirlpool` is `hash('whirlpool', ·)`;
   * both are collaborators whose code is not part of this model.
   */
  function LoginOutcome(channels: seq<Channel>, accounts: seq<Account>, username: string, password: string,
                        verified: Option<Account>, whirlpool: string -> string): (r: Login)
    ensures r == Guest <==> Trim(password, Whitespace) == "+++"
    ensures r.AsChannel? ==>
      (r.channel in channels &&
       ((verified.Some? && verified.value.defaultChannel != 0
         && r.channel.id == verified.value.defaultChannel && r.channel.accountId == verified.value.id)
        || (r.channel.address == username && AccountById(accounts, r.channel.accountId).Some?)))
    ensures (Trim(password, Whitespace) != "+++" && (verified.None? || verified.value.defaultChannel == 0)
             && ChannelByAddress(channels, username, true).None?) ==> r == Rejected
  {
    if Trim(password, Whitespace) == "+++" then Guest
    else
      var byDefault :=
        if verified.Some? && verified.value.defaultChannel != 0
        then ChannelOfAccount(channels, verified.value.id, verified.value.defaultChannel) else None;
      if byDefault.Some? then AsChannel(byDefault.value)
      else
        var c := ChannelByAddress(channels, username, true);
        if c.None? then Rejected
        else
          var acct := AccountById(accounts, c.value.accountId);
          if acct.None? then Rejected
          else if acct.value.flags == ACCOUNT_OK
               || (acct.value.flags == ACCOUNT_UNVERIFIED && whirlpool(acct.value.salt + password) == acct.value.password)
          then AsChannel(c.value)
          else Rejected
  }

  /** A verified account with a default channel logs in as that channel. */
  lemma DefaultChannelLogin(channels: seq<Channel>, accounts: seq<Account>, username: string, password: string,
                            verified: Option<Account>, whirlpool: string -> string)
    requires Trim(password, Whitespace) != "+++"
    requires verified.Some? && verified.value.defaultChannel != 0
    requires ChannelOfAccount(channels, verified.value.id, verified.value.defaultChannel).Some?
    ensures LoginOutcome(channels, accounts, username, password, verified, whirlpool)
      == AsChannel(ChannelOfAccount(channels, verified.value.id, verified.value.defaultChannel).value)
  {
  }

  /** The by-address branch: the channel named `username`, and the account it belongs to. */
  predicate AddressBranch(channels: seq<Channel>, accounts: seq<Account>, username: string, password: string,
                          verified: Option<Account>)
  {
    Trim(password, Whitespace) != "+++"
    && (verified.None? || verified.value.defaultChannel == 0
        || ChannelOfAccount(channels, verified.value.id, verified.value.defaultChannel).None?)
    && ChannelByAddress(channels, username, true).Some?
    && AccountById(accounts, ChannelByAddress(channels, username, true).value.accountId).Some?
  }

  /**
   * `OK || UNVERIFIED && match` groups as `OK || (UNVERIFIED && match)`:
   * an ACCOUNT_OK account is accepted in the by-address branch whatever the
   * password is, without comparing the salted hash.
   */
  lemma OkAccountSkipsPassword(channels: seq<Channel>, accounts: seq<Account>, username: string, password: string,
                               verified: Option<Account>, whirlpool: string -> string)
    requires AddressBranch(channels, accounts, username, password, verified)
    requires AccountById(accounts, ChannelByAddress(channels, username, true).value.accountId).value.flags == ACCOUNT_OK
    ensures LoginOutcome(channels, accounts, username, password, verified, whirlpool)
      == AsChannel(ChannelByAddress(channels, username, true).value)
  {
  }

  /**
   * In the by-address branch an account that is not ACCOUNT_OK is accepted
   * exactly when it is ACCOUNT_UNVERIFIED and the salted whirlpool hash of the
   * password matches the stored one.
   */
  lemma AddressLoginNeedsHash(channels: seq<Channel>, accounts: seq<Account>, username: string, password: string,
                              verified: Option<Account>, whirlpool: string -> string)
    requires AddressBranch(channels, accounts, username, password, verified)
    requires AccountById(accounts, ChannelByAddress(channels, username, true).value.accountId).value.flags != ACCOUNT_OK
    ensures var acct := AccountById(accounts, ChannelByAddress(channels, username, true).value.accountId).value;
      LoginOutcome(channels, accounts, username, password, verified, whirlpool) ==
        if acct.flags == ACCOUNT_UNVERIFIED && whirlpool(acct.salt + password) == acct.password
        then AsChannel(ChannelByAddress(channels, username, true).value) else Rejected
  {
  }

  /** The login part of an auth object: `channel_name`, `channel_id`, `channel_account_id` and `observer`. */
  datatype Identity = Identity(channelName: Option<string>, channelId: nat, channelAccountId: Option<nat>, observer: string)

  /** The login part after `setAuthenticated` for channel `c`: bound as the local channel and as the observer. */
  function LoggedIn(c: Channel): Identity
  {
    Identity(Some(c.address), c.id, Some(c.accountId), c.hash)
  }

  /** The login part after `validateUserPass` decided `o`: only a login as a channel changes it. */
  function AfterLogin(o: Login, before: Identity): Identity
  {
    if o.AsChannel? then LoggedIn(o.channel) else before
  }

  /** The session after `validateUserPass` decided `o`: a login as a channel stores the three keys. */
  function SessionAfterLogin(o: Login, vars: map<string, SessionValue>): map<string, SessionValue>
  {
    if o.AsChannel? then
      vars["uid" := IntVal(o.channel.id)]["account_id" := IntVal(o.channel.accountId)]["authenticated" := BoolVal(true)]
    else vars
  }

  /** `x($_SESSION, key)`: the key is set to a truthy value. */
  predicate SessionFlag(vars: map<string, SessionValue>, key: string) {
    key in vars && match vars[key] case IntVal(n) => n != 0 case BoolVal(b) => b
  }

  /**
   * The shared auth object. `ownerHash` is the `owner_hash` property the ACL
   * plugin adds on the fly; before it is set it reads as "".
   */
  class RedBasicAuth {
    var channelName: Option<string>
    var channelId: nat
    var channelAccountId: Option<nat>
    var observer: string
    var ownerId: nat
    var ownerNick: string
    var ownerHash: string
    var timezone: string

    /** The property defaults. */
    constructor ()
      ensures channelName == None && channelId == 0 && channelAccountId == None && observer == ""
      ensures ownerId == 0 && ownerNick == "" && ownerHash == "" && timezone == ""
    {
      channelName := None;
      channelId := 0;
      channelAccountId := None;
      observer := "";
      ownerId := 0;
      ownerNick := "";
      ownerHash := "";
      timezone := "";
    }

    /** `getCurrentUser()`: the address of the locally logged-in channel, if any. */
    function GetCurrentUser(): (r: Option<string>)
      reads this
      ensures r == channelName
    {
      channelName
    }

    /** `getTimezone()`. */
    function GetTimezone(): (r: string)
      reads this
      ensures r == timezone
    {
      timezone
    }

    /** The login part of this object. */
    function Ident(): Identity
      reads this
    {
      Identity(channelName, channelId, channelAccountId, observer)
    }

    /** `setCurrentUser($name)`: later `getCurrentUser()` calls return `name`. */
    method SetCurrentUser(name: string)
      modifies this
      ensures GetCurrentUser() == Some(name)
      ensures channelId == old(channelId) && channelAccountId == old(channelAccountId) && observer == old(observer)
      ensures ownerId == old(ownerId) && ownerNick == old(ownerNick) && ownerHash == old(ownerHash) && timezone == old(timezone)
    {
      channelName := Some(name);
    }

    /** `setTimezone($tz)`: later `getTimezone()` calls return `tz`. */
    method SetTimezone(tz: string)
      modifies this
      ensures GetTimezone() == tz
      ensures channelName == old(channelName) && channelId == old(channelId) && channelAccountId == old(channelAccountId)
      ensures observer == old(observer) && ownerId == old(ownerId) && ownerNick == old(ownerNick) && ownerHash == old(ownerHash)
    {
      timezone := tz;
    }

    /**
     * `setAuthenticated($r)`: binds channel `c` as the logged-in channel and as
     * the observer, records it in the session, and succeeds.
     */
    method SetAuthenticated(c: Channel, session: Session) returns (ok: bool)
      modifies this, session
      ensures ok
      ensures Ident() == LoggedIn(c)
      ensures ownerId == old(ownerId) && ownerNick == old(ownerNick) && ownerHash == old(ownerHash) && timezone == old(timezone)
      ensures session.vars == old(session.vars)["uid" := IntVal(c.id)]["account_id" := IntVal(c.accountId)]["authenticated" := BoolVal(true)]
    {
      SetCurrentUser(c.address);
      channelId := c.id;
      observer := c.hash;
      channelAccountId := Some(c.accountId);
      session.vars := session.vars["uid" := IntVal(c.id)];
      session.vars := session.vars["account_id" := IntVal(c.accountId)];
      session.vars := session.vars["authenticated" := BoolVal(true)];
      ok := true;
    }

    /**
     * `validateUserPass($username, $password)`: succeeds unless the decision
     * is Rejected; a login as a channel binds it as `setAuthenticated` does,
     * the guest sentinel and a rejection change nothing.
     */
    method ValidateUserPass(username: string, password: string, verified: Option<Account>,
                            whirlpool: string -> string, db: Database, session: Session) returns (ok: bool)
      modifies this, session
      ensures var outcome := LoginOutcome(db.channels, db.accounts, username, password, verified, whirlpool);
        ok == !outcome.Rejected? && Ident() == AfterLogin(outcome, old(Ident()))
        && session.vars == SessionAfterLogin(outcome, old(session.vars))
      ensures ownerId == old(ownerId) && ownerNick == old(ownerNick) && ownerHash == old(ownerHash) && timezone == old(timezone)
    {
      var outcome := LoginOutcome(db.channels, db.accounts, username, password, verified, whirlpool);
      if Trim(password, Whitespace) == "+++" {
        return true;
      }
      if verified.Some? && verified.value.defaultChannel != 0 {
        var r := ChannelOfAccount(db.channels, verified.value.id, verified.value.defaultChannel);
        if r.Some? {
          ok := SetAuthenticated(r.value, session);
          return;
        }
      }
      var r := ChannelByAddress(db.channels, username, true);
      if r.Some? {
        var x := AccountById(db.accounts, r.value.accountId);
        if x.Some? {
          var record := x.value;
          if record.flags == ACCOUNT_OK
             || (record.flags == ACCOUNT_UNVERIFIED && whirlpool(record.salt + password) == record.password) {
            ok := SetAuthenticated(r.value, session);
            return;
          }
        }
      }
      ok := false;
    }
  }
}
