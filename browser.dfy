/**
 * The browser plugin (include/RedDAV/RedBrowser.php): its own request gate,
 * which binds the owner after stripping a leading `cloud` and decides whether
 * the HTML actions panel may post; the delete action; and the attachment
 * lookups the directory index uses to find each entry's id.
 */
module Browser {
  import opened Wrappers
  import opened PhpString
  import opened Store
  import opened BasicAuth
  import opened DavAcl
  import RedDav

  /** What the gate does for a reading request, before the channel is looked up. */
  datatype GateStep =
    | Pass                 // nothing to do
    | DisablePost          // no channel named: posting is switched off
    | Bind(name: string)   // bind the channel with this address

  /** POST, GET, HEAD and OPTIONS share one branch (POST only logs first). */
  predicate IsReading(httpMethod: string) {
    httpMethod == "POST" || httpMethod == "GET" || httpMethod == "HEAD" || httpMethod == "OPTIONS"
  }

  /**
   * The part of `redBeforeMethod` that only looks at the request: a path
   * without `cloud` passes; `cloud` at the very start is cut off (its five
   * characters, whatever follows them); an empty or `/` remainder disables
   * posting; otherwise the first segment of the slash-trimmed remainder names
   * the channel.
   */
  function BrowserTarget(httpMethod: string, path: string): GateStep
  {
    if !IsReading(httpMethod) then Pass
    else
      var x := StrPos(path, "cloud");
      if x.None? then Pass
      else
        var file := if x == Some(0) then Substr(path, 5) else path;
        if !Truthy(file) || file == "/" then DisablePost
        else Bind(Explode('/', Trim(file, Slash))[0])
  }

  /**
   * The gate passes exactly the non-reading requests and the paths without
   * `cloud`; a bound name is one segment, and when `cloud` is not at the very
   * start it is the first segment of the whole slash-trimmed path.
   */
  lemma BrowserTargetShape(httpMethod: string, path: string)
    ensures var t := BrowserTarget(httpMethod, path);
      && (!IsReading(httpMethod) || StrPos(path, "cloud").None? <==> t.Pass?)
      && (t.Bind? ==> '/' !in t.name)
      && (t.Bind? && StrPos(path, "cloud") != Some(0) ==> t.name == Explode('/', Trim(path, Slash))[0])
  {
  }

  /** The browser plugin, holding the shared auth object. */
  class RedBrowser {
    const auth: RedBasicAuth
    var enablePost: bool

    /** `parent::__construct(true)`: posting starts enabled. */
    constructor (auth: RedBasicAuth)
      ensures this.auth == auth && enablePost
    {
      this.auth := auth;
      enablePost := true;
    }

    /**
     * `redBeforeMethod($request, $response)`. `nodeExists` is the tree's
     * `nodeExists` and `obHash` is `get_observer_hash()`. Nothing happens for
     * a missing node or a request the gate passes; an unknown or removed
     * channel is NotFound with nothing changed; a known one becomes the owner
     * (id and address, not hash) and posting is enabled exactly when the
     * observer may write its storage.
     */
    method RedBeforeMethod(httpMethod: string, path: string, nodeExists: string -> bool, obHash: string,
                           db: Database, env: Env)
      returns (r: Option<DavError>)
      modifies this, auth
      ensures var t := BrowserTarget(httpMethod, path);
        if !nodeExists(path) || t.Pass? then
          r == None && enablePost == old(enablePost) && OwnerUnchanged(auth, old(auth.ownerId), old(auth.ownerHash), old(auth.ownerNick))
        else if t.DisablePost? then
          r == None && !enablePost && OwnerUnchanged(auth, old(auth.ownerId), old(auth.ownerHash), old(auth.ownerNick))
        else
          var c := ChannelByAddress(db.channels, t.name, false);
          if c.None? then
            r == Some(NotFound) && enablePost == old(enablePost)
            && OwnerUnchanged(auth, old(auth.ownerId), old(auth.ownerHash), old(auth.ownerNick))
          else
            r == None && OwnerUnchanged(auth, c.value.id, old(auth.ownerHash), t.name)
            && c.value.address == t.name && !c.value.removed
            && enablePost == env.allowed(c.value.id, obHash, WriteStorage)
      ensures auth.Ident() == old(auth.Ident()) && auth.timezone == old(auth.timezone)
    {
      var found := nodeExists(path);
      var t := BrowserTarget(httpMethod, path);
      if !found || t.Pass? {
        return None;
      }
      if t.DisablePost? {
        enablePost := false;
        return None;
      }
      r := BindChannel(t.name, obHash, db, env);
    }

    /**
     * The tail of `redBeforeMethod` once a channel name is known: an unknown
     * or removed channel is NotFound with nothing changed; a known one becomes
     * the owner (id and address, not hash) and posting is enabled exactly when
     * the observer may write its storage.
     */
    method BindChannel(channelName: string, obHash: string, db: Database, env: Env) returns (r: Option<DavError>)
      modifies this, auth
      ensures var c := ChannelByAddress(db.channels, channelName, false);
        if c.None? then
          r == Some(NotFound) && enablePost == old(enablePost)
          && OwnerUnchanged(auth, old(auth.ownerId), old(auth.ownerHash), old(auth.ownerNick))
        else
          r == None && OwnerUnchanged(auth, c.value.id, old(auth.ownerHash), channelName)
          && c.value.address == channelName && !c.value.removed
          && enablePost == env.allowed(c.value.id, obHash, WriteStorage)
      ensures auth.Ident() == old(auth.Ident()) && auth.timezone == old(auth.timezone)
    {
      var c := ChannelByAddress(db.channels, channelName, false);
      if c.None? {
        return Some(NotFound);
      }
      auth.ownerId := c.value.id;
      auth.ownerNick := channelName;
      if auth.ownerId == 0 {
        enablePost := false;
      }
      enablePost := env.allowed(auth.ownerId, obHash, WriteStorage);
      r := None;
    }

    /**
     * `redPostAction($uri, $action, $postVars)`. `attachId` is
     * `intval($postVars['attachId'])`, `None` when it is not set, and `obHash`
     * the observer's hash. Only `del` does anything: it fails without an id,
     * without write permission on the owner's storage, or when the owner has
     * no row with that id; otherwise every row with the found row's hash goes,
     * with its content. Any other action succeeds and changes nothing.
     */
    method RedPostAction(action: string, attachId: Option<int>, obHash: string, db: Database, env: Env)
      returns (ok: bool)
      modifies db
      ensures var row := if attachId.Some? && attachId.value >= 0 then RowById(old(db.attach), attachId.value, auth.ownerId) else None;
        if action != "del" then ok && db.attach == old(db.attach) && db.blobs == old(db.blobs)
        else if attachId.None? || !env.allowed(auth.ownerId, obHash, WriteStorage) || row.None? then
          !ok && db.attach == old(db.attach) && db.blobs == old(db.blobs)
        else
          ok && row.value.uid == auth.ownerId && row.value.id == attachId.value
          && db.attach == DeleteRows(old(db.attach), auth.ownerId, row.value.hash)
          && Absent(db.attach, auth.ownerId, row.value.hash)
          && db.blobs == old(db.blobs) - {row.value.hash}
      ensures db.channels == old(db.channels) && db.accounts == old(db.accounts)
      ensures db.contacts == old(db.contacts) && db.groups == old(db.groups)
    {
      ok := true;
      if action == "del" {
        if attachId.None? {
          return false;
        }
        if !env.allowed(auth.ownerId, obHash, WriteStorage) {
          return false;
        }
        var row := if attachId.value >= 0 then RowById(db.attach, attachId.value, auth.ownerId) else None;
        if row.None? {
          return false;
        }
        RedDav.AttachDelete(db, auth.ownerId, row.value.hash);
        DeleteRemoves(old(db.attach), auth.ownerId, row.value.hash);
        ok := true;
      }
    }
  }

  /**
   * `findAttachHash($owner, $parentHash, $attachName)`: the hash of the most
   * recently edited row of the owner with that folder and name, `""` if none.
   */
  function FindAttachHash(rows: seq<Attach>, owner: nat, parentHash: string, name: string): (h: string)
    ensures Named(rows, owner, parentHash, name) == [] ==> h == ""
    ensures Named(rows, owner, parentHash, name) != [] ==>
      exists a :: a in rows && a.uid == owner && a.folder == parentHash && a.filename == name && a.hash == h
        && forall b :: b in rows && b.uid == owner && b.folder == parentHash && b.filename == name ==> b.edited <= a.edited
  {
    var r := Latest(Named(rows, owner, parentHash, name));
    if r.Some? then r.value.hash else ""
  }

  /**
   * `findAttachIdByHash($attachHash)`: the id of the most recently edited row
   * with that hash, in any channel; `None` stands for the `""` returned when
   * there is none.
   */
  function FindAttachIdByHash(rows: seq<Attach>, hash: string): (id: Option<nat>)
    ensures id.None? <==> forall a :: a in rows ==> a.hash != hash
    ensures id.Some? ==>
      exists a :: a in rows && a.hash == hash && a.id == id.value
        && forall b :: b in rows && b.hash == hash ==> b.edited <= a.edited
  {
    var found := WithHash(rows, hash);
    var r := Latest(found);
    if r.None? then None
    else Some(r.value.id)
  }

  /**
   * The hash chain of the directory index as a recursion: each name, after
   * `decode` (`urldecode`), is looked up under the previous step's hash.
   */
  function HashChain(rows: seq<Attach>, owner: nat, parentHash: string, names: seq<string>, decode: string -> string): string
    decreases |names|
  {
    if names == [] then parentHash
    else HashChain(rows, owner, FindAttachHash(rows, owner, parentHash, decode(names[0])), names[1..], decode)
  }

  /**
   * The loop of `generateDirectoryIndex` over `split('/', $fullPath)` from
   * index 3 (the segments after "", "cloud" and the channel address), starting
   * at the root folder `""`. With three segments or fewer the loop does not
   * run and the hash of the previous entry, `prior`, is kept.
   */
  method AttachHashChain(rows: seq<Attach>, owner: nat, splitPath: seq<string>, decode: string -> string, prior: string)
    returns (attachHash: string)
    ensures |splitPath| > 3 ==> attachHash == HashChain(rows, owner, "", splitPath[3..], decode)
    ensures |splitPath| <= 3 ==> attachHash == prior
  {
    attachHash := prior;
    var parentHash := "";
    if |splitPath| > 3 {
      var i := 3;
      while i < |splitPath|
        invariant 3 <= i <= |splitPath|
        invariant HashChain(rows, owner, parentHash, splitPath[i..], decode) == HashChain(rows, owner, "", splitPath[3..], decode)
        invariant i > 3 ==> attachHash == parentHash
      {
        var attachName := decode(splitPath[i]);
        attachHash := FindAttachHash(rows, owner, parentHash, attachName);
        assert splitPath[i..][1..] == splitPath[i + 1..];
        parentHash := attachHash;
        i := i + 1;
      }
    }
  }

  /** Every row of the owner with this folder and name carries `hash`, and there is one. */
  predicate NamesOnly(rows: seq<Attach>, owner: nat, folder: string, name: string, hash: string) {
    var named := Named(rows, owner, folder, name);
    named != [] && forall a :: a in named ==> a.hash == hash
  }

  /**
   * When each decoded name sits, unambiguously, in the folder whose hash the
   * previous step found, the chain ends at the hash of the last one: the
   * lookup follows the directory path.
   */
  lemma {:induction false} ChainFollowsFolders(rows: seq<Attach>, owner: nat, parentHash: string, names: seq<string>,
                                              decode: string -> string, hashes: seq<string>)
    requires |hashes| == |names| > 0
    requires NamesOnly(rows, owner, parentHash, decode(names[0]), hashes[0])
    requires forall k :: 0 < k < |names| ==> NamesOnly(rows, owner, hashes[k - 1], decode(names[k]), hashes[k])
    ensures HashChain(rows, owner, parentHash, names, decode) == hashes[|hashes| - 1]
    decreases |names|
  {
    var h := FindAttachHash(rows, owner, parentHash, decode(names[0]));
    var r := Latest(Named(rows, owner, parentHash, decode(names[0])));
    assert h == hashes[0];
    if |names| > 1 {
      forall k | 0 < k < |names| - 1
        ensures NamesOnly(rows, owner, hashes[1..][k - 1], decode(names[1..][k]), hashes[1..][k])
      {
        assert NamesOnly(rows, owner, hashes[k], decode(names[k + 1]), hashes[k + 1]);
      }
      assert NamesOnly(rows, owner, hashes[0], decode(names[1]), hashes[1]);
      ChainFollowsFolders(rows, owner, h, names[1..], decode, hashes[1..]);
    }
  }

  /**
   * A name that is not found yields `""`, so the next name is looked up in the
   * channel's root folder rather than failing the rest of the chain.
   */
  lemma {:induction false} ChainRestartsAtRoot(rows: seq<Attach>, owner: nat, parentHash: string, name: string,
                                              rest: seq<string>, decode: string -> string)
    requires Named(rows, owner, parentHash, decode(name)) == []
    ensures HashChain(rows, owner, parentHash, [name] + rest, decode) == HashChain(rows, owner, "", rest, decode)
  {
    assert ([name] + rest)[0] == name;
    assert ([name] + rest)[1..] == rest;
  }

  /** `/cloud/<address>` names the channel `<address>`. */
  lemma CloudAddressBinds(httpMethod: string, address: string)
    requires IsReading(httpMethod)
    requires address != "" && '/' !in address
    ensures BrowserTarget(httpMethod, "cloud/" + address) == Bind(address)
  {
    var path := "cloud/" + address;
    CloudAtStart(path);
    var file := Substr(path, 5);
    assert file == "/" + address;
    TargetAtStart(httpMethod, path);
    LeadingSlashTrim(address);
    ExplodeNoDelimiter('/', address);
  }

  /** Trimming slashes drops one leading slash from a slash-free string. */
  lemma LeadingSlashTrim(s: string)
    requires '/' !in s
    ensures Trim("/" + s, Slash) == s
  {
    assert ("/" + s)[1..] == s;
    assert TrimLeft("/" + s, Slash) == TrimLeft(s, Slash);
    SlashFreeTrim(s);
  }

  /**
   * The five characters of `cloud` are cut whatever follows them: an address
   * that merely starts with `cloud` (`/cloudy` for `y`) binds what comes
   * after the prefix.
   */
  lemma CloudPrefixBindsRest(httpMethod: string, rest: string)
    requires IsReading(httpMethod)
    requires Truthy(rest) && '/' !in rest
    ensures BrowserTarget(httpMethod, "cloud" + rest) == Bind(rest)
  {
    var path := "cloud" + rest;
    CloudAtStart(path);
    assert Substr(path, 5) == rest;
    assert rest != "/";
    TargetAtStart(httpMethod, path);
    SlashFreeTrim(rest);
    ExplodeNoDelimiter('/', rest);
  }

  /** With `cloud` at the very start, the rest of the address is what is bound. */
  lemma TargetAtStart(httpMethod: string, path: string)
    requires IsReading(httpMethod) && StrPos(path, "cloud") == Some(0)
    requires Truthy(Substr(path, 5)) && Substr(path, 5) != "/"
    ensures BrowserTarget(httpMethod, path) == Bind(Explode('/', Trim(Substr(path, 5), Slash))[0])
  {
  }

  /** A path that starts with `cloud` has it at position 0. */
  lemma CloudAtStart(path: string)
    requires |path| >= 5 && path[..5] == "cloud"
    ensures StrPos(path, "cloud") == Some(0)
  {
    assert path[0..5] == "cloud";
    assert OccursAt(path, "cloud", 0);
  }

  /** Trimming slashes leaves a slash-free string alone. */
  lemma SlashFreeTrim(s: string)
    requires '/' !in s
    ensures Trim(s, Slash) == s
  {
    assert TrimLeft(s, Slash) == s;
    assert TrimRight(s, Slash) == s;
  }
}
