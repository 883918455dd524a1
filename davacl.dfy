/**
 * The ACL plugin's request gate (include/RedDAV/RedDAVACL.php): before any
 * method it binds the owner of the channel named by the first path segment
 * into the shared auth object, after a `block_public` check.
 */
module DavAcl {
  import opened Wrappers
  import opened PhpString
  import opened Store
  import opened BasicAuth

  /** `$defaultUsernamePath`. */
  const DefaultUsernamePath: string := "principals/channels"

  /** The path the gate examines: for PUT the parent, since the target may not exist yet. */
  function GatePath(httpMethod: string, path: string): (p: string)
    ensures httpMethod == "PUT" && '/' in path ==> p + "/" + SplitPath(path).1 == path
    ensures httpMethod != "PUT" ==> p == path
  {
    if httpMethod == "PUT" then
      if '/' in path then SplitPathJoins(path); SplitPath(path).0 else SplitPath(path).0
    else path
  }

  /** The ACL plugin, holding the shared auth object. */
  class RedDAVACL {
    const auth: RedBasicAuth

    constructor (auth: RedBasicAuth)
      ensures this.auth == auth
    {
      this.auth := auth;
    }

    /**
     * `beforeMethod($request, $response)`. `nodeExists` is the tree's
     * `nodeExists`. Nothing happens for a path that does not exist; then
     * Forbidden when public access is blocked and there is neither a local
     * channel nor an observer; nothing more for the empty path; otherwise the
     * first segment must name a channel that is not removed (NotFound if not),
     * and its id, hash and address become the owner. The per-method switch
     * only logs.
     */
    method BeforeMethod(httpMethod: string, path: string, nodeExists: string -> bool, db: Database, env: Env)
      returns (r: Option<DavError>)
      modifies auth
      ensures var p := GatePath(httpMethod, path);
        var c := ChannelByAddress(db.channels, Explode('/', p)[0], false);
        if !nodeExists(p) then r == None && OwnerUnchanged(auth, old(auth.ownerId), old(auth.ownerHash), old(auth.ownerNick))
        else if env.blockPublic && auth.channelId == 0 && !Truthy(auth.observer) then
          r == Some(Forbidden) && OwnerUnchanged(auth, old(auth.ownerId), old(auth.ownerHash), old(auth.ownerNick))
        else if p == "" then r == None && OwnerUnchanged(auth, old(auth.ownerId), old(auth.ownerHash), old(auth.ownerNick))
        else if c.None? then r == Some(NotFound) && OwnerUnchanged(auth, old(auth.ownerId), old(auth.ownerHash), old(auth.ownerNick))
        else r == None && auth.ownerId == c.value.id && auth.ownerHash == c.value.hash
             && auth.ownerNick == Explode('/', p)[0] && c.value.address == auth.ownerNick
      ensures auth.Ident() == old(auth.Ident()) && auth.timezone == old(auth.timezone)
    {
      var p := GatePath(httpMethod, path);
      var found := nodeExists(p);
      if !found {
        return None;
      }
      if env.blockPublic && auth.channelId == 0 && !Truthy(auth.observer) {
        return Some(Forbidden);
      }
      if p == "" {
        return None;
      }
      var pathArr := Explode('/', p);
      var channelName := pathArr[0];
      var c := ChannelByAddress(db.channels, channelName, false);
      if c.None? {
        return Some(NotFound);
      }
      auth.ownerId := c.value.id;
      auth.ownerHash := c.value.hash;
      auth.ownerNick := channelName;
      r := None;
    }

    /** `getCurrentUserPrincipal()`: none without an observer, else the observer's principal URI. */
    function GetCurrentUserPrincipal(): (r: Option<string>)
      reads auth
      ensures r.None? <==> !Truthy(auth.observer)
      ensures r.Some? ==> r.value == DefaultUsernamePath + "/" + auth.observer
    {
      if !Truthy(auth.observer) then None else Some(DefaultUsernamePath + "/" + auth.observer)
    }
  }

  /** The owner fields of `a` are still `id`, `hash` and `nick`. */
  predicate OwnerUnchanged(a: RedBasicAuth, id: nat, hash: string, nick: string)
    reads a
  {
    a.ownerId == id && a.ownerHash == hash && a.ownerNick == nick
  }

  /**
   * For PUT the gate looks at the parent, but the parent names the same
   * channel as the target: the owner bound for a new file is the owner of
   * the path it is put to.
   */
  lemma PutBindsSameChannel(path: string)
    requires '/' in path
    ensures Explode('/', GatePath("PUT", path))[0] == Explode('/', path)[0]
  {
    var (parent, name) := SplitPath(path);
    SplitPathJoins(path);
    ExplodeAppend('/', parent, name);
    assert parent + "/" + name == parent + ['/'] + name;
  }
}
