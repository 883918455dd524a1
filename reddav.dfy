/**
 * The nodes of the DAV tree: the path resolver `RedFileData`
 * (include/reddav.php) and the directory node `RedDirectory`
 * (include/RedDAV/RedDirectory.php) with the ACL surface it mixes in
 * (include/RedDAV/ACLTrait.php). Each imperative operation is proved to
 * compute the pure walk of module Tree.
 */
module RedDav {
  import opened Wrappers
  import opened PhpString
  import opened Store
  import opened Tree
  import opened BasicAuth

  /** The principal URI of a channel hash. */
  function Principal(hash: string): (uri: string)
    ensures uri == "principals/channels/" + hash
  {
    "principals/channels/" + hash
  }

  /** An access control entry of WebDAV ACL (section 5.5 of RFC 3744). */
  datatype Ace = Ace(privilege: string, principal: string, protected: bool)

  /** A node of the tree: a directory object, or a file given by its name and row. */
  datatype DavNode = DirNode(dir: RedDirectory) | FileNode(name: string, row: Attach)

  /** What `RedFileData` and `getChild` hand back, or the exception they throw. */
  datatype FileData = Node(node: DavNode) | NullData | BoolData(b: bool) | Raised(error: DavError)

  /** PHP truthiness of a result: an object is truthy, `null` and `false` are not. */
  predicate Found(r: FileData) {
    r.Node? || r == BoolData(true)
  }

  /** The outcome of constructing a RedDirectory: the object, or the exception. */
  datatype Opening = Opened(dir: RedDirectory) | OpenFailed(error: DavError)

  class RedDirectory {
    const auth: RedBasicAuth
    var redPath: string
    const folderHash: string
    const osPath: string
    var owner: string

    /** Stores the values the path walk computed (see `OpenDirectory`). */
    constructor (auth: RedBasicAuth, redPath: string, folderHash: string, osPath: string, owner: string)
      ensures this.auth == auth && this.redPath == redPath && this.folderHash == folderHash
      ensures this.osPath == osPath && this.owner == owner
    {
      this.auth := auth;
      this.redPath := redPath;
      this.folderHash := folderHash;
      this.osPath := osPath;
      this.owner := owner;
    }

    /** `getName()`: the last component of the path. */
    function GetName(): (name: string)
      reads this
      ensures '/' !in name
      ensures '/' !in redPath ==> name == redPath
    {
      Basename(redPath)
    }

    /** `getOwner()` of the ACL trait: the principal recorded in `owner`. */
    function GetOwner(): (r: string)
      reads this
      ensures r == owner
    {
      owner
    }

    /** `getGroup()`: no group principal. */
    function GetGroup(): (r: Option<string>)
      ensures r.None?
    {
      None
    }

    /** `getACL()`: the owner alone holds every privilege, and the entry cannot be removed. */
    function GetAcl(): (acl: seq<Ace>)
      ensures |acl| == 1
      ensures acl[0].privilege == "{DAV:}all" && acl[0].principal == "{DAV:}owner" && acl[0].protected
    {
      [Ace("{DAV:}all", "{DAV:}owner", true)]
    }

    /** `setACL($acl)`: always refused; nothing changes, so `GetAcl()` stays the fixed entry. */
    method SetAcl(acl: seq<Ace>) returns (error: DavError)
      ensures error == Forbidden
    {
      error := Forbidden;
    }

    /** `getSupportedPrivilegeSet()`: none is advertised. */
    function GetSupportedPrivilegeSet(): (r: Option<seq<string>>)
      ensures r.None?
    {
      None
    }

    /** The node holds what constructing it for `path` computed. */
    predicate OpenedAt(a: RedBasicAuth, path: string, folder: string, os: string)
      reads this
    {
      auth == a && redPath == path && folderHash == folder && osPath == os
    }

    /**
     * `getChildren()`: Forbidden without `view_storage` on a set owner; `null`
     * for an unknown or removed channel; otherwise one node per listed row, at
     * `red_path/filename`, a directory exactly when the row is one. A child
     * directory that cannot be constructed makes the whole call throw.
     */
    method GetChildren(db: Database, env: Env) returns (r: ChildList)
      modifies this
      ensures var denied := auth.ownerId != 0 && !env.allowed(auth.ownerId, auth.observer, ViewStorage);
        var c := ChannelByAddress(db.channels, Segments(redPath)[0], false);
        if denied then r == ListingFailed(Forbidden) && owner == old(owner)
        else if c.None? then r == NoListing && owner == old(owner)
        else
          var ls := ChildListing(db.attach, env, c.value.id, folderHash);
          owner == Principal(c.value.hash)
          && ((r.Listing? && ListsAll(r.nodes, ls, redPath, auth, auth.ownerId, db.attach, env))
              || (r.ListingFailed? && FailsAt(ls, redPath, auth.ownerId, db.attach, env, r.error)))
      ensures redPath == old(redPath)
    {
      if auth.ownerId != 0 && !env.allowed(auth.ownerId, auth.observer, ViewStorage) {
        return ListingFailed(Forbidden);
      }
      var pathArr := Segments(redPath);
      var c := ChannelByAddress(db.channels, pathArr[0], false);
      if c.None? {
        return NoListing;
      }
      owner := Principal(c.value.hash);
      var ls := ChildListing(db.attach, env, c.value.id, folderHash);
      r := ListNodes(ls, redPath, auth, db, env);
    }

    /**
     * `getChild($name)`: Forbidden without `view_storage` on a set owner;
     * otherwise what `RedFileData` yields for `red_path/name`, with NotFound in
     * place of a falsy result.
     */
    method GetChild(name: string, db: Database, env: Env) returns (r: FileData)
      modifies auth
      ensures old(auth.ownerId) != 0 && !env.allowed(old(auth.ownerId), old(auth.observer), ViewStorage) ==>
        r == Raised(Forbidden) && auth.ownerId == old(auth.ownerId)
      ensures !(old(auth.ownerId) != 0 && !env.allowed(old(auth.ownerId), old(auth.observer), ViewStorage)) ==>
        var res := Resolve(db.channels, db.attach, env, redPath + "/" + name, false);
        (res == Nothing ==> r == Raised(NotFound))
        && (res != Nothing ==> Delivers(r, res, db, env, auth))
        && (r.Node? && r.node.DirNode? ==> fresh(r.node.dir))
        && (r.Node? && r.node.DirNode? ==> r.node.dir.auth == auth && r.node.dir.owner == Principal(auth.ownerHash))
        && auth.ownerId == match BoundOwner(db.channels, redPath + "/" + name) case Some(c) => c.id case None => old(auth.ownerId)
      ensures auth.observer == old(auth.observer) && auth.channelId == old(auth.channelId)
      ensures auth.ownerHash == old(auth.ownerHash) && auth.ownerNick == old(auth.ownerNick)
      ensures auth.channelName == old(auth.channelName) && auth.timezone == old(auth.timezone)
      ensures auth.channelAccountId == old(auth.channelAccountId)
    {
      if auth.ownerId != 0 && !env.allowed(auth.ownerId, auth.observer, ViewStorage) {
        return Raised(Forbidden);
      }
      var x := RedFileData(redPath + "/" + name, auth, db, env, false);
      NonTestNeverFlag(db.channels, db.attach, env, redPath + "/" + name);
      if Found(x) || x.Raised? {
        return x;
      }
      r := Raised(NotFound);
    }

    /**
     * `childExists($name)`: whether `RedFileData` in test mode is truthy for
     * `red_path/name`, which is whether it resolves to a node.
     */
    method ChildExists(name: string, db: Database, env: Env) returns (b: bool)
      modifies auth
      ensures var p := redPath + "/" + name;
        b <==> Resolve(db.channels, db.attach, env, p, true) in {Flag(true), DirAt("/")}
      ensures auth.ownerId == match BoundOwner(db.channels, redPath + "/" + name) case Some(c) => c.id case None => old(auth.ownerId)
      ensures auth.observer == old(auth.observer) && auth.channelId == old(auth.channelId)
      ensures auth.ownerHash == old(auth.ownerHash) && auth.ownerNick == old(auth.ownerNick)
      ensures auth.channelName == old(auth.channelName) && auth.timezone == old(auth.timezone)
      ensures auth.channelAccountId == old(auth.channelAccountId)
    {
      var x := RedFileData(redPath + "/" + name, auth, db, env, true);
      if x.Node? && x.node.DirNode? {
        RootOpens(db.attach, env, auth.ownerId);
      }
      b := Found(x);
    }

    /**
     * `setName($name)`: Forbidden without `write_storage`; otherwise the rows
     * with this folder's hash get the new filename (their hash stays), and
     * `red_path` becomes the parent path followed by the new name.
     */
    method SetName(name: string, db: Database, env: Env) returns (error: Option<DavError>)
      modifies this, db
      ensures !env.allowed(auth.ownerId, auth.observer, WriteStorage) ==>
        error == Some(Forbidden) && redPath == old(redPath) && db.attach == old(db.attach)
      ensures env.allowed(auth.ownerId, auth.observer, WriteStorage) ==>
        error.None?
        && db.attach == RenameRows(old(db.attach), folderHash, auth.ownerId, name)
        && redPath == SplitPath(old(redPath)).0 + "/" + name
        && ('/' !in name && name != "" ==> GetName() == name)
      ensures owner == old(owner)
      ensures db.channels == old(db.channels) && db.accounts == old(db.accounts) && db.blobs == old(db.blobs)
      ensures db.contacts == old(db.contacts) && db.groups == old(db.groups)
    {
      if !env.allowed(auth.ownerId, auth.observer, WriteStorage) {
        return Some(Forbidden);
      }
      var parent := SplitPath(redPath).0;
      var newPath := parent + "/" + name;
      db.attach := RenameRows(db.attach, folderHash, auth.ownerId, name);
      redPath := newPath;
      if '/' !in name && name != "" {
        BasenameAfterSlash(parent, name);
      }
      error := None;
    }

    /**
     * `createFile($name, $data)`. `hash` is `random_string()`, `created`,
     * `edited` and `now` are the three clock readings, and `written` is what
     * `file_put_contents` returned (`None` for false). Only a missing
     * permission or channel is reported; every other outcome returns
     * normally, and whether the file was kept is only visible in the tables.
     */
    method CreateFile(name: string, db: Database, env: Env, hash: string,
                      created: nat, edited: nat, now: nat, written: Option<nat>) returns (error: Option<DavError>)
      modifies db
      ensures var c := ChannelById(old(db.channels), auth.ownerId);
        (!env.allowed(auth.ownerId, auth.observer, WriteStorage) || c.None?) ==>
          error == Some(Forbidden) && db.attach == old(db.attach) && db.blobs == old(db.blobs)
      ensures var c := ChannelById(old(db.channels), auth.ownerId);
        env.allowed(auth.ownerId, auth.observer, WriteStorage) && c.Some? ==>
          error.None?
          && (db.attach, db.blobs) == AfterCreate(old(db.attach), old(db.blobs), c.value, env,
               NewFileRow(c.value, auth.observer, name, folderHash, osPath, env.mimeType(name), hash,
                          created, edited, NextId(old(db.attach))),
               folderHash, now, written)
      ensures db.channels == old(db.channels) && db.accounts == old(db.accounts)
      ensures db.contacts == old(db.contacts) && db.groups == old(db.groups)
    {
      if !env.allowed(auth.ownerId, auth.observer, WriteStorage) {
        return Some(Forbidden);
      }
      var mimetype := env.mimeType(name);
      var c := ChannelById(db.channels, auth.ownerId);
      if c.None? {
        return Some(Forbidden);
      }
      ghost var rows0, blobs0 := db.attach, db.blobs;
      var row := NewFileRow(c.value, auth.observer, name, folderHash, osPath, mimetype, hash, created, edited, NextId(db.attach));
      db.attach := db.attach + [row];
      var f := StoragePath(auth.ownerNick, osPath, hash);
      if written.None? {
        AttachDelete(db, c.value.id, hash);
        return None;
      }
      var size := written.value;
      db.blobs := db.blobs[hash := size];
      db.attach := UpdateRows(db.attach, hash, c.value.id, Some(size), now);
      db.attach := UpdateRows(db.attach, folderHash, c.value.id, None, now);
      assert db.attach == Uploaded(c.value.id, rows0 + [row], hash, folderHash, now, size);
      assert blobs0[hash := size] - {hash} == blobs0 - {hash};
      if env.maxFileSize != 0 && size > env.maxFileSize {
        AttachDelete(db, c.value.id, hash);
        return None;
      }
      var limit := env.uploadLimit(c.value.id);
      if limit.Some? {
        var total := Usage(db.attach, c.value.accountId);
        if total + size > limit.value {
          AttachDelete(db, c.value.id, hash);
          return None;
        }
      }
      error := None;
    }

    /**
     * `createDirectory($name)`: Forbidden when no owner is set or without
     * `write_storage`; otherwise `attach_mkdir` runs for a non-removed owner
     * channel, and its failure is not reported.
     */
    method CreateDirectory(name: string, db: Database, env: Env) returns (error: Option<DavError>)
      modifies db
      ensures auth.ownerId == 0 || !env.allowed(auth.ownerId, auth.observer, WriteStorage) ==>
        error == Some(Forbidden) && db.attach == old(db.attach)
      ensures auth.ownerId != 0 && env.allowed(auth.ownerId, auth.observer, WriteStorage) ==>
        error.None?
        && var c := ChannelById(old(db.channels), auth.ownerId);
        db.attach == if c.Some? then env.mkdir(old(db.attach), c.value, auth.observer, name, folderHash).1 else old(db.attach)
      ensures db.channels == old(db.channels) && db.accounts == old(db.accounts) && db.blobs == old(db.blobs)
      ensures db.contacts == old(db.contacts) && db.groups == old(db.groups)
    {
      if auth.ownerId == 0 || !env.allowed(auth.ownerId, auth.observer, WriteStorage) {
        return Some(Forbidden);
      }
      var r := ChannelById(db.channels, auth.ownerId);
      if r.Some? {
        var result := env.mkdir(db.attach, r.value, auth.observer, name, folderHash);
        db.attach := result.1;
      }
      error := None;
    }

    /**
     * `getLastModified()`: the latest `edited` among the folder's rows (no
     * permission filter); for an empty folder the folder row's own `edited`;
     * `None` (PHP's '') when there is neither.
     */
    function GetLastModified(db: Database): (r: Option<nat>)
      reads this, auth, db
      ensures var kids := Children(db.attach, auth.ownerId, folderHash);
        (kids != [] ==> r.Some? && (exists a :: a in kids && a.edited == r.value)
                        && forall a :: a in kids ==> a.edited <= r.value)
        && (kids == [] ==> r == (var own := RowByHash(db.attach, folderHash, auth.ownerId);
                                 if own.Some? then Some(own.value.edited) else None))
    {
      var m := MaxEdited(Children(db.attach, auth.ownerId, folderHash));
      if m.Some? then m
      else
        var own := RowByHash(db.attach, folderHash, auth.ownerId);
        if own.Some? then Some(own.value.edited) else None
    }

    /**
     * `getQuotaInfo()`: `(used, free)`. Without an owner these are the store's
     * disk figures; with one, `used` is the account's total upload size and
     * `used + free` is the service-class limit (the disk size when no limit is
     * set).
     */
    function GetQuotaInfo(db: Database, env: Env): (r: (int, int))
      reads this, auth, db
      ensures auth.ownerId == 0 ==> r == (env.diskTotal - env.diskFree, env.diskFree)
      ensures auth.ownerId != 0 ==>
        var c := ChannelById(db.channels, auth.ownerId);
        var aid := if c.Some? then c.value.accountId else 0;
        var ulimit := env.uploadLimit(if c.Some? then c.value.id else 0);
        r.0 == Usage(db.attach, aid)
        && r.0 + r.1 == (if ulimit.Some? && ulimit.value != 0 then ulimit.value else env.diskTotal)
    {
      if auth.ownerId == 0 then (env.diskTotal - env.diskFree, env.diskFree)
      else
        var c := ChannelById(db.channels, auth.ownerId);
        var cid := if c.Some? then c.value.id else 0;
        var aid := if c.Some? then c.value.accountId else 0;
        var ulimit := env.uploadLimit(cid);
        var limit: int := if ulimit.Some? && ulimit.value != 0 then ulimit.value else env.diskTotal;
        var free := limit - Usage(db.attach, aid);
        (limit - free, free)
    }
  }

  /** The listing of `getChildren`, nothing, or the exception. */
  datatype ChildList = Listing(nodes: seq<DavNode>) | NoListing | ListingFailed(error: DavError)

  /**
   * Node `n` is what `getChildren` builds under `parent` for row `row`, when
   * directories are constructed with `auth`, whose owner is `uid`.
   */
  predicate ListedAs(n: DavNode, row: Attach, parent: string, auth: RedBasicAuth, uid: nat, rows: seq<Attach>, env: Env)
    reads if n.DirNode? then {n.dir} else {}
  {
    var path := parent + "/" + row.filename;
    if row.isDir then
      n.DirNode? && n.dir.auth == auth &&
      match DirOpen(rows, env, uid, path)
      case Walked(f, os) => n.dir.redPath == DefaultPath(path) && n.dir.folderHash == f && n.dir.osPath == os
      case WalkFailed(_) => false
    else n == FileNode(path, row)
  }

  /** Each of `nodes` is what `getChildren` builds for the row of `ls` at the same index. */
  predicate ListsAll(nodes: seq<DavNode>, ls: seq<Attach>, parent: string, auth: RedBasicAuth, uid: nat,
                     rows: seq<Attach>, env: Env)
    reads set i | 0 <= i < |nodes| && nodes[i].DirNode? :: nodes[i].dir
  {
    |nodes| == |ls| && forall i :: 0 <= i < |ls| ==> ListedAs(nodes[i], ls[i], parent, auth, uid, rows, env)
  }

  /**
   * The first directory row of `ls` that cannot be constructed throws `e`:
   * every directory row before it opens.
   */
  predicate FailsAt(ls: seq<Attach>, parent: string, uid: nat, rows: seq<Attach>, env: Env, e: DavError) {
    exists i :: 0 <= i < |ls| && ls[i].isDir && DirOpen(rows, env, uid, parent + "/" + ls[i].filename) == WalkFailed(e)
      && forall j :: 0 <= j < i && ls[j].isDir ==> DirOpen(rows, env, uid, parent + "/" + ls[j].filename).Walked?
  }

  /**
   * The loop of `getChildren` over the listed rows `ls` of the folder at
   * `parent`: a directory row is constructed (which may throw), a file row
   * becomes a file node. Either every row yields its node, or the first
   * directory that cannot be constructed ends the listing with its error.
   */
  method ListNodes(ls: seq<Attach>, parent: string, auth: RedBasicAuth, db: Database, env: Env) returns (r: ChildList)
    ensures r.Listing? || r.ListingFailed?
    ensures r.Listing? ==> ListsAll(r.nodes, ls, parent, auth, auth.ownerId, db.attach, env)
    ensures r.ListingFailed? ==> FailsAt(ls, parent, auth.ownerId, db.attach, env, r.error)
  {
    var nodes: seq<DavNode> := [];
    var i := 0;
    while i < |ls|
      invariant 0 <= i <= |ls|
      invariant ListsAll(nodes, ls[..i], parent, auth, auth.ownerId, db.attach, env)
    {
      var rr := ls[i];
      var path := parent + "/" + rr.filename;
      var n: DavNode;
      if rr.isDir {
        var o := OpenDirectory(path, auth, db, env);
        if o.OpenFailed? {
          RowFails(nodes, ls, i, parent, auth, auth.ownerId, db.attach, env, o.error);
          return ListingFailed(o.error);
        }
        n := DirNode(o.dir);
      } else {
        n := FileNode(path, rr);
      }
      ListsAllSnoc(nodes, n, ls, i, parent, auth, auth.ownerId, db.attach, env);
      nodes := nodes + [n];
      i := i + 1;
    }
    assert ls[..i] == ls;
    r := Listing(nodes);
  }

  /** Appending the node of row `ls[i]` to a listing of `ls[..i]` lists `ls[..i + 1]`. */
  lemma ListsAllSnoc(nodes: seq<DavNode>, n: DavNode, ls: seq<Attach>, i: nat, parent: string, auth: RedBasicAuth,
                     uid: nat, rows: seq<Attach>, env: Env)
    requires i < |ls|
    requires ListsAll(nodes, ls[..i], parent, auth, uid, rows, env)
    requires ListedAs(n, ls[i], parent, auth, uid, rows, env)
    ensures ListsAll(nodes + [n], ls[..i + 1], parent, auth, uid, rows, env)
  {
    forall j | 0 <= j < i + 1
      ensures ListedAs((nodes + [n])[j], ls[..i + 1][j], parent, auth, uid, rows, env)
    {
      if j < i {
        assert (nodes + [n])[j] == nodes[j] && ls[..i + 1][j] == ls[..i][j];
      }
    }
  }

  /**
   * A directory row whose directory fails, after the rows before it were all
   * listed, makes the whole listing fail with its error.
   */
  lemma RowFails(nodes: seq<DavNode>, ls: seq<Attach>, i: nat, parent: string, auth: RedBasicAuth,
                 uid: nat, rows: seq<Attach>, env: Env, e: DavError)
    requires i < |ls| && ls[i].isDir
    requires ListsAll(nodes, ls[..i], parent, auth, uid, rows, env)
    requires DirOpen(rows, env, uid, parent + "/" + ls[i].filename) == WalkFailed(e)
    ensures FailsAt(ls, parent, uid, rows, env, e)
  {
    forall j | 0 <= j < i && ls[j].isDir
      ensures DirOpen(rows, env, uid, parent + "/" + ls[j].filename).Walked?
    {
      assert ls[..i][j] == ls[j];
      assert ListedAs(nodes[j], ls[..i][j], parent, auth, uid, rows, env);
    }
  }

  /**
   * `r` is what `RedFileData` returns (or throws) when its walk yields `res`:
   * a directory is constructed with the bound owner, and owned by its
   * principal, which may itself throw.
   */
  predicate Delivers(r: FileData, res: Resolution, db: Database, env: Env, auth: RedBasicAuth)
    reads auth, db, if r.Node? && r.node.DirNode? then {r.node.dir} else {}
  {
    match res
    case DirAt(p) =>
      (match DirOpen(db.attach, env, auth.ownerId, p)
       case Walked(f, os) =>
         r.Node? && r.node.DirNode? && r.node.dir.OpenedAt(auth, DefaultPath(p), f, os)
         && r.node.dir.owner == Principal(auth.ownerHash)
       case WalkFailed(e) => r == Raised(e))
    case FileAt(name, row) => r == Node(FileNode(name, row))
    case Flag(b) => r == BoolData(b)
    case Nothing => r == NullData
    case Denied => r == Raised(Forbidden)
  }

  /**
   * `new RedDirectory($extPath, $auth)`: walks the path from segment 1 under
   * `owner_id` and either throws or yields a node with the folder and on-disk
   * path the walk reached, owned by `principals/channels/<owner_hash>`.
   */
  method OpenDirectory(extPath: string, auth: RedBasicAuth, db: Database, env: Env) returns (r: Opening)
    ensures match DirOpen(db.attach, env, auth.ownerId, extPath)
      case Walked(f, os) =>
        r.Opened? && fresh(r.dir) && r.dir.OpenedAt(auth, DefaultPath(extPath), f, os)
        && r.dir.owner == Principal(auth.ownerHash)
      case WalkFailed(e) => r == OpenFailed(e)
  {
    var redPath := DefaultPath(extPath);
    var owner := Principal(auth.ownerHash);
    var pathArr := Segments(redPath);
    var folder := "";
    var os := "";
    var x := 1;
    ghost var goal := DirOpen(db.attach, env, auth.ownerId, extPath);
    while x < |pathArr|
      invariant 1 <= x <= |pathArr|
      invariant DirWalk(db.attach, env, auth.ownerId, folder, os, pathArr[x..]) == goal
    {
      DirWalkStep(db.attach, env, auth.ownerId, folder, os, pathArr[x..]);
      assert pathArr[x..][0] == pathArr[x] && pathArr[x..][1..] == pathArr[x + 1..];
      var q := First(db.attach, env, DirQuery(auth.ownerId, folder, pathArr[x]));
      if q.None? {
        q := First(db.attach, env, Query(auth.ownerId, folder, Basename(pathArr[x]), true, false));
        if q.Some? {
          return OpenFailed(Forbidden);
        }
        return OpenFailed(NotFound);
      }
      folder := q.value.hash;
      if |os| > 0 {
        os := os + "/";
      }
      os := os + folder;
      x := x + 1;
    }
    assert pathArr[x..] == [];
    var d := new RedDirectory(auth, redPath, folder, os, owner);
    r := Opened(d);
  }

  /**
   * The loop of `RedFileData` over the segments after the channel address:
   * each step looks for a visible directory, then for the leaf, and records
   * errors as `Step` does.
   */
  method WalkPath(rows: seq<Attach>, env: Env, channelId: nat, leaf: string, channelName: string, pathArr: seq<string>)
    returns (st: WalkState)
    requires |pathArr| >= 1
    ensures st == Walk(rows, env, channelId, leaf, Start(channelName), pathArr[1..])
  {
    var path := "/" + channelName;
    var permissionError := false;
    var folder := "";
    var errors := false;
    var row: Option<Attach> := None;
    var x := 1;
    while x < |pathArr|
      invariant 1 <= x <= |pathArr|
      invariant Walk(rows, env, channelId, leaf, WalkState(folder, path, row, errors, permissionError), pathArr[x..])
        == Walk(rows, env, channelId, leaf, Start(channelName), pathArr[1..])
    {
      assert pathArr[x..][1..] == pathArr[x + 1..];
      row := First(rows, env, DirQuery(channelId, folder, pathArr[x]));
      if row.Some? {
        folder := row.value.hash;
        path := path + "/" + row.value.filename;
      }
      if row.None? {
        row := First(rows, env, LeafQuery(channelId, folder, leaf));
      }
      if row.None? {
        errors := true;
        row := First(rows, env, RawLeafQuery(channelId, folder, leaf));
        if row.Some? {
          permissionError := true;
        }
      }
      x := x + 1;
    }
    assert pathArr[x..] == [];
    st := WalkState(folder, path, row, errors, permissionError);
  }

  /**
   * `RedFileData($file, $auth, $test)`: binds the channel named by the first
   * segment as the owner before walking, then yields what `Resolve` says.
   */
  method RedFileData(file: string, auth: RedBasicAuth, db: Database, env: Env, test: bool) returns (r: FileData)
    modifies auth
    ensures auth.ownerId == match BoundOwner(db.channels, file) case Some(c) => c.id case None => old(auth.ownerId)
    ensures auth.observer == old(auth.observer) && auth.channelId == old(auth.channelId)
    ensures auth.ownerHash == old(auth.ownerHash) && auth.ownerNick == old(auth.ownerNick)
    ensures auth.channelName == old(auth.channelName) && auth.timezone == old(auth.timezone)
    ensures auth.channelAccountId == old(auth.channelAccountId)
    ensures Delivers(r, Resolve(db.channels, db.attach, env, file, test), db, env, auth)
    ensures r.Node? && r.node.DirNode? ==> fresh(r.node.dir)
  {
    if !Truthy(file) || file == "/" {
      var o := OpenDirectory("/", auth, db, env);
      RootOpens(db.attach, env, auth.ownerId);
      return Node(DirNode(o.dir));
    }
    var t := Trim(file, Slash);
    var pathArr := Explode('/', t);
    var channelName := pathArr[0];
    var c := ChannelByAddress(db.channels, channelName, true);
    if c.None? {
      return NullData;
    }
    var channelId := c.value.id;
    auth.ownerId := channelId;
    var st := WalkPath(db.attach, env, channelId, Basename(t), channelName, pathArr);
    r := ConcludeFileData(st, t, auth, db, env, test);
  }

  /** The result cases of `RedFileData` after the walk, by `Conclude`. */
  method ConcludeFileData(st: WalkState, t: string, auth: RedBasicAuth, db: Database, env: Env, test: bool)
    returns (r: FileData)
    ensures Delivers(r, Conclude(st, t, test), db, env, auth)
    ensures r.Node? && r.node.DirNode? ==> fresh(r.node.dir)
  {
    var path, row, errors, permissionError := st.path, st.row, st.errors, st.permissionError;
    if path == "/" + t {
      if test {
        return BoolData(true);
      }
      var o := OpenDirectory("/" + t, auth, db, env);
      return if o.Opened? then Node(DirNode(o.dir)) else Raised(o.error);
    }
    if errors {
      if test {
        return BoolData(false);
      }
      if permissionError {
        return Raised(Forbidden);
      }
      return NullData;
    }
    if row.Some? {
      if test {
        return BoolData(true);
      }
      if row.value.isDir {
        var o := OpenDirectory(path + "/" + row.value.filename, auth, db, env);
        return if o.Opened? then Node(DirNode(o.dir)) else Raised(o.error);
      }
      return Node(FileNode(row.value.filename, row.value));
    }
    r := BoolData(false);
  }


  function NewFileRow(c: Channel, observer: string, name: string, folder: string, osPath: string, mime: string,
                      hash: string, created: nat, edited: nat, id: nat): (row: Attach)
    ensures row.uid == c.id && row.aid == c.accountId && row.hash == hash && row.filename == name
    ensures row.folder == folder && row.isOs && !row.isDir && row.filesize == 0 && row.revision == 0
    ensures row.creator == observer && row.data == osPath + "/" + hash && row.filetype == mime
    ensures row.allowCid == c.allowCid && row.allowGid == c.allowGid && row.denyCid == c.denyCid && row.denyGid == c.denyGid
  {
    Attach(id, c.accountId, c.id, hash, observer, name, folder, false, true, mime,
           0, 0, osPath + "/" + hash, created, edited, c.allowCid, c.allowGid, c.denyCid, c.denyGid)
  }

  /**
   * The tables after `createFile` once the row is built: inserted, then
   * deleted again if the write failed; otherwise sized and timestamped (and
   * the folder timestamped), then deleted again unless `Kept`.
   */
  function AfterCreate(rows: seq<Attach>, blobs: map<string, nat>, c: Channel, env: Env, row: Attach,
                       folder: string, now: nat, written: Option<nat>): (seq<Attach>, map<string, nat>)
  {
    var inserted := rows + [row];
    if written.None? then (DeleteRows(inserted, c.id, row.hash), blobs - {row.hash})
    else
      var up := Uploaded(c.id, inserted, row.hash, folder, now, written.value);
      if Kept(c, env, inserted, row.hash, folder, now, written) then (up, blobs[row.hash := written.value])
      else (DeleteRows(up, c.id, row.hash), blobs - {row.hash})
  }

  /**
   * After `createFile`, the new row and its stored content are present
   * exactly when the file was kept: a failed write, an oversized file and an
   * exceeded quota all leave neither behind.
   */
  lemma CreatedIffKept(rows: seq<Attach>, blobs: map<string, nat>, c: Channel, env: Env, row: Attach,
                       folder: string, now: nat, written: Option<nat>)
    requires row.uid == c.id
    ensures var after := AfterCreate(rows, blobs, c, env, row, folder, now, written);
      var kept := Kept(c, env, rows + [row], row.hash, folder, now, written);
      (Absent(after.0, c.id, row.hash) <==> !kept) && (row.hash in after.1 <==> kept)
  {
    var inserted := rows + [row];
    if written.None? {
      DeleteRemoves(inserted, c.id, row.hash);
    } else {
      var up := Uploaded(c.id, inserted, row.hash, folder, now, written.value);
      UploadedKeepsRow(c.id, inserted, row.hash, folder, now, written.value);
      DeleteRemoves(up, c.id, row.hash);
    }
  }

  /**
   * The quota check counts the new file twice: the account total it adds the
   * size to already holds the updated row. So a file larger than half the
   * upload limit is never kept, even for an account that stores nothing else.
   */
  lemma QuotaCountsNewFileTwice(rows: seq<Attach>, c: Channel, env: Env, row: Attach,
                                folder: string, now: nat, size: nat)
    requires row.uid == c.id && row.aid == c.accountId
    requires env.uploadLimit(c.id).Some? && 2 * size > env.uploadLimit(c.id).value
    ensures !Kept(c, env, rows + [row], row.hash, folder, now, Some(size))
  {
    var inserted := rows + [row];
    var u1 := UpdateRows(inserted, row.hash, c.id, Some(size), now);
    var up := UpdateRows(u1, folder, c.id, None, now);
    var k := |inserted| - 1;
    assert inserted[k] == row;
    assert u1[k].filesize == size && u1[k].aid == row.aid by {
      assert u1[k].(filesize := inserted[k].filesize, edited := inserted[k].edited) == inserted[k];
    }
    assert up[k].filesize == size && up[k].aid == row.aid by {
      assert up[k].(filesize := u1[k].filesize, edited := u1[k].edited) == u1[k];
      if u1[k].hash == folder && u1[k].uid == c.id {
        assert up[k].filesize == None.GetOr(u1[k].filesize);
      }
    }
    UsageCountsRow(up, c.accountId, k);
  }

  /** The table after a successful write: the new row's size and time, then the folder row's time. */
  function Uploaded(uid: nat, inserted: seq<Attach>, hash: string, folder: string, now: nat, size: nat): seq<Attach> {
    UpdateRows(UpdateRows(inserted, hash, uid, Some(size), now), folder, uid, None, now)
  }

  /** The uploaded row survives both updates, and still counts towards its account's usage with the written size. */
  lemma UploadedKeepsRow(uid: nat, inserted: seq<Attach>, hash: string, folder: string, now: nat, size: nat)
    requires |inserted| > 0 && inserted[|inserted| - 1].uid == uid && inserted[|inserted| - 1].hash == hash
    ensures !Absent(Uploaded(uid, inserted, hash, folder, now, size), uid, hash)
  {
    var u1 := UpdateRows(inserted, hash, uid, Some(size), now);
    UpdatesKeepHashes(inserted, hash, uid, "", Some(size), now, hash, uid);
    UpdatesKeepHashes(u1, folder, uid, "", None, now, hash, uid);
  }

  /**
   * Whether `createFile` keeps the file: the write succeeded, the size is
   * within `maxfilesize` (when set), and the account total, which already
   * includes the new row, plus the size is within the upload limit (when set).
   */
  predicate Kept(c: Channel, env: Env, inserted: seq<Attach>, hash: string, folder: string, now: nat, written: Option<nat>) {
    written.Some?
    && !(env.maxFileSize != 0 && written.value > env.maxFileSize)
    && !(env.uploadLimit(c.id).Some?
         && Usage(Uploaded(c.id, inserted, hash, folder, now, written.value), c.accountId) + written.value
            > env.uploadLimit(c.id).value)
  }

  /** The file `createFile` writes to: `store/<nick>/[<os_path>/]<hash>`. */
  function StoragePath(nick: string, osPath: string, hash: string): (f: string)
    ensures osPath == "" ==> f == "store/" + nick + "/" + hash
    ensures osPath != "" ==> f == "store/" + nick + "/" + osPath + "/" + hash
  {
    "store/" + nick + "/" + (if |osPath| > 0 then osPath + "/" else "") + hash
  }

  /** `attach_delete($uid, $hash)`: the rows with that hash go, and so does the stored content. */
  method AttachDelete(db: Database, uid: nat, hash: string)
    modifies db
    ensures db.attach == DeleteRows(old(db.attach), uid, hash) && db.blobs == old(db.blobs) - {hash}
    ensures db.channels == old(db.channels) && db.accounts == old(db.accounts)
    ensures db.contacts == old(db.contacts) && db.groups == old(db.groups)
  {
    db.attach := DeleteRows(db.attach, uid, hash);
    db.blobs := db.blobs - {hash};
  }

  /** After `/` a name without slashes is the basename. */
  lemma BasenameAfterSlash(parent: string, name: string)
    requires '/' !in name && name != ""
    ensures Basename(parent + "/" + name) == name
  {
    var s := parent + "/" + name;
    assert s[|parent|] == '/';
    assert s[|s| - 1] == name[|name| - 1];
    assert TrimRight(s, Slash) == s;
    ExplodeAppend('/', parent, name);
    ExplodeNoDelimiter('/', name);
  }
}
