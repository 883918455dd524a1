/**
 * The root collection of /cloud (include/RedDAV/RedChannelsCollection.php):
 * one directory per channel the observer may view, behind the same two
 * guards as its `getChild`.
 */
module Channels {
  import opened Wrappers
  import opened PhpString
  import opened Store
  import opened Tree
  import opened BasicAuth
  import opened RedDav

  /** `getName()`. */
  const CollectionName: string := "channelsCollection"

  /** The outcome of `getChildren`: the directories, or the exception thrown. */
  datatype Collection = Dirs(dirs: seq<RedDirectory>) | Refused(error: DavError)

  /**
   * The channels `getChildren` lists, in table order: neither removed nor
   * hidden, and granting `observer` `view_storage`.
   */
  function Viewable(cs: seq<Channel>, env: Env, observer: string): (r: seq<Channel>)
    ensures |r| <= |cs|
    decreases |cs|
  {
    if cs == [] then []
    else
      var last := cs[|cs| - 1];
      Viewable(cs[..|cs| - 1], env, observer)
        + (if !last.removed && !last.hidden && env.allowed(last.id, observer, ViewStorage) then [last] else [])
  }

  /** A channel is listed exactly when it is a row of `cs` that is neither removed nor hidden and grants `view_storage`. */
  lemma {:induction false} ViewableMembers(cs: seq<Channel>, env: Env, observer: string)
    ensures forall c :: (c in Viewable(cs, env, observer)
                         <==> c in cs && !c.removed && !c.hidden && env.allowed(c.id, observer, ViewStorage))
    decreases |cs|
  {
    if cs != [] {
      var init := cs[..|cs| - 1];
      assert cs == init + [cs[|cs| - 1]];
      ViewableMembers(init, env, observer);
    }
  }

  /**
   * The guards of `getChildren` and `getChild`: Forbidden when public access
   * is blocked and there is neither a local channel nor an observer, or when
   * an owner is bound and the observer may not view its storage.
   */
  predicate Refuses(auth: RedBasicAuth, env: Env)
    reads auth
  {
    (env.blockPublic && auth.channelId == 0 && !Truthy(auth.observer))
    || (auth.ownerId != 0 && !env.allowed(auth.ownerId, auth.observer, ViewStorage))
  }

  /** Directory `d` is `new RedDirectory($address, $auth)` as constructed from the current tables. */
  predicate OpensAs(d: RedDirectory, address: string, auth: RedBasicAuth, uid: nat, rows: seq<Attach>, env: Env)
    reads d
  {
    match DirOpen(rows, env, uid, address)
    case Walked(f, os) => d.OpenedAt(auth, DefaultPath(address), f, os)
    case WalkFailed(_) => false
  }

  /** `dirs` holds, index by index, the directories of the channels `cs`. */
  predicate ListsChannels(dirs: seq<RedDirectory>, cs: seq<Channel>, auth: RedBasicAuth, uid: nat, rows: seq<Attach>, env: Env)
    reads set i | 0 <= i < |dirs| :: dirs[i]
  {
    |dirs| == |cs| && forall i :: 0 <= i < |cs| ==> OpensAs(dirs[i], cs[i].address, auth, uid, rows, env)
  }

  /**
   * The loop of `getChildren` over the channel rows `cs`: each viewable one
   * is constructed as a directory (which may throw), in order.
   */
  method OpenChannels(cs: seq<Channel>, auth: RedBasicAuth, db: Database, env: Env) returns (r: Collection)
    ensures var vs := Viewable(cs, env, auth.observer);
      (r.Dirs? && ListsChannels(r.dirs, vs, auth, auth.ownerId, db.attach, env))
      || (r.Refused? && FailsFor(vs, auth.ownerId, db.attach, env, r.error))
  {
    var ret: seq<RedDirectory> := [];
    var i := 0;
    while i < |cs|
      invariant 0 <= i <= |cs|
      invariant ListsChannels(ret, Viewable(cs[..i], env, auth.observer), auth, auth.ownerId, db.attach, env)
    {
      var failed;
      ret, failed := OpenRow(ret, cs, i, auth, db, env);
      if failed.Some? {
        return Refused(failed.value);
      }
      i := i + 1;
    }
    assert cs[..i] == cs;
    r := Dirs(ret);
  }

  /**
   * One turn of the loop of `getChildren`: row `cs[i]` is skipped when it is
   * not viewable, else its directory is appended to `ret`, or its exception
   * reported as the first failure of the listing.
   */
  method OpenRow(ret: seq<RedDirectory>, cs: seq<Channel>, i: nat, auth: RedBasicAuth, db: Database, env: Env)
    returns (next: seq<RedDirectory>, failed: Option<DavError>)
    requires i < |cs|
    requires ListsChannels(ret, Viewable(cs[..i], env, auth.observer), auth, auth.ownerId, db.attach, env)
    ensures failed.None? ==> ListsChannels(next, Viewable(cs[..i + 1], env, auth.observer), auth, auth.ownerId, db.attach, env)
    ensures failed.Some? ==> FailsFor(Viewable(cs, env, auth.observer), auth.ownerId, db.attach, env, failed.value)
  {
    ViewableSnoc(cs, i, env, auth.observer);
    var rr := cs[i];
    if !rr.removed && !rr.hidden && env.allowed(rr.id, auth.observer, ViewStorage) {
      var o := OpenDirectory(rr.address, auth, db, env);
      if o.OpenFailed? {
        ViewableFails(ret, cs, i, auth, env, auth.ownerId, db.attach, o.error);
        return ret, Some(o.error);
      }
      ListsChannelsSnoc(ret, o.dir, Viewable(cs[..i], env, auth.observer), rr, auth, auth.ownerId, db.attach, env);
      return ret + [o.dir], None;
    }
    return ret, None;
  }

  /** Extending the scanned prefix by one row extends the viewable channels by that row, if it is viewable. */
  lemma ViewableSnoc(cs: seq<Channel>, i: nat, env: Env, observer: string)
    requires i < |cs|
    ensures Viewable(cs[..i + 1], env, observer) == Viewable(cs[..i], env, observer)
      + (if !cs[i].removed && !cs[i].hidden && env.allowed(cs[i].id, observer, ViewStorage) then [cs[i]] else [])
  {
    assert cs[..i + 1][..i] == cs[..i];
  }

  /** Appending the directory of channel `c` to a listing of `cs` lists `cs + [c]`. */
  lemma ListsChannelsSnoc(dirs: seq<RedDirectory>, d: RedDirectory, cs: seq<Channel>, c: Channel,
                          auth: RedBasicAuth, uid: nat, rows: seq<Attach>, env: Env)
    requires ListsChannels(dirs, cs, auth, uid, rows, env)
    requires OpensAs(d, c.address, auth, uid, rows, env)
    ensures ListsChannels(dirs + [d], cs + [c], auth, uid, rows, env)
  {
    forall i | 0 <= i < |cs| + 1
      ensures OpensAs((dirs + [d])[i], (cs + [c])[i].address, auth, uid, rows, env)
    {
      if i < |cs| {
        assert (dirs + [d])[i] == dirs[i] && (cs + [c])[i] == cs[i];
      }
    }
  }

  /** The viewable channels of two consecutive runs of rows are those of each run, in order. */
  lemma {:induction false} ViewableAppend(xs: seq<Channel>, ys: seq<Channel>, env: Env, observer: string)
    ensures Viewable(xs + ys, env, observer) == Viewable(xs, env, observer) + Viewable(ys, env, observer)
    decreases |ys|
  {
    if ys == [] {
      assert xs + ys == xs;
    } else {
      var init := ys[..|ys| - 1];
      assert (xs + ys)[..|xs + ys| - 1] == xs + init;
      assert (xs + ys)[|xs + ys| - 1] == ys[|ys| - 1];
      ViewableAppend(xs, init, env, observer);
    }
  }

  /** The directory of every channel of `cs` can be constructed. */
  predicate AllOpen(cs: seq<Channel>, uid: nat, rows: seq<Attach>, env: Env) {
    forall j :: 0 <= j < |cs| ==> DirOpen(rows, env, uid, cs[j].address).Walked?
  }

  /** Every channel of a listing was opened, so its directory walk succeeded. */
  lemma ListedChannelsOpen(dirs: seq<RedDirectory>, cs: seq<Channel>, auth: RedBasicAuth, uid: nat, rows: seq<Attach>, env: Env)
    requires ListsChannels(dirs, cs, auth, uid, rows, env)
    ensures AllOpen(cs, uid, rows, env)
  {
    forall j | 0 <= j < |cs| ensures DirOpen(rows, env, uid, cs[j].address).Walked? {
      assert OpensAs(dirs[j], cs[j].address, auth, uid, rows, env);
    }
  }

  /** A viewable row `cs[i]` follows, among the viewable channels, exactly those of the rows before it. */
  lemma ViewablePosition(cs: seq<Channel>, i: nat, env: Env, observer: string)
    requires i < |cs| && !cs[i].removed && !cs[i].hidden && env.allowed(cs[i].id, observer, ViewStorage)
    ensures var before, vs := Viewable(cs[..i], env, observer), Viewable(cs, env, observer);
      |before| < |vs| && vs[|before|] == cs[i] && vs[..|before|] == before
  {
    var before := Viewable(cs[..i], env, observer);
    ViewableSnoc(cs, i, env, observer);
    assert cs == cs[..i + 1] + cs[i + 1..];
    ViewableAppend(cs[..i + 1], cs[i + 1..], env, observer);
    var vs := Viewable(cs, env, observer);
    assert vs == (before + [cs[i]]) + Viewable(cs[i + 1..], env, observer);
    assert vs[..|before|] == before;
  }

  /**
   * A viewable row whose directory fails, after the viewable rows before it
   * all opened, makes the whole listing fail with its error.
   */
  lemma ViewableFails(dirs: seq<RedDirectory>, cs: seq<Channel>, i: nat, auth: RedBasicAuth, env: Env,
                       uid: nat, rows: seq<Attach>, e: DavError)
    requires i < |cs| && !cs[i].removed && !cs[i].hidden && env.allowed(cs[i].id, auth.observer, ViewStorage)
    requires DirOpen(rows, env, uid, cs[i].address) == WalkFailed(e)
    requires ListsChannels(dirs, Viewable(cs[..i], env, auth.observer), auth, uid, rows, env)
    ensures FailsFor(Viewable(cs, env, auth.observer), uid, rows, env, e)
  {
    var observer := auth.observer;
    ListedChannelsOpen(dirs, Viewable(cs[..i], env, observer), auth, uid, rows, env);
    ViewablePosition(cs, i, env, observer);
    var k := |Viewable(cs[..i], env, observer)|;
    FailsForAt(Viewable(cs, env, observer), k, uid, rows, env, e);
  }

  /** The channel at `k` fails and all before it open: the listing fails with its error. */
  lemma FailsForAt(vs: seq<Channel>, k: nat, uid: nat, rows: seq<Attach>, env: Env, e: DavError)
    requires k < |vs| && DirOpen(rows, env, uid, vs[k].address) == WalkFailed(e) && AllOpen(vs[..k], uid, rows, env)
    ensures FailsFor(vs, uid, rows, env, e)
  {
  }

  /**
   * The directory of the first channel of `cs` that cannot be constructed
   * throws `e`; the directories of the channels before it all open.
   */
  predicate FailsFor(cs: seq<Channel>, uid: nat, rows: seq<Attach>, env: Env, e: DavError) {
    exists k :: 0 <= k < |cs| && DirOpen(rows, env, uid, cs[k].address) == WalkFailed(e) && AllOpen(cs[..k], uid, rows, env)
  }

  /** The channels collection, holding the shared auth object. */
  class RedChannelsCollection {
    const auth: RedBasicAuth

    constructor (auth: RedBasicAuth)
      ensures this.auth == auth
    {
      this.auth := auth;
    }

    /** `getName()`: the collection has a fixed name, whoever asks. */
    function GetName(): (n: string)
      ensures n == CollectionName && Truthy(n)
    {
      CollectionName
    }

    /**
     * `getChildren()`: refused by the guards, or every viewable channel's
     * directory in table order; a directory that cannot be constructed ends
     * the listing with its exception.
     */
    method GetChildren(db: Database, env: Env) returns (r: Collection)
      ensures if Refuses(auth, env) then r == Refused(Forbidden)
        else var vs := Viewable(db.channels, env, auth.observer);
          (r.Dirs? && ListsChannels(r.dirs, vs, auth, auth.ownerId, db.attach, env))
          || (r.Refused? && FailsFor(vs, auth.ownerId, db.attach, env, r.error))
    {
      if env.blockPublic && auth.channelId == 0 && !Truthy(auth.observer) {
        return Refused(Forbidden);
      }
      if auth.ownerId != 0 && !env.allowed(auth.ownerId, auth.observer, ViewStorage) {
        return Refused(Forbidden);
      }
      r := OpenChannels(db.channels, auth, db, env);
    }

    /**
     * `getChild($name)`: the same guards, then `new RedDirectory($name)`,
     * whose exception propagates. The final NotFound of the source cannot be
     * reached, since a constructed object is always truthy.
     */
    method GetChild(name: string, db: Database, env: Env) returns (r: Opening)
      ensures if Refuses(auth, env) then r == OpenFailed(Forbidden)
        else match DirOpen(db.attach, env, auth.ownerId, name)
          case Walked(f, os) => r.Opened? && r.dir.OpenedAt(auth, DefaultPath(name), f, os)
            && r.dir.owner == Principal(auth.ownerHash)
          case WalkFailed(e) => r == OpenFailed(e)
    {
      if env.blockPublic && auth.channelId == 0 && !Truthy(auth.observer) {
        return OpenFailed(Forbidden);
      }
      if auth.ownerId != 0 && !env.allowed(auth.ownerId, auth.observer, ViewStorage) {
        return OpenFailed(Forbidden);
      }
      r := OpenDirectory(name, auth, db, env);
    }
  }

  /** A channel address without `/` names a single segment, so its directory opens at the root folder. */
  lemma AddressOpensAtRoot(rows: seq<Attach>, env: Env, uid: nat, address: string)
    requires Truthy(address) && '/' !in address
    ensures DirOpen(rows, env, uid, address) == Walked("", "")
  {
    assert TrimLeft(address, Slash) == address;
    assert TrimRight(address, Slash) == address;
    ExplodeNoDelimiter('/', address);
  }

  /**
   * When no address holds a `/`, the listing past the guards cannot fail:
   * every viewable channel yields a directory at its root folder.
   */
  lemma ViewableChannelsOpen(cs: seq<Channel>, rows: seq<Attach>, env: Env, uid: nat, observer: string)
    requires forall c :: c in cs ==> Truthy(c.address) && '/' !in c.address
    ensures forall c :: c in Viewable(cs, env, observer) ==> DirOpen(rows, env, uid, c.address) == Walked("", "")
  {
    ViewableMembers(cs, env, observer);
    forall c | c in Viewable(cs, env, observer)
      ensures DirOpen(rows, env, uid, c.address) == Walked("", "")
    {
      AddressOpensAtRoot(rows, env, uid, c.address);
    }
  }
}
