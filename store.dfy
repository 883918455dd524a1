/**
 * The database tables the DAV tree reads and writes, the queries it issues on
 * them, and the collaborators (permission checks, configuration, clock-free
 * storage hooks) it consults, as uninterpreted functions of an environment.
 */
module Store {
  import opened Wrappers

  /** A row of the `channel` table; `removed` is the PAGE_REMOVED page flag, `hidden` PAGE_HIDDEN. */
  datatype Channel = Channel(
    id: nat, address: string, hash: string, name: string, accountId: nat,
    allowCid: string, allowGid: string, denyCid: string, denyGid: string,
    removed: bool, hidden: bool, timezone: string)

  /**
   * A row of the `attach` table. `isDir` and `isOs` are the ATTACH_FLAG_DIR and
   * ATTACH_FLAG_OS bits; the parent directory of a row is the row whose `hash`
   * equals its `folder` ("" for the channel's root).
   */
  datatype Attach = Attach(
    id: nat, aid: nat, uid: nat, hash: string, creator: string, filename: string,
    folder: string, isDir: bool, isOs: bool, filetype: string, filesize: nat,
    revision: nat, data: string, created: nat, edited: nat,
    allowCid: string, allowGid: string, denyCid: string, denyGid: string)

  /** A row of the `account` table. */
  datatype Account = Account(
    id: nat, flags: nat, salt: string, password: string, defaultChannel: nat)

  const ACCOUNT_OK: nat := 0
  const ACCOUNT_UNVERIFIED: nat := 1

  /** A row of `abook LEFT JOIN xchan`: a contact of some channel. */
  datatype Contact = Contact(abookFlags: nat, abookChannel: nat, xchanHash: string, xchanName: string)

  /** A row of the `groups` table (privacy groups, "collections"). */
  datatype Group = Group(hash: string, name: string, deleted: bool, uid: nat)

  /** The two storage permissions the DAV tree asks `perm_is_allowed` about. */
  datatype Capability = ViewStorage | WriteStorage

  /**
   * The request's collaborators, fixed for one request:
   * - `visible(uid, row)`: the observer-dependent filter `permissions_sql(uid)`;
   * - `allowed(uid, observer, cap)`: `perm_is_allowed` / `get_all_perms`;
   * - `blockPublic`: the `system.block_public` setting;
   * - `maxFileSize`: `system.maxfilesize`, 0 when unset;
   * - `uploadLimit(channel)`: `service_class_fetch(channel, 'attach_upload_limit')`, `None` for false;
   * - `diskTotal`, `diskFree`: `disk_total_space` and `disk_free_space` of the store;
   * - `mimeType(name)`: `z_mime_content_type`;
   * - `mkdir(rows, channel, observer, name, folder)`: `attach_mkdir`'s success flag and the table after it.
   */
  datatype Env = Env(
    visible: (nat, Attach) -> bool,
    allowed: (nat, string, Capability) -> bool,
    blockPublic: bool,
    maxFileSize: nat,
    uploadLimit: nat -> Option<nat>,
    diskTotal: nat,
    diskFree: nat,
    mimeType: string -> string,
    mkdir: (seq<Attach>, Channel, string, string, string) -> (bool, seq<Attach>))

  /** The tables; `blobs` maps an attachment hash to the number of bytes stored for it. */
  class Database {
    var channels: seq<Channel>
    var attach: seq<Attach>
    var accounts: seq<Account>
    var contacts: seq<Contact>
    var groups: seq<Group>
    var blobs: map<string, nat>

    constructor (channels: seq<Channel>, attach: seq<Attach>, accounts: seq<Account>,
                 contacts: seq<Contact>, groups: seq<Group>)
      ensures this.channels == channels && this.attach == attach && this.accounts == accounts
      ensures this.contacts == contacts && this.groups == groups && this.blobs == map[]
    {
      this.channels := channels;
      this.attach := attach;
      this.accounts := accounts;
      this.contacts := contacts;
      this.groups := groups;
      this.blobs := map[];
    }
  }

  // ---------------------------------------------------------------- channels

  /**
   * `SELECT * FROM channel WHERE channel_address = a [AND NOT removed] LIMIT 1`:
   * the first such row; `withRemoved` drops the PAGE_REMOVED filter.
   */
  function ChannelByAddress(cs: seq<Channel>, address: string, withRemoved: bool): (r: Option<Channel>)
    ensures r.Some? ==> r.value in cs && r.value.address == address && (withRemoved || !r.value.removed)
    ensures r.None? <==> forall i :: 0 <= i < |cs| ==> !(cs[i].address == address && (withRemoved || !cs[i].removed))
  {
    if cs == [] then None
    else if cs[0].address == address && (withRemoved || !cs[0].removed) then Some(cs[0])
    else ChannelByAddress(cs[1..], address, withRemoved)
  }

  /** `SELECT * FROM channel WHERE channel_id = id AND NOT removed LIMIT 1`. */
  function ChannelById(cs: seq<Channel>, id: nat): (r: Option<Channel>)
    ensures r.Some? ==> r.value in cs && r.value.id == id && !r.value.removed
    ensures r.None? <==> forall i :: 0 <= i < |cs| ==> !(cs[i].id == id && !cs[i].removed)
  {
    if cs == [] then None
    else if cs[0].id == id && !cs[0].removed then Some(cs[0])
    else ChannelById(cs[1..], id)
  }

  /** `SELECT * FROM channel WHERE channel_account_id = aid AND channel_id = id LIMIT 1` (no removed filter). */
  function ChannelOfAccount(cs: seq<Channel>, aid: nat, id: nat): (r: Option<Channel>)
    ensures r.Some? ==> r.value in cs && r.value.accountId == aid && r.value.id == id
    ensures r.None? <==> forall i :: 0 <= i < |cs| ==> !(cs[i].accountId == aid && cs[i].id == id)
  {
    if cs == [] then None
    else if cs[0].accountId == aid && cs[0].id == id then Some(cs[0])
    else ChannelOfAccount(cs[1..], aid, id)
  }

  /** `SELECT * FROM account WHERE account_id = id LIMIT 1`. */
  function AccountById(accts: seq<Account>, id: nat): (r: Option<Account>)
    ensures r.Some? ==> r.value in accts && r.value.id == id
    ensures r.None? <==> forall i :: 0 <= i < |accts| ==> accts[i].id != id
  {
    if accts == [] then None
    else if accts[0].id == id then Some(accts[0])
    else AccountById(accts[1..], id)
  }

  // ---------------------------------------------------------------- attach lookups

  /**
   * The attach lookups of the path walks: rows of channel `uid` in `folder`
   * named `filename`, restricted to directories when `dirOnly`, and to rows
   * the observer may see when `filtered`.
   */
  datatype Query = Query(uid: nat, folder: string, filename: string, dirOnly: bool, filtered: bool)

  predicate Matches(env: Env, q: Query, a: Attach) {
    a.uid == q.uid && a.folder == q.folder && a.filename == q.filename
    && (!q.dirOnly || a.isDir) && (!q.filtered || env.visible(q.uid, a))
  }

  /** The row a `LIMIT 1` query returns: here the first one in table order. */
  function First(rows: seq<Attach>, env: Env, q: Query): (r: Option<Attach>)
    ensures r.Some? ==> r.value in rows && Matches(env, q, r.value)
    ensures r.None? <==> forall i :: 0 <= i < |rows| ==> !Matches(env, q, rows[i])
  {
    if rows == [] then None
    else if Matches(env, q, rows[0]) then Some(rows[0])
    else First(rows[1..], env, q)
  }

  /** Dropping the permission filter can only find more: a filtered hit is an unfiltered hit. */
  lemma {:induction false} FilteredHitIsRawHit(rows: seq<Attach>, env: Env, q: Query)
    requires q.filtered
    requires First(rows, env, q).Some?
    ensures First(rows, env, q.(filtered := false)).Some?
  {
    var a := First(rows, env, q).value;
    var i :| 0 <= i < |rows| && rows[i] == a;
    assert Matches(env, q.(filtered := false), rows[i]);
  }

  /** The rows of channel `uid` directly inside `folder` that the observer may see. */
  function VisibleChildren(rows: seq<Attach>, env: Env, uid: nat, folder: string): (r: seq<Attach>)
    ensures forall a :: a in r <==> a in rows && a.uid == uid && a.folder == folder && env.visible(uid, a)
    ensures |r| <= |rows|
  {
    if rows == [] then []
    else
      var rest := VisibleChildren(rows[1..], env, uid, folder);
      var a := rows[0];
      assert forall b :: b in rows <==> b == a || b in rows[1..];
      if a.uid == uid && a.folder == folder && env.visible(uid, a) then [a] + rest else rest
  }

  /** The filenames occurring in `rows`. */
  function Filenames(rows: seq<Attach>): set<string> {
    set a | a in rows :: a.filename
  }

  /** No two rows of `rows` share a filename. */
  predicate DistinctNames(rows: seq<Attach>) {
    forall i, j :: 0 <= i < j < |rows| ==> rows[i].filename != rows[j].filename
  }

  /**
   * `GROUP BY filename`: one row per distinct filename. Which duplicate the
   * database keeps is unspecified; the model keeps the last one in table
   * order, and no property below depends on that choice beyond "one of them".
   */
  function GroupByFilename(rows: seq<Attach>): (r: seq<Attach>)
    ensures forall a :: a in r ==> a in rows
    ensures Filenames(r) == Filenames(rows)
    ensures DistinctNames(r)
  {
    if rows == [] then []
    else
      var rest := GroupByFilename(rows[1..]);
      var a := rows[0];
      assert Filenames(rows) == {a.filename} + Filenames(rows[1..]) by {
        assert forall b :: b in rows <==> b == a || b in rows[1..];
      }
      if a.filename in Filenames(rest) then rest
      else
        var r := [a] + rest;
        assert Filenames(r) == {a.filename} + Filenames(rest) by {
          assert forall b :: b in r <==> b == a || b in rest;
        }
        ConsDistinct(a, rest);
        r
  }

  /** Putting a row in front of rows with other names keeps the names distinct. */
  lemma ConsDistinct(a: Attach, rest: seq<Attach>)
    requires DistinctNames(rest) && a.filename !in Filenames(rest)
    ensures DistinctNames([a] + rest)
  {
    var r := [a] + rest;
    forall i, j | 0 <= i < j < |r| ensures r[i].filename != r[j].filename {
      assert r[j] == rest[j - 1];
      assert rest[j - 1] in rest;
      if i > 0 {
        assert r[i] == rest[i - 1];
      }
    }
  }

  /** `ORDER BY edited DESC LIMIT 1` over the rows satisfying a query: a latest-edited one. */
  function Latest(rows: seq<Attach>): (r: Option<Attach>)
    ensures r.Some? <==> |rows| > 0
    ensures r.Some? ==> r.value in rows && forall a :: a in rows ==> a.edited <= r.value.edited
  {
    if rows == [] then None
    else
      var rest := Latest(rows[1..]);
      assert forall b :: b in rows <==> b == rows[0] || b in rows[1..];
      if rest.Some? && rest.value.edited > rows[0].edited then rest else Some(rows[0])
  }

  /** The rows of channel `uid` in `folder` named `filename` (no permission filter). */
  function Named(rows: seq<Attach>, uid: nat, folder: string, filename: string): (r: seq<Attach>)
    ensures forall a :: a in r <==> a in rows && a.uid == uid && a.folder == folder && a.filename == filename
  {
    if rows == [] then []
    else
      var rest := Named(rows[1..], uid, folder, filename);
      var a := rows[0];
      assert forall b :: b in rows <==> b == a || b in rows[1..];
      if a.uid == uid && a.folder == folder && a.filename == filename then [a] + rest else rest
  }

  /** The rows with a given hash (any channel). */
  function WithHash(rows: seq<Attach>, hash: string): (r: seq<Attach>)
    ensures forall a :: a in r <==> a in rows && a.hash == hash
  {
    if rows == [] then []
    else
      var rest := WithHash(rows[1..], hash);
      assert forall b :: b in rows <==> b == rows[0] || b in rows[1..];
      if rows[0].hash == hash then [rows[0]] + rest else rest
  }

  /** `SELECT ... FROM attach WHERE id = id AND uid = uid LIMIT 1`. */
  function RowById(rows: seq<Attach>, id: nat, uid: nat): (r: Option<Attach>)
    ensures r.Some? ==> r.value in rows && r.value.id == id && r.value.uid == uid
    ensures r.None? <==> forall i :: 0 <= i < |rows| ==> !(rows[i].id == id && rows[i].uid == uid)
  {
    if rows == [] then None
    else if rows[0].id == id && rows[0].uid == uid then Some(rows[0])
    else RowById(rows[1..], id, uid)
  }

  /** `SELECT edited FROM attach WHERE hash = h AND uid = uid LIMIT 1`. */
  function RowByHash(rows: seq<Attach>, hash: string, uid: nat): (r: Option<Attach>)
    ensures r.Some? ==> r.value in rows && r.value.hash == hash && r.value.uid == uid
    ensures r.None? <==> forall i :: 0 <= i < |rows| ==> !(rows[i].hash == hash && rows[i].uid == uid)
  {
    if rows == [] then None
    else if rows[0].hash == hash && rows[0].uid == uid then Some(rows[0])
    else RowByHash(rows[1..], hash, uid)
  }

  /** The rows of channel `uid` directly inside `folder`, with no permission filter. */
  function Children(rows: seq<Attach>, uid: nat, folder: string): (r: seq<Attach>)
    ensures forall a :: a in r <==> a in rows && a.uid == uid && a.folder == folder
  {
    if rows == [] then []
    else
      var rest := Children(rows[1..], uid, folder);
      assert forall b :: b in rows <==> b == rows[0] || b in rows[1..];
      if rows[0].uid == uid && rows[0].folder == folder then [rows[0]] + rest else rest
  }

  /** `SELECT SUM(filesize) FROM attach WHERE aid = aid`. */
  function Usage(rows: seq<Attach>, aid: nat): nat {
    if rows == [] then 0
    else (if rows[0].aid == aid then rows[0].filesize else 0) + Usage(rows[1..], aid)
  }

  /** The sum over a concatenation of tables is the sum of the sums. */
  lemma {:induction false} UsageAppend(xs: seq<Attach>, ys: seq<Attach>, aid: nat)
    ensures Usage(xs + ys, aid) == Usage(xs, aid) + Usage(ys, aid)
  {
    if xs == [] {
      assert xs + ys == ys;
    } else {
      assert (xs + ys)[1..] == xs[1..] + ys;
      UsageAppend(xs[1..], ys, aid);
    }
  }

  /** A row of account `aid` contributes at least its size to the account's usage. */
  lemma {:induction false} UsageCountsRow(rows: seq<Attach>, aid: nat, i: nat)
    requires i < |rows| && rows[i].aid == aid
    ensures Usage(rows, aid) >= rows[i].filesize
  {
    if i > 0 {
      UsageCountsRow(rows[1..], aid, i - 1);
    }
  }

  // ---------------------------------------------------------------- attach updates

  /**
   * `attach_delete(uid, hash)` on the table: the rows of channel `uid` with
   * that hash disappear and every other row stays, in order.
   */
  function DeleteRows(rows: seq<Attach>, uid: nat, hash: string): (r: seq<Attach>)
    ensures forall a :: a in r <==> a in rows && !(a.uid == uid && a.hash == hash)
    ensures |r| <= |rows|
  {
    if rows == [] then []
    else
      var rest := DeleteRows(rows[1..], uid, hash);
      assert forall b :: b in rows <==> b == rows[0] || b in rows[1..];
      if rows[0].uid == uid && rows[0].hash == hash then rest else [rows[0]] + rest
  }

  /**
   * `UPDATE attach SET filename = name WHERE hash = h AND uid = uid`: the
   * matching rows are renamed, nothing else about any row changes.
   */
  function RenameRows(rows: seq<Attach>, hash: string, uid: nat, name: string): (r: seq<Attach>)
    ensures |r| == |rows|
    ensures forall i :: 0 <= i < |r| ==> r[i].(filename := rows[i].filename) == rows[i]
    ensures forall i :: 0 <= i < |r| ==> r[i].filename == if rows[i].hash == hash && rows[i].uid == uid then name else rows[i].filename
  {
    if rows == [] then []
    else
      var a := rows[0];
      [if a.hash == hash && a.uid == uid then a.(filename := name) else a] + RenameRows(rows[1..], hash, uid, name)
  }

  /**
   * `UPDATE attach SET filesize = size, edited = t WHERE hash = h AND uid = uid`;
   * with `size` = `None` only `edited` is set.
   */
  function UpdateRows(rows: seq<Attach>, hash: string, uid: nat, size: Option<nat>, t: nat): (r: seq<Attach>)
    ensures |r| == |rows|
    ensures forall i :: 0 <= i < |r| ==> r[i].(filesize := rows[i].filesize, edited := rows[i].edited) == rows[i]
    ensures forall i :: 0 <= i < |r| && rows[i].hash == hash && rows[i].uid == uid ==>
      r[i].edited == t && r[i].filesize == size.GetOr(rows[i].filesize)
    ensures forall i :: 0 <= i < |r| && !(rows[i].hash == hash && rows[i].uid == uid) ==> r[i] == rows[i]
  {
    if rows == [] then []
    else
      var a := rows[0];
      var rest := UpdateRows(rows[1..], hash, uid, size, t);
      var r := [if a.hash == hash && a.uid == uid then a.(filesize := size.GetOr(a.filesize), edited := t) else a] + rest;
      assert forall i :: 1 <= i < |r| ==> r[i] == rest[i - 1] && rows[i] == rows[1..][i - 1];
      r
  }

  /** No row of channel `uid` carries `hash`. */
  predicate Absent(rows: seq<Attach>, uid: nat, hash: string) {
    forall i :: 0 <= i < |rows| ==> !(rows[i].uid == uid && rows[i].hash == hash)
  }

  /** Renaming and updating never touch the hash, so they keep absence and presence of a hash. */
  lemma {:induction false} UpdatesKeepHashes(rows: seq<Attach>, hash: string, uid: nat, name: string, size: Option<nat>, t: nat, h: string, u: nat)
    ensures Absent(RenameRows(rows, hash, uid, name), u, h) <==> Absent(rows, u, h)
    ensures Absent(UpdateRows(rows, hash, uid, size, t), u, h) <==> Absent(rows, u, h)
  {
    var r1 := RenameRows(rows, hash, uid, name);
    var r2 := UpdateRows(rows, hash, uid, size, t);
    assert forall i :: 0 <= i < |rows| ==> r1[i].hash == rows[i].hash && r1[i].uid == rows[i].uid by {
      forall i | 0 <= i < |rows| ensures r1[i].hash == rows[i].hash && r1[i].uid == rows[i].uid {
        assert r1[i].(filename := rows[i].filename) == rows[i];
      }
    }
    assert forall i :: 0 <= i < |rows| ==> r2[i].hash == rows[i].hash && r2[i].uid == rows[i].uid by {
      forall i | 0 <= i < |rows| ensures r2[i].hash == rows[i].hash && r2[i].uid == rows[i].uid {
        assert r2[i].(filesize := rows[i].filesize, edited := rows[i].edited) == rows[i];
      }
    }
  }

  /** After `attach_delete`, no row of that channel carries the hash. */
  lemma DeleteRemoves(rows: seq<Attach>, uid: nat, hash: string)
    ensures Absent(DeleteRows(rows, uid, hash), uid, hash)
  {
    var r := DeleteRows(rows, uid, hash);
    assert forall i :: 0 <= i < |r| ==> r[i] in r;
  }

  /** The greatest `edited` among `rows`, `None` when there are none. */
  function MaxEdited(rows: seq<Attach>): (m: Option<nat>)
    ensures m.None? <==> rows == []
    ensures m.Some? ==> (exists a :: a in rows && a.edited == m.value) && forall a :: a in rows ==> a.edited <= m.value
  {
    var l := Latest(rows);
    if l.Some? then Some(l.value.edited) else None
  }

  /** The id the auto-increment column hands to the next inserted row: above every id in use. */
  function NextId(rows: seq<Attach>): (n: nat)
    ensures forall a :: a in rows ==> a.id < n
  {
    if rows == [] then 1
    else
      var rest := NextId(rows[1..]);
      assert forall b :: b in rows <==> b == rows[0] || b in rows[1..];
      if rows[0].id < rest then rest else rows[0].id + 1
  }
}
