/**
 * The two path walks of the DAV tree as pure functions over the tables:
 * the resolver `RedFileData` (include/reddav.php) and the directory
 * constructor's walk (include/RedDAV/RedDirectory.php). The imperative
 * versions in module RedDav are proved to compute these.
 */
module Tree {
  import opened Wrappers
  import opened PhpString
  import opened Store

  /** `explode('/', trim($file, '/'))`. */
  function Segments(file: string): (segs: seq<string>)
    ensures |segs| >= 1
    ensures forall i :: 0 <= i < |segs| ==> '/' !in segs[i]
  {
    Explode('/', Trim(file, Slash))
  }

  /** Some row of `rows` answers query `q`. */
  predicate Has(rows: seq<Attach>, env: Env, q: Query) {
    exists i :: 0 <= i < |rows| && Matches(env, q, rows[i])
  }

  // ---------------------------------------------------------------- RedFileData

  /** The loop variables of `RedFileData`: `$folder`, `$path`, `$r`, `$errors`, `$permission_error`. */
  datatype WalkState = WalkState(folder: string, path: string, row: Option<Attach>, errors: bool, permissionError: bool)

  /** The visible-directory query of one step. */
  function DirQuery(uid: nat, folder: string, seg: string): Query { Query(uid, folder, seg, true, true) }

  /** The fallback query of one step: a visible row of any kind named by the last component. */
  function LeafQuery(uid: nat, folder: string, leaf: string): Query { Query(uid, folder, leaf, false, true) }

  /** The same lookup without the permission filter. */
  function RawLeafQuery(uid: nat, folder: string, leaf: string): Query { Query(uid, folder, leaf, false, false) }

  /**
   * One iteration of the resolver's loop for segment `seg`; `leaf` is
   * `basename($file)`. A visible directory named `seg` advances the folder
   * and the path; otherwise a visible row of any kind named `leaf` becomes
   * the result; otherwise the walk is in error, and it is a permission error
   * if a row named `leaf` exists that the observer may not see.
   */
  function Step(rows: seq<Attach>, env: Env, uid: nat, leaf: string, st: WalkState, seg: string): WalkState
  {
    var dir := First(rows, env, DirQuery(uid, st.folder, seg));
    if dir.Some? then
      WalkState(dir.value.hash, st.path + "/" + dir.value.filename, dir, st.errors, st.permissionError)
    else
      var any := First(rows, env, LeafQuery(uid, st.folder, leaf));
      if any.Some? then st.(row := any)
      else
        var raw := First(rows, env, RawLeafQuery(uid, st.folder, leaf));
        st.(row := raw, errors := true, permissionError := st.permissionError || raw.Some?)
  }

  /**
   * What one step does: a visible directory named `seg` advances the folder
   * and the path to that directory's row; otherwise a visible leaf becomes
   * the row and leaves the flags alone; otherwise the walk is in error, a
   * permission error exactly when the leaf exists without the filter.
   */
  lemma StepFacts(rows: seq<Attach>, env: Env, uid: nat, leaf: string, st: WalkState, seg: string)
    ensures var next := Step(rows, env, uid, leaf, st, seg);
      (Has(rows, env, DirQuery(uid, st.folder, seg)) ==>
        next.path == st.path + "/" + seg && next.errors == st.errors && next.permissionError == st.permissionError
        && next.row.Some? && next.row.value.isDir && next.row.value.hash == next.folder
        && next.row.value in rows && Matches(env, DirQuery(uid, st.folder, seg), next.row.value))
      && (!Has(rows, env, DirQuery(uid, st.folder, seg)) ==> next.folder == st.folder && next.path == st.path)
      && (!Has(rows, env, DirQuery(uid, st.folder, seg)) && Has(rows, env, LeafQuery(uid, st.folder, leaf)) ==>
        next.errors == st.errors && next.permissionError == st.permissionError
        && next.row.Some? && next.row.value in rows && Matches(env, LeafQuery(uid, st.folder, leaf), next.row.value))
      && (!Has(rows, env, DirQuery(uid, st.folder, seg)) && !Has(rows, env, LeafQuery(uid, st.folder, leaf)) ==>
        next.errors && (next.permissionError <==> st.permissionError || Has(rows, env, RawLeafQuery(uid, st.folder, leaf))))
      && (next.errors ==> next.row.Some? || !Has(rows, env, RawLeafQuery(uid, st.folder, leaf)) || st.errors)
  {
  }

  /** A step onto a visible directory named `seg` appends it to the path and moves into it. */
  lemma StepOnDir(rows: seq<Attach>, env: Env, uid: nat, leaf: string, st: WalkState, seg: string)
    requires Has(rows, env, DirQuery(uid, st.folder, seg))
    ensures var next := Step(rows, env, uid, leaf, st, seg);
      next.folder == First(rows, env, DirQuery(uid, st.folder, seg)).value.hash
      && next.path == st.path + "/" + seg && next.errors == st.errors
  {
  }

  /** The loop over the segments after the channel address. */
  function Walk(rows: seq<Attach>, env: Env, uid: nat, leaf: string, st: WalkState, segs: seq<string>): WalkState
    decreases |segs|
  {
    if segs == [] then st else Walk(rows, env, uid, leaf, Step(rows, env, uid, leaf, st, segs[0]), segs[1..])
  }

  /** The state `RedFileData` enters its loop with. */
  function Start(address: string): WalkState {
    WalkState("", "/" + address, None, false, false)
  }

  /** What `RedFileData` yields, before any node object is constructed. */
  datatype Resolution =
    | DirAt(path: string)              // a RedDirectory for `path` is constructed
    | FileAt(name: string, row: Attach) // a RedFile for the row
    | Flag(b: bool)                     // `true` or `false`
    | Nothing                           // `null`
    | Denied                            // Forbidden is thrown

  /** The channel `RedFileData` binds as the owner, if it gets that far. */
  function BoundOwner(channels: seq<Channel>, file: string): (r: Option<Channel>)
    ensures r.Some? ==> Truthy(file) && file != "/" && r == ChannelByAddress(channels, Segments(file)[0], true)
    ensures Truthy(file) && file != "/" ==> r == ChannelByAddress(channels, Segments(file)[0], true)
  {
    if !Truthy(file) || file == "/" then None
    else ChannelByAddress(channels, Segments(file)[0], true)
  }

  /** `RedFileData($file, $auth, $test)`. */
  function Resolve(channels: seq<Channel>, rows: seq<Attach>, env: Env, file: string, test: bool): (r: Resolution)
    ensures !Truthy(file) || file == "/" ==> r == DirAt("/")
    ensures BoundOwner(channels, file).None? && Truthy(file) && file != "/" ==> r == Nothing
    ensures test ==> r.Flag? || r == DirAt("/") || r == Nothing
    ensures r == Denied ==> !test
  {
    if !Truthy(file) || file == "/" then DirAt("/")
    else
      var t := Trim(file, Slash);
      var segs := Segments(file);
      var c := ChannelByAddress(channels, segs[0], true);
      if c.None? then Nothing
      else
        Conclude(Walk(rows, env, c.value.id, Basename(t), Start(segs[0]), segs[1..]), t, test)
  }

  /**
   * What `RedFileData` yields once the walk over trimmed path `t` ended in
   * `st`: the directory reached, then an error, then the row found.
   */
  function Conclude(st: WalkState, t: string, test: bool): (r: Resolution)
    ensures test ==> r.Flag?
    ensures r == Denied <==> !test && st.path != "/" + t && st.errors && st.permissionError
    ensures r.FileAt? ==> !test && st.row == Some(r.row) && !r.row.isDir && !st.errors
  {
    if st.path == "/" + t then (if test then Flag(true) else DirAt("/" + t))
    else if st.errors then (if test then Flag(false) else if st.permissionError then Denied else Nothing)
    else if st.row.Some? then
      (if test then Flag(true)
       else if st.row.value.isDir then DirAt(st.path + "/" + st.row.value.filename)
       else FileAt(st.row.value.filename, st.row.value))
    else Flag(false)
  }

  /** After at least one step the walk holds a row or is in error. */
  lemma {:induction false} WalkRowOrErrors(rows: seq<Attach>, env: Env, uid: nat, leaf: string, st: WalkState, segs: seq<string>)
    requires |segs| >= 1 || st.row.Some? || st.errors
    ensures Walk(rows, env, uid, leaf, st, segs).row.Some? || Walk(rows, env, uid, leaf, st, segs).errors
    decreases |segs|
  {
    if segs != [] {
      var next := Step(rows, env, uid, leaf, st, segs[0]);
      StepFacts(rows, env, uid, leaf, st, segs[0]);
      WalkRowOrErrors(rows, env, uid, leaf, next, segs[1..]);
    }
  }

  /** Errors are sticky, and so is a permission error. */
  lemma {:induction false} WalkKeepsErrors(rows: seq<Attach>, env: Env, uid: nat, leaf: string, st: WalkState, segs: seq<string>)
    ensures st.errors ==> Walk(rows, env, uid, leaf, st, segs).errors
    ensures st.permissionError ==> Walk(rows, env, uid, leaf, st, segs).permissionError
    decreases |segs|
  {
    if segs != [] {
      StepFacts(rows, env, uid, leaf, st, segs[0]);
      WalkKeepsErrors(rows, env, uid, leaf, Step(rows, env, uid, leaf, st, segs[0]), segs[1..]);
    }
  }

  /**
   * Outside test mode `RedFileData` never returns a boolean: the final
   * `return false` cannot be reached, because a walk of at least one segment
   * ends with a row or with an error, and a walk of none matches the path.
   */
  lemma NonTestNeverFlag(channels: seq<Channel>, rows: seq<Attach>, env: Env, file: string)
    ensures !Resolve(channels, rows, env, file, false).Flag?
    ensures !Resolve(channels, rows, env, file, true).Flag? ==> Resolve(channels, rows, env, file, true) in {DirAt("/"), Nothing}
  {
    if Truthy(file) && file != "/" {
      var t := Trim(file, Slash);
      var segs := Segments(file);
      var c := ChannelByAddress(channels, segs[0], true);
      if c.Some? {
        var st := Walk(rows, env, c.value.id, Basename(t), Start(segs[0]), segs[1..]);
        if |segs| == 1 {
          JoinExplode('/', t);
          assert st == Start(segs[0]);
          assert Join('/', segs) == segs[0];
          assert st.path == "/" + t;
        } else {
          WalkRowOrErrors(rows, env, c.value.id, Basename(t), Start(segs[0]), segs[1..]);
        }
      }
    }
  }

  /**
   * Test mode answers `true` exactly when normal mode yields a node, and
   * `false` exactly when normal mode yields `null` or Forbidden (the root and
   * an unknown channel are the same in both modes).
   */
  lemma TestModeAgrees(channels: seq<Channel>, rows: seq<Attach>, env: Env, file: string)
    requires Truthy(file) && file != "/" && BoundOwner(channels, file).Some?
    ensures Resolve(channels, rows, env, file, true) == Flag(true) <==>
      (Resolve(channels, rows, env, file, false).DirAt? || Resolve(channels, rows, env, file, false).FileAt?)
    ensures Resolve(channels, rows, env, file, true) == Flag(false) <==>
      Resolve(channels, rows, env, file, false) in {Nothing, Denied}
  {
    NonTestNeverFlag(channels, rows, env, file);
  }

  /** A permission error is recorded only when some row of the channel has the leaf's name. */
  lemma {:induction false} PermissionErrorHasRow(rows: seq<Attach>, env: Env, uid: nat, leaf: string, st: WalkState, segs: seq<string>)
    requires st.permissionError ==> exists a :: a in rows && a.uid == uid && a.filename == leaf && !env.visible(uid, a)
    ensures Walk(rows, env, uid, leaf, st, segs).permissionError ==>
      exists a :: a in rows && a.uid == uid && a.filename == leaf && !env.visible(uid, a)
    decreases |segs|
  {
    if segs != [] {
      var next := Step(rows, env, uid, leaf, st, segs[0]);
      StepFacts(rows, env, uid, leaf, st, segs[0]);
      if next.permissionError && !st.permissionError {
        var q := RawLeafQuery(uid, st.folder, leaf);
        assert Has(rows, env, q);
        var i :| 0 <= i < |rows| && Matches(env, q, rows[i]);
        assert !Has(rows, env, LeafQuery(uid, st.folder, leaf));
        assert !Matches(env, LeafQuery(uid, st.folder, leaf), rows[i]);
        assert rows[i] in rows;
      }
      PermissionErrorHasRow(rows, env, uid, leaf, next, segs[1..]);
    }
  }

  /**
   * Forbidden is raised only when the channel holds a row named like the
   * path's last component that the observer may not see.
   */
  lemma DeniedOnlyIfHidden(channels: seq<Channel>, rows: seq<Attach>, env: Env, file: string)
    requires Resolve(channels, rows, env, file, false) == Denied
    ensures BoundOwner(channels, file).Some?
    ensures exists a :: (a in rows && a.uid == BoundOwner(channels, file).value.id
      && a.filename == Basename(Trim(file, Slash)) && !env.visible(a.uid, a))
  {
    var t := Trim(file, Slash);
    var segs := Segments(file);
    var c := ChannelByAddress(channels, segs[0], true);
    PermissionErrorHasRow(rows, env, c.value.id, Basename(t), Start(segs[0]), segs[1..]);
  }

  /** The segments form a chain of directories the observer may see, starting in `folder`. */
  predicate DirChain(rows: seq<Attach>, env: Env, uid: nat, folder: string, segs: seq<string>)
    decreases |segs|
  {
    segs == [] ||
    (Has(rows, env, DirQuery(uid, folder, segs[0]))
     && DirChain(rows, env, uid, First(rows, env, DirQuery(uid, folder, segs[0])).value.hash, segs[1..]))
  }

  /** Along a chain of visible directories the walk appends every segment to the path and records no error. */
  lemma WalkAlongChain(rows: seq<Attach>, env: Env, uid: nat, leaf: string, st: WalkState, segs: seq<string>)
    requires DirChain(rows, env, uid, st.folder, segs)
    requires |segs| >= 1 ==> st.errors == false
    ensures Walk(rows, env, uid, leaf, st, segs).path == st.path + Join('/', [""] + segs)
    ensures Walk(rows, env, uid, leaf, st, segs).errors == st.errors
  {
    ChainPath(rows, env, uid, leaf, st, segs);
    JoinHeadTail("", segs);
    assert "" + JoinTail(segs) == JoinTail(segs);
    ChainKeepsErrors(rows, env, uid, leaf, st, segs);
  }

  /** Along a chain of visible directories the walk appends every segment to the path. */
  lemma {:induction false} ChainPath(rows: seq<Attach>, env: Env, uid: nat, leaf: string, st: WalkState, segs: seq<string>)
    requires DirChain(rows, env, uid, st.folder, segs)
    ensures Walk(rows, env, uid, leaf, st, segs).path == st.path + JoinTail(segs)
    decreases |segs|
  {
    if segs == [] {
      assert st.path + [] == st.path;
    } else {
      var next := ChainStep(rows, env, uid, leaf, st, segs);
      ChainPath(rows, env, uid, leaf, next, segs[1..]);
      ConcatAssoc(st.path, "/", segs[0]);
      ConcatAssoc(st.path, "/" + segs[0], JoinTail(segs[1..]));
    }
  }

  /** One step along a chain: the walk goes on from the state after the first segment, which extends the path by it. */
  lemma ChainStep(rows: seq<Attach>, env: Env, uid: nat, leaf: string, st: WalkState, segs: seq<string>)
    returns (next: WalkState)
    requires segs != [] && DirChain(rows, env, uid, st.folder, segs)
    ensures Walk(rows, env, uid, leaf, st, segs) == Walk(rows, env, uid, leaf, next, segs[1..])
    ensures next.path == st.path + "/" + segs[0] && next.errors == st.errors
    ensures DirChain(rows, env, uid, next.folder, segs[1..])
  {
    next := Step(rows, env, uid, leaf, st, segs[0]);
    StepOnDir(rows, env, uid, leaf, st, segs[0]);
  }

  /** String concatenation is associative. */
  lemma ConcatAssoc(a: string, b: string, c: string)
    ensures (a + b) + c == a + (b + c)
  {
  }

  /** Along a chain of visible directories the walk records no new error. */
  lemma {:induction false} ChainKeepsErrors(rows: seq<Attach>, env: Env, uid: nat, leaf: string, st: WalkState, segs: seq<string>)
    requires DirChain(rows, env, uid, st.folder, segs)
    ensures Walk(rows, env, uid, leaf, st, segs).errors == st.errors
    decreases |segs|
  {
    if segs != [] {
      var next := ChainStep(rows, env, uid, leaf, st, segs);
      ChainKeepsErrors(rows, env, uid, leaf, next, segs[1..]);
    }
  }

  /**
   * A path whose segments after the channel are all directories the observer
   * may see resolves to the directory at the (trimmed) path itself.
   */
  lemma VisibleDirsResolveToDir(channels: seq<Channel>, rows: seq<Attach>, env: Env, file: string)
    requires Truthy(file) && file != "/" && BoundOwner(channels, file).Some?
    requires DirChain(rows, env, BoundOwner(channels, file).value.id, "", Segments(file)[1..])
    ensures Resolve(channels, rows, env, file, false) == DirAt("/" + Trim(file, Slash))
    ensures Resolve(channels, rows, env, file, true) == Flag(true)
  {
    var t := Trim(file, Slash);
    var segs := Segments(file);
    var uid := BoundOwner(channels, file).value.id;
    WalkAlongChain(rows, env, uid, Basename(t), Start(segs[0]), segs[1..]);
    var st := Walk(rows, env, uid, Basename(t), Start(segs[0]), segs[1..]);
    SlashJoin(t);
    assert st.path == "/" + t;
  }

  /** `'/' . $segs[0]` followed by `'/' . $seg` for every later segment spells the trimmed path again. */
  lemma SlashJoin(t: string)
    ensures var segs := Explode('/', t); "/" + segs[0] + Join('/', [""] + segs[1..]) == "/" + t
  {
    var segs := Explode('/', t);
    JoinExplode('/', t);
    if |segs| == 1 {
      assert Join('/', [""]) == "";
    } else {
      assert segs == [segs[0]] + segs[1..];
      assert Join('/', segs) == segs[0] + "/" + Join('/', segs[1..]);
      assert ([""] + segs[1..])[1..] == segs[1..];
      assert Join('/', [""] + segs[1..]) == "" + "/" + Join('/', segs[1..]);
    }
  }

  // ---------------------------------------------------------------- RedDirectory's walk

  /** The constructor's walk either reaches a folder (with its on-disk path) or fails. */
  datatype DirWalkResult = Walked(folder: string, osPath: string) | WalkFailed(error: DavError)

  /** `$os_path` after appending one directory hash. */
  function AppendHash(osPath: string, hash: string): (r: string)
    ensures r == if osPath == "" then hash else osPath + "/" + hash
  {
    (if |osPath| > 0 then osPath + "/" else osPath) + hash
  }

  /**
   * The constructor's loop over the segments after the channel address, with
   * `owner_id` as the channel: stop at the first segment that is not a visible
   * directory, with Forbidden if it is a directory the observer may not see.
   */
  function DirWalk(rows: seq<Attach>, env: Env, uid: nat, folder: string, osPath: string, segs: seq<string>): DirWalkResult
    decreases |segs|
  {
    if segs == [] then Walked(folder, osPath)
    else
      var d := First(rows, env, DirQuery(uid, folder, segs[0]));
      if d.None? then
        if First(rows, env, Query(uid, folder, Basename(segs[0]), true, false)).Some? then WalkFailed(Forbidden)
        else WalkFailed(NotFound)
      else DirWalk(rows, env, uid, d.value.hash, AppendHash(osPath, d.value.hash), segs[1..])
  }

  /** One step of the constructor walk, for callers that walk segment by segment. */
  lemma DirWalkStep(rows: seq<Attach>, env: Env, uid: nat, folder: string, osPath: string, segs: seq<string>)
    requires segs != []
    ensures var d := First(rows, env, DirQuery(uid, folder, segs[0]));
      DirWalk(rows, env, uid, folder, osPath, segs) ==
        if d.Some? then DirWalk(rows, env, uid, d.value.hash, AppendHash(osPath, d.value.hash), segs[1..])
        else if First(rows, env, Query(uid, folder, Basename(segs[0]), true, false)).Some? then WalkFailed(Forbidden)
        else WalkFailed(NotFound)
  {
  }

  /** The constructor's `red_path`: a falsy path stands for the root. */
  function DefaultPath(extPath: string): (p: string)
    ensures Truthy(p)
    ensures Truthy(extPath) ==> p == extPath
  {
    if Truthy(extPath) then extPath else "/"
  }

  /**
   * What constructing `RedDirectory($extPath)` computes with `owner_id` = `uid`:
   * the walk starts at segment 1, so the channel address in segment 0 is not
   * looked at, and a path of a single segment is the channel's root folder "".
   */
  function DirOpen(rows: seq<Attach>, env: Env, uid: nat, extPath: string): (r: DirWalkResult)
    ensures |Segments(DefaultPath(extPath))| == 1 ==> r == Walked("", "")
  {
    DirWalk(rows, env, uid, "", "", Segments(DefaultPath(extPath))[1..])
  }

  /** The root path has a single (empty) segment, so its directory always opens, at folder "". */
  lemma RootOpens(rows: seq<Attach>, env: Env, uid: nat)
    ensures DirOpen(rows, env, uid, "/") == Walked("", "")
  {
    assert "/"[1..] == "";
    assert TrimLeft("/", Slash) == "";
    assert TrimRight("", Slash) == "";
    assert Trim("/", Slash) == "";
    assert Explode('/', "") == [""];
  }

  /** `GROUP BY filename` over the children the observer may see. */
  function ChildListing(rows: seq<Attach>, env: Env, uid: nat, folder: string): (ls: seq<Attach>)
    ensures forall a :: a in ls ==> a in rows && a.uid == uid && a.folder == folder && env.visible(uid, a)
    ensures DistinctNames(ls)
    ensures forall a :: a in rows && a.uid == uid && a.folder == folder && env.visible(uid, a) ==>
      exists b :: b in ls && b.filename == a.filename
  {
    var vs := VisibleChildren(rows, env, uid, folder);
    var ls := GroupByFilename(vs);
    assert forall a :: a in vs ==> a.filename in Filenames(ls);
    ls
  }

  /** The directory rows the constructor's walk matches, in order, up to the first miss. */
  function DirRows(rows: seq<Attach>, env: Env, uid: nat, folder: string, segs: seq<string>): (ds: seq<Attach>)
    ensures |ds| <= |segs|
    decreases |segs|
  {
    if segs == [] then []
    else
      var d := First(rows, env, DirQuery(uid, folder, segs[0]));
      if d.None? then [] else [d.value] + DirRows(rows, env, uid, d.value.hash, segs[1..])
  }

  /** The hashes of a sequence of rows. */
  function Hashes(ds: seq<Attach>): (hs: seq<string>)
    ensures |hs| == |ds|
    ensures forall i :: 0 <= i < |ds| ==> hs[i] == ds[i].hash
  {
    if ds == [] then [] else [ds[0].hash] + Hashes(ds[1..])
  }

  /** The folder reached after matching the rows `ds` from `folder`. */
  function FolderAfter(folder: string, ds: seq<Attach>): string {
    if ds == [] then folder else ds[|ds| - 1].hash
  }

  /**
   * The matched rows form a chain: the first lies in `folder`, each next one
   * inside the previous, each one a directory the observer may see whose name
   * is the corresponding segment.
   */
  lemma {:induction false} DirRowsChain(rows: seq<Attach>, env: Env, uid: nat, folder: string, segs: seq<string>)
    ensures var ds := DirRows(rows, env, uid, folder, segs);
      (forall i :: 0 <= i < |ds| ==> (ds[i] in rows && ds[i].isDir && ds[i].uid == uid
        && ds[i].filename == segs[i] && env.visible(uid, ds[i])))
      && (|ds| > 0 ==> ds[0].folder == folder)
      && (forall i :: 0 < i < |ds| ==> ds[i].folder == ds[i - 1].hash)
    decreases |segs|
  {
    if segs != [] {
      var d := First(rows, env, DirQuery(uid, folder, segs[0]));
      if d.Some? {
        DirRowsChain(rows, env, uid, d.value.hash, segs[1..]);
        var ds := DirRows(rows, env, uid, folder, segs);
        var tail := DirRows(rows, env, uid, d.value.hash, segs[1..]);
        assert ds == [d.value] + tail;
        forall i | 0 < i < |ds| ensures ds[i].folder == ds[i - 1].hash {
          assert ds[i] == tail[i - 1];
          if i > 1 {
            assert ds[i - 1] == tail[i - 2];
          }
        }
      }
    }
  }

  /**
   * The constructor's walk ends in the folder of the last matched row; it
   * succeeds exactly when every segment matched, and on success the on-disk
   * path is the `/`-joined list of matched hashes (when none of them is
   * empty). On failure it is Forbidden exactly when a directory of that name
   * exists in the folder reached, without the permission filter.
   */
  lemma DirWalkShape(rows: seq<Attach>, env: Env, uid: nat, folder: string, osPath: string, segs: seq<string>)
    ensures var ds := DirRows(rows, env, uid, folder, segs);
      var res := DirWalk(rows, env, uid, folder, osPath, segs);
      (res.Walked? <==> |ds| == |segs|)
      && (res.Walked? ==> res.folder == FolderAfter(folder, ds))
      && (res.Walked? && osPath == "" && (forall i :: 0 <= i < |ds| ==> ds[i].hash != "") && |ds| > 0 ==>
            res.osPath == Join('/', Hashes(ds)))
      && (res.WalkFailed? ==>
            (res.error == Forbidden <==>
              Has(rows, env, Query(uid, FolderAfter(folder, ds), Basename(segs[|ds|]), true, false)))
            && res.error in {Forbidden, NotFound})
  {
    DirWalkReach(rows, env, uid, folder, osPath, segs);
    DirWalkOsPath(rows, env, uid, folder, segs);
    DirWalkFailure(rows, env, uid, folder, osPath, segs);
  }

  /** The walk succeeds exactly when every segment matched a row, and then ends in the last one's folder. */
  lemma {:induction false} DirWalkReach(rows: seq<Attach>, env: Env, uid: nat, folder: string, osPath: string, segs: seq<string>)
    ensures var ds := DirRows(rows, env, uid, folder, segs);
      var res := DirWalk(rows, env, uid, folder, osPath, segs);
      (res.Walked? <==> |ds| == |segs|) && (res.Walked? ==> res.folder == FolderAfter(folder, ds))
    decreases |segs|
  {
    if segs != [] {
      var d := First(rows, env, DirQuery(uid, folder, segs[0]));
      if d.Some? {
        var h := d.value.hash;
        DirWalkReach(rows, env, uid, h, AppendHash(osPath, h), segs[1..]);
        var tail := DirRows(rows, env, uid, h, segs[1..]);
        assert DirRows(rows, env, uid, folder, segs) == [d.value] + tail;
        assert FolderAfter(folder, [d.value] + tail) == FolderAfter(h, tail);
      }
    }
  }

  /** From the root path, a successful walk's on-disk path joins the matched hashes with `/`, when none is empty. */
  lemma DirWalkOsPath(rows: seq<Attach>, env: Env, uid: nat, folder: string, segs: seq<string>)
    ensures var ds := DirRows(rows, env, uid, folder, segs);
      var res := DirWalk(rows, env, uid, folder, "", segs);
      res.Walked? && (forall i :: 0 <= i < |ds| ==> ds[i].hash != "") && |ds| > 0 ==>
        res.osPath == Join('/', Hashes(ds))
  {
    var ds := DirRows(rows, env, uid, folder, segs);
    var res := DirWalk(rows, env, uid, folder, "", segs);
    if res.Walked? && (forall i :: 0 <= i < |ds| ==> ds[i].hash != "") && |ds| > 0 {
      var d := First(rows, env, DirQuery(uid, folder, segs[0]));
      var h := d.value.hash;
      var tail := DirRows(rows, env, uid, h, segs[1..]);
      assert ds == [d.value] + tail;
      assert h != "" by { assert ds[0] == d.value; }
      assert AppendHash("", h) == h;
      assert forall i :: 0 <= i < |tail| ==> tail[i].hash != "" by {
        forall i | 0 <= i < |tail| ensures tail[i].hash != "" {
          assert tail[i] == ds[i + 1];
        }
      }
      OsPathFrom(rows, env, uid, h, segs[1..], tail);
      assert Hashes(ds) == [h] + Hashes(tail);
    }
  }

  /** A failed walk is Forbidden exactly when the unfiltered directory query hits in the folder reached, else NotFound. */
  lemma {:induction false} DirWalkFailure(rows: seq<Attach>, env: Env, uid: nat, folder: string, osPath: string, segs: seq<string>)
    ensures var ds := DirRows(rows, env, uid, folder, segs);
      var res := DirWalk(rows, env, uid, folder, osPath, segs);
      res.WalkFailed? ==>
        (|ds| < |segs|
         && (res.error == Forbidden <==>
               Has(rows, env, Query(uid, FolderAfter(folder, ds), Basename(segs[|ds|]), true, false)))
         && res.error in {Forbidden, NotFound})
    decreases |segs|
  {
    DirWalkReach(rows, env, uid, folder, osPath, segs);
    if segs != [] {
      var d := First(rows, env, DirQuery(uid, folder, segs[0]));
      if d.Some? {
        var h := d.value.hash;
        DirWalkFailure(rows, env, uid, h, AppendHash(osPath, h), segs[1..]);
        assert DirWalk(rows, env, uid, folder, osPath, segs) == DirWalk(rows, env, uid, h, AppendHash(osPath, h), segs[1..]);
        var ds := DirRows(rows, env, uid, folder, segs);
        var tail := DirRows(rows, env, uid, h, segs[1..]);
        assert ds == [d.value] + tail;
        assert FolderAfter(folder, ds) == FolderAfter(h, tail);
        if DirWalk(rows, env, uid, folder, osPath, segs).WalkFailed? {
          assert segs[|ds|] == segs[1..][|tail|];
        }
      } else {
        var q := Query(uid, folder, Basename(segs[0]), true, false);
        assert DirRows(rows, env, uid, folder, segs) == [];
        assert First(rows, env, q).Some? <==> Has(rows, env, q);
      }
    }
  }

  /** Continuing the on-disk path from a single non-empty hash joins the remaining hashes onto it. */
  lemma {:induction false} OsPathFrom(rows: seq<Attach>, env: Env, uid: nat, h: string, segs: seq<string>, tail: seq<Attach>)
    requires h != ""
    requires tail == DirRows(rows, env, uid, h, segs)
    requires DirWalk(rows, env, uid, h, h, segs).Walked?
    requires forall i :: 0 <= i < |tail| ==> tail[i].hash != ""
    ensures DirWalk(rows, env, uid, h, h, segs).osPath == Join('/', [h] + Hashes(tail))
  {
    OsPathAcc(rows, env, uid, h, h, segs);
    JoinHeadTail(h, Hashes(tail));
  }

  /** With a non-empty accumulated path, every matched hash is appended after a `/`. */
  lemma {:induction false} OsPathAcc(rows: seq<Attach>, env: Env, uid: nat, folder: string, acc: string, segs: seq<string>)
    requires acc != ""
    requires DirWalk(rows, env, uid, folder, acc, segs).Walked?
    ensures DirWalk(rows, env, uid, folder, acc, segs).osPath ==
      acc + JoinTail(Hashes(DirRows(rows, env, uid, folder, segs)))
    decreases |segs|
  {
    if segs != [] {
      var d := First(rows, env, DirQuery(uid, folder, segs[0]));
      var h := d.value.hash;
      OsPathAcc(rows, env, uid, h, acc + "/" + h, segs[1..]);
      var tail := DirRows(rows, env, uid, h, segs[1..]);
      var hs := Hashes(tail);
      assert Hashes([d.value] + tail) == [h] + hs;
      assert ([h] + hs)[1..] == hs;
      ConcatAssoc(acc, "/", h);
      ConcatAssoc(acc, "/" + h, JoinTail(hs));
    }
  }

  /** `/h1/h2/...`: every hash preceded by a slash. */
  function JoinTail(hs: seq<string>): string {
    if hs == [] then "" else "/" + hs[0] + JoinTail(hs[1..])
  }

  /** Joining `[h] + hs` with slashes puts every hash of `hs` after a slash. */
  lemma {:induction false} JoinHeadTail(h: string, hs: seq<string>)
    ensures Join('/', [h] + hs) == h + JoinTail(hs)
    decreases |hs|
  {
    if hs != [] {
      JoinHeadTail(hs[0], hs[1..]);
      assert ([h] + hs)[1..] == hs;
      assert [hs[0]] + hs[1..] == hs;
    }
  }
}
