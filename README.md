# RedMatrix cloud storage tree, modelled in Dafny

RedMatrix serves each channel's files under `/cloud` and `/dav` as a WebDAV
tree. There are no real directories. Files and folders are rows of the
`attach` table, and a child points at its parent through `folder = parent.hash`.
Every lookup is filtered by what the current observer may see.

This project models the core of that tree over an in-memory copy of the tables
(`channel`, `attach`, `account`, contacts and groups):

- the path resolver `RedFileData`: the segment walk, the leaf fallback,
  Forbidden versus not-found, and test mode;
- the directory node `RedDirectory`: the constructor walk, listing, rename,
  file and folder creation (with the compensating deletes), last-modified and
  quota;
- the ACL surface `RedDirectory` takes from its ACL trait;
- the two request gates (`RedDAVACL::beforeMethod`, `RedBrowser::redBeforeMethod`),
  the browser's delete action and its attachment lookups;
- the channels collection and the principal backend;
- both Basic-auth classes: the password check with the `+++` guest sentinel,
  `setAuthenticated`, and `authenticate`'s bypass rules;
- the `mod/cloud.php` entry logic: Basic header decoding, query-string cleanup,
  observer binding and the decision to prompt for HTTP auth;
- the pure string logic of `include/network.php`: the RFC 2047 encoded-word
  builder, the e-mail and URL allow-lists, and the default message of
  `http_status_exit`.

Collaborators whose code is not part of this model are parameters of the
operations. They are gathered in `Store.Env`:
- `permissions_sql` and `perm_is_allowed` / `get_all_perms`;
- `get_config` and `service_class_fetch`;
- the disk figures;
- `z_mime_content_type`;
- `attach_mkdir`.

The following are passed in explicitly:
- the random hash;
- the clock readings;
- the result of `file_put_contents`;
- `account_verify_password`;
- `whirlpool`, `urldecode`, `strip_zids` and `parse_url`;
- the observer hash;
- the local channel;
- the request's credentials;
- Sabre's `nodeExists`.

State that the source changes in place is held in classes:
- `Store.Database` holds the tables and the stored blobs;
- `BasicAuth.RedBasicAuth` and `AuthBackend.RedBasicAuthBackend` are the
  identity objects whose `owner_*` fields the gates set;
- `RedDav.RedDirectory` is the directory node;
- `Browser.RedBrowser` holds `enablePost`;
- `BasicAuth.Session` is `$_SESSION`;
- `Cloud.ServerVars` is `$_SERVER`.

The model follows PHP 5, the version this code was written for:
`RedBrowser::generateDirectoryIndex` calls `split()`
(include/RedDAV/RedBrowser.php:338), which PHP 7 no longer has. So
`base64_decode` is PHP 5's decoder, and passing an object that does not match
a class type hint is PHP 5's catchable fatal error, with no error handler
installed to resume after it.

The pure specifications live in module `Tree`: `Resolve` for the resolver's
walk and `DirOpen` for the constructor's. The imperative loops in module
`RedDav` are proved to compute them.

`getChildren` lists with `GROUP BY filename` (MySQL) or `DISTINCT ON
(filename)` (Postgres). Either way the database chooses which of two rows
with the same name is kept. `Store.GroupByFilename` keeps the last row of
each name in table order, and no property relies on which one survives.

## Model

| member | source | states |
|---|---|---|
| Store.ChannelByAddress | include/reddav.php:54-59 | a channel row with that address (and not removed unless asked) is returned, and none exactly when no row qualifies |
| Store.ChannelById | include/RedDAV/RedDirectory.php:294-297 | a non-removed channel with that id, none exactly when no row qualifies |
| Store.ChannelOfAccount | include/RedDAV/RedBasicAuth.php:105-108 | a channel of that account with that id, none exactly when no row qualifies |
| Store.AccountById | include/RedDAV/RedBasicAuth.php:117-119 | an account with that id, none exactly when there is none |
| Store.First | include/reddav.php:78-83 | a `LIMIT 1` hit is a row matching the query, and there is no hit exactly when no row matches |
| Store.FilteredHitIsRawHit | include/reddav.php:97-106 | a row found with the permission filter is also found without it |
| Store.VisibleChildren | include/RedDAV/RedDirectory.php:188-192 | exactly the channel's rows in the folder that the observer may see |
| Store.GroupByFilename | include/RedDAV/RedDirectory.php:181-192 | one row per filename: the result holds only input rows, the same set of filenames, each name once |
| Store.Latest | include/RedDAV/RedBrowser.php:485-489 | `ORDER BY edited DESC LIMIT 1`: a row exists exactly when there are rows, and no row is edited later |
| Store.Named | include/RedDAV/RedBrowser.php:485-489 | exactly the rows of the owner with that folder and filename |
| Store.WithHash | include/RedDAV/RedBrowser.php:509-511 | exactly the rows with that hash, in any channel |
| Store.RowById | include/RedDAV/RedBrowser.php:211-214 | a row with that id and uid, none exactly when there is none |
| Store.RowByHash | include/RedDAV/RedDirectory.php:439-442 | a row with that hash and uid, none exactly when there is none |
| Store.Children | include/RedDAV/RedDirectory.php:434-437 | exactly the channel's rows directly in the folder, without the permission filter |
| Store.DeleteRows | include/RedDAV/RedDirectory.php:335 | after `attach_delete` exactly the rows not of that channel and hash remain |
| Store.RenameRows | include/RedDAV/RedDirectory.php:260-264 | same length; matching rows get the new filename, and no other field of any row changes |
| Store.UpdateRows | include/RedDAV/RedDirectory.php:343-355 | same length; matching rows get the new size (if given) and time, and every other row is unchanged |
| Store.UpdatesKeepHashes | include/RedDAV/RedDirectory.php:260-264 | renaming or updating neither removes nor creates a hash in any channel |
| Store.DeleteRemoves | include/RedDAV/RedDirectory.php:335 | after `attach_delete` no row of the channel carries the hash |
| Store.MaxEdited | include/RedDAV/RedDirectory.php:434-437 | the greatest `edited` of some row, and none exactly for no rows |
| Store.NextId | include/RedDAV/RedDirectory.php:307-326 | the id handed to an inserted row is above every id in use |
| Tree.Segments | include/reddav.php:45-47 | `explode('/', trim($file, '/'))` has at least one segment and no segment holds `/` |
| Tree.StepFacts | include/reddav.php:77-107 | a visible dir named by the segment advances folder to its hash and path by its filename; otherwise a visible leaf becomes the row, flags kept; otherwise errors are set, a permission error exactly when the unfiltered leaf query hits |
| Tree.StepOnDir | include/reddav.php:85-88 | a step onto a visible directory moves into its hash and appends `/segment` to the path, errors unchanged |
| Tree.BoundOwner | include/reddav.php:52-66 | for a non-root path the bound channel is the one the first segment names, with no removed filter |
| Tree.Resolve | include/reddav.php:37-142 | falsy or `/` path is the root dir; unknown channel is nothing; test mode yields only booleans, root or nothing; Forbidden occurs only outside test mode |
| Tree.Conclude | include/reddav.php:110-141 | test mode yields a boolean; Forbidden exactly outside test mode when the path was not a dir, errors and permission error are set; a file result is the surviving non-directory row with no error |
| Tree.WalkRowOrErrors | include/reddav.php:77-108 | after at least one step the walk holds a row or is in error |
| Tree.WalkKeepsErrors | include/reddav.php:97-107 | `errors` and `permission_error` are never cleared once set |
| Tree.NonTestNeverFlag | include/reddav.php:117-141 | outside test mode the final `return false` is unreachable; in test mode a non-boolean is only root or nothing |
| Tree.TestModeAgrees | include/reddav.php:110-132 | test mode answers true exactly when normal mode yields a node, and false exactly when it yields nothing or Forbidden |
| Tree.PermissionErrorHasRow | include/reddav.php:97-107 | a permission error is set only when the channel holds a row with the leaf's name that the observer may not see |
| Tree.DeniedOnlyIfHidden | include/reddav.php:122-125 | Forbidden implies a bound channel holding a hidden row named like the last component |
| Tree.WalkAlongChain | include/reddav.php:77-88 | along visible directories the walk appends every segment to the path and records no error |
| Tree.ChainPath | include/reddav.php:85-88 | along visible directories the path grows by `/seg` per segment |
| Tree.ChainKeepsErrors | include/reddav.php:77-88 | along visible directories no error is recorded |
| Tree.VisibleDirsResolveToDir | include/reddav.php:110-115 | a path made of visible directories resolves to the directory at the trimmed path, and to true in test mode |
| Tree.SlashJoin | include/reddav.php:63-87 | `'/' . seg0` followed by `'/' . seg` for each later segment spells `'/' . trim($file)` |
| Tree.DirWalkStep | include/RedDAV/RedDirectory.php:80-110 | one constructor step: a visible dir advances folder and os_path; a miss fails with Forbidden iff the unfiltered dir query hits, else NotFound |
| Tree.DefaultPath | include/RedDAV/RedDirectory.php:60-63 | `red_path` is truthy, and equals the given path when that is truthy |
| Tree.DirOpen | include/RedDAV/RedDirectory.php:68-122 | a path of one segment opens at folder "" with empty os_path, whatever segment 0 names |
| Tree.RootOpens | include/RedDAV/RedDirectory.php:60-80 | the root path always opens, at folder "" |
| Tree.ChildListing | include/RedDAV/RedDirectory.php:188-192 | listed rows are visible children of the folder, names are distinct, and every visible child's name is listed |
| Tree.DirRows | include/RedDAV/RedDirectory.php:80-110 | the constructor matches at most one directory row per segment |
| Tree.DirRowsChain | include/RedDAV/RedDirectory.php:80-110 | the matched rows form a chain of visible directories, each inside the previous, each named by its segment |
| Tree.DirWalkShape | include/RedDAV/RedDirectory.php:79-122 | success iff every segment matched, ending in the last match's folder, with os_path the `/`-joined matched hashes; failure is Forbidden iff an unfiltered directory of that name exists |
| Tree.DirWalkReach | include/RedDAV/RedDirectory.php:80-110 | the walk succeeds exactly when every segment matched and ends in the last matched folder |
| Tree.DirWalkOsPath | include/RedDAV/RedDirectory.php:102-109 | from the root, the os_path of a successful walk is the `/`-joined matched hashes |
| Tree.DirWalkFailure | include/RedDAV/RedDirectory.php:87-118 | a failed walk stops at the first unmatched segment; Forbidden iff the unfiltered dir query hits there, NotFound otherwise |
| RedDav.Principal | include/RedDAV/RedDirectory.php:66 | the owner principal is `principals/channels/` followed by the hash |
| RedDav.RedDirectory.GetName | include/RedDAV/RedDirectory.php:233-235 | the name holds no `/`, and is the whole path when that has none |
| RedDav.RedDirectory.GetOwner | include/RedDAV/ACLTrait.php:29-31 | the recorded owner, unchanged |
| RedDav.RedDirectory.GetGroup | include/RedDAV/ACLTrait.php:40-42 | no group principal |
| RedDav.RedDirectory.GetAcl | include/RedDAV/ACLTrait.php:61-69 | exactly one protected entry granting `{DAV:}all` to `{DAV:}owner` (section 3.11 of RFC 3744) |
| RedDav.RedDirectory.SetAcl | include/RedDAV/ACLTrait.php:79-81 | always Forbidden, and nothing changes |
| RedDav.RedDirectory.GetSupportedPrivilegeSet | include/RedDAV/ACLTrait.php:95-97 | no privilege set |
| RedDav.RedDirectory.GetChildren | include/RedDAV/RedDirectory.php:149-204 | Forbidden without view_storage on a set owner; nothing for an unknown or removed channel; else owner set to the channel principal, one node per listed row at `red_path/filename`, or the exception of the first listed directory that fails, all before it opening |
| RedDav.RedDirectory.GetChild | include/RedDAV/RedDirectory.php:213-226 | Forbidden without view_storage on a set owner; else what `RedFileData` yields for `red_path/name`, NotFound for a falsy result; the owner id becomes the channel the path names (kept when none), channel name, account and timezone unchanged; a directory child shares the auth object and is owned by `principals/channels/<owner_hash>` |
| RedDav.RedDirectory.ChildExists | include/RedDAV/RedDirectory.php:412-421 | true exactly when test-mode `RedFileData` of `red_path/name` is truthy; the owner id becomes the channel the path names (kept when none), channel name, account and timezone unchanged |
| RedDav.RedDirectory.SetName | include/RedDAV/RedDirectory.php:246-267 | Forbidden without write_storage and nothing changes; else the rows with the folder's hash are renamed and `red_path` becomes the parent path, `/` and the name |
| RedDav.RedDirectory.CreateFile | include/RedDAV/RedDirectory.php:283-376 | Forbidden without write_storage or owner channel, tables unchanged; else the tables are the row inserted, written, timestamped and deleted again on failed write, size or quota |
| RedDav.RedDirectory.CreateDirectory | include/RedDAV/RedDirectory.php:384-403 | Forbidden without an owner or write_storage; otherwise `attach_mkdir`'s table for a live owner channel, and failure is not reported |
| RedDav.RedDirectory.GetLastModified | include/RedDAV/RedDirectory.php:433-448 | the greatest `edited` among the folder's children; without children the folder row's own `edited`; none when neither exists |
| RedDav.RedDirectory.GetQuotaInfo | include/RedDAV/RedDirectory.php:458-482 | no owner: the disk figures; with owner: used is the account total and used+free the upload limit (disk size when unset) |
| RedDav.ListNodes | include/RedDAV/RedDirectory.php:194-201 | every listed row yields its node in order, or the first directory row that cannot be constructed ends the listing with its error, every directory row before it opening |
| RedDav.RowFails | include/RedDAV/RedDirectory.php:196-197 | a listed directory row whose constructor throws makes the listing fail with that error |
| RedDav.OpenDirectory | include/RedDAV/RedDirectory.php:56-125 | the constructor yields a fresh node with the folder and os_path of `DirOpen` and owner `principals/channels/<owner_hash>`, or throws the walk's error |
| RedDav.WalkPath | include/reddav.php:77-108 | the resolver's loop computes the pure walk `Walk` over the segments after the channel |
| RedDav.RedFileData | include/reddav.php:37-142 | `owner_id` becomes the channel named by segment 0 (else unchanged), no other auth field changes, and the result is what `Resolve` says |
| RedDav.ConcludeFileData | include/reddav.php:110-141 | the result cases after the walk deliver what `Conclude` decides, constructing a directory where it says so |
| RedDav.NewFileRow | include/RedDAV/RedDirectory.php:307-326 | the inserted row: size 0, OS flag, not a dir, current folder, creator the observer, data `os_path/hash`, ACL copied from the channel |
| RedDav.CreatedIffKept | include/RedDAV/RedDirectory.php:331-375 | after createFile the row and its stored content are present exactly when write, size and quota checks all passed |
| RedDav.QuotaCountsNewFileTwice | include/RedDAV/RedDirectory.php:365-374 | a file larger than half the upload limit is never kept, because the total already includes it |
| RedDav.StoragePath | include/RedDAV/RedDirectory.php:328 | the stored file is `store/<nick>/<hash>`, or `store/<nick>/<os_path>/<hash>` inside a folder |
| RedDav.AttachDelete | include/RedDAV/RedBrowser.php:222 | the rows of that channel and hash go, with their stored content, and no other table changes |
| DavAcl.GatePath | include/RedDAV/RedDAVACL.php:74-77 | for PUT the parent path, which joined with the last component gives the path; otherwise the path itself |
| DavAcl.RedDAVACL.BeforeMethod | include/RedDAV/RedDAVACL.php:68-160 | missing node: nothing; block_public without channel or observer: Forbidden; empty path: nothing; unknown or removed channel: NotFound; else owner id, hash and nick bound; login fields never change |
| DavAcl.RedDAVACL.GetCurrentUserPrincipal | include/RedDAV/RedDAVACL.php:170-175 | none exactly without an observer, else `principals/channels/<observer>` |
| DavAcl.PutBindsSameChannel | include/RedDAV/RedDAVACL.php:74-111 | for PUT the parent names the same channel as the target |
| Browser.BrowserTargetShape | include/RedDAV/RedBrowser.php:86-114 | the gate passes exactly non-reading methods and paths without `cloud`; a bound name has no `/`; without leading `cloud` it is the first segment of the trimmed path |
| Browser.RedBrowser.RedBeforeMethod | include/RedDAV/RedBrowser.php:77-172 | missing node or passed request: nothing; empty remainder: posting off; unknown channel: NotFound; else owner id and nick bound and posting enabled exactly with write_storage |
| Browser.RedBrowser.BindChannel | include/RedDAV/RedBrowser.php:114-135 | an unknown or removed channel is NotFound with nothing changed; a known one binds owner id and nick, leaves owner hash and identity alone, and enables posting exactly with write_storage |
| Browser.RedBrowser.RedPostAction | include/RedDAV/RedBrowser.php:180-229 | `del` fails without id, without write_storage or without the owner's row; else deletes that hash and its content; other actions succeed with no change |
| Browser.FindAttachHash | include/RedDAV/RedBrowser.php:484-497 | `""` when the owner has no row with that folder and name, else the hash of a latest-edited such row |
| Browser.FindAttachIdByHash | include/RedDAV/RedBrowser.php:508-519 | none exactly when no row has the hash, else the id of a latest-edited row with it |
| Browser.AttachHashChain | include/RedDAV/RedBrowser.php:336-345 | with more than three segments the loop computes the hash chain from index 3 starting at ""; otherwise the previous hash is kept |
| Browser.ChainFollowsFolders | include/RedDAV/RedBrowser.php:339-345 | when each name is unambiguous in the folder found before it, the chain ends at the last folder's hash |
| Browser.ChainRestartsAtRoot | include/RedDAV/RedBrowser.php:339-345 | a name missing from its folder yields "", so the chain goes on from the root |
| Browser.CloudAddressBinds | include/RedDAV/RedBrowser.php:97-114 | `cloud/<address>` binds the channel `<address>` |
| Browser.CloudPrefixBindsRest | include/RedDAV/RedBrowser.php:98-103 | the five characters of `cloud` are cut whatever follows, so `cloudy` binds `y` |
| Channels.ViewableMembers | include/RedDAV/RedChannelsCollection.php:59-70 | a channel is listed exactly when it is neither removed nor hidden and grants the observer view_storage |
| Channels.OpenChannels | include/RedDAV/RedChannelsCollection.php:64-71 | one directory per viewable channel in table order, or the exception of the first viewable channel whose directory fails, every one before it opening |
| Channels.OpenRow | include/RedDAV/RedChannelsCollection.php:64-70 | one row: a listing of the viewable rows before it grows by its directory when it is viewable and opens, stays when it is not viewable, or its exception is the first failure of the whole listing |
| Channels.ViewableFails | include/RedDAV/RedChannelsCollection.php:66-68 | a viewable channel whose directory throws, all viewable ones before it having opened, is the first failure of the listing |
| Channels.ViewableAppend | include/RedDAV/RedChannelsCollection.php:59-70 | the viewable channels of two consecutive runs of rows are those of the first followed by those of the second |
| Channels.ListedChannelsOpen | include/RedDAV/RedChannelsCollection.php:64-71 | every channel that got its directory in the listing opens |
| Channels.ViewablePosition | include/RedDAV/RedChannelsCollection.php:59-70 | a viewable row sits in the viewable list right after the viewable rows before it |
| Channels.RedChannelsCollection.GetName | include/RedDAV/RedChannelsCollection.php:113-115 | always `channelsCollection` |
| Channels.RedChannelsCollection.GetChildren | include/RedDAV/RedChannelsCollection.php:45-74 | Forbidden under either guard, else the directories of exactly the viewable channels or the exception of the first one whose constructor fails |
| Channels.RedChannelsCollection.GetChild | include/RedDAV/RedChannelsCollection.php:87-106 | Forbidden under either guard, else the directory the constructor walk opens for the name or its exception; the final NotFound is never reached |
| Channels.AddressOpensAtRoot | include/RedDAV/RedChannelsCollection.php:68 | a channel address without `/` opens at the channel's root folder |
| Channels.ViewableChannelsOpen | include/RedDAV/RedChannelsCollection.php:64-71 | when no address holds `/`, no viewable channel's directory fails |
| BasicAuth.LoginOutcome | include/RedDAV/RedBasicAuth.php:96-135 | guest exactly for a trimmed `+++`; a channel login is a default channel of the verified account or the addressed channel with an account; rejected without either |
| BasicAuth.DefaultChannelLogin | include/RedDAV/RedBasicAuth.php:103-112 | a verified account with a default channel logs in as that channel |
| BasicAuth.OkAccountSkipsPassword | include/RedDAV/RedBasicAuth.php:113-128 | in the address branch an ACCOUNT_OK account is accepted whatever the password |
| BasicAuth.AddressLoginNeedsHash | include/RedDAV/RedBasicAuth.php:116-128 | in the address branch a non-OK account is accepted exactly when UNVERIFIED with a matching salted hash |
| BasicAuth.RedBasicAuth.GetCurrentUser | include/RedDAV/RedBasicAuth.php:173-175 | the current channel name |
| BasicAuth.RedBasicAuth.GetTimezone | include/RedDAV/RedBasicAuth.php:195-197 | the current timezone |
| BasicAuth.RedBasicAuth.SetCurrentUser | include/RedDAV/RedBasicAuth.php:162-164 | `getCurrentUser` then returns the name, and no other field changes |
| BasicAuth.RedBasicAuth.SetTimezone | include/RedDAV/RedBasicAuth.php:186-188 | `getTimezone` then returns the zone, and no other field changes |
| BasicAuth.RedBasicAuth.SetAuthenticated | include/RedDAV/RedBasicAuth.php:144-153 | returns true, binds name, id, observer hash and account, sets exactly the three session keys, and leaves the owner fields alone |
| BasicAuth.RedBasicAuth.ValidateUserPass | include/RedDAV/RedBasicAuth.php:96-135 | true unless rejected; only a channel login changes the identity and session; owner fields unchanged |
| AuthBackend.BoundId | include/RedDAV/RedBasicAuthBackend.php:150 | the owner id `RedFileData` leaves: the bound channel's id, else the old one |
| AuthBackend.AnonymousGet | include/RedDAV/RedBasicAuthBackend.php:144-165 | as written: a file admits; every directory, the root included, is fatal because the directory constructor refuses the backend object; the resolver's Forbidden escapes the catch; everything else asks for credentials |
| AuthBackend.IntendedAnonymousGet | include/RedDAV/RedBasicAuthBackend.php:140-160 | as the comments intend: never fatal; a directory admits exactly with davguest when its constructor walk succeeds, its walk exception escapes otherwise; other outcomes as written |
| AuthBackend.AnonymousRoot | include/RedDAV/RedBasicAuthBackend.php:146-160 | an anonymous GET of the root always ends in the fatal error, with or without davguest |
| AuthBackend.IntendedAnonymousRoot | include/RedDAV/RedBasicAuthBackend.php:146-160 | under the intended shortcut the root gets in exactly with davguest |
| AuthBackend.DavguestRootDies | include/RedDAV/RedBasicAuthBackend.php:150-160 | the written and intended shortcuts differ only on directories, where the written one is fatal; the root with davguest is fatal as written and admitted as intended |
| AuthBackend.HiddenLeafForbidsAnonymous | include/RedDAV/RedBasicAuthBackend.php:148-164 | an anonymous GET is thrown out with Forbidden only when the channel holds a hidden row named like the leaf |
| AuthBackend.RedBasicAuthBackend.GetCurrentUser | include/RedDAV/RedBasicAuthBackend.php:270-272 | the current channel name |
| AuthBackend.RedBasicAuthBackend.GetTimezone | include/RedDAV/RedBasicAuthBackend.php:292-294 | the current timezone |
| AuthBackend.RedBasicAuthBackend.SetCurrentUser | include/RedDAV/RedBasicAuthBackend.php:259-261 | `getCurrentUser` then returns the name, and no other field changes |
| AuthBackend.RedBasicAuthBackend.SetTimezone | include/RedDAV/RedBasicAuthBackend.php:283-285 | `getTimezone` then returns the zone, and the identity is unchanged |
| AuthBackend.RedBasicAuthBackend.SetAuthenticated | include/RedDAV/RedBasicAuthBackend.php:241-250 | returns true, binds name, id, observer hash and account, and sets exactly the three session keys |
| AuthBackend.RedBasicAuthBackend.ValidateUserPass | include/RedDAV/RedBasicAuthBackend.php:192-232 | true unless rejected; only a channel login changes the identity and session |
| AuthBackend.RedBasicAuthBackend.BasicLogin | include/RedDAV/RedBasicAuthBackend.php:170-176 | NotAuthenticated without credentials or when they are rejected; otherwise success with the login made |
| AuthBackend.RedBasicAuthBackend.ObserverLogin | include/RedDAV/RedBasicAuthBackend.php:110-131 | observer bound; local channel copied (timezone only if set); Forbidden exactly when block_public and no channel id |
| AuthBackend.RedBasicAuthBackend.Shortcut | include/RedDAV/RedBasicAuthBackend.php:144-160 | the anonymous shortcut of a GET binds the owner id of the channel its first path segment names, keeping the old id when there is none, and yields the as-written probe of the resolved path; nothing else changes |
| AuthBackend.RedBasicAuthBackend.AnonymousOrBasic | include/RedDAV/RedBasicAuthBackend.php:133-179 | a GET binds the owner and tries the anonymous shortcut as written; a file admits, a directory is fatal, Forbidden escapes; anything else goes to HTTP Basic |
| AuthBackend.RedBasicAuthBackend.Authenticate | include/RedDAV/RedBasicAuthBackend.php:109-180 | with an observer the observer login, never fatal; without one the anonymous shortcut as written (a directory is fatal), then HTTP Basic |
| Cloud.DecodeUserPass | mod/cloud.php:23-30 | nothing exactly when the decoding fails or is empty; user and password hold no `:`; no password exactly when the text has no `:` |
| Cloud.BasicRoundTrip | mod/cloud.php:23-30 | a header built from colon-free user and password decodes back to both |
| Cloud.ColonTruncatesPassword | mod/cloud.php:26 | a password holding `:` is cut at it, although RFC 7617 section 2 allows colons there |
| Cloud.AuthorizationHeaderWins | mod/cloud.php:14-30 | `HTTP_AUTHORIZATION` overrides `REDIRECT_REMOTE_USER`; the redirect header only applies alone; with neither nothing changes |
| Cloud.StripDavguest | mod/cloud.php:64 | deleting the davguest matches never lengthens the text |
| Cloud.StripOnlyDeletes | mod/cloud.php:64 | the regex only deletes: the result's characters are among the text's |
| Cloud.RewriteQuery | mod/cloud.php:62-68 | with a zid stripper that never lengthens, the cleaned query is no longer than the original |
| Cloud.StripPlainPrefix | mod/cloud.php:64 | the davguest regex never touches a prefix without `?` or `&` |
| Cloud.StripPlain | mod/cloud.php:64 | text without `?` or `&` is left unchanged |
| Cloud.StripParamThenSeparator | mod/cloud.php:64 | a davguest parameter is deleted together with the `?` or `&` that closes it |
| Cloud.StripParamAtEnd | mod/cloud.php:64 | a davguest parameter at the end is deleted |
| Cloud.DavguestGluesNextParam | mod/cloud.php:68 | `p?davguest=v&q` becomes `pq`: the next parameter is glued onto the path |
| Cloud.LeadingDavguestKept | mod/cloud.php:64 | a query string that starts with `davguest=` keeps it, since no separator precedes it |
| Cloud.DoubledSeparatorKeepsSecond | mod/cloud.php:64 | `??davguest=1&davguest=2` becomes `?davguest=2` |
| Cloud.PlainQueryUnchanged | mod/cloud.php:62-64 | a query without `?`, `&` or zids passes the whole cleanup unchanged |
| Cloud.ServerVars.CgiAuthWorkaround | mod/cloud.php:14-30 | `$_SERVER` becomes the result of both header steps in order |
| Cloud.ServerVars.ApplyHeader | mod/cloud.php:23-30 | one header's decoded credentials are stored, a missing password unsetting `PHP_AUTH_PW` |
| Cloud.ServerVars.RewriteUris | mod/cloud.php:62-68 | `QUERY_STRING` and `REQUEST_URI` are both replaced by their cleaned form; nothing else changes |
| Cloud.BindObserver | mod/cloud.php:45-57 | with an observer: it is bound, and the local channel name, id and account (timezone only if set) copied; without one nothing changes |
| Cloud.HttpAuthenticate | mod/cloud.php:135-142 | NotAuthenticated without credentials or when rejected; otherwise the login is made |
| Cloud.CloudInit | mod/cloud.php:37-163 | serve at once with an observer or davguest; otherwise HTTP auth, a 401 exit exactly when it fails; the public-file probe never helps |
| Network.StatusMessage | include/network.php:269-279 | a truthy message is kept; an empty one becomes `Error` from 400 and `OK` for 2xx, else stays empty |
| Network.ChunkLength | include/network.php:842-855 | a multiple of 4 that, when positive, fits an encoded word into 75 characters; at least 4 for names up to 62 bytes |
| Network.Utf8ChunkLength | include/network.php:842-855 | 60 for UTF-8 |
| Network.RemoveTrailing | include/network.php:864-865 | one trailing spacer is removed, and a text without one is kept |
| Network.EmailHeaderEncode | include/network.php:820-869 | unchanged without a NUL or byte above 128 or with an empty charset; otherwise the encoded words of `base64_encode($in)` |
| Network.ChunkSplitJoins | include/network.php:859-865 | `chunk_split` gives the spacer-joined chunks plus one spacer, and removing that spacer leaves the join |
| Network.ChunkSizes | include/network.php:855-860 | every chunk but the last has exactly the chunk length; the last is at most that and not empty |
| Network.ChunksConcat | include/network.php:859-860 | the chunks put back together give the base64 text |
| Network.EncodedHeaderShape | include/network.php:833-868 | encoded words of at most 75 characters, none empty and none holding `?`, whose chunks joined are exactly `base64_encode($in)` |
| Network.Fnmatch | include/network.php:528 | glibc `fnmatch` without flags (`*`, `?`, bracket expressions with `!`/`^` and ranges, `\` escapes): a match of a pattern without `*` is never longer than the pattern |
| Network.SkipBracket | include/network.php:528 | skipping the rest of a bracket expression after a hit stops just past its `]`, or loses when there is none |
| Network.ScanBracket | include/network.php:528 | scanning a bracket expression hits or misses just past its closing `]` |
| Network.FnmatchLiteral | include/network.php:528 | a pattern without `*`, `?`, `[` or `\` matches exactly itself |
| Network.FnmatchStar | include/network.php:528 | `*` matches everything |
| Network.FnmatchStarSuffix | include/network.php:528 | `*` plus a suffix without `*`, `?`, `[` or `\` matches anything ending in it |
| Network.FnmatchBracketSet | include/network.php:528 | `[set]` matches one character exactly when it is in the set |
| Network.FnmatchNegatedSet | include/network.php:528 | `[!set]` matches one character exactly when it is not in the set |
| Network.FnmatchRange | include/network.php:528 | `[lo-hi]` matches one character exactly when it lies between `lo` and `hi` |
| Network.FnmatchEscapedStar | include/network.php:528 | `\*` matches a literal `*` only |
| Network.MatchAllowList | include/network.php:523-534 | the loop finds a match exactly when some trimmed, lowercased entry accepts the subject |
| Network.EmailDomain | include/network.php:512 | the lowercased text after the first `@` is never longer than the address |
| Network.EmailDomainWithoutAt | include/network.php:512 | without `@` the domain is the address minus its first character |
| Network.EmailDomainAt | include/network.php:512 | with `@` the domain is the lowercased host |
| Network.AllowedEmail | include/network.php:509-535 | empty domain refused, unset list allows, otherwise some entry must accept the domain |
| Network.AllowedUrl | include/network.php:467-501 | unparsable refused, unset list allows, own host allowed, otherwise some entry must accept the host |
| Network.SingleEntryList | include/network.php:489-500 | a list of one entry without `*`, `?`, `[` or `\` allows exactly that trimmed, lowercased name |
| Base64.Encode | include/network.php:859 | `base64_encode` output is four characters per started group of three bytes |
| Base64.Decode | mod/cloud.php:24 | PHP 5 non-strict `base64_decode`: on success three bytes per four alphabet digits read before the first NUL, never more bytes than characters |
| Base64.NulEndsInput | mod/cloud.php:24 | whatever follows a NUL does not change the decoding |
| Base64.LonePadFails | mod/cloud.php:24 | a `=` after a single digit of a group makes the decoding fail |
| Base64.DecodeEncode | mod/cloud.php:24 | decoding what was encoded succeeds and gives the bytes back |
| Base64.EncodeAlphabet | include/network.php:859 | the encoding holds alphabet digits and `=` only |
| Principals.SelectedContacts | include/RedDAV/RedPrincipalBackend.php:54-60 | exactly the contact rows the WHERE clause keeps |
| Principals.GroupByHash | include/RedDAV/RedPrincipalBackend.php:56 | one row per hash: only input rows, distinct hashes, every hash kept |
| Principals.GroupRows | include/RedDAV/RedPrincipalBackend.php:74-76 | exactly the local channel's non-deleted groups |
| Principals.GetPrincipalsByPrefix | include/RedDAV/RedPrincipalBackend.php:48-94 | channels prefix: one entry per contact row; collections prefix: one per group row; any other prefix NotFound |
| Principals.ContactEntries | include/RedDAV/RedPrincipalBackend.php:63-69 | entry i is uri `principals/channels/<hash>` with the name, for row i |
| Principals.GroupEntries | include/RedDAV/RedPrincipalBackend.php:79-85 | entry i is uri `principals/collections/<hash>` with the name, for row i |
| Principals.FirstWithUri | include/RedDAV/RedPrincipalBackend.php:114-118 | an entry with the uri, and none exactly when no entry has it |
| Principals.GetPrincipalByPath | include/RedDAV/RedPrincipalBackend.php:107-121 | the first principal under the parent prefix with that uri, null when none, NotFound for a bad prefix |
| Principals.UpdatePrincipal | include/RedDAV/RedPrincipalBackend.php:139-141 | always false |
| Principals.GetGroupMembership | include/RedDAV/RedPrincipalBackend.php:202-207 | NotFound exactly when the principal is not found |
| Principals.ContactListedIff | include/RedDAV/RedPrincipalBackend.php:54-70 | a hash has a contact principal exactly when a selected contact row has it |
| Principals.ContactUrisDistinct | include/RedDAV/RedPrincipalBackend.php:56-69 | the contact principals have distinct uris |
| Principals.ForeignBareContactListed | include/RedDAV/RedPrincipalBackend.php:55 | by AND/OR precedence a flagless contact of another channel is listed too |
| Principals.OwnEntryNotSelected | include/RedDAV/RedPrincipalBackend.php:55 | a channel's own address-book entry is never selected |
| Principals.GroupPrincipalsAreOwnGroups | include/RedDAV/RedPrincipalBackend.php:74-85 | every collection principal is a non-deleted group of the local channel |
| Principals.PrincipalFoundByOwnUri | include/RedDAV/RedPrincipalBackend.php:114-118 | looking a listed principal up by its uri finds an entry with that uri |

## Left out

- Logging, `notice`, hooks (`call_hooks`) and the form security token check of `redPostAction`: they change no modelled state.
- `ORDER BY` of listings without a row limit and SQL collation: the Postgres `ORDER BY filename` of `getChildren` (include/RedDAV/RedDirectory.php:182), the principal and group listings. Order and case of the result are not modelled; listings come in table order.
- Which row `GROUP BY` / `DISTINCT ON` or a `LIMIT 1` without `ORDER BY` returns: `Store.GroupByFilename` keeps the last row of each name and `Store.First` the first matching row, and the properties hold for any choice.
- PHP's loose `==` between strings and numbers: all comparisons are exact.
- Integer widths: ids, sizes and the quota sum are unbounded naturals.
- The SabreDAV framework: request dispatch, `nodeExists`, `URLUtil::splitPath` (split at the last `/`), the lock and temporary-file plugins, and `getHTTPCode`.
- Collaborators passed as parameters, not implemented: `permissions_sql`, `perm_is_allowed`, `get_all_perms`, `get_config`, `service_class_fetch`, `account_verify_password`, `hash('whirlpool', ·)`, `urldecode`, `strip_zids`, `parse_url`, `z_mime_content_type`, `random_string`, `datetime_convert`, `file_put_contents`, `disk_*_space`, `attach_mkdir`.
- RedDav.AttachDelete: removes the rows of that channel and hash and the blob keyed by the hash; the recursion of `attach_delete` into a folder's children is not modelled.
- The store is a map from attachment hash to a byte count, not a file system. The `store` directory creation in `cloud_init` is left out.
- The branches after `explode` returns a falsy array (`if (! $path_arr)`): `explode` always returns at least one element, so they cannot be reached.
- `owner_hash` is a dynamic property the ACL gate adds; before it is set the model reads it as `""`.
- HTML generation of the directory index, `htmlActionsPanel`, `getAssetUrl`, the floating-point quota percentage, and the JavaScript UI.
- The message argument of `http_status_exit` and the process exit: `Cloud.CloudInit` reports only the status code.
- `getGroupMemberSet` has the same body as `getGroupMembership`, so one member, Principals.GetGroupMembership, models both.
- `searchPrincipals` and `setGroupMemberSet` have empty bodies; they are left out.
- Channels.RedChannelsCollection.GetChild: the early `return` of the directory constructor for a falsy `explode` result is unreachable and is not modelled.
- AuthBackend.RedBasicAuthBackend.AnonymousOrBasic: the shortcut's `RedFileData` call is used through the pure `Tree.Resolve` together with the owner id it binds. A directory outcome is the fatal error of the directory constructor's type hint, which ends the request; nothing after it is modelled.
- `RedFile` (the file node) is not part of this model: a listed or resolved file is a plain node holding its name and row. Its constructor is taken to accept any `$auth` (no class type hint), so an anonymous GET of a file admits.
- Network.Fnmatch: inside a bracket expression the character classes `[:name:]`, equivalence classes `[=c=]` and collating symbols `[.c.]` are read as ordinary characters, and ranges compare code points (the C locale).
- Channels.Viewable: its own contract is only a length bound; the membership property is stated by Channels.ViewableMembers.
- PHP 7: its non-strict `base64_decode` reads past a NUL and ignores every `=`, and `split()` (include/RedDAV/RedBrowser.php:338) is undefined there. Base64.Decode and Browser.AttachHashChain follow PHP 5. A failed class type hint is an uncaught `TypeError` in PHP 7, so AuthBackend.AnonymousGet's fatal outcome holds in both.
- The network I/O, XML parsing, image scaling and mail sending in `include/network.php`.

## Findings

| source | as written | input that shows it | evidently intended | confidence | as-written member | corrected member |
|---|---|---|---|---|---|---|
| include/RedDAV/RedBasicAuthBackend.php:150-160 | `RedFileData($path, $this)` passes the backend, but every directory it returns is built by `new RedDirectory(..., $auth)`, whose constructor takes only a `RedBasicAuth` (include/RedDAV/RedDirectory.php:8, :56); the request dies and `davguest` never admits a directory | an anonymous GET of `/` with `davguest` in the session | a directory, the root included, admits exactly when `davguest` is set, as the comments at lines 140-141 and 156-158 say | high; not executed | AuthBackend.AnonymousGet, AuthBackend.DavguestRootDies | AuthBackend.IntendedAnonymousGet, AuthBackend.IntendedAnonymousRoot |
