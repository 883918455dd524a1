/**
 * The principal backend (include/RedDAV/RedPrincipalBackend.php): the
 * contacts of the local channel as `principals/channels/<hash>` and its
 * privacy groups as `principals/collections/<hash>`, and lookups over them.
 */
module Principals {
  import opened Wrappers
  import opened PhpString
  import opened Store

  const ChannelsPrefix: string := "principals/channels"
  const CollectionsPrefix: string := "principals/collections"

  /** `ABOOK_FLAG_SELF`, the bit marking a channel's own address-book entry (defined in boot.php, not part of this model). */
  const ABOOK_FLAG_SELF: nat := 0x80

  /** `(flags & bit) > 0` for a single-bit `bit`. */
  predicate HasBit(flags: nat, bit: nat)
    requires bit > 0
  {
    (flags / bit) % 2 == 1
  }

  /** A principal as the backend returns it: its `uri` and `{DAV:}displayname`. */
  datatype PrincipalEntry = PrincipalEntry(uri: string, displayName: string)

  /**
   * The contact query's `WHERE abook_flags = 0 OR NOT (abook_flags & SELF) > 0
   * AND abook_channel = local`. AND binds tighter than OR, so a contact
   * without flags qualifies whichever channel it belongs to.
   */
  predicate Selected(c: Contact, local: nat) {
    c.abookFlags == 0 || (!HasBit(c.abookFlags, ABOOK_FLAG_SELF) && c.abookChannel == local)
  }

  /** The contact rows the WHERE clause keeps, in table order. */
  function SelectedContacts(cs: seq<Contact>, local: nat): (r: seq<Contact>)
    ensures forall c :: c in r <==> c in cs && Selected(c, local)
  {
    if cs == [] then []
    else
      var rest := SelectedContacts(cs[1..], local);
      assert forall c :: c in cs <==> c == cs[0] || c in cs[1..];
      if Selected(cs[0], local) then [cs[0]] + rest else rest
  }

  /** The hashes of `cs`. */
  function Hashes(cs: seq<Contact>): set<string> {
    set c | c in cs :: c.xchanHash
  }

  /**
   * `GROUP BY xchan_hash`: one row per hash, the first in table order (the
   * server may pick any row of the group; this model fixes the first).
   * Hashes in `seen` are already taken.
   */
  function GroupByHash(cs: seq<Contact>, seen: set<string>): (r: seq<Contact>)
    ensures forall c :: c in r ==> c in cs && c.xchanHash !in seen
    ensures forall i, j :: 0 <= i < j < |r| ==> r[i].xchanHash != r[j].xchanHash
    ensures Hashes(r) == Hashes(cs) - seen
  {
    if cs == [] then []
    else
      var rest := GroupByHash(cs[1..], seen + {cs[0].xchanHash});
      assert forall c :: c in cs <==> c == cs[0] || c in cs[1..];
      if cs[0].xchanHash in seen then
        var r := GroupByHash(cs[1..], seen);
        assert Hashes(cs) - seen == Hashes(cs[1..]) - seen;
        r
      else
        assert Hashes(cs) - seen == {cs[0].xchanHash} + (Hashes(cs[1..]) - (seen + {cs[0].xchanHash}));
        [cs[0]] + rest
  }

  /** The rows of the contact query for the local channel `local` (ORDER BY aside). */
  function ContactRows(cs: seq<Contact>, local: nat): seq<Contact> {
    GroupByHash(SelectedContacts(cs, local), {})
  }

  /** The groups query: the non-deleted groups of `local`, in table order (ORDER BY aside). */
  function GroupRows(gs: seq<Group>, local: nat): (r: seq<Group>)
    ensures forall g :: g in r <==> g in gs && !g.deleted && g.uid == local
  {
    if gs == [] then []
    else
      var rest := GroupRows(gs[1..], local);
      assert forall g :: g in gs <==> g == gs[0] || g in gs[1..];
      if !gs[0].deleted && gs[0].uid == local then [gs[0]] + rest else rest
  }

  /** The entry `getPrincipalsByPrefix` builds for a contact row. */
  function ContactEntry(c: Contact): PrincipalEntry {
    PrincipalEntry(ChannelsPrefix + "/" + c.xchanHash, c.xchanName)
  }

  /** The entry `getPrincipalsByPrefix` builds for a group row. */
  function GroupEntry(g: Group): PrincipalEntry {
    PrincipalEntry(CollectionsPrefix + "/" + g.hash, g.name)
  }

  /** What `getPrincipalsByPrefix` yields: the entries, or the exception thrown. */
  datatype Listing = Entries(entries: seq<PrincipalEntry>) | Refused(error: DavError)

  /** What `getPrincipalByPath` returns: the entry, or `null`, or the exception of the prefix lookup. */
  datatype Lookup = Found(entry: PrincipalEntry) | Null | LookupFailed(error: DavError)

  /**
   * `getPrincipalsByPrefix($prefixPath)` for local channel `local` (0 when
   * there is none): one entry per contact row under `principals/channels`,
   * one per group row under `principals/collections`, NotFound for any other
   * prefix. The plugin hooks are not modelled.
   */
  method GetPrincipalsByPrefix(prefix: string, contacts: seq<Contact>, groups: seq<Group>, local: nat)
    returns (r: Listing)
    ensures prefix == ChannelsPrefix ==> r.Entries? && r.entries == ContactEntries(ContactRows(contacts, local))
    ensures prefix == CollectionsPrefix ==> r.Entries? && r.entries == GroupEntries(GroupRows(groups, local))
    ensures prefix != ChannelsPrefix && prefix != CollectionsPrefix ==> r == Refused(NotFound)
  {
    var principals: seq<PrincipalEntry> := [];
    if prefix == ChannelsPrefix {
      var rows := ContactRows(contacts, local);
      var i := 0;
      while i < |rows|
        invariant 0 <= i <= |rows|
        invariant principals == ContactEntries(rows[..i])
      {
        ContactEntriesSnoc(rows, i);
        principals := principals + [ContactEntry(rows[i])];
        i := i + 1;
      }
      assert rows[..i] == rows;
    } else if prefix == CollectionsPrefix {
      var rows := GroupRows(groups, local);
      var i := 0;
      while i < |rows|
        invariant 0 <= i <= |rows|
        invariant principals == GroupEntries(rows[..i])
      {
        GroupEntriesSnoc(rows, i);
        principals := principals + [GroupEntry(rows[i])];
        i := i + 1;
      }
      assert rows[..i] == rows;
    } else {
      return Refused(NotFound);
    }
    r := Entries(principals);
  }

  /** The entries of contact rows, index by index. */
  function ContactEntries(rows: seq<Contact>): (r: seq<PrincipalEntry>)
    ensures |r| == |rows| && forall i :: 0 <= i < |rows| ==> r[i] == ContactEntry(rows[i])
  {
    if rows == [] then [] else ContactEntries(rows[..|rows| - 1]) + [ContactEntry(rows[|rows| - 1])]
  }

  /** The entries of group rows, index by index. */
  function GroupEntries(rows: seq<Group>): (r: seq<PrincipalEntry>)
    ensures |r| == |rows| && forall i :: 0 <= i < |rows| ==> r[i] == GroupEntry(rows[i])
  {
    if rows == [] then [] else GroupEntries(rows[..|rows| - 1]) + [GroupEntry(rows[|rows| - 1])]
  }

  lemma ContactEntriesSnoc(rows: seq<Contact>, i: nat)
    requires i < |rows|
    ensures ContactEntries(rows[..i + 1]) == ContactEntries(rows[..i]) + [ContactEntry(rows[i])]
  {
    assert rows[..i + 1][..i] == rows[..i];
  }

  lemma GroupEntriesSnoc(rows: seq<Group>, i: nat)
    requires i < |rows|
    ensures GroupEntries(rows[..i + 1]) == GroupEntries(rows[..i]) + [GroupEntry(rows[i])]
  {
    assert rows[..i + 1][..i] == rows[..i];
  }

  /** The first entry of `es` whose uri is `path`. */
  function FirstWithUri(es: seq<PrincipalEntry>, path: string): (r: Option<PrincipalEntry>)
    ensures r.Some? ==> r.value in es && r.value.uri == path
    ensures r.None? <==> forall e :: e in es ==> e.uri != path
  {
    if es == [] then None
    else if es[0].uri == path then Some(es[0])
    else
      assert forall e :: e in es <==> e == es[0] || e in es[1..];
      FirstWithUri(es[1..], path)
  }

  /**
   * `getPrincipalByPath($path)`: the principals under the parent of `path`
   * are scanned in order, and the first whose uri is `path` is returned;
   * `null` when there is none; the prefix lookup's NotFound propagates.
   */
  method GetPrincipalByPath(path: string, contacts: seq<Contact>, groups: seq<Group>, local: nat)
    returns (r: Lookup)
    ensures var prefix := SplitPath(path).0;
      if prefix != ChannelsPrefix && prefix != CollectionsPrefix then r == LookupFailed(NotFound)
      else
        var es := if prefix == ChannelsPrefix then ContactEntries(ContactRows(contacts, local))
                  else GroupEntries(GroupRows(groups, local));
        match FirstWithUri(es, path)
        case Some(e) => r == Found(e)
        case None => r == Null
  {
    var (prefix, _) := SplitPath(path);
    var ps := GetPrincipalsByPrefix(prefix, contacts, groups, local);
    if ps.Refused? {
      return LookupFailed(ps.error);
    }
    var es := ps.entries;
    var i := 0;
    while i < |es|
      invariant 0 <= i <= |es|
      invariant FirstWithUri(es, path) == FirstWithUri(es[i..], path)
    {
      assert es[i..][1..] == es[i + 1..];
      if es[i].uri == path {
        return Found(es[i]);
      }
      i := i + 1;
    }
    r := Null;
  }

  /** `updatePrincipal($path, $propPatch)`: no property is ever updated. */
  function UpdatePrincipal(path: string): (ok: bool)
    ensures !ok
  {
    false
  }

  /**
   * `getGroupMembership($principal)`, and equally `getGroupMemberSet`, whose
   * body is the same: NotFound unless the principal is found,
   * otherwise no result (`None`, PHP's implicit `null`). A failed prefix
   * lookup also ends as NotFound.
   */
  method GetGroupMembership(principal: string, contacts: seq<Contact>, groups: seq<Group>, local: nat)
    returns (r: Option<DavError>)
    ensures var prefix := SplitPath(principal).0;
      var found := (prefix == ChannelsPrefix && FirstWithUri(ContactEntries(ContactRows(contacts, local)), principal).Some?)
                || (prefix == CollectionsPrefix && FirstWithUri(GroupEntries(GroupRows(groups, local)), principal).Some?);
      r == if found then None else Some(NotFound)
  {
    var p := GetPrincipalByPath(principal, contacts, groups, local);
    if !p.Found? {
      return Some(NotFound);
    }
    r := None;
  }

  // ---------------------------------------------------------------- properties

  /**
   * A contact hash has a principal under `principals/channels` exactly when
   * some contact row with that hash passes the WHERE clause, and then only one.
   */
  lemma ContactListedIff(cs: seq<Contact>, local: nat, h: string)
    ensures (exists e :: e in ContactEntries(ContactRows(cs, local)) && e.uri == ChannelsPrefix + "/" + h)
      <==> (exists c :: c in cs && Selected(c, local) && c.xchanHash == h)
  {
    var sel := SelectedContacts(cs, local);
    var rows := ContactRows(cs, local);
    assert Hashes(rows) == Hashes(sel);
    if exists e :: e in ContactEntries(rows) && e.uri == ChannelsPrefix + "/" + h {
      ListedHasRow(rows, h);
    }
    if exists c :: c in cs && Selected(c, local) && c.xchanHash == h {
      var c :| c in cs && Selected(c, local) && c.xchanHash == h;
      assert c.xchanHash in Hashes(sel);
      RowIsListed(rows, h);
    }
  }

  /** A contact uri in the entries of `rows` comes from a row with that hash. */
  lemma ListedHasRow(rows: seq<Contact>, h: string)
    requires exists e :: e in ContactEntries(rows) && e.uri == ChannelsPrefix + "/" + h
    ensures h in Hashes(rows)
  {
    var es := ContactEntries(rows);
    var e :| e in es && e.uri == ChannelsPrefix + "/" + h;
    var i :| 0 <= i < |es| && es[i] == e;
    PrefixedInjective(ChannelsPrefix, rows[i].xchanHash, h);
    assert rows[i] in rows;
  }

  /** A hash of `rows` has its contact uri among their entries. */
  lemma RowIsListed(rows: seq<Contact>, h: string)
    requires h in Hashes(rows)
    ensures exists e :: e in ContactEntries(rows) && e.uri == ChannelsPrefix + "/" + h
  {
    var es := ContactEntries(rows);
    var d :| d in rows && d.xchanHash == h;
    var i :| 0 <= i < |rows| && rows[i] == d;
    assert es[i] in es;
  }

  /** The same prefix and `/` in front of two hashes give the same uri only for the same hash. */
  lemma PrefixedInjective(prefix: string, h1: string, h2: string)
    requires prefix + "/" + h1 == prefix + "/" + h2
    ensures h1 == h2
  {
    var n := |prefix| + 1;
    assert h1 == (prefix + "/" + h1)[n..];
    assert h2 == (prefix + "/" + h2)[n..];
  }

  /** The contact principals have distinct uris: `GROUP BY xchan_hash` keeps one row per hash. */
  lemma ContactUrisDistinct(cs: seq<Contact>, local: nat)
    ensures var es := ContactEntries(ContactRows(cs, local));
      forall i, j :: 0 <= i < j < |es| ==> es[i].uri != es[j].uri
  {
    var rows := ContactRows(cs, local);
    var es := ContactEntries(rows);
    forall i, j | 0 <= i < j < |es| ensures es[i].uri != es[j].uri {
      if es[i].uri == es[j].uri {
        PrefixedInjective(ChannelsPrefix, rows[i].xchanHash, rows[j].xchanHash);
      }
    }
  }

  /**
   * Because of the operator precedence in the WHERE clause, a contact of any
   * other channel is listed as well when its flags are 0.
   */
  lemma ForeignBareContactListed(cs: seq<Contact>, local: nat, c: Contact)
    requires c in cs && c.abookFlags == 0 && c.abookChannel != local
    ensures exists e :: e in ContactEntries(ContactRows(cs, local)) && e.uri == ChannelsPrefix + "/" + c.xchanHash
  {
    ContactListedIff(cs, local, c.xchanHash);
  }

  /** A channel's own address-book entry (the SELF flag set) is never selected. */
  lemma OwnEntryNotSelected(c: Contact, local: nat)
    requires HasBit(c.abookFlags, ABOOK_FLAG_SELF)
    ensures !Selected(c, local)
  {
  }

  /** Every collection principal is a group of the local channel that is not deleted. */
  lemma GroupPrincipalsAreOwnGroups(gs: seq<Group>, local: nat, e: PrincipalEntry)
    requires e in GroupEntries(GroupRows(gs, local))
    ensures exists g :: g in gs && !g.deleted && g.uid == local && e == GroupEntry(g)
  {
    var rows := GroupRows(gs, local);
    var es := GroupEntries(rows);
    var i :| 0 <= i < |es| && es[i] == e;
    assert rows[i] in rows;
  }

  /** Looking a listed principal up by its own uri finds an entry with that uri (the first one). */
  lemma PrincipalFoundByOwnUri(es: seq<PrincipalEntry>, e: PrincipalEntry)
    requires e in es
    ensures FirstWithUri(es, e.uri).Some? && FirstWithUri(es, e.uri).value.uri == e.uri
  {
  }
}
