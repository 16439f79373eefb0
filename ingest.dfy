/**
 * What `insert_items` (src/pgdb.py:130-226) does to the tables, as functions
 * over `Schema.State`, and what is proved about it: the invariant is kept,
 * stored GUIDs are skipped, a second ingestion of the same feed adds nothing,
 * and get-or-create leaves one row per author and keyword with a link to it.
 */
module Ingest {
  import opened Common
  import opened Feed
  import opened Schema

  /**
   * The two library calls the loop relies on, as partial functions:
   * `str(uuid.UUID(guid))` and `datetime.strptime(published, ...).isoformat()`;
   * `None` means the call raised.
   */
  datatype Parsers = Parsers(normalize: string -> Option<string>, parseDate: string -> Option<string>)

  /** The GUID an entry is stored under, or `None` when it has none or it does not parse. */
  function NormalizedGuid(e: Entry, p: Parsers): Option<string>
  {
    if e.guid.Some? then p.normalize(e.guid.value) else None
  }

  /** `entry.enclosures[0]` when there is one, otherwise `{}`. */
  function FirstEnclosure(e: Entry): Enclosure
  {
    if e.enclosures.Some? && |e.enclosures.value| > 0 then e.enclosures.value[0] else Enclosure(None, None, None)
  }

  /**
   * The column values of a new item (src/pgdb.py:177-193): a missing title, an
   * unparsable `published` date or an empty `content` list raises; every other
   * absent field is stored as NULL.
   */
  function ItemColumns(e: Entry, p: Parsers): (r: Result<Columns, Fault>)
    ensures r.Err? <==>
      e.title.None? || (e.published.Some? && p.parseDate(e.published.value).None?) || e.content == Some([])
    ensures r.Ok? ==>
      r.value.title == e.title.value && r.value.description == e.description && r.value.link == e.link &&
      r.value.itunesTitle == e.itunesTitle && r.value.itunesDuration == e.itunesDuration &&
      r.value.itunesSummary == e.summary && r.value.itunesSubtitle == e.subtitle &&
      r.value.itunesEpisodeType == e.itunesEpisodeType && r.value.itunesEpisode == e.itunesEpisode
    ensures r.Ok? ==>
      (e.published.None? ==> r.value.pubDate.None?) &&
      (e.published.Some? ==> r.value.pubDate.Some? && r.value.pubDate == p.parseDate(e.published.value))
    ensures r.Ok? ==>
      (e.content.None? ==> r.value.contentEncoded.None?) &&
      (e.content.Some? ==> |e.content.value| > 0 && r.value.contentEncoded == Some(e.content.value[0]))
    ensures r.Ok? ==>
      (e.itunesExplicit.None? ==> r.value.itunesExplicit.None?) &&
      (e.itunesExplicit.Some? ==> r.value.itunesExplicit == Some(e.itunesExplicit.value == "true"))
    ensures r.Ok? ==>
      r.value.enclosureLength == FirstEnclosure(e).length && r.value.enclosureType == FirstEnclosure(e).mimeType &&
      r.value.enclosureUrl == FirstEnclosure(e).url
    ensures r.Ok? ==> (e.enclosures.None? || e.enclosures == Some([])) ==>
      r.value.enclosureLength.None? && r.value.enclosureType.None? && r.value.enclosureUrl.None?
  {
    if e.title.None? then Err(MissingAttribute("title"))
    else if e.published.Some? && p.parseDate(e.published.value).None? then Err(InvalidDate)
    else if e.content == Some([]) then Err(EmptyContent)
    else
      var enclosure := FirstEnclosure(e);
      Ok(Columns(
        e.title.value,
        e.description,
        if e.published.Some? then p.parseDate(e.published.value) else None,
        e.link,
        if e.content.Some? then Some(e.content.value[0]) else None,
        enclosure.length,
        enclosure.mimeType,
        enclosure.url,
        e.itunesTitle,
        e.itunesDuration,
        e.summary,
        e.subtitle,
        if e.itunesExplicit.Some? then Some(e.itunesExplicit.value == "true") else None,
        e.itunesEpisodeType,
        e.itunesEpisode))
  }

  /** The author names to get-or-create, each present. */
  function AsNames(names: seq<string>): (r: seq<Option<string>>)
    ensures |r| == |names|
  {
    if names == [] then [] else [Some(names[0])] + AsNames(names[1..])
  }

  /** The `term` of each tag; `None` where a tag has none. */
  function Terms(tags: seq<Tag>): (r: seq<Option<string>>)
    ensures |r| == |tags|
  {
    if tags == [] then [] else [tags[0].term] + Terms(tags[1..])
  }

  lemma {:induction false} AsNamesAt(names: seq<string>, k: nat)
    requires k < |names|
    ensures AsNames(names)[k] == Some(names[k])
  {
    if k > 0 {
      AsNamesAt(names[1..], k - 1);
    }
  }

  lemma {:induction false} TermsAt(tags: seq<Tag>, k: nat)
    requires k < |tags|
    ensures Terms(tags)[k] == tags[k].term
  {
    if k > 0 {
      TermsAt(tags[1..], k - 1);
    }
  }

  /**
   * Get-or-create one author or keyword and link it to the item
   * (src/pgdb.py:203-210 and 215-223). `None` is a tag without a term.
   */
  function LinkOne(s: State, f: Facet, itemId: nat, name: Option<string>): Result<State, Fault>
  {
    if name.None? then Err(MissingKey("term"))
    else
      match InsertName(s, f, name.value)
      case Err(x) => Err(x)
      case Ok((s1, Some(id))) => InsertLink(s1, f, itemId, id)
      case Ok((s1, None)) =>
        match SelectNameId(s1, f, name.value)
        case Err(x) => Err(x)
        case Ok(None) => Err(NoRow)
        case Ok(Some(id)) => InsertLink(s1, f, itemId, id)
  }

  /** The `for author in authors` and `for keyword in keywords` loops. */
  function LinkAll(s: State, f: Facet, itemId: nat, names: seq<Option<string>>): Result<State, Fault>
    decreases |names|
  {
    if names == [] then Ok(s)
    else
      match LinkOne(s, f, itemId, names[0])
      case Err(x) => Err(x)
      case Ok(s1) => LinkAll(s1, f, itemId, names[1..])
  }

  /** An entry whose GUID is not stored yet: insert the item, then link its authors, then its keywords. */
  function AddEntry(s: State, guid: string, e: Entry, p: Parsers): Result<State, Fault>
  {
    match ItemColumns(e, p)
    case Err(x) => Err(x)
    case Ok(columns) =>
      match InsertItem(s, guid, columns)
      case Err(x) => Err(x)
      case Ok((s1, id)) =>
        match LinkAll(s1, Author, id, AsNames(AuthorNames(e)))
        case Err(x) => Err(x)
        case Ok(s2) => LinkAll(s2, Keyword, id, Terms(EntryTags(e)))
  }

  /** One iteration of `for entry in feed.entries` (src/pgdb.py:170-223). */
  function IngestEntry(s: State, e: Entry, p: Parsers): Result<State, Fault>
  {
    if e.guid.None? then Err(MissingAttribute("guid"))
    else
      match p.normalize(e.guid.value)
      case None => Err(InvalidGuid)
      case Some(guid) =>
        match SelectItemId(s, guid)
        case Err(x) => Err(x)
        case Ok(Some(_)) => Ok(s)
        case Ok(None) => AddEntry(s, guid, e, p)
  }

  /** The whole loop: entries in document order, the first fault ends the batch. */
  function IngestAll(s: State, entries: seq<Entry>, p: Parsers): Result<State, Fault>
    decreases |entries|
  {
    if entries == [] then Ok(s)
    else
      match IngestEntry(s, entries[0], p)
      case Err(x) => Err(x)
      case Ok(s1) => IngestAll(s1, entries[1..], p)
  }

  // ---------------------------------------------------------------- growth

  ghost predicate NamesExtend(m: map<string, nat>, n: map<string, nat>)
  {
    forall k :: k in m ==> k in n && n[k] == m[k]
  }

  /** Ingestion only adds: no table appears or disappears, no stored row changes or goes away. */
  ghost predicate Grows(s: State, t: State)
  {
    t.present == s.present &&
    (forall g :: g in s.items ==> g in t.items && t.items[g] == s.items[g]) &&
    NamesExtend(s.authors, t.authors) && NamesExtend(s.keywords, t.keywords) &&
    s.authorMap <= t.authorMap && s.keywordMap <= t.keywordMap
  }

  // ---------------------------------------------------------------- get-or-create

  /**
   * Get-or-create of one name: afterwards the name has exactly its one row,
   * reused when it was there and created with the next SERIAL id when it was
   * not, and one link row from the item to that id is added.
   */
  lemma LinkOneGetOrCreate(s: State, f: Facet, itemId: nat, name: string)
    requires Valid(s) && LinkOne(s, f, itemId, Some(name)).Ok?
    ensures var t := LinkOne(s, f, itemId, Some(name)).value;
      Valid(t) && name in Names(t, f) &&
      Names(t, f) == (if name in Names(s, f) then Names(s, f) else Names(s, f)[name := Serial(s, f) + 1]) &&
      (name !in Names(s, f) ==> Serial(s, f) + 1 !in Names(s, f).Values) &&
      Links(t, f) == Links(s, f) + {Link(itemId, Names(t, f)[name])} &&
      t.items == s.items && t.present == s.present &&
      Names(t, Other(f)) == Names(s, Other(f)) && Links(t, Other(f)) == Links(s, Other(f))
  {
    InsertNameKeepsValid(s, f, name);
    var (s1, r) := InsertName(s, f, name).value;
    var id := if r.Some? then r.value else Names(s1, f)[name];
    InsertLinkKeepsValid(s1, f, itemId, id);
  }

  /**
   * With the link table in place and the item stored, get-or-create fails
   * exactly when the item is already linked to that name: the foreign-key
   * and NULL-row faults cannot happen.
   */
  lemma LinkOneFailsIff(s: State, f: Facet, itemId: nat, name: string)
    requires Valid(s) && MapTable(f) in s.present && itemId in ItemIds(s)
    ensures LinkOne(s, f, itemId, Some(name)).Err? <==>
      name in Names(s, f) && Link(itemId, Names(s, f)[name]) in Links(s, f)
  {
    FacetOf(s, f);
    InsertNameKeepsValid(s, f, name);
    var (s1, r) := InsertName(s, f, name).value;
    if name in Names(s, f) {
      assert Names(s1, f)[name] in Names(s1, f).Values;
    } else {
      assert Link(itemId, r.value) !in Links(s, f);
      assert Names(s1, f)[name] == r.value;
      assert r.value in Names(s1, f).Values;
    }
  }

  /**
   * From `s` to `t` only facet `f`'s tables changed: names were added, never
   * renamed or removed, and every new link row starts at `itemId`.
   */
  ghost predicate LinksFrom(s: State, t: State, f: Facet, itemId: nat)
  {
    Valid(t) && t.items == s.items && t.present == s.present &&
    NamesExtend(Names(s, f), Names(t, f)) && Links(s, f) <= Links(t, f) &&
    (forall l :: l in Links(t, f) && l !in Links(s, f) ==> l.itemId == itemId) &&
    Names(t, Other(f)) == Names(s, Other(f)) && Links(t, Other(f)) == Links(s, Other(f))
  }

  /** Every name in the list exists in `t` and the item is linked to it. */
  ghost predicate AllLinked(t: State, f: Facet, itemId: nat, names: seq<Option<string>>)
  {
    forall k :: 0 <= k < |names| ==>
      names[k].Some? && names[k].value in Names(t, f) && Link(itemId, Names(t, f)[names[k].value]) in Links(t, f)
  }

  /** The names a list of author names or tag terms holds. */
  ghost function Present(names: seq<Option<string>>): set<string>
  {
    set k | 0 <= k < |names| && names[k].Some? :: names[k].value
  }

  lemma PresentCons(names: seq<Option<string>>)
    requires |names| > 0 && names[0].Some?
    ensures Present(names) == {names[0].value} + Present(names[1..])
  {
    forall n | n in Present(names) ensures n in {names[0].value} + Present(names[1..]) {
      var k :| 0 <= k < |names| && names[k].Some? && names[k].value == n;
      if k > 0 {
        assert names[1..][k - 1] == names[k];
      }
    }
    forall n | n in Present(names[1..]) ensures n in Present(names) {
      var k :| 0 <= k < |names[1..]| && names[1..][k].Some? && names[1..][k].value == n;
      assert names[k + 1] == names[1..][k];
    }
  }

  /** The author names of an entry, as the loop sees them. */
  lemma PresentAuthors(names: seq<string>)
    ensures Present(AsNames(names)) == set n | n in names
  {
    forall n | n in Present(AsNames(names)) ensures n in names {
      var k :| 0 <= k < |AsNames(names)| && AsNames(names)[k].Some? && AsNames(names)[k].value == n;
      AsNamesAt(names, k);
    }
    forall n | n in names ensures n in Present(AsNames(names)) {
      var k :| 0 <= k < |names| && names[k] == n;
      AsNamesAt(names, k);
    }
  }

  /** The tag terms of an entry, as the loop sees them. */
  lemma PresentTerms(tags: seq<Tag>)
    ensures Present(Terms(tags)) == set g | g in tags && g.term.Some? :: g.term.value
  {
    forall n | n in Present(Terms(tags)) ensures exists g :: g in tags && g.term == Some(n) {
      var k :| 0 <= k < |Terms(tags)| && Terms(tags)[k].Some? && Terms(tags)[k].value == n;
      TermsAt(tags, k);
      assert tags[k] in tags;
    }
    forall g | g in tags && g.term.Some? ensures g.term.value in Present(Terms(tags)) {
      var k :| 0 <= k < |tags| && tags[k] == g;
      TermsAt(tags, k);
    }
  }

  lemma LinksFromTrans(s: State, s1: State, t: State, f: Facet, itemId: nat)
    requires LinksFrom(s, s1, f, itemId) && LinksFrom(s1, t, f, itemId)
    ensures LinksFrom(s, t, f, itemId)
  {
  }

  /** The loop adds exactly the names of the list that were missing: one new row per absent name. */
  lemma {:induction false} LinkAllNames(s: State, f: Facet, itemId: nat, names: seq<Option<string>>)
    requires Valid(s) && LinkAll(s, f, itemId, names).Ok?
    ensures var t := LinkAll(s, f, itemId, names).value;
      Valid(t) && Names(t, f).Keys == Names(s, f).Keys + Present(names) &&
      Names(t, Other(f)) == Names(s, Other(f))
    decreases |names|
  {
    if names != [] {
      LinkOneGetOrCreate(s, f, itemId, names[0].value);
      var s1 := LinkOne(s, f, itemId, names[0]).value;
      LinkAllNames(s1, f, itemId, names[1..]);
      PresentCons(names);
    }
  }

  /** The link loop keeps the invariant, only adds, and links the item to every name in the list. */
  lemma {:induction false} LinkAllEffect(s: State, f: Facet, itemId: nat, names: seq<Option<string>>)
    requires Valid(s) && LinkAll(s, f, itemId, names).Ok?
    ensures var t := LinkAll(s, f, itemId, names).value;
      LinksFrom(s, t, f, itemId) && AllLinked(t, f, itemId, names)
    decreases |names|
  {
    var t := LinkAll(s, f, itemId, names).value;
    if names == [] {
      assert t == s;
    } else {
      var name := names[0].value;
      LinkOneGetOrCreate(s, f, itemId, name);
      var s1 := LinkOne(s, f, itemId, names[0]).value;
      assert LinksFrom(s, s1, f, itemId);
      LinkAllEffect(s1, f, itemId, names[1..]);
      assert t == LinkAll(s1, f, itemId, names[1..]).value;
      LinksFromTrans(s, s1, t, f, itemId);
      assert name in Names(t, f) && Names(t, f)[name] == Names(s1, f)[name];
      forall k | 0 <= k < |names|
        ensures names[k].Some? && names[k].value in Names(t, f) && Link(itemId, Names(t, f)[names[k].value]) in Links(t, f)
      {
        if k > 0 {
          assert names[k] == names[1..][k - 1];
        }
      }
    }
  }

  /** Once the item is linked to a name, a later occurrence of that name in the loop raises. */
  lemma {:induction false} LinkAllHitsLinked(s: State, f: Facet, itemId: nat, names: seq<Option<string>>, name: string)
    requires Valid(s) && MapTable(f) in s.present && itemId in ItemIds(s)
    requires Some(name) in names && name in Names(s, f) && Link(itemId, Names(s, f)[name]) in Links(s, f)
    ensures LinkAll(s, f, itemId, names).Err?
    decreases |names|
  {
    if names[0] == Some(name) {
      LinkOneFailsIff(s, f, itemId, name);
    } else if names[0].Some? && LinkOne(s, f, itemId, names[0]).Ok? {
      LinkOneGetOrCreate(s, f, itemId, names[0].value);
      var s1 := LinkOne(s, f, itemId, names[0]).value;
      assert Some(name) in names[1..];
      assert ItemIds(s1) == ItemIds(s);
      LinkAllHitsLinked(s1, f, itemId, names[1..], name);
    }
  }

  /** Every name is present (every tag has a term) and none repeats. */
  ghost predicate PresentAndDistinct(names: seq<Option<string>>)
  {
    (forall k :: 0 <= k < |names| ==> names[k].Some?) &&
    (forall i, j :: 0 <= i < j < |names| ==> names[i] != names[j])
  }

  /** None of the names still to come is already linked to the item. */
  ghost predicate Unlinked(s: State, f: Facet, itemId: nat, names: seq<Option<string>>)
  {
    forall k :: 0 <= k < |names| && names[k].Some? && names[k].value in Names(s, f) ==>
      Link(itemId, Names(s, f)[names[k].value]) !in Links(s, f)
  }

  /**
   * For an item with no links yet, the link loop succeeds exactly when every
   * name is present and no name repeats: a repeated author or term violates
   * the link table's primary key and raises.
   */
  lemma {:induction false} LinkAllSucceedsIff(s: State, f: Facet, itemId: nat, names: seq<Option<string>>)
    requires Valid(s) && MapTable(f) in s.present && itemId in ItemIds(s) && Unlinked(s, f, itemId, names)
    ensures LinkAll(s, f, itemId, names).Ok? <==> PresentAndDistinct(names)
    decreases |names|
  {
    if names == [] {
    } else if names[0].None? {
      assert !PresentAndDistinct(names);
    } else {
      var n := names[0].value;
      LinkOneFailsIff(s, f, itemId, n);
      LinkOneGetOrCreate(s, f, itemId, n);
      var s1 := LinkOne(s, f, itemId, names[0]).value;
      var rest := names[1..];
      assert ItemIds(s1) == ItemIds(s);
      FacetOf(s1, f);
      if Some(n) in rest {
        LinkAllHitsLinked(s1, f, itemId, rest, n);
        var j :| 0 <= j < |rest| && rest[j] == Some(n);
        assert names[0] == names[j + 1];
      } else {
        forall k | 0 <= k < |rest| && rest[k].Some? && rest[k].value in Names(s1, f)
          ensures Link(itemId, Names(s1, f)[rest[k].value]) !in Links(s1, f)
        {
          var m := rest[k].value;
          assert names[k + 1] == rest[k];
          assert m != n;
          assert m in Names(s, f);
          NamesInjective(s1, f, m, n);
        }
        LinkAllSucceedsIff(s1, f, itemId, rest);
        if PresentAndDistinct(rest) {
          forall i, j | 0 <= i < j < |names| ensures names[i] != names[j] {
            if i > 0 {
              assert names[i] == rest[i - 1] && names[j] == rest[j - 1];
            } else {
              assert names[j] == rest[j - 1];
            }
          }
        } else if PresentAndDistinct(names) {
          assert forall k :: 0 <= k < |rest| ==> rest[k] == names[k + 1];
        }
      }
    }
  }

  // ---------------------------------------------------------------- one entry

  /** An entry whose normalised GUID is already stored adds no row of any kind. */
  lemma IngestEntrySkipsStored(s: State, e: Entry, p: Parsers)
    requires NormalizedGuid(e, p).Some? && PodcastItem in s.present && NormalizedGuid(e, p).value in s.items
    ensures IngestEntry(s, e, p) == Ok(s)
  {
  }

  /**
   * A new entry adds exactly one item, under its GUID and with a fresh id, and
   * every link row it adds goes from that id to an author or keyword row that
   * exists: one per author name and one per tag term.
   */
  lemma AddEntryEffect(s: State, guid: string, e: Entry, p: Parsers)
    requires Valid(s) && AddEntry(s, guid, e, p).Ok?
    ensures var t := AddEntry(s, guid, e, p).value;
      Valid(t) && Grows(s, t) && guid !in s.items && guid in t.items &&
      t.items == s.items[guid := t.items[guid]] &&
      t.items[guid].id !in ItemIds(s) &&
      t.items[guid].columns == ItemColumns(e, p).value &&
      (forall n :: n in AuthorNames(e) ==>
         n in t.authors && Link(t.items[guid].id, t.authors[n]) in t.authorMap) &&
      (forall k :: 0 <= k < |EntryTags(e)| ==>
         EntryTags(e)[k].term.Some? && EntryTags(e)[k].term.value in t.keywords &&
         Link(t.items[guid].id, t.keywords[EntryTags(e)[k].term.value]) in t.keywordMap) &&
      (forall l :: l in t.authorMap && l !in s.authorMap ==> l.itemId == t.items[guid].id) &&
      (forall l :: l in t.keywordMap && l !in s.keywordMap ==> l.itemId == t.items[guid].id)
  {
    var columns := ItemColumns(e, p).value;
    InsertItemKeepsValid(s, guid, columns);
    var (s1, id) := InsertItem(s, guid, columns).value;
    var authors := AsNames(AuthorNames(e));
    var terms := Terms(EntryTags(e));
    LinkAllEffect(s1, Author, id, authors);
    var s2 := LinkAll(s1, Author, id, authors).value;
    LinkAllEffect(s2, Keyword, id, terms);
    var t := LinkAll(s2, Keyword, id, terms).value;
    assert t.items[guid].id == id;
    forall n | n in AuthorNames(e)
      ensures n in t.authors && Link(id, t.authors[n]) in t.authorMap
    {
      var k :| 0 <= k < |AuthorNames(e)| && AuthorNames(e)[k] == n;
      AsNamesAt(AuthorNames(e), k);
    }
    forall k | 0 <= k < |EntryTags(e)|
      ensures EntryTags(e)[k].term.Some? && EntryTags(e)[k].term.value in t.keywords &&
              Link(id, t.keywords[EntryTags(e)[k].term.value]) in t.keywordMap
    {
      TermsAt(EntryTags(e), k);
    }
  }

  /**
   * The only author and keyword rows a new entry adds are for its own names
   * that were missing: afterwards the names are exactly the old ones plus the
   * entry's authors and tag terms.
   */
  lemma AddEntryNames(s: State, guid: string, e: Entry, p: Parsers)
    requires Valid(s) && AddEntry(s, guid, e, p).Ok?
    ensures var t := AddEntry(s, guid, e, p).value;
      t.authors.Keys == s.authors.Keys + (set n | n in AuthorNames(e)) &&
      t.keywords.Keys == s.keywords.Keys + (set g | g in EntryTags(e) && g.term.Some? :: g.term.value)
  {
    var columns := ItemColumns(e, p).value;
    InsertItemKeepsValid(s, guid, columns);
    var (s1, id) := InsertItem(s, guid, columns).value;
    var authors := AsNames(AuthorNames(e));
    var terms := Terms(EntryTags(e));
    LinkAllNames(s1, Author, id, authors);
    var s2 := LinkAll(s1, Author, id, authors).value;
    LinkAllNames(s2, Keyword, id, terms);
    PresentAuthors(AuthorNames(e));
    PresentTerms(EntryTags(e));
  }

  /** An item id that is not stored has no link rows. */
  lemma FreshIdUnlinked(s: State, f: Facet, id: nat, names: seq<Option<string>>)
    requires Valid(s) && id !in ItemIds(s)
    ensures Unlinked(s, f, id, names)
  {
    FacetOf(s, f);
  }

  /**
   * With all five tables in place, a new entry whose columns map is stored
   * exactly when its author names are distinct and its tags all have distinct
   * terms; a repeat violates a link table's primary key and raises.
   */
  lemma AddEntrySucceedsIff(s: State, guid: string, e: Entry, p: Parsers)
    requires Valid(s) && AllTables <= s.present && guid !in s.items && ItemColumns(e, p).Ok?
    ensures AddEntry(s, guid, e, p).Ok? <==>
      PresentAndDistinct(AsNames(AuthorNames(e))) && PresentAndDistinct(Terms(EntryTags(e)))
  {
    var columns := ItemColumns(e, p).value;
    InsertItemKeepsValid(s, guid, columns);
    var (s1, id) := InsertItem(s, guid, columns).value;
    var authors := AsNames(AuthorNames(e));
    var terms := Terms(EntryTags(e));
    assert id in ItemIds(s1);
    FreshIdUnlinked(s, Author, id, authors);
    LinkAllSucceedsIff(s1, Author, id, authors);
    if LinkAll(s1, Author, id, authors).Ok? {
      LinkAllEffect(s1, Author, id, authors);
      var s2 := LinkAll(s1, Author, id, authors).value;
      FreshIdUnlinked(s, Keyword, id, terms);
      assert Links(s2, Keyword) == Links(s, Keyword) && Names(s2, Keyword) == Names(s, Keyword);
      LinkAllSucceedsIff(s2, Keyword, id, terms);
    }
  }

  /** One entry keeps the invariant, only adds rows, and leaves its GUID stored. */
  lemma IngestEntryEffect(s: State, e: Entry, p: Parsers)
    requires Valid(s) && IngestEntry(s, e, p).Ok?
    ensures var t := IngestEntry(s, e, p).value;
      Valid(t) && Grows(s, t) && PodcastItem in s.present &&
      NormalizedGuid(e, p).Some? && NormalizedGuid(e, p).value in t.items
  {
    var guid := NormalizedGuid(e, p).value;
    if guid !in s.items {
      AddEntryEffect(s, guid, e, p);
    }
  }

  // ---------------------------------------------------------------- the batch

  /**
   * A successful batch keeps the invariant (GUID, name and id uniqueness,
   * referential integrity), only adds rows, and leaves every entry's GUID stored.
   */
  lemma {:induction false} IngestAllEffect(s: State, entries: seq<Entry>, p: Parsers)
    requires Valid(s) && IngestAll(s, entries, p).Ok?
    ensures var t := IngestAll(s, entries, p).value;
      Valid(t) && Grows(s, t) && (|entries| > 0 ==> PodcastItem in s.present) &&
      forall k :: 0 <= k < |entries| ==>
        NormalizedGuid(entries[k], p).Some? && NormalizedGuid(entries[k], p).value in t.items
    decreases |entries|
  {
    if entries != [] {
      IngestEntryEffect(s, entries[0], p);
      var s1 := IngestEntry(s, entries[0], p).value;
      IngestAllEffect(s1, entries[1..], p);
      var t := IngestAll(s, entries, p).value;
      forall k | 0 <= k < |entries|
        ensures NormalizedGuid(entries[k], p).Some? && NormalizedGuid(entries[k], p).value in t.items
      {
        if k > 0 {
          assert entries[k] == entries[1..][k - 1];
        }
      }
    }
  }

  /** When every entry's GUID is already stored the batch changes nothing. */
  lemma {:induction false} AllStoredSkips(t: State, entries: seq<Entry>, p: Parsers)
    requires PodcastItem in t.present
    requires forall k :: 0 <= k < |entries| ==>
      NormalizedGuid(entries[k], p).Some? && NormalizedGuid(entries[k], p).value in t.items
    ensures IngestAll(t, entries, p) == Ok(t)
    decreases |entries|
  {
    if entries != [] {
      IngestEntrySkipsStored(t, entries[0], p);
      forall k | 0 <= k < |entries[1..]|
        ensures NormalizedGuid(entries[1..][k], p).Some? && NormalizedGuid(entries[1..][k], p).value in t.items
      {
        assert entries[1..][k] == entries[k + 1];
      }
      AllStoredSkips(t, entries[1..], p);
    }
  }

  /** Ingesting the same feed a second time adds nothing. */
  lemma IngestTwiceAddsNothing(s: State, entries: seq<Entry>, p: Parsers)
    requires Valid(s) && IngestAll(s, entries, p).Ok?
    ensures IngestAll(IngestAll(s, entries, p).value, entries, p) == IngestAll(s, entries, p)
  {
    IngestAllEffect(s, entries, p);
    var t := IngestAll(s, entries, p).value;
    if entries != [] {
      AllStoredSkips(t, entries, p);
    }
  }

  /** The batch is a left fold: one more entry runs on the state the others left. */
  lemma {:induction false} IngestAllAppend(s: State, entries: seq<Entry>, e: Entry, p: Parsers)
    ensures IngestAll(s, entries + [e], p) ==
      match IngestAll(s, entries, p)
      case Err(x) => Err(x)
      case Ok(t) => IngestEntry(t, e, p)
    decreases |entries|
  {
    if entries == [] {
      assert [e][1..] == [];
    } else {
      assert (entries + [e])[0] == entries[0];
      assert (entries + [e])[1..] == entries[1..] + [e];
      if IngestEntry(s, entries[0], p).Ok? {
        IngestAllAppend(IngestEntry(s, entries[0], p).value, entries[1..], e, p);
      }
    }
  }

  /** A GUID that repeats later in the same feed is skipped the second time. */
  lemma RepeatedGuidSkipped(s: State, entries: seq<Entry>, e: Entry, p: Parsers, i: nat)
    requires Valid(s) && i < |entries|
    requires NormalizedGuid(entries[i], p).Some? && NormalizedGuid(e, p) == NormalizedGuid(entries[i], p)
    ensures IngestAll(s, entries + [e], p) == IngestAll(s, entries, p)
  {
    IngestAllAppend(s, entries, e, p);
    if IngestAll(s, entries, p).Ok? {
      IngestAllEffect(s, entries, p);
      IngestEntrySkipsStored(IngestAll(s, entries, p).value, e, p);
    }
  }

  /**
   * Deleting an item right after it was ingested removes it and every link it
   * added, and leaves the author and keyword rows it created.
   */
  lemma DeleteUndoesAddEntry(s: State, guid: string, e: Entry, p: Parsers)
    requires Valid(s) && AddEntry(s, guid, e, p).Ok?
    ensures var t := AddEntry(s, guid, e, p).value;
      DeleteItem(t, guid).Ok? &&
      var (u, count) := DeleteItem(t, guid).value;
      count == 1 && u.items == s.items && u.authorMap == s.authorMap && u.keywordMap == s.keywordMap &&
      u.authors == t.authors && u.keywords == t.keywords
  {
    AddEntryEffect(s, guid, e, p);
    var t := AddEntry(s, guid, e, p).value;
    DeleteItemCascades(t, guid);
    var (u, count) := DeleteItem(t, guid).value;
    var id := t.items[guid].id;
    FacetOf(s, Author);
    FacetOf(s, Keyword);
    assert u.items == s.items;
    assert u.authorMap == s.authorMap;
    assert u.keywordMap == s.keywordMap;
  }
}
