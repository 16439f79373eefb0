/**
 * The five tables created at src/pgdb.py:86-124, held in memory, and the
 * effect of each SQL statement that the persistence layer issues on them.
 *
 * Rows are kept by their business key: `podcast_item` by its UNIQUE guid,
 * `podcast_author` and `podcast_keyword` by their UNIQUE name and keyword;
 * the SERIAL ids are the values, and `Valid` states that they stay distinct
 * and that every link row resolves to an existing row on both sides.
 */
module Schema {
  import opened Common

  datatype TableName = PodcastItem | PodcastAuthor | PodcastKeyword | PodcastAuthorMap | PodcastKeywordMap

  const AllTables: set<TableName> := {PodcastItem, PodcastAuthor, PodcastKeyword, PodcastAuthorMap, PodcastKeywordMap}

  /** What an operation can raise. */
  datatype Fault =
    | MissingAttribute(name: string)      // AttributeError reading a feed entry
    | MissingKey(key: string)             // KeyError reading a tag
    | EmptyContent                        // IndexError on `entry.content[0]`
    | InvalidGuid                         // `uuid.UUID(guid)` rejected the guid
    | InvalidDate                         // `datetime.strptime` rejected `published`
    | NoRow                               // `fetchone()` gave None and was subscripted
    | InvalidUuidText                     // the database could not read a uuid literal
    | UndefinedTable(table: TableName)
    | UniqueViolation(table: TableName)
    | ForeignKeyViolation(table: TableName)

  /** The columns of `podcast_item` besides `id` and `guid`; `None` is SQL NULL. */
  datatype Columns = Columns(
    title: string,
    description: Option<string>,
    pubDate: Option<string>,
    link: Option<string>,
    contentEncoded: Option<string>,
    enclosureLength: Option<string>,
    enclosureType: Option<string>,
    enclosureUrl: Option<string>,
    itunesTitle: Option<string>,
    itunesDuration: Option<string>,
    itunesSummary: Option<string>,
    itunesSubtitle: Option<string>,
    itunesExplicit: Option<bool>,
    itunesEpisodeType: Option<string>,
    itunesEpisode: Option<string>)

  datatype Item = Item(id: nat, columns: Columns)

  /** A row of `podcast_author_map` or `podcast_keyword_map`: (podcast_item_id, author_id or keyword_id). */
  datatype Link = Link(itemId: nat, targetId: nat)

  /** The two get-or-create dimensions of an item: its authors and its keywords. */
  datatype Facet = Author | Keyword

  /**
   * The database as one transaction sees it: which tables exist, their rows,
   * and the last value handed out by each SERIAL sequence.
   */
  datatype State = State(
    present: set<TableName>,
    items: map<string, Item>,
    authors: map<string, nat>,
    keywords: map<string, nat>,
    authorMap: set<Link>,
    keywordMap: set<Link>,
    itemSerial: nat,
    authorSerial: nat,
    keywordSerial: nat)

  /** The database before `create_cv_tables` ever ran: no tables. */
  const Empty: State := State({}, map[], map[], map[], {}, {}, 0, 0, 0)

  function NameTable(f: Facet): TableName
  {
    match f
    case Author => PodcastAuthor
    case Keyword => PodcastKeyword
  }

  function MapTable(f: Facet): TableName
  {
    match f
    case Author => PodcastAuthorMap
    case Keyword => PodcastKeywordMap
  }

  function Names(s: State, f: Facet): map<string, nat>
  {
    match f
    case Author => s.authors
    case Keyword => s.keywords
  }

  function Links(s: State, f: Facet): set<Link>
  {
    match f
    case Author => s.authorMap
    case Keyword => s.keywordMap
  }

  function Serial(s: State, f: Facet): nat
  {
    match f
    case Author => s.authorSerial
    case Keyword => s.keywordSerial
  }

  /** The other facet. */
  function Other(f: Facet): Facet
  {
    match f
    case Author => Keyword
    case Keyword => Author
  }

  /** `s` with facet `f`'s name table and sequence replaced; nothing else changes. */
  function WithNames(s: State, f: Facet, m: map<string, nat>, serial: nat): (r: State)
    ensures Names(r, f) == m && Serial(r, f) == serial
    ensures Names(r, Other(f)) == Names(s, Other(f)) && Serial(r, Other(f)) == Serial(s, Other(f))
    ensures Links(r, Author) == Links(s, Author) && Links(r, Keyword) == Links(s, Keyword)
    ensures r.items == s.items && r.itemSerial == s.itemSerial && r.present == s.present
  {
    match f
    case Author => s.(authors := m, authorSerial := serial)
    case Keyword => s.(keywords := m, keywordSerial := serial)
  }

  /** `s` with facet `f`'s link table replaced; nothing else changes. */
  function WithLinks(s: State, f: Facet, links: set<Link>): (r: State)
    ensures Links(r, f) == links && Links(r, Other(f)) == Links(s, Other(f))
    ensures Names(r, Author) == Names(s, Author) && Names(r, Keyword) == Names(s, Keyword)
    ensures Serial(r, Author) == Serial(s, Author) && Serial(r, Keyword) == Serial(s, Keyword)
    ensures r.items == s.items && r.itemSerial == s.itemSerial && r.present == s.present
  {
    match f
    case Author => s.(authorMap := links)
    case Keyword => s.(keywordMap := links)
  }

  function ItemIds(s: State): set<nat>
  {
    set g | g in s.items :: s.items[g].id
  }

  // ---------------------------------------------------------------- invariants

  /** No two items share an id. */
  ghost predicate DistinctIds(items: map<string, Item>)
  {
    forall g, h :: g in items && h in items && items[g].id == items[h].id ==> g == h
  }

  /** No two names share an id. */
  ghost predicate DistinctValues(m: map<string, nat>)
  {
    forall n, k :: n in m && k in m && m[n] == m[k] ==> n == k
  }

  lemma DistinctIdsAdd(items: map<string, Item>, guid: string, item: Item)
    requires DistinctIds(items) && guid !in items
    requires forall g :: g in items ==> items[g].id != item.id
    ensures DistinctIds(items[guid := item])
  {
  }

  lemma DistinctValuesAdd(m: map<string, nat>, name: string, id: nat)
    requires DistinctValues(m) && name !in m && id !in m.Values
    ensures DistinctValues(m[name := id])
  {
  }

  /** Adding a name keeps every id that was already in use. */
  lemma ValuesGrow(m: map<string, nat>, name: string, id: nat)
    requires name !in m
    ensures m.Values <= m[name := id].Values
  {
    forall v | v in m.Values ensures v in m[name := id].Values {
      var n :| n in m && m[n] == v;
      assert m[name := id][n] == v;
    }
  }

  /**
   * `podcast_item`: no rows while the table is missing; SERIAL ids positive,
   * at most the sequence's last value, and distinct (the PRIMARY KEY).
   */
  ghost predicate ItemsValid(s: State)
  {
    (PodcastItem !in s.present ==> s.items == map[]) &&
    (forall g :: g in s.items ==> 1 <= s.items[g].id <= s.itemSerial) &&
    DistinctIds(s.items)
  }

  /**
   * One name table and its link table: no rows while missing; the link table
   * exists only beside the tables its foreign keys reference; SERIAL ids as for
   * items; and every link row resolves on both sides (src/pgdb.py:116-123).
   */
  ghost predicate FacetValid(s: State, f: Facet)
  {
    (NameTable(f) !in s.present ==> Names(s, f) == map[]) &&
    (MapTable(f) !in s.present ==> Links(s, f) == {}) &&
    (MapTable(f) in s.present ==> PodcastItem in s.present && NameTable(f) in s.present) &&
    (forall n :: n in Names(s, f) ==> 1 <= Names(s, f)[n] <= Serial(s, f)) &&
    DistinctValues(Names(s, f)) &&
    (forall l :: l in Links(s, f) ==> l.itemId in ItemIds(s) && l.targetId in Names(s, f).Values)
  }

  ghost predicate Valid(s: State)
  {
    ItemsValid(s) && FacetValid(s, Author) && FacetValid(s, Keyword)
  }

  lemma EmptyValid()
    ensures Valid(Empty)
  {
  }

  // ---------------------------------------------------------------- statements

  /** `SELECT id FROM podcast_item WHERE guid = %s` */
  function SelectItemId(s: State, guid: string): Result<Option<nat>, Fault>
  {
    if PodcastItem !in s.present then Err(UndefinedTable(PodcastItem))
    else if guid in s.items then Ok(Some(s.items[guid].id))
    else Ok(None)
  }

  /** `INSERT INTO podcast_item (...) VALUES (...) RETURNING id` */
  function InsertItem(s: State, guid: string, columns: Columns): Result<(State, nat), Fault>
  {
    if PodcastItem !in s.present then Err(UndefinedTable(PodcastItem))
    else if guid in s.items then Err(UniqueViolation(PodcastItem))
    else
      var id := s.itemSerial + 1;
      Ok((s.(items := s.items[guid := Item(id, columns)], itemSerial := id), id))
  }

  /**
   * `INSERT INTO podcast_author (name) VALUES (%s) ON CONFLICT (name) DO NOTHING RETURNING id`,
   * and the same for `podcast_keyword`: the sequence hands out a value either
   * way, and an id comes back only when a row was inserted.
   */
  function InsertName(s: State, f: Facet, name: string): Result<(State, Option<nat>), Fault>
  {
    if NameTable(f) !in s.present then Err(UndefinedTable(NameTable(f)))
    else
      var id := Serial(s, f) + 1;
      if name in Names(s, f) then Ok((WithNames(s, f, Names(s, f), id), None))
      else Ok((WithNames(s, f, Names(s, f)[name := id], id), Some(id)))
  }

  /** `SELECT id FROM podcast_author WHERE name = %s`, and the same for `podcast_keyword`. */
  function SelectNameId(s: State, f: Facet, name: string): Result<Option<nat>, Fault>
  {
    if NameTable(f) !in s.present then Err(UndefinedTable(NameTable(f)))
    else if name in Names(s, f) then Ok(Some(Names(s, f)[name]))
    else Ok(None)
  }

  /** `INSERT INTO podcast_author_map (podcast_item_id, author_id) VALUES (%s, %s)`, and the keyword map. */
  function InsertLink(s: State, f: Facet, itemId: nat, targetId: nat): Result<State, Fault>
  {
    if MapTable(f) !in s.present then Err(UndefinedTable(MapTable(f)))
    else if Link(itemId, targetId) in Links(s, f) then Err(UniqueViolation(MapTable(f)))
    else if itemId !in ItemIds(s) || targetId !in Names(s, f).Values then Err(ForeignKeyViolation(MapTable(f)))
    else Ok(WithLinks(s, f, Links(s, f) + {Link(itemId, targetId)}))
  }

  /**
   * `DELETE FROM podcast_item WHERE guid = %s` with ON DELETE CASCADE on both
   * link tables; the second component is the row count.
   */
  function DeleteItem(s: State, guid: string): Result<(State, nat), Fault>
  {
    if PodcastItem !in s.present then Err(UndefinedTable(PodcastItem))
    else if guid !in s.items then Ok((s, 0))
    else
      var id := s.items[guid].id;
      Ok((s.(items := s.items - {guid},
             authorMap := (set l | l in s.authorMap && l.itemId != id),
             keywordMap := (set l | l in s.keywordMap && l.itemId != id)), 1))
  }

  /** `DROP TABLE IF EXISTS <all five> CASCADE`: the tables and their sequences are gone. */
  function DropAll(s: State): State
  {
    Empty
  }

  /** `CREATE TABLE IF NOT EXISTS` for each table: a missing table is created empty, with a new sequence. */
  function CreateMissing(s: State): State
  {
    State(
      AllTables,
      if PodcastItem in s.present then s.items else map[],
      if PodcastAuthor in s.present then s.authors else map[],
      if PodcastKeyword in s.present then s.keywords else map[],
      if PodcastAuthorMap in s.present then s.authorMap else {},
      if PodcastKeywordMap in s.present then s.keywordMap else {},
      if PodcastItem in s.present then s.itemSerial else 0,
      if PodcastAuthor in s.present then s.authorSerial else 0,
      if PodcastKeyword in s.present then s.keywordSerial else 0)
  }

  /** The body of `create_cv_tables(drop)` (src/pgdb.py:80-125). */
  function CreateTables(s: State, drop: bool): State
  {
    CreateMissing(if drop then DropAll(s) else s)
  }

  // ---------------------------------------------------------------- lemmas

  /** Two rows of a name table never share an id. */
  lemma NamesInjective(s: State, f: Facet, n: string, m: string)
    requires Valid(s) && n in Names(s, f) && m in Names(s, f) && n != m
    ensures Names(s, f)[n] != Names(s, f)[m]
  {
    assert FacetValid(s, f) by { if f == Author {} else {} }
  }

  /** Valid holds facet by facet. */
  lemma FacetOf(s: State, f: Facet)
    requires Valid(s)
    ensures FacetValid(s, f)
  {
    if f == Author {} else {}
  }

  /** The insert hands out a fresh id, adds exactly the new row, and keeps the invariant. */
  lemma InsertItemKeepsValid(s: State, guid: string, columns: Columns)
    requires Valid(s) && InsertItem(s, guid, columns).Ok?
    ensures var (t, id) := InsertItem(s, guid, columns).value;
      Valid(t) && id !in ItemIds(s) && ItemIds(t) == ItemIds(s) + {id} &&
      t.items == s.items[guid := Item(id, columns)] && guid !in s.items &&
      t.present == s.present && t.authors == s.authors && t.keywords == s.keywords &&
      t.authorMap == s.authorMap && t.keywordMap == s.keywordMap
  {
    var (t, id) := InsertItem(s, guid, columns).value;
    assert id !in ItemIds(s);
    DistinctIdsAdd(s.items, guid, Item(id, columns));
    assert ItemIds(t) == ItemIds(s) + {id} by {
      forall x | x in ItemIds(s) ensures x in ItemIds(t) {
        var g :| g in s.items && s.items[g].id == x;
        assert t.items[g].id == x;
      }
      assert t.items[guid].id == id;
    }
  }

  /** The conflict-tolerant insert either finds the name or adds it with a fresh id, and keeps the invariant. */
  lemma InsertNameKeepsValid(s: State, f: Facet, name: string)
    requires Valid(s) && InsertName(s, f, name).Ok?
    ensures var (t, r) := InsertName(s, f, name).value;
      Valid(t) && NameTable(f) in s.present &&
      (r.Some? <==> name !in Names(s, f)) &&
      (name in Names(s, f) ==> Names(t, f) == Names(s, f)) &&
      (name !in Names(s, f) ==>
         r == Some(Serial(s, f) + 1) && Names(t, f) == Names(s, f)[name := r.value] &&
         r.value !in Names(s, f).Values) &&
      Serial(t, f) == Serial(s, f) + 1 &&
      t.items == s.items && t.present == s.present &&
      Links(t, Author) == Links(s, Author) && Links(t, Keyword) == Links(s, Keyword) &&
      Names(t, Other(f)) == Names(s, Other(f)) && Serial(t, Other(f)) == Serial(s, Other(f))
  {
    FacetOf(s, f);
    var id := Serial(s, f) + 1;
    assert id !in Names(s, f).Values;
    if name !in Names(s, f) {
      var m := Names(s, f)[name := id];
      DistinctValuesAdd(Names(s, f), name, id);
      ValuesGrow(Names(s, f), name, id);
      WithNamesKeepsValid(s, f, m, id);
      assert InsertName(s, f, name) == Ok((WithNames(s, f, m, id), Some(id)));
    } else {
      WithNamesKeepsValid(s, f, Names(s, f), id);
      assert InsertName(s, f, name) == Ok((WithNames(s, f, Names(s, f), id), None));
    }
  }

  /**
   * Replacing one facet's name table by a larger one with distinct ids, all
   * within a sequence that did not go back, keeps the invariant.
   */
  lemma WithNamesKeepsValid(s: State, f: Facet, m: map<string, nat>, serial: nat)
    requires Valid(s) && NameTable(f) in s.present && Serial(s, f) <= serial
    requires DistinctValues(m) && Names(s, f).Values <= m.Values
    requires forall n :: n in m ==> 1 <= m[n] <= serial
    ensures Valid(WithNames(s, f, m, serial))
  {
    var t := WithNames(s, f, m, serial);
    FacetOf(s, Other(f));
    assert FacetValid(t, Other(f));
    assert FacetValid(s, f) by { FacetOf(s, f); }
    assert FacetValid(t, f);
    match f
    case Author =>
    case Keyword =>
  }

  /** A link row is added only when both its ends exist, and the invariant is kept. */
  lemma InsertLinkKeepsValid(s: State, f: Facet, itemId: nat, targetId: nat)
    requires Valid(s) && InsertLink(s, f, itemId, targetId).Ok?
    ensures var t := InsertLink(s, f, itemId, targetId).value;
      Valid(t) && Links(t, f) == Links(s, f) + {Link(itemId, targetId)} &&
      t.items == s.items && t.present == s.present &&
      Names(t, Author) == Names(s, Author) && Names(t, Keyword) == Names(s, Keyword) &&
      Serial(t, Author) == Serial(s, Author) && Serial(t, Keyword) == Serial(s, Keyword) &&
      Links(t, Other(f)) == Links(s, Other(f))
  {
    var t := InsertLink(s, f, itemId, targetId).value;
    FacetOf(s, f);
    FacetOf(s, Other(f));
    assert ItemIds(t) == ItemIds(s);
    assert FacetValid(t, f);
    assert FacetValid(t, Other(f));
    if f == Author {} else {}
  }

  /**
   * Deleting by guid removes that item and, by cascade, exactly its link rows;
   * authors and keywords stay; a guid that is not stored changes nothing.
   */
  lemma DeleteItemCascades(s: State, guid: string)
    requires Valid(s)
    ensures DeleteItem(s, guid).Err? <==> PodcastItem !in s.present
    ensures DeleteItem(s, guid).Ok? ==>
      var (t, count) := DeleteItem(s, guid).value;
      Valid(t) && t.items == s.items - {guid} &&
      count == (if guid in s.items then 1 else 0) &&
      (guid !in s.items ==> t == s) &&
      t.present == s.present && t.authors == s.authors && t.keywords == s.keywords &&
      (forall l :: l in t.authorMap <==> l in s.authorMap && (guid in s.items ==> l.itemId != s.items[guid].id)) &&
      (forall l :: l in t.keywordMap <==> l in s.keywordMap && (guid in s.items ==> l.itemId != s.items[guid].id))
  {
    if PodcastItem in s.present && guid in s.items {
      var (t, count) := DeleteItem(s, guid).value;
      var id := s.items[guid].id;
      forall f, l | l in Links(t, f) ensures l.itemId in ItemIds(t) {
        FacetOf(s, f);
        assert l in Links(s, f) && l.itemId != id by { if f == Author {} else {} }
        var g :| g in s.items && s.items[g].id == l.itemId;
        assert g != guid;
        assert t.items[g].id == l.itemId;
      }
      assert FacetValid(t, Author);
      assert FacetValid(t, Keyword);
    }
  }

  /** Creating the tables leaves all five in place and keeps the invariant. */
  lemma CreateTablesKeepsValid(s: State, drop: bool)
    requires Valid(s)
    ensures Valid(CreateTables(s, drop)) && CreateTables(s, drop).present == AllTables
  {
    var t := CreateTables(s, drop);
    var u := if drop then DropAll(s) else s;
    assert Valid(u);
    assert t.items == u.items;
    forall f, l | l in Links(t, f) ensures l.itemId in ItemIds(t) && l.targetId in Names(t, f).Values {
      FacetOf(u, f);
      assert MapTable(f) in u.present && l in Links(u, f) by { if f == Author {} else {} }
      assert Names(t, f) == Names(u, f) by { if f == Author {} else {} }
    }
    assert FacetValid(t, Author);
    assert FacetValid(t, Keyword);
  }

  /** Without `drop`, every row already stored stays as it was. */
  lemma CreateWithoutDropKeepsRows(s: State)
    requires Valid(s)
    ensures var t := CreateTables(s, false);
      t.items == s.items && t.authors == s.authors && t.keywords == s.keywords &&
      t.authorMap == s.authorMap && t.keywordMap == s.keywordMap
  {
    assert FacetValid(s, Author) && FacetValid(s, Keyword);
  }

  /** With `drop`, all five tables exist afterwards and are empty. */
  lemma CreateWithDropEmpties(s: State)
    ensures var t := CreateTables(s, true);
      t.present == AllTables && t.items == map[] && t.authors == map[] && t.keywords == map[] &&
      t.authorMap == {} && t.keywordMap == {}
  {
  }

  /** Running `create_cv_tables` again without `drop` changes nothing. */
  lemma CreateTablesIdempotent(s: State, drop: bool)
    ensures CreateTables(CreateTables(s, drop), false) == CreateTables(s, drop)
  {
  }
}
