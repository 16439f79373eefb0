/**
 * The tables behind one `PostgresDB` and the SQL statements its methods issue,
 * as a class: `committed` is what a new connection sees, `txn` is what the
 * connection's open transaction sees. Statements change `txn`; `Commit` makes
 * it the committed state and `Rollback` (or closing the connection) drops it.
 */
module PgStore {
  import opened Common
  import opened Feed
  import opened Schema
  import opened Ingest

  /** What `delete_item` reports (src/pgdb.py:238-245). */
  datatype Deletion = Deleted | NotFound | DeleteFailed(fault: Fault)

  class Store {
    var committed: State
    var txn: State

    /** No transaction is open and the committed tables satisfy the invariant. */
    ghost predicate Idle()
      reads this
    {
      Valid(committed) && txn == committed
    }

    constructor (initial: State)
      requires Valid(initial)
      ensures Idle() && committed == initial
    {
      committed := initial;
      txn := initial;
    }

    method Commit()
      modifies this
      ensures committed == txn == old(txn)
    {
      committed := txn;
    }

    method Rollback()
      modifies this
      ensures committed == txn == old(committed)
    {
      txn := committed;
    }

    // ------------------------------------------------------------ statements

    /** `SELECT id FROM podcast_item WHERE guid = %s` on the open transaction (src/pgdb.py:172-173). */
    method SelectItemId(guid: string) returns (r: Result<Option<nat>, Fault>)
      ensures r == Schema.SelectItemId(txn, guid)
    {
      r := Schema.SelectItemId(txn, guid);
    }

    /** The `INSERT INTO podcast_item ... RETURNING id` statement (src/pgdb.py:194-200). */
    method InsertItem(guid: string, columns: Columns) returns (r: Result<nat, Fault>)
      modifies this
      ensures committed == old(committed)
      ensures var x := Schema.InsertItem(old(txn), guid, columns);
        if x.Ok? then r == Ok(x.value.1) && txn == x.value.0 else r == Err(x.fault) && txn == old(txn)
    {
      var x := Schema.InsertItem(txn, guid, columns);
      if x.Err? {
        return Err(x.fault);
      }
      txn := x.value.0;
      return Ok(x.value.1);
    }

    /** The `ON CONFLICT DO NOTHING RETURNING id` insert of an author or keyword (src/pgdb.py:203-204, 216-217). */
    method InsertName(f: Facet, name: string) returns (r: Result<Option<nat>, Fault>)
      modifies this
      ensures committed == old(committed)
      ensures var x := Schema.InsertName(old(txn), f, name);
        if x.Ok? then r == Ok(x.value.1) && txn == x.value.0 else r == Err(x.fault) && txn == old(txn)
    {
      var x := Schema.InsertName(txn, f, name);
      if x.Err? {
        return Err(x.fault);
      }
      txn := x.value.0;
      return Ok(x.value.1);
    }

    /** The lookup of an existing author or keyword id (src/pgdb.py:206-207, 219-220). */
    method SelectNameId(f: Facet, name: string) returns (r: Result<Option<nat>, Fault>)
      ensures r == Schema.SelectNameId(txn, f, name)
    {
      r := Schema.SelectNameId(txn, f, name);
    }

    /** The insert of one link row (src/pgdb.py:210, 223). */
    method InsertLink(f: Facet, itemId: nat, targetId: nat) returns (r: Option<Fault>)
      modifies this
      ensures committed == old(committed)
      ensures var x := Schema.InsertLink(old(txn), f, itemId, targetId);
        if x.Ok? then r.None? && txn == x.value else r == Some(x.fault) && txn == old(txn)
    {
      var x := Schema.InsertLink(txn, f, itemId, targetId);
      if x.Err? {
        return Some(x.fault);
      }
      txn := x.value;
      return None;
    }

    // ------------------------------------------------------------ insert_items

    /** Get-or-create one author or keyword and insert the link row (src/pgdb.py:203-210). */
    method LinkName(f: Facet, itemId: nat, name: string) returns (r: Option<Fault>)
      modifies this
      ensures committed == old(committed)
      ensures var x := LinkOne(old(txn), f, itemId, Some(name));
        if x.Ok? then r.None? && txn == x.value else r == Some(x.fault)
    {
      var created := InsertName(f, name);
      if created.Err? {
        return Some(created.fault);
      }
      var targetId: nat;
      if created.value.None? {
        var found := SelectNameId(f, name);
        if found.Err? {
          return Some(found.fault);
        }
        if found.value.None? {
          return Some(NoRow);
        }
        targetId := found.value.value;
      } else {
        targetId := created.value.value;
      }
      r := InsertLink(f, itemId, targetId);
    }

    /** `for author in authors` (src/pgdb.py:201-210). */
    method LinkAuthors(itemId: nat, authors: seq<string>) returns (r: Option<Fault>)
      modifies this
      ensures committed == old(committed)
      ensures var x := LinkAll(old(txn), Author, itemId, AsNames(authors));
        if x.Ok? then r.None? && txn == x.value else r == Some(x.fault)
    {
      var j := 0;
      while j < |authors|
        invariant 0 <= j <= |authors|
        invariant committed == old(committed)
        invariant LinkAll(old(txn), Author, itemId, AsNames(authors)) == LinkAll(txn, Author, itemId, AsNames(authors[j..]))
      {
        assert authors[j..][1..] == authors[j + 1..];
        r := LinkName(Author, itemId, authors[j]);
        if r.Some? {
          return;
        }
        j := j + 1;
      }
      assert authors[j..] == [];
      return None;
    }

    /** `for keyword in keywords`, reading each tag's `term` (src/pgdb.py:213-223). */
    method LinkKeywords(itemId: nat, tags: seq<Tag>) returns (r: Option<Fault>)
      modifies this
      ensures committed == old(committed)
      ensures var x := LinkAll(old(txn), Keyword, itemId, Terms(tags));
        if x.Ok? then r.None? && txn == x.value else r == Some(x.fault)
    {
      var j := 0;
      while j < |tags|
        invariant 0 <= j <= |tags|
        invariant committed == old(committed)
        invariant LinkAll(old(txn), Keyword, itemId, Terms(tags)) == LinkAll(txn, Keyword, itemId, Terms(tags[j..]))
      {
        assert tags[j..][1..] == tags[j + 1..];
        var term := tags[j].term;
        if term.None? {
          return Some(MissingKey("term"));
        }
        r := LinkName(Keyword, itemId, term.value);
        if r.Some? {
          return;
        }
        j := j + 1;
      }
      assert tags[j..] == [];
      return None;
    }

    /**
     * `insert_items` (src/pgdb.py:130-226): every entry in one transaction,
     * committed once after the loop. When an entry raises, nothing is
     * committed: the tables other connections see are exactly as before.
     */
    method InsertItems(entries: seq<Entry>, p: Parsers) returns (fault: Option<Fault>)
      requires Idle()
      modifies this
      ensures var x := IngestAll(old(committed), entries, p);
        if x.Ok? then fault.None? && Idle() && committed == x.value
        else fault == Some(x.fault) && committed == old(committed)
    {
      ghost var start := committed;
      var i := 0;
      while i < |entries|
        invariant 0 <= i <= |entries|
        invariant committed == start
        invariant IngestAll(start, entries, p) == IngestAll(txn, entries[i..], p)
      {
        var e := entries[i];
        assert entries[i..][0] == e && entries[i..][1..] == entries[i + 1..];
        ghost var before := txn;
        if e.guid.None? {
          return Some(MissingAttribute("guid"));
        }
        var normalized := p.normalize(e.guid.value);
        if normalized.None? {
          return Some(InvalidGuid);
        }
        var guid := normalized.value;
        var existing := SelectItemId(guid);
        if existing.Err? {
          return Some(existing.fault);
        }
        if existing.value.Some? {
          i := i + 1;
          continue;
        }
        var columns := ItemColumns(e, p);
        if columns.Err? {
          return Some(columns.fault);
        }
        var inserted := InsertItem(guid, columns.value);
        if inserted.Err? {
          return Some(inserted.fault);
        }
        var itemId := inserted.value;
        ghost var withItem := txn;
        fault := LinkAuthors(itemId, AuthorNames(e));
        if fault.Some? {
          return;
        }
        ghost var withAuthors := txn;
        fault := LinkKeywords(itemId, EntryTags(e));
        if fault.Some? {
          return;
        }
        assert IngestEntry(before, e, p) == Ok(txn);
        i := i + 1;
      }
      assert entries[i..] == [];
      IngestAllEffect(start, entries, p);
      Commit();
      return None;
    }

    // ------------------------------------------------------------ delete_item

    /**
     * `delete_item` (src/pgdb.py:229-247). The guid is pasted into the statement
     * as a quoted literal, so the database first resolves the table and only
     * then reads the literal as a uuid (`castUuid`, `None` when it cannot); the
     * comparison is against that value, not the raw text. Any fault is rolled
     * back and reported, never raised.
     */
    method DeleteItem(text: string, castUuid: string -> Option<string>) returns (r: Deletion)
      requires Idle()
      modifies this
      ensures Idle()
      ensures PodcastItem !in old(committed).present ==>
        r == DeleteFailed(UndefinedTable(PodcastItem)) && committed == old(committed)
      ensures PodcastItem in old(committed).present && castUuid(text).None? ==>
        r == DeleteFailed(InvalidUuidText) && committed == old(committed)
      ensures castUuid(text).Some? ==>
        var x := Schema.DeleteItem(old(committed), castUuid(text).value);
        if x.Err? then r == DeleteFailed(x.fault) && committed == old(committed)
        else committed == x.value.0 && r == (if x.value.1 > 0 then Deleted else NotFound)
    {
      if PodcastItem !in txn.present {
        Rollback();
        return DeleteFailed(UndefinedTable(PodcastItem));
      }
      var guid := castUuid(text);
      if guid.None? {
        Rollback();
        return DeleteFailed(InvalidUuidText);
      }
      var x := Schema.DeleteItem(txn, guid.value);
      DeleteItemCascades(old(committed), guid.value);
      txn := x.value.0;
      Commit();
      r := if x.value.1 > 0 then Deleted else NotFound;
    }

    // ------------------------------------------------------------ create_cv_tables

    /** `create_cv_tables(drop)` (src/pgdb.py:78-127): optional drop, create what is missing, commit. */
    method CreateCvTables(drop: bool)
      requires Idle()
      modifies this
      ensures Idle() && committed == CreateTables(old(committed), drop)
    {
      if drop {
        txn := DropAll(txn);
      }
      txn := CreateMissing(txn);
      CreateTablesKeepsValid(old(committed), drop);
      Commit();
    }
  }
}
