/**
 * The parsed feed document that `insert_items` reads (src/pgdb.py:169-223).
 * Every field of an entry may be absent, and an absent field is told apart
 * from an empty one, as `'name' in entry` does in the source.
 */
module Feed {
  import opened Common

  /** One element of `entry.enclosures`; `enclosure.get(key, None)` reads each field. */
  datatype Enclosure = Enclosure(length: Option<string>, mimeType: Option<string>, url: Option<string>)

  /** One element of `entry.tags`; `keyword["term"]` reads `term` and raises when it is absent. */
  datatype Tag = Tag(term: Option<string>)

  /** One feed entry, with the fields `insert_items` reads. `content` holds the `value` of each content element. */
  datatype Entry = Entry(
    guid: Option<string>,
    title: Option<string>,
    description: Option<string>,
    published: Option<string>,
    link: Option<string>,
    content: Option<seq<string>>,
    enclosures: Option<seq<Enclosure>>,
    itunesTitle: Option<string>,
    itunesDuration: Option<string>,
    summary: Option<string>,
    subtitle: Option<string>,
    itunesExplicit: Option<string>,
    itunesEpisodeType: Option<string>,
    itunesEpisode: Option<string>,
    author: Option<string>,
    tags: Option<seq<Tag>>)

  /** The delimiter `entry.author` is split on. */
  const AuthorSeparator: string := ", "

  /**
   * Python's `s.split(sep)` for a non-empty `sep`, scanning left to right:
   * `piece` is the part of the current field read so far.
   */
  function SplitFrom(s: string, sep: string, piece: string): (r: seq<string>)
    requires |sep| > 0
    ensures |r| >= 1
    decreases |s|
  {
    if |s| < |sep| then [piece + s]
    else if s[..|sep|] == sep then [piece] + SplitFrom(s[|sep|..], sep, "")
    else SplitFrom(s[1..], sep, piece + [s[0]])
  }

  function Split(s: string, sep: string): seq<string>
    requires |sep| > 0
  {
    SplitFrom(s, sep, "")
  }

  /** Python's `sep.join(parts)`. */
  function Join(parts: seq<string>, sep: string): string
  {
    if |parts| == 0 then ""
    else if |parts| == 1 then parts[0]
    else parts[0] + sep + Join(parts[1..], sep)
  }

  lemma {:induction false} SplitFromJoin(s: string, sep: string, piece: string)
    requires |sep| > 0
    ensures Join(SplitFrom(s, sep, piece), sep) == piece + s
    decreases |s|
  {
    if |s| < |sep| {
    } else if s[..|sep|] == sep {
      var rest := SplitFrom(s[|sep|..], sep, "");
      SplitFromJoin(s[|sep|..], sep, "");
      assert ([piece] + rest)[1..] == rest;
      assert s == sep + s[|sep|..];
    } else {
      SplitFromJoin(s[1..], sep, piece + [s[0]]);
      assert piece + [s[0]] + s[1..] == piece + s;
    }
  }

  /** `sep` occurs in `x` starting at position `i`. */
  predicate OccursAt(x: string, sep: string, i: nat)
  {
    i + |sep| <= |x| && x[i..i + |sep|] == sep
  }

  /** `x` contains no occurrence of `sep`. */
  ghost predicate NoSep(x: string, sep: string)
  {
    forall i: nat :: !OccursAt(x, sep, i)
  }

  /**
   * No occurrence of `sep` in `piece + s` starts inside `piece`: the scan has
   * already looked at each of those positions and found none.
   */
  ghost predicate Scanned(piece: string, s: string, sep: string)
  {
    forall i: nat :: i < |piece| ==> !OccursAt(piece + s, sep, i)
  }

  lemma {:induction false} SplitFromNoSep(s: string, sep: string, piece: string)
    requires |sep| > 0 && Scanned(piece, s, sep)
    ensures forall k :: 0 <= k < |SplitFrom(s, sep, piece)| ==> NoSep(SplitFrom(s, sep, piece)[k], sep)
    decreases |s|
  {
    var r := SplitFrom(s, sep, piece);
    if |s| < |sep| {
      assert r == [piece + s];
      forall i: nat ensures !OccursAt(piece + s, sep, i) {
        if i >= |piece| {
          assert i + |sep| > |piece + s|;
        }
      }
    } else if s[..|sep|] == sep {
      var rest := SplitFrom(s[|sep|..], sep, "");
      SplitFromNoSep(s[|sep|..], sep, "");
      forall i: nat ensures !OccursAt(piece, sep, i) {
        if i + |sep| <= |piece| {
          assert !OccursAt(piece + s, sep, i);
          assert (piece + s)[i..i + |sep|] == piece[i..i + |sep|];
        }
      }
      assert r == [piece] + rest;
      forall k | 0 <= k < |r| ensures NoSep(r[k], sep) {
        if k > 0 {
          assert r[k] == rest[k - 1];
        }
      }
    } else {
      var next := piece + [s[0]];
      assert next + s[1..] == piece + s;
      forall i: nat | i < |next| ensures !OccursAt(next + s[1..], sep, i) {
        if i == |piece| {
          assert (piece + s)[i..i + |sep|] == s[..|sep|];
        }
      }
      SplitFromNoSep(s[1..], sep, next);
    }
  }

  /**
   * Splitting loses nothing and cuts at every separator: joining the pieces
   * back with the separator gives the original text, and no piece contains
   * the separator.
   */
  lemma SplitJoin(s: string, sep: string)
    requires |sep| > 0
    ensures |Split(s, sep)| >= 1
    ensures Join(Split(s, sep), sep) == s
    ensures forall k :: 0 <= k < |Split(s, sep)| ==> NoSep(Split(s, sep)[k], sep)
  {
    SplitFromJoin(s, sep, "");
    SplitFromNoSep(s, sep, "");
  }

  /** A present but empty `author` field splits into one empty name, not into no names. */
  lemma SplitEmptyAuthor()
    ensures Split("", AuthorSeparator) == [""]
  {
    assert "" + "" == "";
  }

  /**
   * The author names of an entry: `entry.author.split(", ")` when the field is
   * present, no names when it is absent (src/pgdb.py:201).
   */
  function AuthorNames(e: Entry): (r: seq<string>)
    ensures e.author.None? ==> r == []
    ensures e.author.Some? ==> |r| >= 1 && Join(r, AuthorSeparator) == e.author.value
    ensures forall k :: 0 <= k < |r| ==> NoSep(r[k], AuthorSeparator)
  {
    if e.author.Some? then
      SplitJoin(e.author.value, AuthorSeparator);
      Split(e.author.value, AuthorSeparator)
    else []
  }

  /** The tags of an entry, none when the field is absent (src/pgdb.py:213). */
  function EntryTags(e: Entry): seq<Tag>
  {
    if e.tags.Some? then e.tags.value else []
  }
}
