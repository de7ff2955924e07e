/** The SQLite catalog of the Home Assistant component: tables `albums`
    (name -> id, name unique), `images` (path -> id and album id, path
    unique) and `displayed_images` (one mark per image id). The tables are
    kept as maps and a set; SQL text, connections and the `displayed_at`
    timestamp are not modelled. Any call may meet a storage error
    (`sqlite3.Error`); the error is caught inside the call, which then
    leaves the tables as they were. */
module Catalog {
  import opened Common

  /** A row of `images`, keyed by its unique path. */
  datatype ImageRow = ImageRow(id: int, albumId: int)

  /** The three tables. */
  datatype Tables = Tables(albums: map<string, int>, images: map<string, ImageRow>, displayed: set<int>)

  /** One `{id, path, album}` dictionary of the image queries. */
  datatype ImageRecord = ImageRecord(id: int, path: string, album: string)

  /** What the schema guarantees: row ids are positive (SQLite assigns them
      from 1 up) and, being primary keys, distinct. */
  ghost predicate TablesValid(t: Tables) {
    && (forall n :: n in t.albums ==> t.albums[n] > 0)
    && (forall n, m :: n in t.albums && m in t.albums && n != m ==> t.albums[n] != t.albums[m])
    && (forall p :: p in t.images ==> t.images[p].id > 0)
    && (forall p, q :: p in t.images && q in t.images && p != q ==> t.images[p].id != t.images[q].id)
  }

  /** The query filter `WHERE a.name = ?`, applied only when `album_name` is truthy. */
  predicate Matches(filter: Option<string>, name: string) {
    !Truthy(filter) || name == filter.value
  }

  /** `x` is a row of `images JOIN albums ON i.album_id = a.id`, under the filter. */
  ghost predicate IsRecord(t: Tables, filter: Option<string>, x: ImageRecord) {
    && x.path in t.images
    && x.id == t.images[x.path].id
    && x.album in t.albums
    && t.albums[x.album] == t.images[x.path].albumId
    && Matches(filter, x.album)
  }

  /** The album row that image path `p` joins with, if it matches the filter. */
  ghost predicate InPool(t: Tables, filter: Option<string>, p: string)
    requires p in t.images
  {
    exists n :: n in t.albums && t.albums[n] == t.images[p].albumId && Matches(filter, n)
  }

  /** Paths of the images `get_all_images(filter)` returns. */
  ghost function PoolPaths(t: Tables, filter: Option<string>): set<string> {
    set p | p in t.images && InPool(t, filter, p)
  }

  /** Paths of the images `get_undisplayed_images(filter)` returns. */
  ghost function UndisplayedPaths(t: Tables, filter: Option<string>): set<string> {
    set p | p in PoolPaths(t, filter) && t.images[p].id !in t.displayed
  }

  /** Each pooled path has its record. */
  lemma RecordOfPath(t: Tables, filter: Option<string>, p: string) returns (x: ImageRecord)
    requires p in PoolPaths(t, filter)
    ensures IsRecord(t, filter, x) && x.path == p
  {
    var n :| n in t.albums && t.albums[n] == t.images[p].albumId && Matches(filter, n);
    x := ImageRecord(t.images[p].id, p, n);
  }

  /** Each record's path is pooled. */
  lemma PathOfRecord(t: Tables, filter: Option<string>, x: ImageRecord)
    requires IsRecord(t, filter, x)
    ensures x.path in PoolPaths(t, filter)
    ensures x.id !in t.displayed ==> x.path in UndisplayedPaths(t, filter)
  {
  }

  /** The rowid SQLite gives a row inserted without one: one more than the
      largest rowid in the table, or 1 for an empty table. The table is
      given by its unique key column, mapped to each row's id. */
  method NextRowId(rowIds: map<string, int>) returns (r: int)
    ensures r >= 1
    ensures forall k :: k in rowIds ==> rowIds[k] < r
    ensures r == 1 || exists k :: k in rowIds && rowIds[k] == r - 1
  {
    r := 1;
    var rest := rowIds.Keys;
    while rest != {}
      invariant rest <= rowIds.Keys
      invariant r >= 1 && (r == 1 || exists k :: k in rowIds && rowIds[k] == r - 1)
      invariant forall k :: k in rowIds && k !in rest ==> rowIds[k] < r
      decreases rest
    {
      var k :| k in rest;
      if rowIds[k] >= r {
        r := rowIds[k] + 1;
      }
      rest := rest - {k};
    }
  }

  class DatabaseManager {
    var albums: map<string, int>
    var images: map<string, ImageRow>
    var displayed: set<int>

    function Snapshot(): Tables
      reads this
    {
      Tables(albums, images, displayed)
    }

    ghost predicate Valid()
      reads this
    {
      TablesValid(Snapshot())
    }

    /** Opening the database file: `CREATE TABLE IF NOT EXISTS` keeps
        whatever the file already holds. */
    constructor (persisted: Tables)
      requires TablesValid(persisted)
      ensures Valid() && Snapshot() == persisted
    {
      albums := persisted.albums;
      images := persisted.images;
      displayed := persisted.displayed;
    }

    /** `DELETE FROM displayed_images`; `failed` tells whether the storage
        engine raised, in which case nothing was deleted. */
    method ClearDisplayedImages() returns (ghost failed: bool)
      requires Valid()
      modifies this
      ensures Valid()
      ensures albums == old(albums) && images == old(images)
      ensures displayed == if failed then old(displayed) else {}
    {
      var fault: bool :| true;
      failed := fault;
      if !fault {
        displayed := {};
      }
    }

    /** Lookup-or-insert of an album by name; -1 on a storage error. */
    method AddAlbum(albumName: string) returns (id: int)
      requires Valid()
      modifies this
      ensures Valid()
      ensures images == old(images) && displayed == old(displayed)
      ensures id == -1 ==> albums == old(albums)
      ensures id != -1 ==> id > 0 && albumName in albums && albums[albumName] == id
      ensures id != -1 && albumName in old(albums) ==> albums == old(albums)
      ensures id != -1 && albumName !in old(albums) ==>
        albums == old(albums)[albumName := id] && forall n :: n in old(albums) ==> old(albums)[n] < id
    {
      var fault: bool :| true;
      if fault {
        return -1;
      }
      if albumName in albums {
        return albums[albumName];
      }
      id := NextRowId(albums);
      albums := albums[albumName := id];
    }

    /** Lookup-or-insert of an image keyed on its path alone: an existing
        path keeps its row, whatever `albumId` is passed; -1 on a storage
        error. The album id is not checked against `albums` (SQLite does not
        enforce foreign keys unless asked to). */
    method AddImage(imagePath: string, albumId: int) returns (id: int)
      requires Valid()
      modifies this
      ensures Valid()
      ensures albums == old(albums) && displayed == old(displayed)
      ensures id == -1 ==> images == old(images)
      ensures id != -1 ==> id > 0 && imagePath in images && images[imagePath].id == id
      ensures id != -1 && imagePath in old(images) ==> images == old(images)
      ensures id != -1 && imagePath !in old(images) ==>
        images == old(images)[imagePath := ImageRow(id, albumId)] &&
        forall p :: p in old(images) ==> old(images)[p].id < id
    {
      var fault: bool :| true;
      if fault {
        return -1;
      }
      if imagePath in images {
        return images[imagePath].id;
      }
      var rowIds := map p | p in images :: images[p].id;
      assert forall p :: p in images ==> p in rowIds && rowIds[p] == images[p].id;
      id := NextRowId(rowIds);
      images := images[imagePath := ImageRow(id, albumId)];
    }

    /** `INSERT OR REPLACE INTO displayed_images (image_id)`: the id is
        marked, at most once; False on a storage error. */
    method MarkImageDisplayed(imageId: int) returns (ok: bool)
      requires Valid()
      modifies this
      ensures Valid()
      ensures albums == old(albums) && images == old(images)
      ensures displayed == if ok then old(displayed) + {imageId} else old(displayed)
    {
      var fault: bool :| true;
      if fault {
        return false;
      }
      displayed := displayed + {imageId};
      ok := true;
    }

    /** The rows of the join of `images` with `albums`, filtered by album
        name when `filter` is truthy and, when `undisplayedOnly`, by the
        absence of a mark (`LEFT JOIN displayed_images ... WHERE d.id IS
        NULL`); the order of the rows is unspecified. */
    method SelectImages(filter: Option<string>, undisplayedOnly: bool) returns (r: seq<ImageRecord>)
      requires Valid()
      ensures Distinct(r)
      ensures forall x :: x in r <==> IsRecord(Snapshot(), filter, x) && (undisplayedOnly ==> x.id !in displayed)
    {
      r := [];
      var rest := images.Keys;
      while rest != {}
        invariant rest <= images.Keys
        invariant Distinct(r)
        invariant forall x :: x in r <==>
          IsRecord(Snapshot(), filter, x) && (undisplayedOnly ==> x.id !in displayed) && x.path !in rest
        decreases rest
      {
        var p :| p in rest;
        rest := rest - {p};
        var row := images[p];
        if exists n :: n in albums && albums[n] == row.albumId {
          var n :| n in albums && albums[n] == row.albumId;
          if Matches(filter, n) && (!undisplayedOnly || row.id !in displayed) {
            r := r + [ImageRecord(row.id, p, n)];
          }
        }
      }
    }

    /** `get_all_images(album_name)`; an empty list on a storage error. */
    method GetAllImages(albumName: Option<string>) returns (r: seq<ImageRecord>, ghost failed: bool)
      requires Valid()
      ensures failed ==> r == []
      ensures !failed ==> Distinct(r) && forall x :: x in r <==> IsRecord(Snapshot(), albumName, x)
    {
      var fault: bool :| true;
      failed := fault;
      if fault {
        return [], failed;
      }
      r := SelectImages(albumName, false);
    }

    /** `get_undisplayed_images(album_name)`: exactly the records of
        `get_all_images(album_name)` whose id has no mark; an empty list on a
        storage error. */
    method GetUndisplayedImages(albumName: Option<string>) returns (r: seq<ImageRecord>, ghost failed: bool)
      requires Valid()
      ensures failed ==> r == []
      ensures !failed ==> Distinct(r) && forall x :: x in r <==> IsRecord(Snapshot(), albumName, x) && x.id !in displayed
    {
      var fault: bool :| true;
      failed := fault;
      if fault {
        return [], failed;
      }
      r := SelectImages(albumName, true);
    }

    /** `SELECT name FROM albums`: every album name once; an empty list on a
        storage error. */
    method GetAllAlbums() returns (names: seq<string>, ghost failed: bool)
      requires Valid()
      ensures failed ==> names == []
      ensures !failed ==> Distinct(names) && forall n :: n in names <==> n in albums
    {
      var fault: bool :| true;
      failed := fault;
      if fault {
        return [], failed;
      }
      names := ListKeys(albums);
    }
  }
}
