/** The Home Assistant media scanner: it catalogs the media root into the
    SQLite catalog and hands out images without repeats, keeping a sticky
    album filter (`_current_album`) and the last image (`_current_image`). */
module PictureFrameScanner {
  import opened Common
  import opened MediaTree
  import opened Catalog

  // ---------------------------------------------------------------------
  // The selection rule of `get_next_image`, on the tables, when no storage
  // error occurs.
  // ---------------------------------------------------------------------

  /** The filter `get_next_image` uses: the argument, unless it is falsy and
      a sticky album is set. */
  function EffectiveFilter(currentAlbum: Option<string>, album: Option<string>): (f: Option<string>)
    ensures Truthy(album) ==> f == album
    ensures !Truthy(album) && currentAlbum.Some? ==> f == currentAlbum
    ensures !Truthy(album) && currentAlbum.None? ==> !Truthy(f)
  {
    if currentAlbum.Some? && !Truthy(album) then currentAlbum else album
  }

  /** `x` may be drawn by `random.choice`: a record of the filter that is
      still unmarked, or any record of the filter once none is unmarked. */
  ghost predicate IsCandidate(t: Tables, filter: Option<string>, x: ImageRecord) {
    IsRecord(t, filter, x) && (UndisplayedPaths(t, filter) != {} ==> x.id !in t.displayed)
  }

  /** What the candidate queries can return, storage errors included:
      nothing, exactly the unmarked records of the filter, or exactly all
      records of the filter. */
  ghost predicate PoolOutcome(t: Tables, filter: Option<string>, candidates: seq<ImageRecord>) {
    candidates == [] ||
    (forall x :: x in candidates <==> IsRecord(t, filter, x) && x.id !in t.displayed) ||
    (forall x :: x in candidates <==> IsRecord(t, filter, x))
  }

  /** The tables after `x` was drawn: all marks are cleared first if the
      filter had no unmarked image, then `x` is marked. */
  ghost function Step(t: Tables, filter: Option<string>, x: ImageRecord): Tables {
    var base := if UndisplayedPaths(t, filter) == {} then {} else t.displayed;
    t.(displayed := base + {x.id})
  }

  /** `xs` are the images of consecutive selections with one filter. */
  ghost predicate IsRotation(t: Tables, filter: Option<string>, xs: seq<ImageRecord>)
    decreases |xs|
  {
    |xs| == 0 || (IsCandidate(t, filter, xs[0]) && IsRotation(Step(t, filter, xs[0]), filter, xs[1..]))
  }

  /** The tables after the selections `xs`. */
  ghost function After(t: Tables, filter: Option<string>, xs: seq<ImageRecord>): Tables
    decreases |xs|
  {
    if |xs| == 0 then t else After(Step(t, filter, xs[0]), filter, xs[1..])
  }

  /** Drawing an unmarked image removes exactly that image from the unmarked
      pool of the filter. */
  lemma StepShrinksPool(t: Tables, filter: Option<string>, x: ImageRecord)
    requires TablesValid(t) && IsCandidate(t, filter, x) && UndisplayedPaths(t, filter) != {}
    ensures x.path in UndisplayedPaths(t, filter)
    ensures UndisplayedPaths(Step(t, filter, x), filter) == UndisplayedPaths(t, filter) - {x.path}
  {
  }

  /** On exhaustion the call clears every mark, in every album, and starts
      the filter's pool afresh with the drawn image. */
  lemma ResetOnExhaustion(t: Tables, filter: Option<string>, x: ImageRecord)
    requires TablesValid(t) && IsCandidate(t, filter, x) && UndisplayedPaths(t, filter) == {}
    ensures Step(t, filter, x).displayed == {x.id}
    ensures UndisplayedPaths(Step(t, filter, x), filter) == PoolPaths(t, filter) - {x.path}
  {
  }

  /** No repeat within a cycle: selections no more numerous than the
      unmarked images of the filter draw pairwise distinct unmarked images,
      and leave exactly the others unmarked. */
  lemma {:induction false} NoRepeatWithinCycle(t: Tables, filter: Option<string>, xs: seq<ImageRecord>)
    requires TablesValid(t) && IsRotation(t, filter, xs)
    requires |xs| <= |UndisplayedPaths(t, filter)|
    decreases |xs|
    ensures forall i :: 0 <= i < |xs| ==> xs[i].path in UndisplayedPaths(t, filter)
    ensures forall i, j :: 0 <= i < j < |xs| ==> xs[i].path != xs[j].path
    ensures |UndisplayedPaths(After(t, filter, xs), filter)| == |UndisplayedPaths(t, filter)| - |xs|
  {
    if |xs| > 0 {
      var x := xs[0];
      var t' := Step(t, filter, x);
      StepShrinksPool(t, filter, x);
      assert |UndisplayedPaths(t', filter)| == |UndisplayedPaths(t, filter)| - 1;
      NoRepeatWithinCycle(t', filter, xs[1..]);
      forall i | 0 <= i < |xs| ensures xs[i].path in UndisplayedPaths(t, filter) {
        if i > 0 {
          assert xs[i] == xs[1..][i - 1];
        }
      }
      forall i, j | 0 <= i < j < |xs| ensures xs[i].path != xs[j].path {
        assert xs[j] == xs[1..][j - 1];
        if i > 0 {
          assert xs[i] == xs[1..][i - 1];
        }
      }
      assert After(t, filter, xs) == After(t', filter, xs[1..]);
    }
  }

  /** After a full cycle the filter's pool is exhausted, so the next call
      resets. */
  lemma CycleExhaustsPool(t: Tables, filter: Option<string>, xs: seq<ImageRecord>)
    requires TablesValid(t) && IsRotation(t, filter, xs)
    requires |xs| == |UndisplayedPaths(t, filter)|
    ensures UndisplayedPaths(After(t, filter, xs), filter) == {}
  {
    NoRepeatWithinCycle(t, filter, xs);
  }

  // ---------------------------------------------------------------------
  // How a scan grows the `images` table.
  // ---------------------------------------------------------------------

  /** Every row of `before` is still in `after`, unchanged. */
  ghost predicate KeepsRows(before: map<string, ImageRow>, after: map<string, ImageRow>) {
    forall p :: p in before ==> p in after && after[p] == before[p]
  }

  /** Every row added since `before` has one of `paths` and album id `albumId`. */
  ghost predicate AddedUnder(before: map<string, ImageRow>, after: map<string, ImageRow>, albumId: int, paths: seq<string>) {
    forall p :: p in after && p !in before ==> p in paths && after[p].albumId == albumId
  }

  /** Every one of `paths` has a row. */
  ghost predicate AllIn(paths: seq<string>, rows: map<string, ImageRow>) {
    forall p :: p in paths ==> p in rows
  }

  /** One `add_image(path, albumId)` during the scan of an album keeps the
      scan's account of the table. */
  lemma AddImageStep(b0: map<string, ImageRow>, b1: map<string, ImageRow>, b2: map<string, ImageRow>,
                     albumId: int, paths: seq<string>, path: string, id: int)
    requires KeepsRows(b0, b1) && AddedUnder(b0, b1, albumId, paths)
    requires b2 == b1 || (path !in b1 && b2 == b1[path := ImageRow(id, albumId)])
    ensures KeepsRows(b0, b2) && AddedUnder(b0, b2, albumId, paths + [path])
    ensures AllIn(paths, b1) && path in b2 ==> AllIn(paths + [path], b2)
  {
  }

  /** Every album row of `before` is still in `after`, with its id. */
  ghost predicate KeepsAlbums(before: map<string, int>, after: map<string, int>) {
    forall n :: n in before ==> n in after && after[n] == before[n]
  }

  /** Some top-level directory of the listing is named `n` and holds `images`. */
  ghost predicate HasDir(entries: seq<Entry>, n: string, images: seq<string>, exts: seq<string>) {
    exists k :: 0 <= k < |entries| && entries[k].DirEntry? && entries[k].name == n &&
      images == AlbumImages(n, entries[k].contents, exts)
  }

  /** Each album of a scan result holds the images of a top-level directory
      of that name. */
  ghost predicate FromListing(entries: seq<Entry>, albums: map<string, seq<string>>, exts: seq<string>) {
    forall n :: n in albums ==> HasDir(entries, n, albums[n], exts)
  }

  /** Image row `p` was collected from a top-level directory of the listing
      and belongs to that directory's album row. */
  ghost predicate Cataloged(entries: seq<Entry>, exts: seq<string>, albumRows: map<string, int>, rows: map<string, ImageRow>, p: string)
    requires p in rows
  {
    exists k :: 0 <= k < |entries| && entries[k].DirEntry? &&
      p in AlbumImages(entries[k].name, entries[k].contents, exts) &&
      entries[k].name in albumRows && rows[p].albumId == albumRows[entries[k].name]
  }

  /** Every image row added since `before` is cataloged from the listing. */
  ghost predicate NewRowsCataloged(before: map<string, ImageRow>, entries: seq<Entry>, exts: seq<string>,
                                   albumRows: map<string, int>, rows: map<string, ImageRow>) {
    forall p :: p in rows && p !in before ==> Cataloged(entries, exts, albumRows, rows, p)
  }

  /** Every image of every album of a scan result has a row. */
  ghost predicate AlbumsStored(albums: map<string, seq<string>>, rows: map<string, ImageRow>) {
    forall n, p :: n in albums && p in albums[n] ==> p in rows
  }

  /** One more top-level item keeps the result's account of the listing. */
  lemma FromListingStep(entries: seq<Entry>, i: int, exts: seq<string>, albums: map<string, seq<string>>, albums': map<string, seq<string>>)
    requires 0 <= i < |entries| && FromListing(entries[..i], albums, exts)
    requires albums' == albums ||
      (entries[i].DirEntry? && albums' == albums[entries[i].name := AlbumImages(entries[i].name, entries[i].contents, exts)])
    ensures FromListing(entries[..i + 1], albums', exts)
  {
    forall n | n in albums'
      ensures HasDir(entries[..i + 1], n, albums'[n], exts)
    {
      if albums' != albums && n == entries[i].name {
        assert entries[..i + 1][i] == entries[i];
      } else {
        var k :| 0 <= k < i && entries[..i][k].DirEntry? && entries[..i][k].name == n &&
          albums[n] == AlbumImages(n, entries[..i][k].contents, exts);
        assert entries[..i + 1][k] == entries[..i][k];
      }
    }
  }

  /** The scan result stays stored as the `images` table only grows. */
  lemma AlbumsStoredStep(albums: map<string, seq<string>>, r1: map<string, ImageRow>, r2: map<string, ImageRow>,
                         name: string, images: seq<string>)
    requires AlbumsStored(albums, r1) && KeepsRows(r1, r2) && AllIn(images, r2)
    ensures AlbumsStored(albums, r2) && AlbumsStored(albums[name := images], r2)
  {
  }

  /** One more top-level item keeps every new image row cataloged. */
  lemma CatalogedStep(entries: seq<Entry>, i: int, exts: seq<string>, r0: map<string, ImageRow>,
                      a1: map<string, int>, r1: map<string, ImageRow>, a2: map<string, int>, r2: map<string, ImageRow>)
    requires 0 <= i < |entries| && NewRowsCataloged(r0, entries[..i], exts, a1, r1)
    requires KeepsAlbums(a1, a2) && KeepsRows(r1, r2)
    requires r2 == r1 ||
      (entries[i].DirEntry? && entries[i].name in a2 &&
       AddedUnder(r1, r2, a2[entries[i].name], AlbumImages(entries[i].name, entries[i].contents, exts)))
    ensures NewRowsCataloged(r0, entries[..i + 1], exts, a2, r2)
  {
    forall p | p in r2 && p !in r0
      ensures Cataloged(entries[..i + 1], exts, a2, r2, p)
    {
      if p in r1 {
        var k :| 0 <= k < i && entries[..i][k].DirEntry? &&
          p in AlbumImages(entries[..i][k].name, entries[..i][k].contents, exts) &&
          entries[..i][k].name in a1 && r1[p].albumId == a1[entries[..i][k].name];
        assert entries[..i + 1][k] == entries[..i][k];
      } else {
        assert entries[..i + 1][i] == entries[i];
      }
    }
  }

  /** The dictionary `albums` a scan returns when `added[i]` tells whether
      the `add_album` call for top-level item `i` succeeded: a directory
      whose call failed is skipped, every other directory sets its key as in
      `AlbumsOf`. */
  ghost function AlbumsAdded(entries: seq<Entry>, exts: seq<string>, added: seq<bool>): map<string, seq<string>>
    requires |added| == |entries|
  {
    if entries == [] then map[]
    else
      var n := |entries| - 1;
      var m := AlbumsAdded(entries[..n], exts, added[..n]);
      if entries[n].DirEntry? && added[n] then m[entries[n].name := AlbumImages(entries[n].name, entries[n].contents, exts)]
      else m
  }

  /** Only a directory's `add_album` call can fail: every false flag in
      `added` belongs to a directory among the first `|added|` items. */
  ghost predicate OnlyDirsSkipped(entries: seq<Entry>, added: seq<bool>)
  {
    |added| <= |entries| && forall k :: 0 <= k < |added| && !added[k] ==> entries[k].DirEntry?
  }

  /** One more top-level item: a directory whose `add_album` succeeded sets
      its own key. */
  lemma AlbumsAddedSnoc(entries: seq<Entry>, exts: seq<string>, added: seq<bool>, a: bool)
    requires |added| < |entries| && OnlyDirsSkipped(entries, added)
    requires !a ==> entries[|added|].DirEntry?
    ensures OnlyDirsSkipped(entries, added + [a])
    ensures var i := |added|;
      AlbumsAdded(entries[..i + 1], exts, added + [a]) ==
        if entries[i].DirEntry? && a then AlbumsAdded(entries[..i], exts, added)[entries[i].name := AlbumImages(entries[i].name, entries[i].contents, exts)]
        else AlbumsAdded(entries[..i], exts, added)
  {
    var i := |added|;
    assert entries[..i + 1][..i] == entries[..i];
    assert (added + [a])[..i] == added;
  }

  /** When every `add_album` succeeds the scan returns exactly `AlbumsOf`. */
  lemma {:induction false} AlbumsAddedAll(entries: seq<Entry>, exts: seq<string>, added: seq<bool>)
    requires |added| == |entries| && false !in added
    ensures AlbumsAdded(entries, exts, added) == AlbumsOf(entries, exts)
  {
    if entries != [] {
      var n := |entries| - 1;
      AlbumsAddedAll(entries[..n], exts, added[..n]);
    }
  }

  // ---------------------------------------------------------------------
  // The scanner object.
  // ---------------------------------------------------------------------

  class MediaScanner {
    const mediaRoot: string
    const allowedExtensions: seq<string>
    const db: DatabaseManager
    var currentAlbum: Option<string>
    var currentImage: Option<ImageResult>

    /** The catalog is well formed and a truthy sticky album names one of
        its albums (`set_album` checks the name, and album rows are never
        deleted). */
    ghost predicate Valid()
      reads this, db
    {
      db.Valid() && (Truthy(currentAlbum) ==> currentAlbum.value in db.albums)
    }

    constructor (mediaRoot: string, allowedExtensions: seq<string>, db: DatabaseManager)
      requires db.Valid()
      ensures Valid()
      ensures this.mediaRoot == mediaRoot && this.allowedExtensions == allowedExtensions && this.db == db
      ensures currentAlbum == None && currentImage == None
    {
      this.mediaRoot := mediaRoot;
      this.allowedExtensions := allowedExtensions;
      this.db := db;
      currentAlbum := None;
      currentImage := None;
    }

    /** `get_current_album`: the sticky album, which when truthy is an
        album of the catalog. */
    function GetCurrentAlbum(): (r: Option<string>)
      reads this, db
      requires Valid()
      ensures Truthy(r) ==> r.value in db.albums
    {
      currentAlbum
    }

    /** The inner loop of `scan_media` for one top-level directory whose
        album row has id `albumId`: every allowed file is listed, and
        offered to `add_image`, whose result is ignored. */
    method ScanAlbum(name: string, contents: seq<Nested>, albumId: int) returns (images: seq<string>, ghost clean: bool)
      requires Valid() && name in db.albums && db.albums[name] == albumId
      modifies db
      ensures Valid()
      ensures images == AlbumImages(name, contents, allowedExtensions)
      ensures db.albums == old(db.albums) && db.displayed == old(db.displayed)
      ensures KeepsRows(old(db.images), db.images)
      ensures AddedUnder(old(db.images), db.images, albumId, images)
      ensures clean ==> AllIn(images, db.images)
    {
      images := [];
      clean := true;
      var j := 0;
      while j < |contents|
        invariant 0 <= j <= |contents|
        invariant Valid()
        invariant images == AlbumImages(name, contents[..j], allowedExtensions)
        invariant db.albums == old(db.albums) && db.displayed == old(db.displayed)
        invariant KeepsRows(old(db.images), db.images)
        invariant AddedUnder(old(db.images), db.images, albumId, images)
        invariant clean ==> AllIn(images, db.images)
      {
        AlbumImagesSnoc(name, contents, allowedExtensions, j);
        var item := contents[j];
        if Allowed(item, allowedExtensions) {
          var relPath := RelPath(name, item);
          ghost var before := db.images;
          var id := db.AddImage(relPath, albumId);
          AddImageStep(old(db.images), before, db.images, albumId, images, relPath, id);
          images := images + [relPath];
          clean := clean && id != -1;
        }
        j := j + 1;
      }
      assert contents[..j] == contents;
    }

    /** One pass of the outer loop of `scan_media`, over top-level item
        `entries[i]`: a directory gets its album row and its images, and
        becomes key `name` of the result; a directory whose `add_album`
        fails, and a file, are skipped. `added` holds unless the
        directory's `add_album` failed. `a0` and `r0` are the tables before
        the scan. */
    method ScanEntry(entries: seq<Entry>, i: int, albums: map<string, seq<string>>,
                     ghost a0: map<string, int>, ghost r0: map<string, ImageRow>)
      returns (albums': map<string, seq<string>>, ghost added: bool, ghost ok: bool)
      requires Valid() && 0 <= i < |entries|
      requires KeepsAlbums(a0, db.albums) && KeepsRows(r0, db.images)
      requires FromListing(entries[..i], albums, allowedExtensions) && albums.Keys <= db.albums.Keys
      requires forall n :: n in db.albums && n !in a0 ==> n in albums
      requires NewRowsCataloged(r0, entries[..i], allowedExtensions, db.albums, db.images)
      modifies db
      ensures Valid() && db.displayed == old(db.displayed)
      ensures KeepsAlbums(a0, db.albums) && KeepsRows(r0, db.images)
      ensures FromListing(entries[..i + 1], albums', allowedExtensions) && albums'.Keys <= db.albums.Keys
      ensures forall n :: n in db.albums && n !in a0 ==> n in albums'
      ensures NewRowsCataloged(r0, entries[..i + 1], allowedExtensions, db.albums, db.images)
      ensures albums' == if entries[i].DirEntry? && added then albums[entries[i].name := AlbumImages(entries[i].name, entries[i].contents, allowedExtensions)] else albums
      ensures !added ==> entries[i].DirEntry?
      ensures ok ==> added
      ensures ok && AlbumsStored(albums, old(db.images)) ==> AlbumsStored(albums', db.images)
    {
      albums' := albums;
      added, ok := true, true;
      ghost var a1, r1 := db.albums, db.images;
      if entries[i].DirEntry? {
        albums', added, ok := ScanDirectory(entries[i].name, entries[i].contents, albums);
        if ok && AlbumsStored(albums, r1) {
          AlbumsStoredStep(albums, r1, db.images, entries[i].name, albums'[entries[i].name]);
        }
      }
      FromListingStep(entries, i, allowedExtensions, albums, albums');
      CatalogedStep(entries, i, allowedExtensions, r0, a1, r1, db.albums, db.images);
    }

    /** The body of the outer loop of `scan_media` for a top-level directory:
        its album row, then its images, which become key `name` of the
        result whenever `add_album` succeeds (`added`), even when some
        `add_image` fails; a directory whose `add_album` fails is skipped
        and nothing is written for it. `ok` tells whether no storage error
        occurred. */
    method ScanDirectory(name: string, contents: seq<Nested>, albums: map<string, seq<string>>)
      returns (albums': map<string, seq<string>>, ghost added: bool, ghost ok: bool)
      requires Valid()
      modifies db
      ensures Valid() && db.displayed == old(db.displayed)
      ensures KeepsAlbums(old(db.albums), db.albums) && KeepsRows(old(db.images), db.images)
      ensures forall n :: n in db.albums && n !in old(db.albums) ==> n == name && n in albums'
      ensures added ==> name in db.albums && albums' == albums[name := AlbumImages(name, contents, allowedExtensions)]
      ensures added ==> AddedUnder(old(db.images), db.images, db.albums[name], AlbumImages(name, contents, allowedExtensions))
      ensures !added ==> albums' == albums && db.Snapshot() == old(db.Snapshot())
      ensures ok ==> added && AllIn(albums'[name], db.images)
    {
      albums' := albums;
      var albumId := db.AddAlbum(name);
      if albumId < 0 {
        return albums', false, false;
      }
      added := true;
      var images;
      images, ok := ScanAlbum(name, contents, albumId);
      albums' := albums[name := images];
    }

    /** `scan_media`: every top-level directory becomes an album (files at
        the root are ignored) holding every allowed file beneath it; a
        directory whose `add_album` fails is skipped. `added[i]` tells
        whether the `add_album` call for top-level item `i` succeeded (true
        for a file), `clean` whether no storage error occurred at all. */
    method ScanMedia(root: MediaRoot) returns (albums: map<string, seq<string>>, ghost added: seq<bool>, ghost clean: bool)
      requires Valid()
      modifies db
      ensures Valid()
      ensures root.Missing? ==> albums == map[] && db.Snapshot() == old(db.Snapshot())
      ensures db.displayed == old(db.displayed)
      ensures KeepsAlbums(old(db.albums), db.albums) && KeepsRows(old(db.images), db.images)
      ensures FromListing(Entries(root), albums, allowedExtensions) && albums.Keys <= db.albums.Keys
      ensures forall n :: n in db.albums && n !in old(db.albums) ==> n in albums
      ensures NewRowsCataloged(old(db.images), Entries(root), allowedExtensions, db.albums, db.images)
      ensures |added| == |Entries(root)| && OnlyDirsSkipped(Entries(root), added)
      ensures albums == AlbumsAdded(Entries(root), allowedExtensions, added)
      ensures false !in added ==> albums == AlbumsOf(Entries(root), allowedExtensions)
      ensures clean ==> false !in added && AlbumsStored(albums, db.images)
    {
      albums := map[];
      added, clean := [], true;
      if root.Missing? {
        return;
      }
      var entries := root.entries;
      var i := 0;
      while i < |entries|
        invariant 0 <= i <= |entries|
        invariant Valid() && db.displayed == old(db.displayed)
        invariant KeepsAlbums(old(db.albums), db.albums) && KeepsRows(old(db.images), db.images)
        invariant FromListing(entries[..i], albums, allowedExtensions) && albums.Keys <= db.albums.Keys
        invariant forall n :: n in db.albums && n !in old(db.albums) ==> n in albums
        invariant NewRowsCataloged(old(db.images), entries[..i], allowedExtensions, db.albums, db.images)
        invariant |added| == i && OnlyDirsSkipped(entries, added)
        invariant albums == AlbumsAdded(entries[..i], allowedExtensions, added)
        invariant clean ==> false !in added && AlbumsStored(albums, db.images)
      {
        ghost var a, ok;
        albums, a, ok := ScanEntry(entries, i, albums, old(db.albums), old(db.images));
        AlbumsAddedSnoc(entries, allowedExtensions, added, a);
        added, clean := added + [a], clean && ok;
        i := i + 1;
      }
      assert entries[..i] == entries;
      if false !in added {
        AlbumsAddedAll(entries, allowedExtensions, added);
      }
    }

    /** The images `get_next_image` draws from: the unmarked images of the
        filter or, when that query returns none, all images of the filter
        after every mark was cleared. `clean` tells whether no storage error
        occurred. */
    method CandidatePool(filter: Option<string>) returns (candidates: seq<ImageRecord>, ghost clean: bool)
      requires Valid()
      modifies db
      ensures Valid()
      ensures db.albums == old(db.albums) && db.images == old(db.images)
      ensures forall x :: x in candidates ==> IsRecord(old(db.Snapshot()), filter, x)
      ensures clean ==> forall x :: x in candidates <==> IsCandidate(old(db.Snapshot()), filter, x)
      ensures clean ==> db.displayed == if UndisplayedPaths(old(db.Snapshot()), filter) == {} then {} else old(db.displayed)
      ensures clean ==> (candidates == [] <==> PoolPaths(old(db.Snapshot()), filter) == {})
      ensures db.displayed == old(db.displayed) || db.displayed == {}
      ensures PoolOutcome(old(db.Snapshot()), filter, candidates)
    {
      ghost var t := db.Snapshot();
      ghost var failed;
      candidates, failed := db.GetUndisplayedImages(filter);
      clean := !failed;
      if |candidates| == 0 {
        if !failed {
          forall p | p in UndisplayedPaths(t, filter) ensures false {
            var x := RecordOfPath(t, filter, p);
          }
        }
        var clearFailed := db.ClearDisplayedImages();
        ghost var allFailed;
        candidates, allFailed := db.GetAllImages(filter);
        clean := clean && !clearFailed && !allFailed;
        if clean && candidates == [] {
          forall p | p in PoolPaths(t, filter) ensures false {
            var x := RecordOfPath(t, filter, p);
          }
        }
      }
      assert forall x :: x in candidates ==> IsRecord(t, filter, x);
      if candidates != [] {
        PathOfRecord(t, filter, candidates[0]);
      }
    }

    /** The marks after a draw of image `id`, storage errors included: kept
        or cleared by the pool query, then with or without the new mark. */
    ghost predicate DrawnMarks(before: set<int>, after: set<int>, id: int) {
      after == before || after == {} || after == before + {id} || after == {id}
    }

    /** The draw of `get_next_image`: `random.choice` picks a candidate,
        which is marked (unless a storage error occurs) and becomes the
        result. */
    method Draw(candidates: seq<ImageRecord>) returns (res: ImageResult, selected: ImageRecord, marked: bool)
      requires db.Valid() && |candidates| > 0
      modifies db
      ensures db.Valid()
      ensures db.albums == old(db.albums) && db.images == old(db.images)
      ensures selected in candidates && res == ResultFor(mediaRoot, selected.path, selected.album)
      ensures db.displayed == if marked then old(db.displayed) + {selected.id} else old(db.displayed)
    {
      var choice :| 0 <= choice < |candidates|;
      selected := candidates[choice];
      marked := db.MarkImageDisplayed(selected.id);
      res := ResultFor(mediaRoot, selected.path, selected.album);
    }

    /** The table half of `get_next_image` for the filter it settled on:
        the candidate pool, then a draw from it. `drawn` is the drawn record,
        `clean` tells whether no storage error occurred. */
    method DrawFrom(filter: Option<string>) returns (res: ImageResult, ghost drawn: Option<ImageRecord>, ghost clean: bool)
      requires Valid()
      modifies db
      ensures Valid()
      ensures db.albums == old(db.albums) && db.images == old(db.images)
      ensures res == Sentinel <==> drawn.None?
      ensures res == Sentinel ==> db.displayed == old(db.displayed) || db.displayed == {}
      ensures drawn.Some? ==>
        (IsRecord(old(db.Snapshot()), filter, drawn.value) &&
         res == ResultFor(mediaRoot, drawn.value.path, drawn.value.album) &&
         DrawnMarks(old(db.displayed), db.displayed, drawn.value.id))
      ensures clean && drawn.Some? ==>
        IsCandidate(old(db.Snapshot()), filter, drawn.value) && db.Snapshot() == Step(old(db.Snapshot()), filter, drawn.value)
      ensures clean ==> (res == Sentinel <==> PoolPaths(old(db.Snapshot()), filter) == {})
      ensures clean && res == Sentinel ==> db.displayed == {}
    {
      ghost var t := db.Snapshot();
      var candidates;
      candidates, clean := CandidatePool(filter);
      if |candidates| > 0 {
        var selected, marked;
        res, selected, marked := Draw(candidates);
        drawn := Some(selected);
        clean := clean && marked;
        if clean {
          assert db.Snapshot() == Step(t, filter, selected);
        }
      } else {
        res, drawn := Sentinel, None;
      }
    }

    /** `get_next_image`: draws an unmarked image of the effective filter,
        resetting all marks first when there is none; marks it and makes it
        the current image. `drawn` is the drawn record, `clean` tells whether
        no storage error occurred. */
    method GetNextImage(album: Option<string>) returns (res: ImageResult, ghost drawn: Option<ImageRecord>, ghost clean: bool)
      requires Valid()
      modifies this, db
      ensures Valid()
      ensures currentAlbum == old(currentAlbum) && currentImage == Some(res)
      ensures db.albums == old(db.albums) && db.images == old(db.images)
      ensures res == Sentinel <==> drawn.None?
      ensures res == Sentinel ==> db.displayed == old(db.displayed) || db.displayed == {}
      ensures var f := EffectiveFilter(old(currentAlbum), album);
        drawn.Some? ==>
          (IsRecord(old(db.Snapshot()), f, drawn.value) &&
           res == ResultFor(mediaRoot, drawn.value.path, drawn.value.album) &&
           DrawnMarks(old(db.displayed), db.displayed, drawn.value.id))
      ensures var f := EffectiveFilter(old(currentAlbum), album);
        Truthy(f) && res != Sentinel ==> res.album == f.value
      ensures var f := EffectiveFilter(old(currentAlbum), album);
        clean && drawn.Some? ==>
          IsCandidate(old(db.Snapshot()), f, drawn.value) && db.Snapshot() == Step(old(db.Snapshot()), f, drawn.value)
      ensures var f := EffectiveFilter(old(currentAlbum), album);
        clean ==> (res == Sentinel <==> PoolPaths(old(db.Snapshot()), f) == {})
      ensures clean && res == Sentinel ==> db.displayed == {}
    {
      var filter := album;
      if currentAlbum.Some? && !Truthy(album) {
        filter := currentAlbum;
      }
      assert filter == EffectiveFilter(currentAlbum, album);
      res, drawn, clean := DrawFrom(filter);
      currentImage := Some(res);
    }

    /** `set_album`: a truthy name must be among the album names, else the
        call fails and the sticky filter stays; otherwise the sticky filter
        becomes the argument, which `get_current_album` then reports. */
    method SetAlbum(albumName: Option<string>) returns (ok: bool, ghost clean: bool)
      requires Valid()
      modifies this
      ensures Valid()
      ensures currentImage == old(currentImage)
      ensures ok ==> GetCurrentAlbum() == albumName
      ensures !ok ==> GetCurrentAlbum() == old(GetCurrentAlbum()) && Truthy(albumName)
      ensures !Truthy(albumName) ==> ok
      ensures ok && Truthy(albumName) ==> albumName.value in db.albums
      ensures clean ==> (ok <==> !Truthy(albumName) || albumName.value in db.albums)
    {
      clean := true;
      if Truthy(albumName) {
        var names, failed := db.GetAllAlbums();
        clean := !failed;
        if albumName.value !in names {
          return false, clean;
        }
      }
      currentAlbum := albumName;
      ok := true;
    }

    /** `get_available_albums`: the catalog's album names. */
    method GetAvailableAlbums() returns (names: seq<string>, ghost failed: bool)
      requires Valid()
      ensures failed ==> names == []
      ensures !failed ==> Distinct(names) && forall n :: n in names <==> n in db.albums
    {
      names, failed := db.GetAllAlbums();
    }
  }
}
