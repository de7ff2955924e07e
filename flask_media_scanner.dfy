/** The older Flask scanner: no database, an in-memory list of every image
    record (`_all_images`), the album dictionary of the last scan
    (`_albums_cache`) and the set of paths already shown
    (`displayed_images`). Its selection is deterministic: the first unseen
    image in catalog order. */
module FlaskScanner {
  import opened Common
  import opened MediaTree

  /** One `{path, album}` record of `_all_images`. */
  datatype ImageEntry = ImageEntry(path: string, album: string)

  // ---------------------------------------------------------------------
  // The catalog a scan builds.
  // ---------------------------------------------------------------------

  /** The records the inner loop appends for the paths collected under one
      directory, each tagged with that directory's name. */
  function Tag(paths: seq<string>, album: string): seq<ImageEntry> {
    if paths == [] then [] else Tag(paths[..|paths| - 1], album) + [ImageEntry(paths[|paths| - 1], album)]
  }

  /** `_all_images` after a scan of the listing: directory after directory,
      in listing order, the records of its images. */
  function FlatImages(entries: seq<Entry>, exts: seq<string>): seq<ImageEntry> {
    if entries == [] then []
    else
      var last := entries[|entries| - 1];
      FlatImages(entries[..|entries| - 1], exts) +
        (if last.DirEntry? then Tag(AlbumImages(last.name, last.contents, exts), last.name) else [])
  }

  /** The records of one directory are the pairs of its name with its paths. */
  lemma {:induction false} TagSpec(paths: seq<string>, album: string, x: ImageEntry)
    ensures x in Tag(paths, album) <==> x.album == album && x.path in paths
  {
    if paths != [] {
      var init := paths[..|paths| - 1];
      TagSpec(init, album, x);
      assert paths == init + [paths[|paths| - 1]];
    }
  }

  /** One more path appends one record. */
  lemma TagSnoc(paths: seq<string>, album: string, p: string)
    ensures Tag(paths + [p], album) == Tag(paths, album) + [ImageEntry(p, album)]
  {
  }

  /** One more top-level item: a directory appends its records. */
  lemma FlatImagesSnoc(entries: seq<Entry>, exts: seq<string>, i: int)
    requires 0 <= i < |entries|
    ensures FlatImages(entries[..i + 1], exts) == FlatImages(entries[..i], exts) +
      (if entries[i].DirEntry? then Tag(AlbumImages(entries[i].name, entries[i].contents, exts), entries[i].name) else [])
  {
    assert entries[..i + 1][..i] == entries[..i];
  }

  /** Record `x` comes from top-level item `e`. */
  predicate FromDir(e: Entry, x: ImageEntry, exts: seq<string>) {
    e.DirEntry? && e.name == x.album && x.path in AlbumImages(x.album, e.contents, exts)
  }

  /** Every path collected from a top-level directory has its record,
      tagged with that directory's name. */
  lemma {:induction false} FlatImagesComplete(entries: seq<Entry>, exts: seq<string>, x: ImageEntry, k: int)
    requires 0 <= k < |entries| && FromDir(entries[k], x, exts)
    ensures x in FlatImages(entries, exts)
  {
    var n := |entries| - 1;
    var init := entries[..n];
    if k < n {
      assert init[k] == entries[k];
      FlatImagesComplete(init, exts, x, k);
    } else {
      TagSpec(AlbumImages(x.album, entries[n].contents, exts), x.album, x);
    }
  }

  /** Every record is a path collected from a top-level directory, tagged
      with that directory's name. */
  lemma {:induction false} FlatImagesSound(entries: seq<Entry>, exts: seq<string>, x: ImageEntry)
    requires x in FlatImages(entries, exts)
    ensures exists k :: 0 <= k < |entries| && FromDir(entries[k], x, exts)
  {
    var n := |entries| - 1;
    var init := entries[..n];
    if x in FlatImages(init, exts) {
      FlatImagesSound(init, exts, x);
      var k :| 0 <= k < |init| && FromDir(init[k], x, exts);
      assert entries[k] == init[k];
    } else {
      var last := entries[n];
      TagSpec(AlbumImages(last.name, last.contents, exts), last.name, x);
      assert FromDir(entries[n], x, exts);
    }
  }

  /** No two top-level directories share a name (true of a real directory
      listing). */
  predicate UniqueDirNames(entries: seq<Entry>) {
    forall i, j :: 0 <= i < j < |entries| && entries[i].DirEntry? && entries[j].DirEntry? ==> entries[i].name != entries[j].name
  }

  /** The per-album lists of a scan agree with its records: a record names an
      album of the result and its path is listed there, and every listed path
      has its record. When two directories share a name the dictionary keeps
      the later list, so only the second half holds without
      `UniqueDirNames`. */
  lemma AlbumListsAgree(entries: seq<Entry>, exts: seq<string>, x: ImageEntry)
    ensures x.album in AlbumsOf(entries, exts) && x.path in AlbumsOf(entries, exts)[x.album] ==> x in FlatImages(entries, exts)
    ensures UniqueDirNames(entries) && x in FlatImages(entries, exts) ==>
      x.album in AlbumsOf(entries, exts) && x.path in AlbumsOf(entries, exts)[x.album]
  {
    AlbumsOfSpec(entries, exts, x.album);
    if x.album in AlbumsOf(entries, exts) {
      var i :| LastDirNamed(entries, i, x.album) && AlbumsOf(entries, exts)[x.album] == AlbumImages(x.album, entries[i].contents, exts);
      if x.path in AlbumsOf(entries, exts)[x.album] {
        FlatImagesComplete(entries, exts, x, i);
      }
    }
    if UniqueDirNames(entries) && x in FlatImages(entries, exts) {
      FlatImagesSound(entries, exts, x);
      var k :| 0 <= k < |entries| && FromDir(entries[k], x, exts);
      var i :| LastDirNamed(entries, i, x.album) && AlbumsOf(entries, exts)[x.album] == AlbumImages(x.album, entries[i].contents, exts);
      assert k == i;
    }
  }

  // ---------------------------------------------------------------------
  // The filters and the selection rule of `get_next_image`.
  // ---------------------------------------------------------------------

  /** `[img for img in images if img["album"] == album]`. */
  function InAlbum(images: seq<ImageEntry>, album: string): (r: seq<ImageEntry>)
    ensures forall x :: x in r <==> x in images && x.album == album
  {
    if images == [] then []
    else (if images[0].album == album then [images[0]] else []) + InAlbum(images[1..], album)
  }

  /** `filtered_images`: the album's records when a truthy album is asked
      for with filtering enabled and some record has it; every record
      otherwise. */
  function Filtered(images: seq<ImageEntry>, album: Option<string>, enableFiltering: bool): (r: seq<ImageEntry>)
    ensures !(Truthy(album) && enableFiltering) ==> r == images
    ensures Truthy(album) && enableFiltering && (exists x :: x in images && x.album == album.value) ==>
      forall x :: x in r <==> x in images && x.album == album.value
    ensures Truthy(album) && enableFiltering && (forall x :: x in images ==> x.album != album.value) ==> r == images
  {
    if Truthy(album) && enableFiltering then
      var f := InAlbum(images, album.value);
      if f == [] then images else assert f[0] in f; f
    else images
  }

  /** `[img for img in filtered if img["path"] not in displayed]`. */
  function Unseen(images: seq<ImageEntry>, displayed: set<string>): (r: seq<ImageEntry>)
    ensures forall x :: x in r <==> x in images && x.path !in displayed
  {
    if images == [] then []
    else (if images[0].path in displayed then [] else [images[0]]) + Unseen(images[1..], displayed)
  }

  /** The paths of some records. */
  function PathsOf(images: seq<ImageEntry>): set<string> {
    set x | x in images :: x.path
  }

  /** The first record, in catalog order, whose path is not displayed. */
  function FirstUnseen(images: seq<ImageEntry>, displayed: set<string>): Option<ImageEntry> {
    if images == [] then None
    else if images[0].path !in displayed then Some(images[0])
    else FirstUnseen(images[1..], displayed)
  }

  /** There is a first unseen record exactly when some path is not
      displayed; it is a record with an undisplayed path, and every record
      before it has a displayed path. */
  lemma {:induction false} FirstUnseenSpec(images: seq<ImageEntry>, displayed: set<string>)
    ensures FirstUnseen(images, displayed).None? <==> PathsOf(images) <= displayed
    ensures FirstUnseen(images, displayed).Some? ==>
      exists k :: (0 <= k < |images| && images[k] == FirstUnseen(images, displayed).value &&
                   images[k].path !in displayed && forall j :: 0 <= j < k ==> images[j].path in displayed)
  {
    if images != [] {
      var tail := images[1..];
      FirstUnseenSpec(tail, displayed);
      assert PathsOf(images) == {images[0].path} + PathsOf(tail) by {
        assert images == [images[0]] + tail;
        PathsOfCons(images[0], tail);
      }
      if images[0].path in displayed && FirstUnseen(tail, displayed).Some? {
        var k :| 0 <= k < |tail| && tail[k] == FirstUnseen(tail, displayed).value &&
          tail[k].path !in displayed && forall j :: 0 <= j < k ==> tail[j].path in displayed;
        assert images[k + 1] == tail[k];
        forall j | 0 <= j < k + 1 ensures images[j].path in displayed {
          if j > 0 {
            assert images[j] == tail[j - 1];
          }
        }
      }
    }
  }

  /** Filtering keeps catalog order: the records of `a + b` in an album are
      those of `a` followed by those of `b`. */
  lemma {:induction false} InAlbumAppend(a: seq<ImageEntry>, b: seq<ImageEntry>, album: string)
    ensures InAlbum(a + b, album) == InAlbum(a, album) + InAlbum(b, album)
  {
    if a != [] {
      assert (a + b)[1..] == a[1..] + b;
      InAlbumAppend(a[1..], b, album);
    } else {
      assert a + b == b;
    }
  }

  /** `images[k]` is `r`'s record: it has the album and an undisplayed path,
      and every earlier record of the album has a displayed path. */
  ghost predicate FirstAlbumUnseenAt(images: seq<ImageEntry>, album: string, displayed: set<string>, k: int, r: Option<ImageEntry>)
  {
    0 <= k < |images| && r == Some(images[k]) && images[k].album == album && images[k].path !in displayed &&
    forall j :: 0 <= j < k && images[j].album == album ==> images[j].path in displayed
  }

  /** The first unseen record of an album is the first record of the whole
      catalog that has that album and an undisplayed path; there is none
      exactly when every record of the album has a displayed path. */
  lemma {:induction false} FirstUnseenInAlbum(images: seq<ImageEntry>, album: string, displayed: set<string>)
    ensures FirstUnseen(InAlbum(images, album), displayed).None? <==>
      forall k :: 0 <= k < |images| && images[k].album == album ==> images[k].path in displayed
    ensures FirstUnseen(InAlbum(images, album), displayed).Some? ==>
      exists k :: FirstAlbumUnseenAt(images, album, displayed, k, FirstUnseen(InAlbum(images, album), displayed))
  {
    if images != [] {
      var tail := images[1..];
      FirstUnseenInAlbum(tail, album, displayed);
      var f := InAlbum(images, album);
      if images[0].album == album {
        assert f == [images[0]] + InAlbum(tail, album);
        assert f[1..] == InAlbum(tail, album);
      } else {
        assert f == InAlbum(tail, album);
      }
      forall k | 0 < k < |images| ensures images[k] == tail[k - 1] { }
      var r := FirstUnseen(f, displayed);
      if images[0].album == album && images[0].path !in displayed {
        assert FirstAlbumUnseenAt(images, album, displayed, 0, r);
      } else if r.Some? {
        assert r == FirstUnseen(InAlbum(tail, album), displayed);
        var k :| FirstAlbumUnseenAt(tail, album, displayed, k, r);
        forall j | 0 <= j < k + 1 && images[j].album == album ensures images[j].path in displayed {
          if j > 0 {
            assert images[j] == tail[j - 1];
          }
        }
        assert FirstAlbumUnseenAt(images, album, displayed, k + 1, r);
      }
    }
  }

  /** The head of the unseen list is the first unseen record. */
  lemma {:induction false} UnseenHead(images: seq<ImageEntry>, displayed: set<string>)
    ensures Unseen(images, displayed) == [] <==> FirstUnseen(images, displayed).None?
    ensures Unseen(images, displayed) != [] ==> FirstUnseen(images, displayed) == Some(Unseen(images, displayed)[0])
  {
    if images != [] {
      UnseenHead(images[1..], displayed);
    }
  }

  /** What one call does with the filtered records: the record it returns,
      if any, and `displayed_images` afterwards. */
  datatype Selection = Selection(chosen: Option<ImageEntry>, displayed: set<string>)

  /** The selection rule: the first unseen record, marked; when every
      filtered path is displayed, the marks are cleared and the first
      filtered record is taken; with no records at all, nothing is returned
      and the marks are cleared. */
  function Select(filtered: seq<ImageEntry>, displayed: set<string>): Selection {
    var first := FirstUnseen(filtered, displayed);
    if first.Some? then Selection(first, displayed + {first.value.path})
    else if filtered != [] then Selection(Some(filtered[0]), {filtered[0].path})
    else Selection(None, {})
  }

  /** The selection rule as `get_next_image` computes it: the head of the
      unseen list, or else the first filtered record after clearing. */
  lemma SelectByUnseen(filtered: seq<ImageEntry>, displayed: set<string>)
    ensures var u := Unseen(filtered, displayed);
      Select(filtered, displayed) ==
        if u != [] then Selection(Some(u[0]), displayed + {u[0].path})
        else if filtered != [] then Selection(Some(filtered[0]), {filtered[0].path})
        else Selection(None, {})
  {
    UnseenHead(filtered, displayed);
  }

  /** What a call selects: a filtered record; while some filtered path is
      not displayed, the first record in order with such a path, which then
      grows the marks by exactly its path; after exhaustion the first record
      and a fresh set of marks; with no records, nothing and no marks. */
  lemma SelectSpec(filtered: seq<ImageEntry>, displayed: set<string>)
    ensures Select(filtered, displayed).chosen.Some? <==> filtered != []
    ensures Select(filtered, displayed).chosen.Some? ==> Select(filtered, displayed).chosen.value in filtered
    ensures !(PathsOf(filtered) <= displayed) ==>
      var x := Select(filtered, displayed).chosen.value;
      && x.path !in displayed
      && (exists k :: 0 <= k < |filtered| && filtered[k] == x && forall j :: 0 <= j < k ==> filtered[j].path in displayed)
      && Select(filtered, displayed).displayed == displayed + {x.path}
      && |Select(filtered, displayed).displayed| == |displayed| + 1
    ensures PathsOf(filtered) <= displayed && filtered != [] ==>
      Select(filtered, displayed) == Selection(Some(filtered[0]), {filtered[0].path})
    ensures filtered == [] ==> Select(filtered, displayed) == Selection(None, {})
  {
    FirstUnseenSpec(filtered, displayed);
    if filtered == [] {
      assert PathsOf(filtered) == {};
    } else if FirstUnseen(filtered, displayed).None? {
      assert filtered[0] in filtered;
    }
  }

  /** The records returned by `n` consecutive calls with the same filtered
      records, starting from marks `displayed`. */
  function Picks(filtered: seq<ImageEntry>, displayed: set<string>, n: nat): seq<ImageEntry>
    decreases n
  {
    if n == 0 then []
    else
      var s := Select(filtered, displayed);
      (if s.chosen.Some? then [s.chosen.value] else []) + Picks(filtered, s.displayed, n - 1)
  }

  /** The marks after those calls. */
  function MarksAfter(filtered: seq<ImageEntry>, displayed: set<string>, n: nat): set<string>
    decreases n
  {
    if n == 0 then displayed else MarksAfter(filtered, Select(filtered, displayed).displayed, n - 1)
  }

  /** No repeat within a cycle: as many calls as there are undisplayed
      filtered paths return that many pairwise distinct, previously
      undisplayed images. */
  lemma {:induction false} FlaskNoRepeatWithinCycle(filtered: seq<ImageEntry>, displayed: set<string>, n: nat)
    requires n <= |PathsOf(filtered) - displayed|
    ensures |Picks(filtered, displayed, n)| == n
    ensures forall i :: 0 <= i < n ==> Picks(filtered, displayed, n)[i].path !in displayed
    ensures forall i, j :: 0 <= i < j < n ==> Picks(filtered, displayed, n)[i].path != Picks(filtered, displayed, n)[j].path
    decreases n
  {
    if n > 0 {
      var x, d' := PickStep(filtered, displayed, n);
      FlaskNoRepeatWithinCycle(filtered, d', n - 1);
      var rest := Picks(filtered, d', n - 1);
      var all := Picks(filtered, displayed, n);
      assert |all| == n;
      forall i | 0 <= i < n ensures all[i].path !in displayed {
        if i > 0 {
          assert all[i] == rest[i - 1];
        }
      }
      forall i, j | 0 <= i < j < n ensures all[i].path != all[j].path {
        assert all[j] == rest[j - 1];
        if i > 0 {
          assert all[i] == rest[i - 1];
        }
      }
    }
  }

  /** Within a cycle each call grows the marks by one and removes one path
      from the undisplayed filtered paths. */
  lemma {:induction false} FlaskMarksGrow(filtered: seq<ImageEntry>, displayed: set<string>, n: nat)
    requires n <= |PathsOf(filtered) - displayed|
    ensures |MarksAfter(filtered, displayed, n)| == |displayed| + n
    ensures |PathsOf(filtered) - MarksAfter(filtered, displayed, n)| == |PathsOf(filtered) - displayed| - n
    decreases n
  {
    if n > 0 {
      var x, d' := PickStep(filtered, displayed, n);
      FlaskMarksGrow(filtered, d', n - 1);
    }
  }

  /** Within a cycle the marks are the old ones plus the paths returned. */
  lemma {:induction false} FlaskMarksArePicks(filtered: seq<ImageEntry>, displayed: set<string>, n: nat)
    requires n <= |PathsOf(filtered) - displayed|
    ensures MarksAfter(filtered, displayed, n) == displayed + PathsOf(Picks(filtered, displayed, n))
    decreases n
  {
    if n > 0 {
      var x, d' := PickStep(filtered, displayed, n);
      var rest := Picks(filtered, d', n - 1);
      FlaskMarksArePicks(filtered, d', n - 1);
      PathsOfCons(x, rest);
      var later := PathsOf(rest);
      calc {
        MarksAfter(filtered, displayed, n);
        MarksAfter(filtered, d', n - 1);
        d' + later;
        displayed + ({x.path} + later);
        displayed + PathsOf([x] + rest);
      }
    }
  }

  /** One call of a cycle: it returns the first unseen record, whose path
      was unseen, and marks it. */
  lemma PickStep(filtered: seq<ImageEntry>, displayed: set<string>, n: nat) returns (x: ImageEntry, d': set<string>)
    requires 0 < n <= |PathsOf(filtered) - displayed|
    ensures x.path !in displayed && d' == displayed + {x.path}
    ensures Picks(filtered, displayed, n) == [x] + Picks(filtered, d', n - 1)
    ensures MarksAfter(filtered, displayed, n) == MarksAfter(filtered, d', n - 1)
    ensures n - 1 <= |PathsOf(filtered) - d'| == |PathsOf(filtered) - displayed| - 1
  {
    var unseen := PathsOf(filtered) - displayed;
    assert unseen != {};
    FirstUnseenSpec(filtered, displayed);
    x := FirstUnseen(filtered, displayed).value;
    d' := displayed + {x.path};
    var k :| 0 <= k < |filtered| && filtered[k] == x && x.path !in displayed;
    assert x.path in unseen;
    assert PathsOf(filtered) - d' == unseen - {x.path};
  }

  /** The paths of a record followed by others. */
  lemma PathsOfCons(x: ImageEntry, rest: seq<ImageEntry>)
    ensures PathsOf([x] + rest) == {x.path} + PathsOf(rest)
  {
  }

  /** After a full cycle every filtered path is displayed, so the next call
      resets. */
  lemma FlaskCycleExhausts(filtered: seq<ImageEntry>, displayed: set<string>)
    ensures PathsOf(filtered) <= MarksAfter(filtered, displayed, |PathsOf(filtered) - displayed|)
  {
    var marks := MarksAfter(filtered, displayed, |PathsOf(filtered) - displayed|);
    FlaskMarksGrow(filtered, displayed, |PathsOf(filtered) - displayed|);
    assert PathsOf(filtered) - marks == {};
    forall p | p in PathsOf(filtered) ensures p in marks {
      assert p !in PathsOf(filtered) - marks;
    }
  }

  // ---------------------------------------------------------------------
  // The scanner object.
  // ---------------------------------------------------------------------

  class MediaScanner {
    const mediaRoot: string
    const allowedExtensions: seq<string>
    const enableAlbumFiltering: bool
    var displayedImages: set<string>
    var allImages: seq<ImageEntry>
    var albumsCache: map<string, seq<string>>
    /** The listing the caches were last built from. */
    ghost var listing: seq<Entry>

    /** Both caches come from the same scan. */
    ghost predicate Valid()
      reads this
    {
      allImages == FlatImages(listing, allowedExtensions) && albumsCache == AlbumsOf(listing, allowedExtensions)
    }

    /** A new scanner: empty caches; `displayed` is what `load_state` read
        back (the empty set when there is no state file). */
    constructor (mediaRoot: string, allowedExtensions: seq<string>, enableAlbumFiltering: bool, displayed: set<string>)
      ensures Valid()
      ensures this.mediaRoot == mediaRoot && this.allowedExtensions == allowedExtensions
      ensures this.enableAlbumFiltering == enableAlbumFiltering
      ensures displayedImages == displayed && allImages == [] && albumsCache == map[]
    {
      this.mediaRoot := mediaRoot;
      this.allowedExtensions := allowedExtensions;
      this.enableAlbumFiltering := enableAlbumFiltering;
      displayedImages := displayed;
      allImages := [];
      albumsCache := map[];
      listing := [];
    }

    /** `scan_media`: both caches are rebuilt from the listing (left empty
        when the root is missing); the marks are kept. */
    method ScanMedia(root: MediaRoot) returns (albums: map<string, seq<string>>)
      modifies this
      ensures Valid() && listing == Entries(root)
      ensures allImages == FlatImages(Entries(root), allowedExtensions)
      ensures albums == albumsCache && albums == AlbumsOf(Entries(root), allowedExtensions)
      ensures displayedImages == old(displayedImages)
    {
      albums := map[];
      allImages := [];
      albumsCache := map[];
      listing := Entries(root);
      if root.Missing? {
        return;
      }
      var entries := root.entries;
      var i := 0;
      while i < |entries|
        invariant 0 <= i <= |entries|
        invariant allImages == FlatImages(entries[..i], allowedExtensions)
        invariant albums == AlbumsOf(entries[..i], allowedExtensions)
        invariant displayedImages == old(displayedImages) && listing == entries
      {
        FlatImagesSnoc(entries, allowedExtensions, i);
        AlbumsOfSnoc(entries, allowedExtensions, i);
        if entries[i].DirEntry? {
          var images := CollectAlbum(entries[i].name, entries[i].contents);
          albums := albums[entries[i].name := images];
        }
        i := i + 1;
      }
      assert entries[..i] == entries;
      albumsCache := albums;
    }

    /** The inner loop of `scan_media` for top-level directory `albumName`:
        its allowed files in `glob` order, each also appended to
        `_all_images` as a record of the album. */
    method CollectAlbum(albumName: string, contents: seq<Nested>) returns (images: seq<string>)
      modifies this`allImages
      ensures images == AlbumImages(albumName, contents, allowedExtensions)
      ensures allImages == old(allImages) + Tag(images, albumName)
    {
      images := [];
      var records := [];
      var j := 0;
      while j < |contents|
        invariant 0 <= j <= |contents|
        invariant images == AlbumImages(albumName, contents[..j], allowedExtensions)
        invariant records == Tag(images, albumName)
        invariant allImages == old(allImages)
      {
        AlbumImagesSnoc(albumName, contents, allowedExtensions, j);
        if Allowed(contents[j], allowedExtensions) {
          var relPath := RelPath(albumName, contents[j]);
          TagSnoc(images, albumName, relPath);
          images := images + [relPath];
          records := records + [ImageEntry(relPath, albumName)];
        }
        j := j + 1;
      }
      assert contents[..j] == contents;
      allImages := allImages + records;
    }

    /** `get_next_image`: scans first when there is no record (the listing
        is `root` then), filters, and applies the selection rule to
        `displayed_images`. */
    method GetNextImage(root: MediaRoot, album: Option<string>) returns (res: ImageResult)
      requires Valid()
      modifies this
      ensures Valid()
      ensures old(allImages) != [] ==> allImages == old(allImages) && albumsCache == old(albumsCache)
      ensures old(allImages) == [] ==>
        allImages == FlatImages(Entries(root), allowedExtensions) && albumsCache == AlbumsOf(Entries(root), allowedExtensions)
      ensures var s := Select(Filtered(allImages, album, enableAlbumFiltering), old(displayedImages));
        && displayedImages == s.displayed
        && res == if s.chosen.Some? then ResultFor(mediaRoot, s.chosen.value.path, s.chosen.value.album) else Sentinel
    {
      if allImages == [] {
        var _ := ScanMedia(root);
      }
      var filteredImages := allImages;
      if Truthy(album) && enableAlbumFiltering {
        filteredImages := InAlbum(allImages, album.value);
        if filteredImages == [] {
          filteredImages := allImages;
        }
      }
      assert filteredImages == Filtered(allImages, album, enableAlbumFiltering);
      res := SelectNext(filteredImages);
    }

    /** The selection half of `get_next_image` on the filtered records:
        the first unseen record is returned and marked; when there is none
        the marks are cleared first and the first filtered record is taken. */
    method SelectNext(filteredImages: seq<ImageEntry>) returns (res: ImageResult)
      modifies this`displayedImages
      ensures var s := Select(filteredImages, old(displayedImages));
        && displayedImages == s.displayed
        && res == if s.chosen.Some? then ResultFor(mediaRoot, s.chosen.value.path, s.chosen.value.album) else Sentinel
    {
      var unseenImages := Unseen(filteredImages, displayedImages);
      SelectByUnseen(filteredImages, displayedImages);
      if unseenImages == [] {
        displayedImages := {};
        unseenImages := filteredImages;
      }
      if unseenImages != [] {
        var selected := unseenImages[0];
        displayedImages := displayedImages + {selected.path};
        res := ResultFor(mediaRoot, selected.path, selected.album);
      } else {
        res := Sentinel;
      }
    }

    /** `get_albums`: the album names of the cache, scanning first when the
        cache is empty. */
    method GetAlbums(root: MediaRoot) returns (names: seq<string>)
      requires Valid()
      modifies this
      ensures Valid()
      ensures old(albumsCache) != map[] ==> allImages == old(allImages) && albumsCache == old(albumsCache)
      ensures old(albumsCache) == map[] ==>
        allImages == FlatImages(Entries(root), allowedExtensions) && albumsCache == AlbumsOf(Entries(root), allowedExtensions)
      ensures displayedImages == old(displayedImages)
      ensures Distinct(names) && forall n :: n in names <==> n in albumsCache
    {
      if albumsCache == map[] {
        var _ := ScanMedia(root);
      }
      names := ListKeys(albumsCache);
    }
  }
}
