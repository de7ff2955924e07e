# Picture frame catalog and rotation, modelled in Dafny

The picture frame shows the images found under a media root, one at a time, and
never repeats one until every image in scope has been shown. The repository
holds two copies of this logic:

- **Home Assistant component.** A `DatabaseManager` keeps an SQLite catalog with
  three tables: albums by unique name, images by unique path, and one
  "displayed" mark per image id. A `MediaScanner` fills the catalog from the
  media root. Its `get_next_image` draws a random unmarked image of the
  effective album filter and marks it. When no unmarked image is left, it
  clears every mark first. `set_album` sets a sticky album filter, checked
  against the album table.
- **Flask scanner** (older). It has no database: an in-memory list of every
  `{path, album}` record, an album dictionary cached from the last scan, and a
  set of displayed paths. Its `get_next_image` takes the first unseen record
  in catalog order.

The model has five modules:

- `Common` (`common.dfy`): `Option`, Python truthiness of an optional string,
  and the key list of a dictionary.
- `MediaTree` (`media_tree.dfy`): the media root as a value. It covers the
  top-level listing, the recursive walk under each directory, `Path.suffix`,
  ASCII `str.lower`, and relative paths. It also defines `AlbumImages` and
  `AlbumsOf`: what the inner and outer scan loops collect.
- `Catalog` (`db_manager.dfy`): the class `DatabaseManager`, whose three
  tables are fields of type `map` and `set`. Its methods are proved against
  `TablesValid` (ids positive and distinct) and against the join predicate
  `IsRecord`. New ids follow SQLite's rowid rule, which is one more than the
  largest id (`NextRowId`).
- `PictureFrameScanner` (`picture_frame_scanner.dfy`): the Home Assistant
  `MediaScanner` class. `Step`, `IsCandidate` and `IsRotation` specify one
  draw and a run of draws on the tables. The lemmas prove that a run cannot
  repeat an image before the pool is exhausted, and that exhaustion resets.
- `FlaskScanner` (`flask_media_scanner.dfy`): the Flask `MediaScanner` class.
  `FlatImages` is the record list a scan builds and `Select` is the selection
  rule. `Picks` and `MarksAfter` describe a run of calls, with the cycle
  lemmas proved about them.

Storage errors (`sqlite3.Error`, caught inside every catalog call) are
modelled as a nondeterministic choice inside each catalog method. Ghost
out-parameters (`failed`, `ok`, `added`, `clean`) report when such an error
happened; the scan's `added` flags say which `add_album` calls succeeded. The error-free contracts are stated under those flags.
`random.choice` is an arbitrary index chosen with `:|`.

Facts about the code that shape the model:

- Albums are the top-level directories only: a file's album is its
  top-level directory, however deep the file lies. Files directly in the
  root belong to no album and are ignored.
- An image row is keyed by its whole relative path, in one column. The
  schema has three tables and no version table.
- An album argument to `get_next_image` is used as the filter for that call
  only. It does not update the sticky album, and it is compared whole with
  album names, so `"a/b"` matches only an album named `"a/b"`.
- Candidates are materialized as a list and drawn with `random.choice`; the
  queries do no sampling of their own. When the unmarked query is empty, the
  code clears the marks and queries every image of the filter.
- A mark is not checked against `images`, and an image's album id is not
  checked against `albums`: SQLite does not enforce foreign keys by default.

## Model

| member | source | states |
|---|---|---|
| Common.ListKeys | src/utils/media_scanner.py:129 | the list of a dictionary's keys holds every key exactly once, and nothing else |
| MediaTree.FullPath | custom_components/picture_frame/media_scanner.py:107 | the full path is exactly the media root, one `/`, then the relative path |
| MediaTree.Suffix | custom_components/picture_frame/media_scanner.py:62 | the suffix is non-empty iff the name has a last dot that is neither its first nor its last character; it is then that dot and everything after it |
| MediaTree.Lower | custom_components/picture_frame/media_scanner.py:62 | lower-casing keeps the length, turns each ASCII capital into its lower-case letter, and keeps every other character |
| MediaTree.RelPath | custom_components/picture_frame/media_scanner.py:64 | a path relative to the media root starts with its top-level directory and a separator, and ends with the file's name |
| MediaTree.JoinPathLast | custom_components/picture_frame/media_scanner.py:64 | a `/`-joined path ends with its last component |
| MediaTree.JoinPathHead | custom_components/picture_frame/media_scanner.py:64 | a `/`-joined path starts with its first component; with more components, a `/` and the join of the rest follow |
| MediaTree.JoinPathInjective | custom_components/picture_frame/media_scanner.py:64 | components without `/` that join to the same path are the same components |
| MediaTree.RelPathInjective | custom_components/picture_frame/media_scanner.py:64 | two walked files whose path components contain no `/` and that have the same relative path have the same top-level directory, the same parent directories and the same name, so image paths identify files |
| MediaTree.ResultFor | custom_components/picture_frame/media_scanner.py:106-110 | the result of a selected image is not the sentinel; it carries the relative path and the album, and its full path is the media root, one `/`, then the relative path |
| MediaTree.AlbumImagesComplete | custom_components/picture_frame/media_scanner.py:61-65 | every regular file under a directory with an allowed lower-cased suffix is collected under its relative path |
| MediaTree.AlbumImagesSound | custom_components/picture_frame/media_scanner.py:61-65 | every collected path is the relative path of an allowed regular file under the directory |
| MediaTree.AlbumsOfSpec | custom_components/picture_frame/media_scanner.py:47-70 | the album keys are exactly the top-level directory names; each key holds the images of the last directory of that name |
| Catalog.RecordOfPath | custom_components/picture_frame/db_manager.py:203-214 | every image path whose album id joins an album row of the filter has its `{id, path, album}` record |
| Catalog.PathOfRecord | custom_components/picture_frame/db_manager.py:248-263 | a record of the join is in the filter's pool, and in its unmarked pool when its id has no mark |
| Catalog.NextRowId | custom_components/picture_frame/db_manager.py:108-112 | a new rowid is positive, larger than every existing id, and one more than the largest (1 for an empty table) |
| Catalog.DatabaseManager.constructor | custom_components/picture_frame/db_manager.py:26-56 | opening keeps the tables the file already holds |
| Catalog.DatabaseManager.ClearDisplayedImages | custom_components/picture_frame/db_manager.py:72-84 | every mark is deleted and albums and images are unchanged; a storage error leaves everything as it was |
| Catalog.DatabaseManager.AddAlbum | custom_components/picture_frame/db_manager.py:86-120 | an existing name returns its id and adds no row (idempotent); a new name gets a fresh id larger than all others; ids stay positive and distinct; -1 on a storage error, with no change |
| Catalog.DatabaseManager.AddImage | custom_components/picture_frame/db_manager.py:122-158 | keyed on the path alone: an existing path returns its id with the table unchanged, whatever album id is passed; a new path gets a fresh id under the given album id; -1 on a storage error, with no change |
| Catalog.DatabaseManager.MarkImageDisplayed | custom_components/picture_frame/db_manager.py:160-186 | on True the id joins the mark set (one mark per id); on False nothing changes; albums and images never change |
| Catalog.DatabaseManager.SelectImages | custom_components/picture_frame/db_manager.py:202-224 | the query loop returns each row of the join exactly once: an image joined to an album row, with that album's name, filtered by name only for a truthy filter, and by having no mark when asked |
| Catalog.DatabaseManager.GetAllImages | custom_components/picture_frame/db_manager.py:188-232 | exactly the records of the join under the filter, each once; an empty list on a storage error |
| Catalog.DatabaseManager.GetUndisplayedImages | custom_components/picture_frame/db_manager.py:234-281 | exactly the records of `get_all_images` for the same filter whose id has no mark, each once; an empty list on a storage error |
| Catalog.DatabaseManager.GetAllAlbums | custom_components/picture_frame/db_manager.py:283-303 | every album name exactly once and nothing else; an empty list on a storage error |
| PictureFrameScanner.EffectiveFilter | custom_components/picture_frame/media_scanner.py:87-89 | a truthy argument is the filter; a falsy one gives way to the sticky album when set, and stays falsy otherwise |
| PictureFrameScanner.StepShrinksPool | custom_components/picture_frame/media_scanner.py:92-103 | drawing an unmarked candidate removes exactly its path from the filter's unmarked pool |
| PictureFrameScanner.ResetOnExhaustion | custom_components/picture_frame/media_scanner.py:94-103 | with no unmarked image of the filter, a draw clears every mark in every album and leaves only the drawn image marked; the rest of the filter's pool becomes unmarked |
| PictureFrameScanner.NoRepeatWithinCycle | custom_components/picture_frame/media_scanner.py:92-112 | up to as many consecutive draws as there are unmarked images of the filter return pairwise distinct, previously unmarked images, and the unmarked pool shrinks by the number of draws |
| PictureFrameScanner.CycleExhaustsPool | custom_components/picture_frame/media_scanner.py:94-98 | after a full cycle no image of the filter is unmarked, so the next call resets |
| PictureFrameScanner.MediaScanner.constructor | custom_components/picture_frame/media_scanner.py:19-32 | a new scanner has no sticky album and no current image |
| PictureFrameScanner.MediaScanner.ScanAlbum | custom_components/picture_frame/media_scanner.py:61-68 | the inner loop lists exactly the directory's allowed files, in walk order; each new image row is one of them under the album's id; existing rows, albums and marks are kept; without errors every listed path has a row |
| PictureFrameScanner.AlbumsAddedSnoc | custom_components/picture_frame/media_scanner.py:48-70 | one more top-level item sets its own key exactly when it is a directory whose `add_album` succeeded, and only a directory's flag can be false |
| PictureFrameScanner.AlbumsAddedAll | custom_components/picture_frame/media_scanner.py:48-70 | when every `add_album` call succeeds, the dictionary of the successful calls is exactly `AlbumsOf` the listing |
| PictureFrameScanner.MediaScanner.ScanDirectory | custom_components/picture_frame/media_scanner.py:49-70 | when `add_album` succeeds the directory becomes a key holding its images, even if none or if an `add_image` fails; when it fails the directory is skipped and nothing is written |
| PictureFrameScanner.MediaScanner.ScanEntry | custom_components/picture_frame/media_scanner.py:48-70 | one outer-loop pass sets the directory's key exactly when its `add_album` succeeds and leaves the dictionary alone otherwise; it keeps every key tied to a directory of the listing and every new image row tied to an allowed file of a directory of its album |
| PictureFrameScanner.MediaScanner.ScanMedia | custom_components/picture_frame/media_scanner.py:34-74 | a missing root returns an empty map and writes nothing; the result is exactly the albums of the directories whose `add_album` succeeded (`AlbumsAdded`), so with every call succeeding it is exactly the albums of the listing; new album rows are keys of the result; new image rows are allowed files of their album's directory; without any error every listed image has its row; marks are untouched |
| PictureFrameScanner.MediaScanner.CandidatePool | custom_components/picture_frame/media_scanner.py:91-98 | the candidates are records of the filter; without errors they are exactly the `IsCandidate` records of the old tables: the unmarked ones or, when none is unmarked, every record of the filter after all marks are cleared; they are empty exactly when the filter matches no image; even with errors the marks are kept or all cleared, and the candidates are none, exactly the unmarked records or exactly all records of the filter (`PoolOutcome`) |
| PictureFrameScanner.MediaScanner.Draw | custom_components/picture_frame/media_scanner.py:100-110 | `random.choice` picks one of the candidates; it is marked exactly when the mark call succeeds, the other tables stay, and the result is built from it |
| PictureFrameScanner.MediaScanner.DrawFrom | custom_components/picture_frame/media_scanner.py:91-112 | for a given filter: the drawn record is a record of the filter and gives the result; the marks end as they were, cleared, or with the drawn id added to either (`DrawnMarks`); without errors the draw is a candidate, the tables become exactly that draw's `Step`, and the sentinel comes exactly when the filter matches no image, with all marks cleared |
| PictureFrameScanner.MediaScanner.GetNextImage | custom_components/picture_frame/media_scanner.py:76-116 | on the effective filter, everything `DrawFrom` states, and the result becomes the current image; the sentinel comes exactly when nothing was drawn, and the sticky album is unchanged; even with storage errors no image other than the drawn one gets a mark |
| PictureFrameScanner.MediaScanner.SetAlbum | custom_components/picture_frame/media_scanner.py:118-147 | False keeps the sticky album and needs a truthy name; True sets the sticky album, as `get_current_album` reports it, to the argument, and a truthy name then is an album; without a storage error True comes exactly for a falsy name or an existing album |
| PictureFrameScanner.MediaScanner.GetCurrentAlbum | custom_components/picture_frame/media_scanner.py:140-147 | the sticky album, as `set_album` left it; by the class invariant, when truthy it names an album of the catalog |
| PictureFrameScanner.MediaScanner.GetAvailableAlbums | custom_components/picture_frame/media_scanner.py:149-156 | every album name of the catalog exactly once; an empty list on a storage error |
| FlaskScanner.TagSpec | src/utils/media_scanner.py:57-60 | the records of one directory are exactly its collected paths paired with its name |
| FlaskScanner.FlatImagesComplete | src/utils/media_scanner.py:46-60 | every path collected from a top-level directory has a record tagged with that directory's name |
| FlaskScanner.FlatImagesSound | src/utils/media_scanner.py:46-60 | every record is a path collected from a top-level directory of its album's name |
| FlaskScanner.AlbumListsAgree | src/utils/media_scanner.py:46-64 | a path listed under an album in the result has its record; when directory names are unique, every record is listed under its album |
| FlaskScanner.InAlbum | src/utils/media_scanner.py:87 | the album comprehension keeps exactly the records of that album |
| FlaskScanner.InAlbumAppend | src/utils/media_scanner.py:87 | the album comprehension keeps catalog order: filtering `a + b` gives the filtered `a` followed by the filtered `b` |
| FlaskScanner.FirstUnseenInAlbum | src/utils/media_scanner.py:87-105 | the first unseen record of an album's list is the first record of the whole catalog with that album and an undisplayed path; there is none exactly when every record of the album has a displayed path |
| FlaskScanner.Filtered | src/utils/media_scanner.py:83-91 | without a truthy album or with filtering disabled, every record; otherwise the album's records, falling back to every record when the album has none |
| FlaskScanner.Unseen | src/utils/media_scanner.py:94-95 | the unseen comprehension keeps exactly the records whose path is not displayed |
| FlaskScanner.FirstUnseenSpec | src/utils/media_scanner.py:94-105 | there is a first unseen record exactly when some filtered path is not displayed; it has an undisplayed path, and every record before it has a displayed path |
| FlaskScanner.UnseenHead | src/utils/media_scanner.py:94-105 | the unseen list is empty exactly when there is no first unseen record, and otherwise starts with it |
| FlaskScanner.SelectByUnseen | src/utils/media_scanner.py:94-106 | the selection rule equals what the code computes: mark and take the head of the unseen list, or else clear and take the first filtered record |
| FlaskScanner.SelectSpec | src/utils/media_scanner.py:94-117 | a record is chosen exactly when there are filtered records; while some path is unseen, the first such record is chosen and the mark set grows by exactly one; after exhaustion the first record and a fresh mark set; with no records, nothing and no marks |
| FlaskScanner.FlaskNoRepeatWithinCycle | src/utils/media_scanner.py:104-106 | up to as many consecutive calls as there are unseen filtered paths return that many pairwise distinct, previously unseen records |
| FlaskScanner.FlaskMarksGrow | src/utils/media_scanner.py:104-106 | within a cycle `displayed_images` grows by one per call and the unseen filtered paths shrink by one |
| FlaskScanner.FlaskMarksArePicks | src/utils/media_scanner.py:104-106 | within a cycle the marks are the initial marks plus the paths returned |
| FlaskScanner.FlaskCycleExhausts | src/utils/media_scanner.py:97-101 | after a full cycle every filtered path is displayed, so the next call resets |
| FlaskScanner.MediaScanner.constructor | src/utils/media_scanner.py:19-26 | a new scanner has empty caches and the displayed set it was given |
| FlaskScanner.MediaScanner.ScanMedia | src/utils/media_scanner.py:28-66 | both caches are reset and rebuilt from the listing (left empty for a missing root); the record list is `FlatImages` of the listing, and the returned albums, equal to the album cache, are `AlbumsOf` it; the displayed set is kept |
| FlaskScanner.MediaScanner.CollectAlbum | src/utils/media_scanner.py:49-62 | the inner loop lists exactly the directory's allowed files, and appends one record per file tagged with the album name |
| FlaskScanner.MediaScanner.GetNextImage | src/utils/media_scanner.py:68-117 | scans first exactly when there is no record, and otherwise keeps both caches; the result and the new displayed set are those of `Select` on `Filtered` records and the old marks; a chosen record gives its result, and no record gives the sentinel |
| FlaskScanner.MediaScanner.SelectNext | src/utils/media_scanner.py:93-117 | the selection half of `get_next_image` moves the marks and returns the result exactly as `Select` says |
| FlaskScanner.MediaScanner.GetAlbums | src/utils/media_scanner.py:119-129 | scans first exactly when the album cache is empty; returns every album of the cache exactly once |

## Left out

- SQLite itself: connections, cursors, SQL text, `lastrowid`, `os.makedirs` and
  the `displayed_at` timestamp. The tables are maps and a set, and an
  insert's id follows the rowid rule.
- A failure inside `_get_connection` leaves `conn` unbound, so the `finally`
  block raises instead of returning -1. The model treats every storage error
  as caught by the call.
- The filesystem walk (`exists`, `iterdir`, `glob`, `is_dir`, `is_file`) is
  not performed. The tree is given as a value in listing and walk order.
- Each call is modelled as atomic. Home Assistant runs the scanner's
  methods in executor threads (`custom_components/picture_frame/sensor.py:60`,
  `:122`), and nothing in the code locks the rotation. Interleaved calls are
  not captured.
- SQLite rowids are 64-bit. Once the largest rowid is the 64-bit maximum,
  SQLite picks an unused rowid at random instead. `NextRowId` keeps the
  one-more-than-the-largest rule and does not model that limit.
- `random.choice` is not modelled as a probability. It is an arbitrary
  candidate.
- `load_state` and `save_state` of the Flask scanner are JSON file I/O. The
  constructor takes the displayed set that `load_state` would have read, and
  the save after each selection is omitted.
- pathlib normalisation of `media_root / path` is left out: `FullPath` joins
  with one `/`. `str.lower` is modelled on ASCII letters only.
- `ALLOWED_EXTENSIONS`, `ENABLE_ALBUM_FILTERING` and `MEDIA_ROOT` are
  parameters of the scanners. Logging, the Home Assistant sensor and
  services, and the Flask routes are not part of this model.
- After a scan of an existing root, the Flask `_albums_cache` is the very
  dictionary `scan_media` returns, so a caller that mutates one changes the
  other. For a missing root the cache and the result are two distinct empty
  dictionaries. Maps are values here, so that
  aliasing is not captured. Dictionary key order is not captured either:
  `ListKeys` promises each key once, in some order.
- FlaskScanner.MediaScanner.CollectAlbum: it appends a directory's records to
  `_all_images` after its inner loop, where the code appends them one at a
  time inside the loop. Nothing reads the list during the loop, so the final
  list is the same.
- Catalog.DatabaseManager.SelectImages: the order of the returned rows is left
  unspecified, as SQL leaves it without `ORDER BY`.
- PictureFrameScanner.MediaScanner.GetNextImage: when a storage error occurs,
  the contract allows any of the marks the calls could leave (`DrawnMarks`).
  It does not say which of those storage errors occurred.
- PictureFrameScanner.MediaScanner.ScanMedia: when an `add_image` fails, the
  contract does not say which listed files lack a row. It says only that
  every new row belongs to a listed file.
- MediaTree.AlbumsOfSpec: top-level directory names in a real listing are
  unique. The model allows duplicates and, like the dictionary assignment,
  keeps the later directory's list.
