/** The media root as the scanners see it. The filesystem walk
    (`iterdir`, the recursive `glob`, `exists`, `is_dir`, `is_file`) is not
    performed here: a snapshot of the tree is passed in as a value. */
module MediaTree {

  /** One path yielded by the recursive `glob` under a top-level directory:
      the directories between that directory and the item, the item's own
      name, and whether it is a regular file. */
  datatype Nested = Nested(parents: seq<string>, name: string, isFile: bool)

  /** One item of `media_root.iterdir()`. */
  datatype Entry = FileEntry(name: string) | DirEntry(name: string, contents: seq<Nested>)

  /** The media root: missing, or present with its listing in `iterdir` order. */
  datatype MediaRoot = Missing | Present(entries: seq<Entry>)

  /** The `{path, relative_path, album}` dictionary both scanners return. */
  datatype ImageResult = ImageResult(path: string, relativePath: string, album: string)

  /** The "nothing to show" result. */
  const Sentinel := ImageResult("", "", "")

  /** The result both scanners return for a selected image: its full path,
      its path relative to the media root, and its album. */
  function ResultFor(mediaRoot: string, relPath: string, album: string): (r: ImageResult)
    ensures r != Sentinel && r.relativePath == relPath && r.album == album
    ensures |r.path| == |mediaRoot| + 1 + |relPath|
    ensures r.path[..|mediaRoot| + 1] == mediaRoot + "/" && r.path[|mediaRoot| + 1..] == relPath
  {
    ImageResult(FullPath(mediaRoot, relPath), relPath, album)
  }

  function Entries(root: MediaRoot): seq<Entry> {
    if root.Missing? then [] else root.entries
  }

  /** `str(Path(root) / rel)`, pathlib's normalisation aside: the root, a
      separator, then the relative path. */
  function FullPath(root: string, rel: string): (r: string)
    ensures |r| == |root| + 1 + |rel|
    ensures r[..|root| + 1] == root + "/" && r[|root| + 1..] == rel
  {
    root + "/" + rel
  }

  /** Index of the last occurrence of `c` in `s`, or -1 (`str.rfind`). */
  function RFind(s: string, c: char): (i: int)
    ensures -1 <= i < |s|
    ensures i >= 0 ==> s[i] == c
    ensures forall j :: i < j < |s| ==> s[j] != c
  {
    if s == [] then -1
    else if s[|s| - 1] == c then |s| - 1
    else RFind(s[..|s| - 1], c)
  }

  /** `PurePath.suffix`: from the last dot on, provided that dot is neither
      the first nor the last character of the name; otherwise "". */
  function Suffix(name: string): (r: string)
    ensures r != "" <==> exists i :: 0 < i < |name| - 1 && name[i] == '.' &&
                                     forall j :: i < j < |name| ==> name[j] != '.'
    ensures r != "" ==> |r| >= 2 && |r| < |name| && r[0] == '.' &&
                        r == name[|name| - |r|..] && '.' !in r[1..]
  {
    var i := RFind(name, '.');
    if 0 < i < |name| - 1 then name[i..] else ""
  }

  function LowerChar(c: char): char {
    if 'A' <= c <= 'Z' then (c as int - 'A' as int + 'a' as int) as char else c
  }

  /** `str.lower()` on the ASCII letters. */
  function Lower(s: string): (r: string)
    ensures |r| == |s|
    ensures forall i :: 0 <= i < |r| ==> !('A' <= r[i] <= 'Z')
    ensures forall i :: 0 <= i < |s| && !('A' <= s[i] <= 'Z') ==> r[i] == s[i]
    ensures forall i :: 0 <= i < |s| && 'A' <= s[i] <= 'Z' ==> r[i] == (s[i] as int + 32) as char
  {
    seq(|s|, i requires 0 <= i < |s| => LowerChar(s[i]))
  }

  /** The scanners' test: a regular file whose lower-cased suffix is listed. */
  predicate Allowed(n: Nested, exts: seq<string>) {
    n.isFile && Lower(Suffix(n.name)) in exts
  }

  /** Path components joined with "/", as `str` of a relative `Path` prints them. */
  function JoinPath(parts: seq<string>): string
  {
    if |parts| == 0 then ""
    else if |parts| == 1 then parts[0]
    else parts[0] + "/" + JoinPath(parts[1..])
  }

  /** The join ends with the last component. */
  lemma {:induction false} JoinPathLast(parts: seq<string>)
    requires |parts| > 0
    ensures |JoinPath(parts)| >= |parts[|parts| - 1]|
    ensures JoinPath(parts)[|JoinPath(parts)| - |parts[|parts| - 1]|..] == parts[|parts| - 1]
  {
    if |parts| > 1 {
      var rest := parts[1..];
      JoinPathLast(rest);
      assert rest[|rest| - 1] == parts[|parts| - 1];
      var j, t := JoinPath(parts), JoinPath(rest);
      assert j == parts[0] + "/" + t;
      assert j[|j| - |t|..] == t;
    }
  }

  /** `str(img_path.relative_to(media_root))` for an item under top-level
      directory `dir`: it starts with the directory and ends with the name. */
  function RelPath(dir: string, n: Nested): (r: string)
    ensures |r| > |dir| && r[..|dir| + 1] == dir + "/"
    ensures |r| >= |n.name| && r[|r| - |n.name|..] == n.name
  {
    var parts := [dir] + n.parents + [n.name];
    assert parts[0] == dir && parts[|parts| - 1] == n.name;
    JoinPathHead(parts);
    JoinPathLast(parts);
    JoinPath(parts)
  }

  /** No path component contains the separator (true of the names a
      directory walk yields). */
  predicate PlainParts(parts: seq<string>) {
    forall i :: 0 <= i < |parts| ==> '/' !in parts[i]
  }

  /** The join begins with the first component, followed by the separator
      exactly when other components follow. */
  lemma JoinPathHead(p: seq<string>)
    requires |p| > 0
    ensures |JoinPath(p)| >= |p[0]| && JoinPath(p)[..|p[0]|] == p[0]
    ensures |p| == 1 ==> JoinPath(p) == p[0]
    ensures |p| > 1 ==> |JoinPath(p)| > |p[0]| && JoinPath(p)[|p[0]|] == '/' &&
                        JoinPath(p)[|p[0]| + 1..] == JoinPath(p[1..])
  {
  }

  /** Two joins of plain components separate their heads at the same place. */
  lemma SameHead(p: seq<string>, q: seq<string>)
    requires |p| > 0 && |q| > 0 && PlainParts(p) && PlainParts(q)
    requires JoinPath(p) == JoinPath(q)
    ensures p[0] == q[0] && (|p| == 1 <==> |q| == 1)
  {
    JoinPathHead(p);
    JoinPathHead(q);
    var j := JoinPath(p);
    assert '/' !in p[0] && '/' !in q[0];
    assert forall k :: 0 <= k < |p[0]| ==> j[k] == p[0][k];
    assert forall k :: 0 <= k < |q[0]| ==> j[k] == q[0][k];
  }

  /** Two joins with the same head and more components have equal tails. */
  lemma SameTail(p: seq<string>, q: seq<string>)
    requires |p| > 1 && |q| > 1 && p[0] == q[0]
    requires JoinPath(p) == JoinPath(q)
    ensures JoinPath(p[1..]) == JoinPath(q[1..])
  {
    JoinPathHead(p);
    JoinPathHead(q);
  }

  /** Dropping the first component keeps the components plain. */
  lemma PlainTail(p: seq<string>)
    requires |p| > 0 && PlainParts(p)
    ensures PlainParts(p[1..])
  {
  }

  /** Joining plain components loses nothing: equal joins come from equal
      component lists. */
  lemma {:induction false} JoinPathInjective(p: seq<string>, q: seq<string>)
    requires |p| > 0 && |q| > 0 && PlainParts(p) && PlainParts(q)
    requires JoinPath(p) == JoinPath(q)
    ensures p == q
    decreases |p|
  {
    SameHead(p, q);
    if |p| > 1 {
      SameTail(p, q);
      PlainTail(p);
      PlainTail(q);
      JoinPathInjective(p[1..], q[1..]);
      assert p == [p[0]] + p[1..];
      assert q == [q[0]] + q[1..];
    }
  }

  /** Distinct walked items get distinct relative paths: the path
      determines the top-level directory, the directories in between and
      the name. */
  lemma RelPathInjective(d1: string, n1: Nested, d2: string, n2: Nested)
    requires PlainParts([d1] + n1.parents + [n1.name]) && PlainParts([d2] + n2.parents + [n2.name])
    requires RelPath(d1, n1) == RelPath(d2, n2)
    ensures d1 == d2 && n1.parents == n2.parents && n1.name == n2.name
  {
    var p1, p2 := [d1] + n1.parents + [n1.name], [d2] + n2.parents + [n2.name];
    JoinPathInjective(p1, p2);
    assert p1[0] == d1 && p2[0] == d2;
    assert p1[|p1| - 1] == n1.name && p2[|p2| - 1] == n2.name;
    assert n1.parents == p1[1..|p1| - 1] && n2.parents == p2[1..|p2| - 1];
  }

  /** The relative paths that the inner `glob` loop of either scanner collects
      for top-level directory `dir`, in `glob` order. */
  function AlbumImages(dir: string, contents: seq<Nested>, exts: seq<string>): seq<string>
  {
    if contents == [] then []
    else
      var last := contents[|contents| - 1];
      AlbumImages(dir, contents[..|contents| - 1], exts) + (if Allowed(last, exts) then [RelPath(dir, last)] else [])
  }

  /** One more item of the `glob` walk adds its path when it is allowed. */
  lemma AlbumImagesSnoc(dir: string, contents: seq<Nested>, exts: seq<string>, j: int)
    requires 0 <= j < |contents|
    ensures AlbumImages(dir, contents[..j + 1], exts) ==
      AlbumImages(dir, contents[..j], exts) + (if Allowed(contents[j], exts) then [RelPath(dir, contents[j])] else [])
  {
    assert contents[..j + 1][..j] == contents[..j];
  }

  /** Item `n` of directory `dir` is collected under path `p`. */
  predicate Collects(dir: string, n: Nested, exts: seq<string>, p: string) {
    Allowed(n, exts) && p == RelPath(dir, n)
  }

  /** Every allowed item of the directory is collected under its relative path. */
  lemma {:induction false} AlbumImagesComplete(dir: string, contents: seq<Nested>, exts: seq<string>, k: int)
    requires 0 <= k < |contents| && Allowed(contents[k], exts)
    ensures RelPath(dir, contents[k]) in AlbumImages(dir, contents, exts)
  {
    var n := |contents| - 1;
    if k < n {
      var init := contents[..n];
      assert init[k] == contents[k];
      AlbumImagesComplete(dir, init, exts, k);
    }
  }

  /** Every collected path is the relative path of an allowed item. */
  lemma {:induction false} AlbumImagesSound(dir: string, contents: seq<Nested>, exts: seq<string>, p: string)
    requires p in AlbumImages(dir, contents, exts)
    ensures exists k :: 0 <= k < |contents| && Collects(dir, contents[k], exts, p)
  {
    var n := |contents| - 1;
    var init := contents[..n];
    if p in AlbumImages(dir, init, exts) {
      AlbumImagesSound(dir, init, exts, p);
      var k :| 0 <= k < |init| && Collects(dir, init[k], exts, p);
      assert contents[k] == init[k];
    } else {
      assert Collects(dir, contents[n], exts, p);
    }
  }

  /** The dictionary `albums` a scan returns when every directory is taken:
      one key per top-level directory (files at the root are ignored), bound
      to that directory's images; a later directory of the same name
      overwrites an earlier one, as the dictionary assignment does. */
  function AlbumsOf(entries: seq<Entry>, exts: seq<string>): map<string, seq<string>>
  {
    if entries == [] then map[]
    else
      var m := AlbumsOf(entries[..|entries| - 1], exts);
      match entries[|entries| - 1]
      case FileEntry(_) => m
      case DirEntry(name, contents) => m[name := AlbumImages(name, contents, exts)]
  }

  /** One more top-level item: a directory sets its own key. */
  lemma AlbumsOfSnoc(entries: seq<Entry>, exts: seq<string>, i: int)
    requires 0 <= i < |entries|
    ensures AlbumsOf(entries[..i + 1], exts) ==
      if entries[i].DirEntry? then AlbumsOf(entries[..i], exts)[entries[i].name := AlbumImages(entries[i].name, entries[i].contents, exts)]
      else AlbumsOf(entries[..i], exts)
  {
    assert entries[..i + 1][..i] == entries[..i];
  }

  /** `i` is the last top-level directory named `k` in the listing. */
  predicate LastDirNamed(entries: seq<Entry>, i: int, k: string) {
    0 <= i < |entries| && entries[i].DirEntry? && entries[i].name == k &&
    forall j :: i < j < |entries| ==> !(entries[j].DirEntry? && entries[j].name == k)
  }

  /** The albums are exactly the top-level directories; each holds the images
      of the last directory of that name. */
  lemma {:induction false} AlbumsOfSpec(entries: seq<Entry>, exts: seq<string>, k: string)
    ensures k in AlbumsOf(entries, exts) <==> exists i :: 0 <= i < |entries| && entries[i].DirEntry? && entries[i].name == k
    ensures k in AlbumsOf(entries, exts) ==>
      exists i :: LastDirNamed(entries, i, k) && AlbumsOf(entries, exts)[k] == AlbumImages(k, entries[i].contents, exts)
  {
    if entries != [] {
      var n := |entries| - 1;
      var init := entries[..n];
      AlbumsOfSpec(init, exts, k);
      assert forall i :: 0 <= i < n ==> init[i] == entries[i];
      if entries[n].DirEntry? && entries[n].name == k {
        assert LastDirNamed(entries, n, k);
      } else if k in AlbumsOf(init, exts) {
        var i :| LastDirNamed(init, i, k) && AlbumsOf(init, exts)[k] == AlbumImages(k, init[i].contents, exts);
        assert LastDirNamed(entries, i, k);
      }
    }
  }
}
