/** The scanner's file list: directories are stored once each, under ids that never change. */
module FileScanner {
  import opened Bytes
  import opened Sequences
  import opened Packing
  import opened DatabaseFormat
  import opened QueryScan

  /** The list holds every string once, and ids are positions in it, as far as 32 bits reach. */
  ghost predicate Inverse(strings: seq<Text>, ids: map<Text, nat>) {
    && (forall w :: w in ids <==> w in strings)
    && (forall i, j | 0 <= i < j < |strings| :: strings[i] != strings[j])
    && (|strings| <= U32 ==> forall w :: w in ids ==> ids[w] < |strings| && strings[ids[w]] == w)
  }

  lemma IdOfString(strings: seq<Text>, ids: map<Text, nat>, str: Text)
    requires Inverse(strings, ids)
    ensures str in ids <==> str in strings
    ensures str in ids && |strings| <= U32 ==> ids[str] < |strings| && strings[ids[str]] == str
  {
  }

  lemma NewString(strings: seq<Text>, ids: map<Text, nat>, str: Text)
    requires Inverse(strings, ids) && str !in ids
    ensures Inverse(strings + [str], ids[str := |strings| % U32])
  {
    var strings', ids' := strings + [str], ids[str := |strings| % U32];
    if |strings'| <= U32 {
      forall w | w in ids' ensures ids'[w] < |strings'| && strings'[ids'[w]] == w {
        assert w != str ==> ids[w] < |strings| && strings[ids[w]] == w;
      }
    }
  }

  class StringCache {
    var idToStr: seq<Text>
    var strToId: map<Text, nat>

    ghost predicate Valid()
      reads this
    {
      Inverse(idToStr, strToId)
    }

    constructor ()
      ensures Valid() && idToStr == []
    {
      idToStr, strToId := [], map[];
    }

    /** Stores a string unless it is known; no id already given out changes its meaning. */
    method StoreString(str: Text) returns (id: nat)
      requires Valid()
      modifies this
      ensures Valid() && idToStr == if str in old(idToStr) then old(idToStr) else old(idToStr) + [str]
      ensures |idToStr| <= U32 ==> id < |idToStr| && GetString(id) == str
      ensures forall i | 0 <= i < |old(idToStr)| :: GetString(i) == old(GetString(i))
    {
      IdOfString(idToStr, strToId, str);
      if str !in strToId {
        NewString(idToStr, strToId, str);
        hide Inverse;
        idToStr := idToStr + [str];
        id := (|idToStr| - 1) % U32;
        strToId := strToId[str := id];
      } else {
        id := strToId[str];
      }
    }

    /** The stored string, or the empty one for an id that was never given out. */
    function GetString(id: nat): Text
      reads this
    {
      if id >= |idToStr| then [] else idToStr[id]
    }
  }

  /** A file as the directory walk comes across it. */
  datatype Located = Located(directory: Text, name: Text)

  /** The directory with its separator. */
  function WithSlash(directory: Text): (r: Text)
    requires directory != []
    ensures EndsInSlash(r) && r != [] && r[|r| - 1] == 47
    ensures r == directory || r == directory + [47]
  {
    if directory[|directory| - 1] == SLASH then directory else directory + [SLASH]
  }

  ghost predicate Walked(found: seq<Located>) {
    forall i | 0 <= i < |found| :: found[i].directory != []
  }

  ghost function EachDirectory(found: seq<Located>): (r: seq<Text>)
    requires Walked(found)
    ensures |r| == |found| && forall i | 0 <= i < |found| :: r[i] == WithSlash(found[i].directory)
  {
    seq(|found|, i requires 0 <= i < |found| => WithSlash(found[i].directory))
  }

  /** The directories of a walk, each once, in the order in which the walk comes to them. */
  ghost function Directories(found: seq<Located>): (r: seq<Text>)
    requires Walked(found)
    ensures |r| <= |found|
  {
    Firsts(EachDirectory(found))
  }

  lemma DirectoriesSnoc(found: seq<Located>, i: nat)
    requires i < |found| && Walked(found)
    ensures var dirs, dir := Directories(found[..i]), WithSlash(found[i].directory);
      Directories(found[..i + 1]) == if dir in dirs then dirs else dirs + [dir]
  {
    assert EachDirectory(found[..i + 1])[..i] == EachDirectory(found[..i]);
  }

  /** The record names the file and its directory. */
  ghost predicate Placed(file: FileInfo, paths: seq<Text>, at: Located) {
    && at.directory != [] && file.name == at.name
    && (|paths| <= U32 ==> file.pathId < |paths| && paths[file.pathId] == WithSlash(at.directory))
  }

  /** The path of a file is its directory, a separator unless the directory ends in one, and its name. */
  function FullPath(at: Located): (r: Text)
    requires at.directory != []
    ensures at.directory[|at.directory| - 1] == 47 ==> r == at.directory + at.name
    ensures at.directory[|at.directory| - 1] != 47 ==> r == at.directory + [47] + at.name
  {
    WithSlash(at.directory) + at.name
  }

  /** The file table in memory tells, for every file met so far, where it is, and holds nothing else. */
  ghost predicate Registered(files: seq<FileInfo>, paths: seq<Text>, found: seq<Located>) {
    && Walked(found) && paths == Directories(found) && |files| == |found|
    && (forall i | 0 <= i < |files| :: Placed(files[i], paths, found[i]))
    && (forall i | 0 <= i < |paths| :: EndsInSlash(paths[i]))
  }

  lemma PlacedPath(files: seq<FileInfo>, paths: seq<Text>, found: seq<Located>, i: nat)
    requires Registered(files, paths, found) && i < |found| && |paths| <= U32
    ensures ScannerPath(files, paths, i) == FullPath(found[i])
  {
    assert Placed(files[i], paths, found[i]);
  }

  lemma RegisterOne(files: seq<FileInfo>, paths: seq<Text>, paths': seq<Text>, found: seq<Located>, i: nat, id: nat)
    requires Walked(found) && i < |found| && Registered(files, paths, found[..i])
    requires var dir := WithSlash(found[i].directory); paths' == if dir in paths then paths else paths + [dir]
    requires |paths'| <= U32 ==> id < |paths'| && paths'[id] == WithSlash(found[i].directory)
    ensures Registered(files + [FileInfo(found[i].name, id)], paths', found[..i + 1])
  {
    hide Directories, WithSlash, EndsInSlash;
    DirectoriesSnoc(found, i);
    var files' := files + [FileInfo(found[i].name, id)];
    forall k | 0 <= k < |files'| ensures Placed(files'[k], paths', found[k]) {
      assert k < i ==> Placed(files[k], paths, found[..i][k]);
    }
  }

  lemma NothingFound(found: seq<Located>)
    requires forall i | 0 <= i < |found| :: found[i].directory != []
    ensures Walked(found) && Registered([], [], found[..0])
  {
  }

  /** Records every file of a walk under the id of its directory. */
  method CollectFiles(found: seq<Located>) returns (files: seq<FileInfo>, cache: StringCache)
    requires forall i | 0 <= i < |found| :: found[i].directory != []
    ensures fresh(cache) && cache.Valid() && Registered(files, cache.idToStr, found)
  {
    hide Registered, Walked, WithSlash, StringCache.Valid;
    NothingFound(found);
    files := [];
    cache := new StringCache();
    for i := 0 to |found|
      invariant fresh(cache) && cache.Valid() && Registered(files, cache.idToStr, found[..i])
    {
      ghost var paths := cache.idToStr;
      var id := cache.StoreString(WithSlash(found[i].directory));
      RegisterOne(files, paths, cache.idToStr, found, i, id);
      files := files + [FileInfo(found[i].name, id)];
    }
    TakeAll(found);
  }
}
