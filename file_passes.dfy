/**
 * The first and third passes of `pre_process`: the files are sorted by path,
 * and the detectors of every file are collected into `data.detectors`.
 */
module FilePasses {
  import opened StrOrder
  import opened Sorting
  import opened SbomData

  /** The sort key of a file paired with its path. */
  function PathOf(p: (string, File)): string
  {
    p.0
  }

  /** Each file paired with its path, in order. */
  function Keyed(files: seq<File>): seq<(string, File)>
  {
    if files == [] then [] else Keyed(files[..|files| - 1]) + [(files[|files| - 1].filePath, files[|files| - 1])]
  }

  /** Position `i` of the keyed files holds file `i` and its path. */
  lemma {:induction false} KeyedSpec(files: seq<File>)
    ensures |Keyed(files)| == |files|
    ensures forall i :: 0 <= i < |files| ==> Keyed(files)[i] == (files[i].filePath, files[i])
  {
    if files != [] {
      KeyedSpec(files[..|files| - 1]);
    }
  }

  /** The second components, in order. */
  function Objects<K, T>(ps: seq<(K, T)>): seq<T>
  {
    if ps == [] then [] else [ps[0].1] + Objects(ps[1..])
  }

  /** Position `i` of the second components holds the second component of pair `i`. */
  lemma {:induction false} ObjectsSpec<K, T>(ps: seq<(K, T)>)
    ensures |Objects(ps)| == |ps|
    ensures forall i :: 0 <= i < |ps| ==> Objects(ps)[i] == ps[i].1
  {
    if ps != [] {
      ObjectsSpec(ps[1..]);
    }
  }

  /** Inserting a pair adds its second component to the second components. */
  lemma {:induction false} ObjectsOfInsert<T>(x: (string, T), s: seq<(string, T)>, key: ((string, T)) -> string)
    ensures multiset(Objects(Insert(x, s, key))) == multiset(Objects(s)) + multiset{x.1}
  {
    if s != [] && !LexLe(key(x), key(s[0])) {
      ObjectsOfInsert(x, s[1..], key);
      assert Objects(Insert(x, s, key)) == [s[0].1] + Objects(Insert(x, s[1..], key));
      assert Objects(s) == [s[0].1] + Objects(s[1..]);
    } else if s != [] {
      assert Objects([x] + s) == [x.1] + Objects(s);
    }
  }

  /** Sorting pairs permutes their second components. */
  lemma {:induction false} ObjectsOfSort<T>(s: seq<(string, T)>, key: ((string, T)) -> string)
    ensures multiset(Objects(SortBy(s, key))) == multiset(Objects(s))
  {
    if s != [] {
      ObjectsOfSort(s[1..], key);
      ObjectsOfInsert(s[0], SortBy(s[1..], key), key);
      assert Objects(s) == [s[0].1] + Objects(s[1..]);
    }
  }

  /** `sorted(files, key=lambda f: f.file_path)`. */
  function SortedByPath(files: seq<File>): seq<File>
  {
    Objects(SortBy(Keyed(files), PathOf))
  }

  /** Sorting the keyed files leaves each file paired with its own path. */
  lemma SortKeyed(files: seq<File>)
    ensures Keyed(SortedByPath(files)) == SortBy(Keyed(files), PathOf)
  {
    var keyed := Keyed(files);
    var sorted := SortBy(keyed, PathOf);
    KeyedSpec(files);
    SortBySpec(keyed, PathOf);
    ObjectsSpec(sorted);
    KeyedSpec(SortedByPath(files));
    forall i | 0 <= i < |sorted| ensures sorted[i].0 == sorted[i].1.filePath {
      assert sorted[i] in multiset(sorted);
      var j :| 0 <= j < |keyed| && keyed[j] == sorted[i];
    }
  }

  /** Sorting by path permutes the files. */
  lemma SortedByPathPermutes(files: seq<File>)
    ensures multiset(SortedByPath(files)) == multiset(files)
  {
    var keyed := Keyed(files);
    KeyedSpec(files);
    ObjectsSpec(keyed);
    assert Objects(keyed) == files;
    ObjectsOfSort(keyed, PathOf);
  }

  /**
   * The sorted files are a permutation of the files, ordered by path, and
   * files that share a path keep their relative order.
   */
  lemma SortedByPathSpec(files: seq<File>)
    ensures multiset(SortedByPath(files)) == multiset(files)
    ensures var r := SortedByPath(files);
      forall i, j :: 0 <= i < j < |r| ==> LexLe(r[i].filePath, r[j].filePath)
    ensures forall k :: WithKey(Keyed(SortedByPath(files)), PathOf, k) == WithKey(Keyed(files), PathOf, k)
  {
    SortedByPathPermutes(files);
    SortKeyed(files);
    var sorted := SortBy(Keyed(files), PathOf);
    var r := SortedByPath(files);
    SortBySpec(Keyed(files), PathOf);
    ObjectsSpec(sorted);
    KeyedSpec(r);
    forall i, j | 0 <= i < j < |r| ensures LexLe(r[i].filePath, r[j].filePath) {
      assert PathOf(sorted[i]) == r[i].filePath && PathOf(sorted[j]) == r[j].filePath;
    }
    forall k ensures WithKey(Keyed(r), PathOf, k) == WithKey(Keyed(files), PathOf, k) {
      SortByStable(Keyed(files), PathOf, k);
    }
  }

  /** `data.files.sort(key=lambda f: f.file_path)`. */
  method SortFiles(data: Data)
    modifies data`files
    ensures data.files == old(SortedByPath(data.files))
  {
    data.files := Objects(SortBy(Keyed(data.files), PathOf));
  }

  /** The detectors of all the files. */
  function DetectorsOf(files: seq<File>): set<string>
  {
    if files == [] then {} else DetectorsOf(files[..|files| - 1]) + files[|files| - 1].detectors
  }

  /** A detector is collected exactly when some file names it. */
  lemma {:induction false} DetectorsOfMembers(files: seq<File>, d: string)
    ensures d in DetectorsOf(files) <==> exists i :: 0 <= i < |files| && d in files[i].detectors
  {
    if files != [] {
      var init := files[..|files| - 1];
      DetectorsOfMembers(init, d);
      if d in DetectorsOf(init) {
        var i :| 0 <= i < |init| && d in init[i].detectors;
        assert files[i] == init[i];
      }
      if exists i :: 0 <= i < |files| && d in files[i].detectors {
        var i :| 0 <= i < |files| && d in files[i].detectors;
        if i < |init| {
          assert init[i] == files[i];
        }
      }
    }
  }

  /** `for file in data.files: data.detectors.update(file.detectors)`. */
  method CollectDetectors(data: Data)
    modifies data`detectors
    ensures data.detectors == old(data.detectors) + DetectorsOf(data.files)
  {
    for i := 0 to |data.files|
      invariant data.detectors == old(data.detectors) + DetectorsOf(data.files[..i])
    {
      assert data.files[..i + 1][..i] == data.files[..i];
      data.detectors := data.detectors + data.files[i].detectors;
    }
    assert data.files[..|data.files|] == data.files;
  }
}
