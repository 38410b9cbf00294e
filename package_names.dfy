/**
 * The eighth pass of `pre_process`: friendlier package metadata. Every
 * package gets a version; every package with a URL gets a name (from the
 * GitHub path, else its id, else its URL, else `NoneName`), names that
 * collide get the packages' versions appended, and an `http` URL becomes the
 * browser URL.
 */
module PackageNames {
  import opened Optional
  import opened Text
  import opened SbomData

  /** `package_name_map`: a package name and the key of the package that holds it. */
  type NameMap = map<string, string>

  /** The state of the loop over the packages. */
  datatype Naming = Naming(infos: Infos, names: NameMap)

  /** `if package.version is None: package.version = 'NoneVersion'`. */
  function DefaultVersion(p: PInfo): (r: PInfo)
    ensures r.version.Some?
    ensures p.version.Some? ==> r == p
    ensures r == p.(version := r.version)
  {
    if p.version.None? then p.(version := Some("NoneVersion")) else p
  }

  /**
   * The part of a GitHub URL after `github.com` and the character that
   * follows it, without a trailing `.git`.
   */
  function GithubName(url: string): string
    requires Contains(url, "github.com")
  {
    var offs := Find(url, "github.com").value + |"github.com"| + 1;
    var name := if offs <= |url| then url[offs..] else "";
    if EndsWith(name, ".git") then name[..|name| - 4] else name
  }

  /** The name a package with a URL has before any collision renaming. */
  function InitialName(p: PInfo): string
    requires p.url.Some?
  {
    var url := p.url.value;
    if p.name.Some? then p.name.value
    else if Contains(url, "github.com") then GithubName(url)
    else if p.id != "" then p.id
    else if url != "" then url
    else "NoneName"
  }

  /**
   * `name + '-' + version`. Both are set whenever a package is renamed, so
   * the defaults are never used.
   */
  function Suffixed(p: PInfo): (r: string)
    ensures StartsWith(r, p.name.GetOr(""))
  {
    p.name.GetOr("") + "-" + p.version.GetOr("")
  }

  /** `browser_url` defaults to an `http` URL. */
  function Browse(p: PInfo): (r: PInfo)
    requires p.url.Some?
    ensures r == p.(browserUrl := r.browserUrl)
    ensures p.browserUrl.Some? ==> r == p
  {
    if p.browserUrl.None? && StartsWith(p.url.value, "http") then p.(browserUrl := p.url) else p
  }

  /** Every package in the name map is one of the packages. */
  ghost predicate Known(infos: Infos, names: NameMap)
  {
    forall n :: n in names ==> names[n] in infos
  }

  /**
   * A collision on `n`: the package `key` and the package that held `n`
   * both get their versions appended, and the latter is mapped by its new name.
   */
  function Collide(infos: Infos, names: NameMap, key: string, n: string): (r: Naming)
    requires key in infos && n in names && Known(infos, names)
    ensures r.infos.Keys == infos.Keys && Known(r.infos, r.names)
  {
    var ek := names[n];
    var renamed := infos[key := infos[key].(name := Some(Suffixed(infos[key])))];
    var e := renamed[ek];
    Naming(renamed[ek := e.(name := Some(Suffixed(e)))], (names - {n})[Suffixed(e) := ek])
  }

  /** `package_name_map[package.name] = package`, then the browser URL of `key`. */
  function Record(st: Naming, key: string): (r: Naming)
    requires key in st.infos && st.infos[key].url.Some? && Known(st.infos, st.names)
    ensures r.infos.Keys == st.infos.Keys && Known(r.infos, r.names)
  {
    var q := st.infos[key];
    Naming(st.infos[key := Browse(q)], st.names[q.name.GetOr("") := key])
  }

  /** One iteration of the loop, for the package `key`. */
  function NameStep(st: Naming, key: string): (r: Naming)
    requires key in st.infos && Known(st.infos, st.names)
    ensures r.infos.Keys == st.infos.Keys && Known(r.infos, r.names)
  {
    var p := DefaultVersion(st.infos[key]);
    var infos := st.infos[key := p];
    if p.url.None? then
      Naming(infos, st.names)
    else
      var n := InitialName(p);
      var named := infos[key := p.(name := Some(n))];
      var mid := if n in st.names then Collide(named, st.names, key, n) else Naming(named, st.names);
      Record(mid, key)
  }

  /** The loop over the packages left to visit, from the state `st`. */
  function NamesFrom(order: seq<string>, st: Naming): (r: Naming)
    requires forall k :: k in order ==> k in st.infos
    requires Known(st.infos, st.names)
    ensures r.infos.Keys == st.infos.Keys
    decreases |order|
  {
    if order == [] then st else NamesFrom(order[1..], NameStep(st, order[0]))
  }

  /** The packages after the pass, visited in `order`. */
  function NamesOf(order: seq<string>, infos: Infos): Infos
    requires forall k :: k in order ==> k in infos
  {
    NamesFrom(order, Naming(infos, map[])).infos
  }

  // What the pass does to each package.

  /** What a visited package `k` looks like, compared with its state `orig` before the pass. */
  ghost predicate Visited(orig: PInfo, cur: PInfo)
  {
    && cur.id == orig.id && cur.url == orig.url
    && cur.version == DefaultVersion(orig).version
    && (orig.url.None? ==> cur == DefaultVersion(orig))
    && (orig.url.Some? ==>
      && cur.browserUrl == Browse(orig).browserUrl
      && cur.name.Some? && StartsWith(cur.name.value, InitialName(orig)))
  }

  /**
   * The loop state after the keys `done`: those are visited, the others are
   * untouched, and the name map only holds visited packages with a URL.
   */
  ghost predicate Progress(orig: Infos, done: seq<string>, st: Naming)
  {
    && st.infos.Keys == orig.Keys
    && (forall k :: k in done ==> k in orig && Visited(orig[k], st.infos[k]))
    && (forall k :: k in orig && k !in done ==> st.infos[k] == orig[k])
    && (forall n :: n in st.names ==> st.names[n] in done && st.infos[st.names[n]].url.Some?)
  }

  /** A collision renames `key` and the holder of `n`, and nothing else. */
  lemma CollideChanges(infos: Infos, names: NameMap, key: string, n: string)
    requires key in infos && n in names && Known(infos, names) && names[n] != key
    ensures var r, ek := Collide(infos, names, key, n), names[n];
      && r.infos[key] == infos[key].(name := Some(Suffixed(infos[key])))
      && r.infos[ek] == infos[ek].(name := Some(Suffixed(infos[ek])))
      && (forall k :: k in infos && k != key && k != ek ==> r.infos[k] == infos[k])
      && (forall m :: m in r.names ==> r.names[m] in names.Values)
  {
  }

  /** Recording `key` sets its browser URL, maps its name to it, and changes nothing else. */
  lemma RecordChanges(st: Naming, key: string)
    requires key in st.infos && st.infos[key].url.Some? && Known(st.infos, st.names)
    ensures var r := Record(st, key);
      && r.infos[key] == Browse(st.infos[key])
      && (forall k :: k in st.infos && k != key ==> r.infos[k] == st.infos[k])
      && (forall m :: m in r.names ==> r.names[m] == key || r.names[m] in st.names.Values)
  {
  }

  /**
   * Visiting a package with a URL sets its version, name and browser URL,
   * may rename one package already in the name map, and changes nothing else.
   */
  lemma UrlStepChanges(st: Naming, key: string) returns (ek: string)
    requires key in st.infos && Known(st.infos, st.names) && st.infos[key].url.Some?
    requires forall m :: m in st.names ==> st.names[m] != key
    ensures var r, p := NameStep(st, key), st.infos[key];
      && r.infos[key].id == p.id && r.infos[key].url == p.url
      && r.infos[key].version == DefaultVersion(p).version
      && r.infos[key].browserUrl == Browse(p).browserUrl
      && r.infos[key].name.Some? && StartsWith(r.infos[key].name.value, InitialName(p))
    ensures ek != key ==>
      && ek in st.names.Values && ek in st.infos
      && NameStep(st, key).infos[ek] == st.infos[ek].(name := Some(Suffixed(st.infos[ek])))
    ensures forall k :: k in st.infos && k != key && k != ek ==> NameStep(st, key).infos[k] == st.infos[k]
    ensures forall m :: m in NameStep(st, key).names ==>
      NameStep(st, key).names[m] == key || NameStep(st, key).names[m] in st.names.Values
    ensures InitialName(st.infos[key]) !in st.names ==>
      && ek == key
      && NameStep(st, key).infos[key].name == Some(InitialName(st.infos[key]))
      && NameStep(st, key).names == st.names[InitialName(st.infos[key]) := key]
  {
    var p := DefaultVersion(st.infos[key]);
    var n := InitialName(p);
    assert n == InitialName(st.infos[key]);
    var named := st.infos[key := p][key := p.(name := Some(n))];
    var mid := if n in st.names then Collide(named, st.names, key, n) else Naming(named, st.names);
    assert NameStep(st, key) == Record(mid, key);
    if n in st.names {
      ek := st.names[n];
      CollideChanges(named, st.names, key, n);
    } else {
      ek := key;
    }
    RecordChanges(mid, key);
  }

  /** Visiting a package with a URL: its own state, and the state of the package it collides with. */
  lemma VisitWithUrl(orig: Infos, done: seq<string>, key: string, st: Naming)
    requires key in orig && key !in done && Progress(orig, done, st)
    requires orig[key].url.Some?
    ensures Progress(orig, done + [key], NameStep(st, key))
  {
    var r := NameStep(st, key);
    var ek := UrlStepChanges(st, key);
    if ek != key {
      var e := st.infos[ek];
      assert ek in done && Visited(orig[ek], e);
      StartsWithTransitive(Suffixed(e), e.name.value, InitialName(orig[ek]));
      assert Visited(orig[ek], r.infos[ek]);
    }
    assert Visited(orig[key], r.infos[key]);
    forall k | k in done + [key] ensures k in orig && Visited(orig[k], r.infos[k]) {
      if k != key && k != ek {
        assert k in done;
      }
    }
    forall m | m in r.names ensures r.names[m] in done + [key] && r.infos[r.names[m]].url.Some? {
      if r.names[m] != key {
        var m' :| m' in st.names && st.names[m'] == r.names[m];
      }
    }
  }

  /** One iteration visits `key` and keeps what was established for the others. */
  lemma NameStepProgress(orig: Infos, done: seq<string>, key: string, st: Naming)
    requires key in orig && key !in done && Progress(orig, done, st)
    ensures Progress(orig, done + [key], NameStep(st, key))
  {
    if orig[key].url.Some? {
      VisitWithUrl(orig, done, key, st);
    }
  }

  /** The loop over the keys from position `i` on visits every key of `order`. */
  lemma {:induction false} NamesFromProgress(orig: Infos, order: seq<string>, i: nat, st: Naming)
    requires i <= |order| && Distinct(order) && Progress(orig, order[..i], st)
    requires forall k :: k in order ==> k in orig
    ensures Progress(orig, order, NamesFrom(order[i..], st))
    decreases |order| - i
  {
    if i == |order| {
      assert order[..i] == order;
    } else {
      var key := order[i];
      assert order[i..][0] == key && order[i..][1..] == order[i + 1..];
      assert order[..i + 1] == order[..i] + [key];
      NameStepProgress(orig, order[..i], key, st);
      NamesFromProgress(orig, order, i + 1, NameStep(st, key));
      assert NamesFrom(order[i..], st) == NamesFrom(order[i + 1..], NameStep(st, key));
    }
  }

  /**
   * After the pass, every visited package has a version (`NoneVersion` if it
   * had none) and keeps its id and URL; a package without a URL is otherwise
   * untouched; a package with a URL has a name that starts with the name it
   * was given (its own, the GitHub path, its id, its URL or `NoneName`), and
   * a browser URL (its own, else an `http` URL). Packages not visited are
   * untouched.
   */
  lemma NamesOfSpec(order: seq<string>, infos: Infos)
    requires forall k :: k in order ==> k in infos
    requires Distinct(order)
    ensures NamesOf(order, infos).Keys == infos.Keys
    ensures forall k :: k in infos && k !in order ==> NamesOf(order, infos)[k] == infos[k]
    ensures forall k :: k in order ==> Visited(infos[k], NamesOf(order, infos)[k])
  {
    assert order[..0] == [] && order[0..] == order;
    NamesFromProgress(infos, order, 0, Naming(infos, map[]));
  }

  /** No two packages with a URL are given the same name. */
  ghost predicate UniqueNames(infos: Infos, order: seq<string>)
  {
    forall i, j ::
      && 0 <= i < j < |order| && order[i] in infos && order[j] in infos
      && infos[order[i]].url.Some? && infos[order[j]].url.Some?
      ==> InitialName(infos[order[i]]) != InitialName(infos[order[j]])
  }

  /** Every visited package with a URL keeps the name it was given, and the name map is accurate. */
  ghost predicate NamedAsGiven(orig: Infos, done: seq<string>, st: Naming)
  {
    && (forall k :: k in done && k in orig && k in st.infos && orig[k].url.Some? ==>
      st.infos[k].name == Some(InitialName(orig[k])))
    && (forall m :: m in st.names ==> st.names[m] in st.infos && st.infos[st.names[m]].name == Some(m))
  }

  /** The name given to the next package with a URL is not yet taken. */
  lemma NoClash(orig: Infos, order: seq<string>, i: nat, st: Naming)
    requires i < |order| && Distinct(order) && (forall k :: k in order ==> k in orig)
    requires UniqueNames(orig, order) && orig[order[i]].url.Some?
    requires Progress(orig, order[..i], st) && NamedAsGiven(orig, order[..i], st)
    ensures InitialName(orig[order[i]]) !in st.names
  {
  }

  /** Visiting a package with a URL whose name is not taken renames nothing. */
  lemma UniqueUrlStep(orig: Infos, done: seq<string>, key: string, st: Naming)
    requires key in orig && key !in done && orig[key].url.Some?
    requires Progress(orig, done, st) && NamedAsGiven(orig, done, st)
    requires InitialName(orig[key]) !in st.names
    ensures NamedAsGiven(orig, done + [key], NameStep(st, key))
  {
    var r := NameStep(st, key);
    var n := InitialName(orig[key]);
    var ek := UrlStepChanges(st, key);
    forall k | k in done + [key] && k in orig && k in r.infos && orig[k].url.Some?
      ensures r.infos[k].name == Some(InitialName(orig[k]))
    {
      if k != key {
        assert k in done;
      }
    }
    forall m | m in r.names ensures r.names[m] in r.infos && r.infos[r.names[m]].name == Some(m) {
      if m != n {
        assert st.names[m] in done;
      }
    }
  }

  /** Visiting a package without a URL renames nothing. */
  lemma UniqueNoUrlStep(orig: Infos, done: seq<string>, key: string, st: Naming)
    requires key in orig && key !in done && orig[key].url.None?
    requires Progress(orig, done, st) && NamedAsGiven(orig, done, st)
    ensures NamedAsGiven(orig, done + [key], NameStep(st, key))
  {
    var r := NameStep(st, key);
    assert r == Naming(st.infos[key := DefaultVersion(st.infos[key])], st.names);
    forall k | k in done + [key] && k in orig && k in r.infos && orig[k].url.Some?
      ensures r.infos[k].name == Some(InitialName(orig[k]))
    {
      assert k in done;
    }
    forall m | m in r.names ensures r.names[m] in r.infos && r.infos[r.names[m]].name == Some(m) {
      assert st.names[m] in done;
    }
  }

  /** Without a name clash, the loop over the keys from position `i` on keeps every given name. */
  lemma {:induction false} UniqueFrom(orig: Infos, order: seq<string>, i: nat, st: Naming)
    requires i <= |order| && Distinct(order) && (forall k :: k in order ==> k in orig)
    requires UniqueNames(orig, order)
    requires Progress(orig, order[..i], st) && NamedAsGiven(orig, order[..i], st)
    ensures NamedAsGiven(orig, order, NamesFrom(order[i..], st))
    decreases |order| - i
  {
    if i == |order| {
      assert order[..i] == order;
    } else {
      var key := order[i];
      assert order[i..][0] == key && order[i..][1..] == order[i + 1..];
      assert order[..i + 1] == order[..i] + [key];
      assert key !in order[..i];
      if orig[key].url.Some? {
        NoClash(orig, order, i, st);
        UniqueUrlStep(orig, order[..i], key, st);
      } else {
        UniqueNoUrlStep(orig, order[..i], key, st);
      }
      NameStepProgress(orig, order[..i], key, st);
      UniqueFrom(orig, order, i + 1, NameStep(st, key));
      assert NamesFrom(order[i..], st) == NamesFrom(order[i + 1..], NameStep(st, key));
    }
  }

  /** When no two packages with a URL are given the same name, no package is renamed. */
  lemma NamesOfUnique(order: seq<string>, infos: Infos)
    requires forall k :: k in order ==> k in infos
    requires Distinct(order) && UniqueNames(infos, order)
    ensures forall k :: k in order && infos[k].url.Some? ==> NamesOf(order, infos)[k].name == Some(InitialName(infos[k]))
  {
    assert order[..0] == [] && order[0..] == order;
    UniqueFrom(infos, order, 0, Naming(infos, map[]));
  }

  // Examples.

  /** The name taken from an `https://github.com/` URL: the repository path, without `.git`. */
  lemma GithubNameOfPath(path: string)
    ensures Contains("https://github.com/" + path, "github.com")
    ensures GithubName("https://github.com/" + path) == if EndsWith(path, ".git") then path[..|path| - 4] else path
  {
    var host := "https://github.com/";
    var url := host + path;
    assert url[8..18] == host[8..18] == "github.com";
    forall j: nat | j < 8 ensures !OccursAt(url, "github.com", j) {
      assert url[j] == host[j] != 'g';
    }
    assert OccursAt(url, "github.com", 8);
    var found := Find(url, "github.com");
    assert found.Some? && found.value == 8;
    assert url[8 + |"github.com"| + 1..] == path;
  }

  /** Two packages named alike: both get their versions appended. */
  lemma CollisionExample()
    ensures var infos := map[
        "a" := PInfo("a", Some("zephyr"), Some("1.0"), Some("https://x/a"), None),
        "b" := PInfo("b", Some("zephyr"), Some("2.0"), Some("https://x/b"), None)];
      var r := NamesOf(["a", "b"], infos);
      && r["a"].name == Some("zephyr" + "-" + "1.0") && r["b"].name == Some("zephyr" + "-" + "2.0")
      && r["a"].browserUrl == Some("https://x/a")
  {
    var a := PInfo("a", Some("zephyr"), Some("1.0"), Some("https://x/a"), None);
    var b := PInfo("b", Some("zephyr"), Some("2.0"), Some("https://x/b"), None);
    var infos := map["a" := a, "b" := b];
    var s0 := Naming(infos, map[]);
    var s1 := NameStep(s0, "a");
    assert InitialName(a) == "zephyr" && StartsWith("https://x/a", "http");
    assert s1 == Naming(infos["a" := a.(browserUrl := a.url)], map["zephyr" := "a"]);
    var s2 := NameStep(s1, "b");
    assert InitialName(b) == "zephyr";
    assert s2.infos["a"].name == Some("zephyr" + "-" + "1.0") && s2.infos["b"].name == Some("zephyr" + "-" + "2.0");
    assert ["a", "b"][1..] == ["b"] && ["b"][1..] == [];
    assert NamesOf(["a", "b"], infos) == s2.infos;
  }

  /**
   * Names need not end up unique: a package without a URL never enters the
   * name map, so a later package with a URL keeps the same name unchanged.
   */
  lemma NoUrlSameName()
    ensures var infos := map[
        "a" := PInfo("a", Some("zephyr"), Some("1.0"), None, None),
        "b" := PInfo("b", Some("zephyr"), Some("2.0"), Some("https://x/b"), None)];
      var r := NamesOf(["a", "b"], infos);
      && r["a"].name == Some("zephyr") && r["b"].name == Some("zephyr")
  {
  }

  /**
   * Names need not end up unique: a renaming can produce a name that an
   * earlier package already holds, and that package is left as it is.
   */
  lemma SecondCollision()
    ensures var infos := map[
        "a" := PInfo("a", Some("x-2"), Some("9"), Some("https://x/a"), None),
        "b" := PInfo("b", Some("x"), Some("1"), Some("https://x/b"), None),
        "c" := PInfo("c", Some("x"), Some("2"), Some("https://x/c"), None)];
      var r := NamesOf(["a", "b", "c"], infos);
      && r["a"].name == Some("x-2") && r["b"].name == Some("x-1") && r["c"].name == Some("x-2")
  {
    var a := PInfo("a", Some("x-2"), Some("9"), Some("https://x/a"), None);
    var b := PInfo("b", Some("x"), Some("1"), Some("https://x/b"), None);
    var c := PInfo("c", Some("x"), Some("2"), Some("https://x/c"), None);
    var a', b' := a.(browserUrl := a.url), b.(browserUrl := b.url);
    var infos := map["a" := a, "b" := b, "c" := c];
    var s1 := NameStep(Naming(infos, map[]), "a");
    assert InitialName(a) == "x-2" && StartsWith("https://x/a", "http");
    assert s1 == Naming(infos["a" := a'], map["x-2" := "a"]);
    var s2 := NameStep(s1, "b");
    assert InitialName(b) == "x" && StartsWith("https://x/b", "http");
    assert "x" !in s1.names;
    assert s2 == Naming(infos["a" := a']["b" := b'], map["x-2" := "a", "x" := "b"]);
    var s3 := NameStep(s2, "c");
    assert InitialName(c) == "x" && "x" in s2.names && s2.names["x"] == "b";
    assert Suffixed(c) == "x-2" && Suffixed(b') == "x-1";
  }

  /** A package without a URL keeps no name and no browser URL, but gets a version. */
  lemma NoUrlExample()
    ensures var r := NamesOf(["a"], map["a" := PInfo("a", None, None, None, None)]);
      r["a"] == PInfo("a", None, Some("NoneVersion"), None, None)
  {
  }

  // The loop over `data.packages.values()`.

  /** Lines 113-119: a package with a URL and no name is named after its GitHub path, id or URL. */
  method GiveName(package: Package)
    requires package.url.Some?
    modifies package`name
    ensures package.name == Some(InitialName(old(Snap(package))))
  {
    var url := package.url.value;
    if package.name.None? && Contains(url, "github.com") {
      var offs := Find(url, "github.com").value + |"github.com"| + 1;
      var name := if offs <= |url| then url[offs..] else "";
      if EndsWith(name, ".git") {
        name := name[..|name| - 4];
      }
      package.name := Some(name);
    }
    if package.name.None? {
      package.name := Some(if package.id != "" then package.id else if url != "" then url else "NoneName");
    }
  }

  /** Lines 120-125: the package takes the name another package holds, so both get their versions appended. */
  method RenameColliding(packages: map<string, Package>, key: string, nameMap: NameMap, ghost st: Naming)
    returns (nameMap': NameMap)
    requires key in packages && st.infos.Keys == packages.Keys && Known(st.infos, st.names)
    requires forall k, l :: k in packages && l in packages && k != l ==> packages[k] != packages[l]
    requires forall k :: k in packages ==> Snap(packages[k]) == st.infos[k]
    requires nameMap == st.names && (forall m :: m in st.names ==> st.names[m] != key)
    requires st.infos[key].name.Some? && st.infos[key].version.Some? && st.infos[key].name.value in st.names
    modifies packages.Values`name
    ensures var r := Collide(st.infos, st.names, key, st.infos[key].name.value);
      && nameMap' == r.names
      && (forall k :: k in packages ==> Snap(packages[k]) == r.infos[k])
  {
    var package := packages[key];
    var name := package.name.value;
    ghost var mid := Collide(st.infos, st.names, key, name);
    var existingKey := nameMap[name];
    var existing := packages[existingKey];
    CollideChanges(st.infos, st.names, key, name);
    assert existing != package;
    nameMap' := nameMap - {name};
    package.name := Some(name + "-" + package.version.value);
    existing.name := Some(existing.name.GetOr("") + "-" + existing.version.GetOr(""));
    nameMap' := nameMap'[existing.name.value := existingKey];
    assert Snap(package) == mid.infos[key] && Snap(existing) == mid.infos[existingKey];
    forall k | k in packages && k != key && k != existingKey ensures Snap(packages[k]) == mid.infos[k] {
      assert packages[k] != package && packages[k] != existing;
    }
  }

  /** The loop body for one package with a URL, from the point where its name is given. */
  method RecordName(packages: map<string, Package>, key: string, nameMap: NameMap, ghost st: Naming)
    returns (nameMap': NameMap)
    requires key in packages && st.infos.Keys == packages.Keys && Known(st.infos, st.names)
    requires forall k, l :: k in packages && l in packages && k != l ==> packages[k] != packages[l]
    requires forall k :: k in packages ==> Snap(packages[k]) == st.infos[k]
    requires nameMap == st.names && (forall m :: m in st.names ==> st.names[m] != key)
    requires st.infos[key].url.Some? && st.infos[key].name.Some? && st.infos[key].version.Some?
    modifies packages.Values`name, packages.Values`browserUrl
    ensures var r := Record(if st.infos[key].name.value in st.names then Collide(st.infos, st.names, key, st.infos[key].name.value) else st, key);
      && nameMap' == r.names
      && (forall k :: k in packages ==> Snap(packages[k]) == r.infos[k])
  {
    var package := packages[key];
    var url := package.url.value;
    nameMap' := nameMap;
    var name := package.name.value;
    ghost var mid := if name in st.names then Collide(st.infos, st.names, key, name) else st;
    if name in nameMap' {
      nameMap' := RenameColliding(packages, key, nameMap', st);
    }
    assert nameMap' == mid.names;
    assert forall k :: k in packages ==> Snap(packages[k]) == mid.infos[k];
    RecordChanges(mid, key);
    ghost var r := Record(mid, key);
    nameMap' := nameMap'[package.name.value := key];
    if package.browserUrl.None? && StartsWith(url, "http") {
      package.browserUrl := Some(url);
    }
    assert Snap(package) == r.infos[key];
    forall k | k in packages && k != key ensures Snap(packages[k]) == r.infos[k] {
      assert packages[k] != package;
    }
  }

  /** The loop body for one package: lines 109-128. */
  method VisitPackage(packages: map<string, Package>, key: string, nameMap: NameMap, ghost st: Naming)
    returns (nameMap': NameMap)
    requires key in packages && st.infos.Keys == packages.Keys && Known(st.infos, st.names)
    requires forall k, l :: k in packages && l in packages && k != l ==> packages[k] != packages[l]
    requires forall k :: k in packages ==> Snap(packages[k]) == st.infos[k]
    requires nameMap == st.names && (forall m :: m in st.names ==> st.names[m] != key)
    modifies packages.Values`name, packages.Values`version, packages.Values`browserUrl
    ensures nameMap' == NameStep(st, key).names
    ensures forall k :: k in packages ==> Snap(packages[k]) == NameStep(st, key).infos[k]
  {
    var package := packages[key];
    if package.version.None? {
      package.version := Some("NoneVersion");
    }
    ghost var p := DefaultVersion(st.infos[key]);
    ghost var infos := st.infos[key := p];
    forall k | k in packages && k != key ensures Snap(packages[k]) == infos[k] {
      assert packages[k] != package;
    }
    if package.url.None? {
      nameMap' := nameMap;
      return;
    }
    GiveName(package);
    ghost var named := infos[key := p.(name := Some(InitialName(p)))];
    forall k | k in packages && k != key ensures Snap(packages[k]) == named[k] {
      assert packages[k] != package;
    }
    nameMap' := RecordName(packages, key, nameMap, Naming(named, st.names));
  }

  /** The name map after a step only holds the visited package and packages it held before. */
  lemma NameStepNames(st: Naming, key: string, visited: set<string>)
    requires key in st.infos && Known(st.infos, st.names) && key !in visited
    requires forall m :: m in st.names ==> st.names[m] in visited
    ensures forall m :: m in NameStep(st, key).names ==> NameStep(st, key).names[m] in visited + {key}
  {
    if st.infos[key].url.Some? {
      var ek := UrlStepChanges(st, key);
    }
  }

  /** Splitting a list of distinct keys at position `i`. */
  lemma SplitAt(order: seq<string>, i: nat)
    requires i < |order| && Distinct(order)
    ensures order[i..][0] == order[i] && order[i..][1..] == order[i + 1..]
    ensures order[..i + 1] == order[..i] + [order[i]] && order[i] !in order[..i]
  {
  }

  /**
   * `for package in data.packages.values()`: visits the packages in the
   * dictionary's order and updates them in place as `NamesOf` says.
   * `package_name_map` holds package keys, which name the package objects
   * one to one.
   */
  method NamePackages(data: Data)
    requires data.PackagesIndexed()
    modifies data.packageObjects`name, data.packageObjects`version, data.packageObjects`browserUrl
    ensures View(data) == NamesOf(data.packageOrder, old(View(data)))
  {
    var packages := data.packages;
    var order := data.packageOrder;
    NoRepeatsPairwise(order);
    var packageNameMap: NameMap := map[];
    ghost var orig := View(data);
    ghost var cur := Naming(orig, map[]);
    ghost var visited: set<string> := {};
    assert order[0..] == order;
    for i := 0 to |order|
      invariant cur.infos.Keys == packages.Keys && Known(cur.infos, cur.names)
      invariant forall k :: k in packages ==> Snap(packages[k]) == cur.infos[k]
      invariant packageNameMap == cur.names
      invariant forall m :: m in cur.names ==> cur.names[m] in visited
      invariant forall j :: i <= j < |order| ==> order[j] !in visited
      invariant NamesFrom(order[i..], cur) == NamesFrom(order, Naming(orig, map[]))
    {
      var key := order[i];
      SplitAt(order, i);
      NameStepNames(cur, key, visited);
      ghost var next := NameStep(cur, key);
      packageNameMap := VisitPackage(packages, key, packageNameMap, cur);
      cur := next;
      visited := visited + {key};
    }
    assert order[|order|..] == [];
    assert cur.infos == NamesOf(order, orig);
    ghost var now := View(data);
    forall k | k in now ensures now[k] == cur.infos[k] {
    }
    SameInfos(now, cur.infos);
  }

  /** Two package-field maps with the same keys and the same value at each key are equal. */
  lemma SameInfos(a: Infos, b: Infos)
    requires a.Keys == b.Keys && forall k :: k in a ==> a[k] == b[k]
    ensures a == b
  {
  }
}
