/**
 * The last pass of `pre_process`: `data.relationships` is rebuilt from the
 * old relationships, minus the ones the pass produces itself, followed by a
 * `DESCRIBES` edge from the document to each package that owns files and a
 * `CONTAINS` edge from each package to each of its files.
 */
module Relationships {
  import opened Optional
  import opened Text
  import opened SbomData

  const Document := "SPDXRef-DOCUMENT"
  const DescribesType := "DESCRIBES"
  const ContainsType := "CONTAINS"

  /** `_should_keep_relationship`: drops `DESCRIBES` edges from the document and every `CONTAINS` edge. */
  predicate ShouldKeep(rel: Relationship)
  {
    if rel.spdxId == Document && rel.relationshipType == DescribesType then false
    else if rel.relationshipType == ContainsType then false
    else true
  }

  /** `[rel for rel in rels if _should_keep_relationship(rel)]`. */
  function Kept(rels: seq<Relationship>): seq<Relationship>
  {
    if rels == [] then []
    else
      var last := rels[|rels| - 1];
      Kept(rels[..|rels| - 1]) + (if ShouldKeep(last) then [last] else [])
  }

  /** The kept list, or an empty list when `data` has no relationships. */
  function Base(rels: Option<seq<Relationship>>): seq<Relationship>
  {
    if rels.Some? then Kept(rels.value) else []
  }

  /** The keys of `package_to_files`, in insertion order: each package at its first file. */
  function GroupOrder(links: seq<Link>): seq<string>
  {
    if links == [] then []
    else
      var g := GroupOrder(links[..|links| - 1]);
      var p := links[|links| - 1].0;
      if p in g then g else g + [p]
  }

  /** `package_to_files[p]`: the identifiers of the files of package `p`, in file order. */
  function FilesOf(links: seq<Link>, p: string): seq<string>
  {
    if links == [] then []
    else
      var l := links[|links| - 1];
      FilesOf(links[..|links| - 1], p) + (if l.0 == p then [l.1] else [])
  }

  /** `packages_with_files`. */
  function Owners(links: seq<Link>): set<string>
  {
    set l | l in links :: l.0
  }

  /** The `DESCRIBES` edges, one per package of `sorted` that has an identifier and files. */
  function Describes(sorted: seq<string>, ids: map<string, string>, owners: set<string>): seq<Relationship>
    requires forall k :: k in sorted ==> k in ids
  {
    if sorted == [] then []
    else
      var p := sorted[|sorted| - 1];
      Describes(sorted[..|sorted| - 1], ids, owners)
        + (if ids[p] != "" && p in owners then [Relationship(Document, DescribesType, ids[p])] else [])
  }

  /** The `CONTAINS` edges of one package. */
  function Containing(pid: string, files: seq<string>): (r: seq<Relationship>)
    ensures |r| == |files|
    ensures forall i :: 0 <= i < |files| ==> r[i] == Relationship(pid, ContainsType, files[i])
  {
    seq(|files|, i requires 0 <= i < |files| => Relationship(pid, ContainsType, files[i]))
  }

  /** The `CONTAINS` edges of a group, or none when its package is missing or has no identifier. */
  function Block(p: string, links: seq<Link>, ids: map<string, string>): seq<Relationship>
  {
    if p in ids && ids[p] != "" then Containing(ids[p], FilesOf(links, p)) else []
  }

  /** The `CONTAINS` edges of the groups `groups`, group after group. */
  function Contains(groups: seq<string>, links: seq<Link>, ids: map<string, string>): seq<Relationship>
  {
    if groups == [] then []
    else Contains(groups[..|groups| - 1], links, ids) + Block(groups[|groups| - 1], links, ids)
  }

  /** The new `data.relationships`. */
  function Rebuilt(rels: Option<seq<Relationship>>, sorted: seq<string>, ids: map<string, string>, links: seq<Link>)
    : seq<Relationship>
    requires forall k :: k in sorted ==> k in ids
  {
    Base(rels) + Describes(sorted, ids, Owners(links)) + Contains(GroupOrder(links), links, ids)
  }

  // ----- Properties of the parts -----

  /** The kept relationships are the ones that pass the filter, and stale edges never pass. */
  lemma {:induction false} KeptMembers(rels: seq<Relationship>)
    ensures forall r :: r in Kept(rels) <==> r in rels && ShouldKeep(r)
    ensures forall r :: r in Kept(rels) ==> r.relationshipType != ContainsType
    ensures forall r :: r in Kept(rels) ==> !(r.spdxId == Document && r.relationshipType == DescribesType)
    ensures |Kept(rels)| <= |rels|
  {
    if rels != [] {
      var init := rels[..|rels| - 1];
      KeptMembers(init);
      assert rels == init + [rels[|rels| - 1]];
    }
  }

  /** Filtering keeps the order: it works part by part. */
  lemma {:induction false} KeptConcat(a: seq<Relationship>, b: seq<Relationship>)
    ensures Kept(a + b) == Kept(a) + Kept(b)
  {
    if b != [] {
      var init := b[..|b| - 1];
      assert (a + b)[..|a + b| - 1] == a + init;
      KeptConcat(a, init);
    } else {
      assert a + b == a;
    }
  }

  /** A relationship the filter keeps stays when relationships pass again. */
  lemma {:induction false} KeptIdempotent(rels: seq<Relationship>)
    ensures Kept(Kept(rels)) == Kept(rels)
  {
    if rels != [] {
      KeptMembers(rels);
      KeptAll(Kept(rels));
    }
  }

  /** A list that passes the filter throughout is kept whole. */
  lemma {:induction false} KeptAll(rels: seq<Relationship>)
    requires forall r :: r in rels ==> ShouldKeep(r)
    ensures Kept(rels) == rels
  {
    if rels != [] {
      var init := rels[..|rels| - 1];
      assert rels == init + [rels[|rels| - 1]];
      KeptAll(init);
    }
  }

  /** The first position of `x` in `s`. */
  function FirstIndex(s: seq<string>, x: string): (r: nat)
    requires x in s
    ensures r < |s| && s[r] == x && forall j :: 0 <= j < r ==> s[j] != x
  {
    if s[0] == x then 0 else 1 + FirstIndex(s[1..], x)
  }

  /** The packages of the links, in link order. */
  function PackagesOf(links: seq<Link>): (r: seq<string>)
    ensures |r| == |links| && forall i :: 0 <= i < |links| ==> r[i] == links[i].0
  {
    seq(|links|, i requires 0 <= i < |links| => links[i].0)
  }

  /** `package_to_files` has a key for exactly the packages that own a file. */
  lemma {:induction false} GroupOrderMembers(links: seq<Link>)
    ensures forall p :: p in GroupOrder(links) <==> p in Owners(links)
  {
    if links != [] {
      var init := links[..|links| - 1];
      GroupOrderMembers(init);
      assert links == init + [links[|links| - 1]];
      assert Owners(links) == Owners(init) + {links[|links| - 1].0};
    }
  }

  /** Each package is a key of `package_to_files` once. */
  lemma {:induction false} GroupOrderDistinct(links: seq<Link>)
    ensures Distinct(GroupOrder(links))
  {
    if links != [] {
      var init := links[..|links| - 1];
      var g, g0, p := GroupOrder(links), GroupOrder(init), links[|links| - 1].0;
      GroupOrderDistinct(init);
      if p !in g0 {
        assert g == g0 + [p];
        forall i, j | 0 <= i < j < |g| ensures g[i] != g[j] {
          assert g[i] == g0[i];
          if j == |g0| {
            assert g0[i] in g0;
          } else {
            assert g[j] == g0[j];
          }
        }
      }
    }
  }

  /** Every element of `g` occurs in `ps`, and they first occur there in the order of `g`. */
  ghost predicate FirstSeenOrder(g: seq<string>, ps: seq<string>)
  {
    forall i, j :: 0 <= i < j < |g| ==> g[i] in ps && g[j] in ps && FirstIndex(ps, g[i]) < FirstIndex(ps, g[j])
  }

  /** The keys of `package_to_files` are in the order of the packages' first files. */
  lemma {:induction false} GroupOrderFirst(links: seq<Link>)
    ensures FirstSeenOrder(GroupOrder(links), PackagesOf(links))
  {
    if links != [] {
      var init := links[..|links| - 1];
      var p := links[|links| - 1].0;
      GroupOrderFirst(init);
      GroupOrderMembers(init);
      var g0, ps0 := GroupOrder(init), PackagesOf(init);
      assert PackagesOf(links) == ps0 + [p];
      forall x | x in g0 ensures x in ps0 {
        OwnerInPackages(init, x);
      }
      if p in g0 {
        FirstSeenKeep(g0, ps0, p);
      } else {
        assert p !in ps0 by {
          forall i | 0 <= i < |ps0| ensures ps0[i] != p {
            assert ps0[i] in Owners(init) by { assert init[i] in init; }
          }
        }
        FirstSeenExtend(g0, ps0, p);
      }
    }
  }

  /** Appending an element already seen keeps the first-seen order. */
  lemma FirstSeenKeep(g: seq<string>, ps: seq<string>, p: string)
    requires FirstSeenOrder(g, ps) && forall x :: x in g ==> x in ps
    ensures FirstSeenOrder(g, ps + [p])
  {
    forall x | x in g ensures x in ps + [p] && FirstIndex(ps + [p], x) == FirstIndex(ps, x) {
      FirstIndexAppend(ps, p, x);
    }
  }

  /** Appending a new element to both keeps the first-seen order. */
  lemma FirstSeenExtend(g: seq<string>, ps: seq<string>, p: string)
    requires FirstSeenOrder(g, ps) && (forall x :: x in g ==> x in ps) && p !in ps
    ensures FirstSeenOrder(g + [p], ps + [p])
  {
    var g', ps' := g + [p], ps + [p];
    forall x | x in g ensures x in ps' && FirstIndex(ps', x) == FirstIndex(ps, x) {
      FirstIndexAppend(ps, p, x);
    }
    FirstIndexLast(ps, p);
    forall i, j | 0 <= i < j < |g'|
      ensures g'[i] in ps' && g'[j] in ps' && FirstIndex(ps', g'[i]) < FirstIndex(ps', g'[j])
    {
      assert g'[i] == g[i] && g[i] in g;
      if j < |g| {
        assert g'[j] == g[j] && g[j] in g;
      }
    }
  }

  /** An owner is one of the packages of the links. */
  lemma OwnerInPackages(links: seq<Link>, x: string)
    requires x in Owners(links)
    ensures x in PackagesOf(links)
  {
    var l :| l in links && l.0 == x;
    var i :| 0 <= i < |links| && links[i] == l;
    assert PackagesOf(links)[i] == x;
  }

  /** Appending to a sequence keeps the first positions of what it held. */
  lemma FirstIndexAppend(s: seq<string>, y: string, x: string)
    requires x in s
    ensures x in s + [y] && FirstIndex(s + [y], x) == FirstIndex(s, x)
  {
    var i := FirstIndex(s, x);
    assert (s + [y])[i] == x;
    FirstIndexAt(s + [y], x, i);
  }

  /** A new element appended last is first found at the end. */
  lemma FirstIndexLast(s: seq<string>, y: string)
    requires y !in s
    ensures y in s + [y] && FirstIndex(s + [y], y) == |s|
  {
    assert (s + [y])[|s|] == y;
    FirstIndexAt(s + [y], y, |s|);
  }

  /** The first position is the one before which `x` does not occur. */
  lemma FirstIndexAt(s: seq<string>, x: string, i: nat)
    requires i < |s| && s[i] == x && forall j :: 0 <= j < i ==> s[j] != x
    ensures FirstIndex(s, x) == i
  {
    var r := FirstIndex(s, x);
    assert !(r < i) && !(i < r);
  }

  /** The files of a package are the identifiers of its links. */
  lemma {:induction false} FilesOfMembers(links: seq<Link>, p: string)
    ensures forall f :: f in FilesOf(links, p) <==> (p, f) in links
  {
    if links != [] {
      var init := links[..|links| - 1];
      FilesOfMembers(init, p);
      assert links == init + [links[|links| - 1]];
    }
  }

  /** A new link adds its file to its own package and to no other. */
  lemma FilesOfAppend(links: seq<Link>, l: Link, p: string)
    ensures FilesOf(links + [l], p) == FilesOf(links, p) + (if l.0 == p then [l.1] else [])
  {
    assert (links + [l])[..|links|] == links;
  }

  /** A `DESCRIBES` edge is produced for exactly the packages of `sorted` with an identifier and files. */
  lemma {:induction false} DescribesMembers(sorted: seq<string>, ids: map<string, string>, owners: set<string>)
    requires forall k :: k in sorted ==> k in ids
    ensures forall r :: r in Describes(sorted, ids, owners) <==>
      exists p :: p in sorted && ids[p] != "" && p in owners && r == Relationship(Document, DescribesType, ids[p])
    ensures |Describes(sorted, ids, owners)| <= |sorted|
  {
    if sorted != [] {
      var init := sorted[..|sorted| - 1];
      DescribesMembers(init, ids, owners);
      assert sorted == init + [sorted[|sorted| - 1]];
    }
  }

  /** The `CONTAINS` edges of the groups: one per link whose package is a group with an identifier. */
  lemma {:induction false} ContainsMembers(groups: seq<string>, links: seq<Link>, ids: map<string, string>)
    ensures forall r :: r in Contains(groups, links, ids) <==>
      exists l :: l in links && l.0 in groups && l.0 in ids && ids[l.0] != ""
        && r == Relationship(ids[l.0], ContainsType, l.1)
  {
    if groups != [] {
      var init := groups[..|groups| - 1];
      var p := groups[|groups| - 1];
      ContainsMembers(init, links, ids);
      FilesOfMembers(links, p);
      assert groups == init + [p];
      forall r | r in Block(p, links, ids)
        ensures exists l :: l in links && l.0 == p && p in ids && ids[p] != "" && r == Relationship(ids[p], ContainsType, l.1)
      {
        var fs := FilesOf(links, p);
        var i :| 0 <= i < |fs| && r == Containing(ids[p], fs)[i];
        assert fs[i] in fs;
      }
      forall l | l in links && l.0 == p && p in ids && ids[p] != ""
        ensures Relationship(ids[p], ContainsType, l.1) in Block(p, links, ids)
      {
        var fs := FilesOf(links, p);
        assert l == (p, l.1);
        var i :| 0 <= i < |fs| && fs[i] == l.1;
        assert Containing(ids[p], fs)[i] == Relationship(ids[p], ContainsType, l.1);
      }
    }
  }

  /** The links whose package has an identifier. */
  function Identified(links: seq<Link>, ids: map<string, string>): nat
  {
    if links == [] then 0
    else
      var l := links[|links| - 1];
      Identified(links[..|links| - 1], ids) + (if l.0 in ids && ids[l.0] != "" then 1 else 0)
  }

  /** One more link adds one edge to its own group and none to the others. */
  lemma {:induction false} ContainsAppendCount(groups: seq<string>, links: seq<Link>, l: Link, ids: map<string, string>)
    requires Distinct(groups)
    ensures |Contains(groups, links + [l], ids)| ==
      |Contains(groups, links, ids)| + (if l.0 in groups && l.0 in ids && ids[l.0] != "" then 1 else 0)
  {
    if groups != [] {
      var init := groups[..|groups| - 1];
      var p := groups[|groups| - 1];
      ContainsAppendCount(init, links, l, ids);
      FilesOfAppend(links, l, p);
      assert groups == init + [p];
      assert l.0 == p ==> l.0 !in init;
      assert |Block(p, links + [l], ids)| == |Block(p, links, ids)| + (if l.0 == p && p in ids && ids[p] != "" then 1 else 0);
      assert |Contains(groups, links + [l], ids)| == |Contains(init, links + [l], ids)| + |Block(p, links + [l], ids)|;
      assert |Contains(groups, links, ids)| == |Contains(init, links, ids)| + |Block(p, links, ids)|;
    }
  }

  /** A package that owns no file has no files. */
  lemma {:induction false} NoFilesOf(links: seq<Link>, p: string)
    requires p !in Owners(links)
    ensures FilesOf(links, p) == []
  {
    if links != [] {
      var init := links[..|links| - 1];
      assert links == init + [links[|links| - 1]];
      assert Owners(init) <= Owners(links);
      NoFilesOf(init, p);
    }
  }

  /** Every file whose package has an identifier gets exactly one `CONTAINS` edge. */
  lemma {:induction false} ContainsCount(links: seq<Link>, ids: map<string, string>)
    ensures |Contains(GroupOrder(links), links, ids)| == Identified(links, ids)
  {
    if links != [] {
      var init := links[..|links| - 1];
      var l := links[|links| - 1];
      var g := GroupOrder(init);
      ContainsCount(init, ids);
      GroupOrderMembers(init);
      GroupOrderDistinct(init);
      assert links == init + [l];
      if l.0 in g {
        ContainsAppendCount(g, init, l, ids);
      } else {
        LastGroupCount(g, init, l, ids);
      }
    }
  }

  /** A package first seen at the last link forms a last group holding just that link's edge. */
  lemma LastGroupCount(g: seq<string>, init: seq<Link>, l: Link, ids: map<string, string>)
    requires l.0 !in g && forall p :: p in g <==> p in Owners(init)
    ensures |Contains(g + [l.0], init + [l], ids)| ==
      |Contains(g, init, ids)| + (if l.0 in ids && ids[l.0] != "" then 1 else 0)
  {
    assert (g + [l.0])[..|g|] == g;
    FilesOfAppend(init, l, l.0);
    NoFilesOf(init, l.0);
    ContainsUnchanged(g, init, l, ids);
  }

  /** A link of a package outside the groups does not change their edges. */
  lemma {:induction false} ContainsUnchanged(groups: seq<string>, links: seq<Link>, l: Link, ids: map<string, string>)
    requires l.0 !in groups
    ensures Contains(groups, links + [l], ids) == Contains(groups, links, ids)
  {
    if groups != [] {
      var init := groups[..|groups| - 1];
      var p := groups[|groups| - 1];
      assert groups == init + [p];
      ContainsUnchanged(init, links, l, ids);
      FilesOfAppend(links, l, p);
    }
  }

  /** The `CONTAINS` edges of the rebuilt list: one from each package with an identifier to each of its files. */
  lemma RebuiltContains(rels: Option<seq<Relationship>>, sorted: seq<string>, ids: map<string, string>, links: seq<Link>)
    requires forall k :: k in sorted ==> k in ids
    ensures forall x :: x in Rebuilt(rels, sorted, ids, links) && x.relationshipType == ContainsType <==>
      exists l :: l in links && l.0 in ids && ids[l.0] != "" && x == Relationship(ids[l.0], ContainsType, l.1)
  {
    if rels.Some? {
      KeptMembers(rels.value);
    }
    DescribesMembers(sorted, ids, Owners(links));
    ContainsMembers(GroupOrder(links), links, ids);
    GroupOrderMembers(links);
  }

  /** The `DESCRIBES` edges from the document: one to each package of `sorted` with an identifier and files. */
  lemma RebuiltDescribes(rels: Option<seq<Relationship>>, sorted: seq<string>, ids: map<string, string>, links: seq<Link>)
    requires forall k :: k in sorted ==> k in ids
    ensures forall x :: x in Rebuilt(rels, sorted, ids, links) && x.spdxId == Document && x.relationshipType == DescribesType <==>
      exists p :: p in sorted && ids[p] != "" && p in Owners(links) && x == Relationship(Document, DescribesType, ids[p])
  {
    if rels.Some? {
      KeptMembers(rels.value);
    }
    DescribesMembers(sorted, ids, Owners(links));
    ContainsMembers(GroupOrder(links), links, ids);
  }

  /** Every other relationship of the rebuilt list is an old one that the filter keeps. */
  lemma RebuiltOthers(rels: Option<seq<Relationship>>, sorted: seq<string>, ids: map<string, string>, links: seq<Link>)
    requires forall k :: k in sorted ==> k in ids
    ensures forall x :: x in Rebuilt(rels, sorted, ids, links) && ShouldKeep(x) <==>
      rels.Some? && x in rels.value && ShouldKeep(x)
  {
    if rels.Some? {
      KeptMembers(rels.value);
    }
    DescribesMembers(sorted, ids, Owners(links));
    ContainsMembers(GroupOrder(links), links, ids);
  }

  // ----- Every generated edge occurs once -----

  /** No two links name the same file identifier. */
  ghost predicate FileIdsDistinct(links: seq<Link>)
  {
    forall i, j :: 0 <= i < j < |links| ==> links[i].1 != links[j].1
  }

  /** Two links that share a file identifier are the same link. */
  lemma SameFileSameLink(links: seq<Link>, a: Link, b: Link)
    requires FileIdsDistinct(links) && a in links && b in links && a.1 == b.1
    ensures a == b
  {
    var i :| 0 <= i < |links| && links[i] == a;
    var j :| 0 <= j < |links| && links[j] == b;
    assert i == j;
  }

  /**
   * Sorted packages that are distinct and carry distinct identifiers get
   * distinct `DESCRIBES` edges.
   */
  lemma {:induction false} DescribesDistinct(sorted: seq<string>, ids: map<string, string>, owners: set<string>)
    requires forall k :: k in sorted ==> k in ids
    requires forall i, j :: 0 <= i < j < |sorted| ==> ids[sorted[i]] != ids[sorted[j]]
    ensures Distinct(Describes(sorted, ids, owners))
  {
    if sorted != [] {
      var init, p := sorted[..|sorted| - 1], sorted[|sorted| - 1];
      assert forall i :: 0 <= i < |init| ==> init[i] == sorted[i];
      DescribesDistinct(init, ids, owners);
      var d := Describes(init, ids, owners);
      if ids[p] != "" && p in owners {
        var e := Relationship(Document, DescribesType, ids[p]);
        DescribesMembers(init, ids, owners);
        if e in d {
          assert false;
        }
        DistinctSnoc(d, e);
      }
    }
  }

  /** Under distinct file identifiers, a package's list of files has no repeats. */
  lemma {:induction false} FilesOfDistinct(links: seq<Link>, p: string)
    requires FileIdsDistinct(links)
    ensures Distinct(FilesOf(links, p))
  {
    if links != [] {
      var init, l := links[..|links| - 1], links[|links| - 1];
      assert forall i :: 0 <= i < |init| ==> init[i] == links[i];
      FilesOfDistinct(init, p);
      if l.0 == p {
        FilesOfMembers(init, p);
        if l.1 in FilesOf(init, p) {
          assert false;
        }
        DistinctSnoc(FilesOf(init, p), l.1);
      }
    }
  }

  /** Under distinct file identifiers, the `CONTAINS` edges of distinct groups have no repeats. */
  lemma {:induction false} ContainsDistinct(groups: seq<string>, links: seq<Link>, ids: map<string, string>)
    requires Distinct(groups) && FileIdsDistinct(links)
    ensures Distinct(Contains(groups, links, ids))
  {
    if groups != [] {
      var init, p := groups[..|groups| - 1], groups[|groups| - 1];
      assert forall i :: 0 <= i < |init| ==> init[i] == groups[i];
      assert p !in init;
      ContainsDistinct(init, links, ids);
      var before, block := Contains(init, links, ids), Block(p, links, ids);
      if p in ids && ids[p] != "" {
        var fs := FilesOf(links, p);
        FilesOfDistinct(links, p);
        FilesOfMembers(links, p);
        ContainsMembers(init, links, ids);
        forall i, j | 0 <= i < j < |block| ensures block[i] != block[j] {
          assert block[i].relatedSpdxId == fs[i] && block[j].relatedSpdxId == fs[j];
        }
        forall x | x in before && x in block ensures false {
          var l :| l in links && l.0 in init && l.0 in ids && ids[l.0] != ""
            && x == Relationship(ids[l.0], ContainsType, l.1);
          var k :| 0 <= k < |block| && block[k] == x;
          assert fs[k] in fs;
          assert (p, fs[k]) in links;
          SameFileSameLink(links, l, (p, fs[k]));
        }
        DistinctConcat(before, block);
      } else {
        assert Contains(groups, links, ids) == before + [];
      }
    }
  }

  /**
   * Kept relationships, then distinct `DESCRIBES` edges, then distinct
   * `CONTAINS` edges: no edge outside the first part occurs twice.
   */
  lemma FreshSegmentsOnce(b: seq<Relationship>, d: seq<Relationship>, c: seq<Relationship>)
    requires forall x :: x in b ==> ShouldKeep(x)
    requires forall x :: x in d ==> x.relationshipType == DescribesType
    requires forall x :: x in c ==> x.relationshipType == ContainsType
    requires Distinct(d) && Distinct(c)
    ensures var r := b + d + c; forall i, j :: 0 <= i < j < |r| && !ShouldKeep(r[i]) ==> r[i] != r[j]
  {
    var r := b + d + c;
    forall i, j | 0 <= i < j < |r| && !ShouldKeep(r[i]) ensures r[i] != r[j] {
      if i < |b| {
        assert false;
      } else if i < |b| + |d| {
        assert r[i] == d[i - |b|] && d[i - |b|] in d;
        if j < |b| + |d| {
          assert r[j] == d[j - |b|];
        } else {
          assert r[j] == c[j - |b| - |d|] && c[j - |b| - |d|] in c;
        }
      } else {
        assert r[i] == c[i - |b| - |d|] && r[j] == c[j - |b| - |d|];
      }
    }
  }

  /**
   * Every edge the pass generates occurs once in the rebuilt list: the
   * document's `DESCRIBES` edges and the `CONTAINS` edges, when the sorted
   * packages carry distinct identifiers and the files do too.
   */
  lemma RebuiltFreshOnce(rels: Option<seq<Relationship>>, sorted: seq<string>, ids: map<string, string>,
    links: seq<Link>)
    requires forall k :: k in sorted ==> k in ids
    requires forall i, j :: 0 <= i < j < |sorted| ==> ids[sorted[i]] != ids[sorted[j]]
    requires FileIdsDistinct(links)
    ensures var r := Rebuilt(rels, sorted, ids, links);
      forall i, j :: 0 <= i < j < |r| && !ShouldKeep(r[i]) ==> r[i] != r[j]
  {
    var b, d, c := Base(rels), Describes(sorted, ids, Owners(links)), Contains(GroupOrder(links), links, ids);
    if rels.Some? {
      KeptMembers(rels.value);
    }
    DescribesMembers(sorted, ids, Owners(links));
    ContainsMembers(GroupOrder(links), links, ids);
    DescribesDistinct(sorted, ids, Owners(links));
    GroupOrderDistinct(links);
    ContainsDistinct(GroupOrder(links), links, ids);
    FreshSegmentsOnce(b, d, c);
  }

  /** Splitting the groups at position `i`. */
  lemma ContainsStep(groups: seq<string>, i: nat, links: seq<Link>, ids: map<string, string>)
    requires i < |groups|
    ensures Contains(groups[..i + 1], links, ids) == Contains(groups[..i], links, ids) + Block(groups[i], links, ids)
    ensures Block(groups[i], links, ids) == [] ==> Contains(groups[..i + 1], links, ids) == Contains(groups[..i], links, ids)
  {
    assert groups[..i + 1][..i] == groups[..i];
  }

  /** Lines 141-143: `package_to_files`, with its keys in insertion order. */
  method GroupFiles(files: seq<File>) returns (packageToFiles: map<string, seq<string>>, keyOrder: seq<string>)
    ensures keyOrder == GroupOrder(FileLinks(files))
    ensures forall p :: p in packageToFiles <==> p in keyOrder
    ensures forall p :: p in packageToFiles ==> packageToFiles[p] == FilesOf(FileLinks(files), p)
  {
    ghost var links := FileLinks(files);
    FileLinksSpec(files);
    packageToFiles := map[];
    keyOrder := [];
    for i := 0 to |files|
      invariant keyOrder == GroupOrder(links[..i])
      invariant forall p :: p in packageToFiles <==> p in keyOrder
      invariant forall p :: p in packageToFiles ==> packageToFiles[p] == FilesOf(links[..i], p)
    {
      var file := files[i];
      assert links[..i + 1] == links[..i] + [(file.package, file.spdxId)];
      ghost var seen := packageToFiles.Keys;
      if file.package in packageToFiles {
        packageToFiles := packageToFiles[file.package := packageToFiles[file.package] + [file.spdxId]];
      } else {
        packageToFiles := packageToFiles[file.package := [file.spdxId]];
        keyOrder := keyOrder + [file.package];
      }
      forall p | p in packageToFiles ensures packageToFiles[p] == FilesOf(links[..i + 1], p) {
        FilesOfAppend(links[..i], (file.package, file.spdxId), p);
        if p !in seen {
          GroupOrderMembers(links[..i]);
          NoFilesOf(links[..i], p);
        }
      }
    }
    assert links[..|files|] == links;
  }

  /** Lines 145-152: a `DESCRIBES` edge for each package in sorted order that has an identifier and files. */
  method AppendDescribes(data: Data, packagesWithFiles: set<string>)
    requires data.PackagesHeld()
    requires data.relationships.Some?
    requires forall k :: k in data.packagesSorted ==> k in data.packages
    modifies data`relationships
    ensures data.relationships ==
      Some(old(data.relationships.value) + Describes(data.packagesSorted, SpdxIds(data), packagesWithFiles))
  {
    ghost var ids := SpdxIds(data);
    ghost var base := data.relationships.value;
    var sorted := data.packagesSorted;
    assert base + Describes(sorted[..0], ids, packagesWithFiles) == base;
    for i := 0 to |sorted|
      invariant data.relationships == Some(base + Describes(sorted[..i], ids, packagesWithFiles))
    {
      var packageId := sorted[i];
      var package := data.packages[packageId];
      assert sorted[..i + 1][..i] == sorted[..i] && sorted[..i + 1][i] == packageId;
      assert ids[packageId] == package.spdxId;
      if package.spdxId != "" && packageId in packagesWithFiles {
        var relationship := Relationship(Document, DescribesType, package.spdxId);
        assert base + Describes(sorted[..i + 1], ids, packagesWithFiles)
          == base + Describes(sorted[..i], ids, packagesWithFiles) + [relationship];
        data.relationships := Some(data.relationships.value + [relationship]);
      } else {
        assert Describes(sorted[..i + 1], ids, packagesWithFiles) == Describes(sorted[..i], ids, packagesWithFiles);
      }
    }
    assert sorted[..|sorted|] == sorted;
  }

  /** Lines 157-162: a `CONTAINS` edge from package `pid` to each file identifier. */
  method AppendContaining(data: Data, pid: string, fileIds: seq<string>)
    requires data.relationships.Some?
    modifies data`relationships
    ensures data.relationships == Some(old(data.relationships.value) + Containing(pid, fileIds))
  {
    ghost var before := data.relationships.value;
    assert Containing(pid, fileIds[..0]) == [];
    assert before + Containing(pid, fileIds[..0]) == before;
    for j := 0 to |fileIds|
      invariant data.relationships == Some(before + Containing(pid, fileIds[..j]))
    {
      var containedRel := Relationship(pid, ContainsType, fileIds[j]);
      assert Containing(pid, fileIds[..j + 1]) == Containing(pid, fileIds[..j]) + [containedRel];
      assert before + Containing(pid, fileIds[..j + 1]) == before + Containing(pid, fileIds[..j]) + [containedRel];
      data.relationships := Some(data.relationships.value + [containedRel]);
    }
    assert fileIds[..|fileIds|] == fileIds;
  }

  /** Lines 153-162: the `CONTAINS` edges, group by group, skipping packages that are missing or have no identifier. */
  method AppendContains(data: Data, packageToFiles: map<string, seq<string>>, keyOrder: seq<string>, ghost links: seq<Link>)
    requires data.PackagesHeld()
    requires data.relationships.Some?
    requires forall p :: p in keyOrder ==> p in packageToFiles && packageToFiles[p] == FilesOf(links, p)
    modifies data`relationships
    ensures data.relationships == Some(old(data.relationships.value) + Contains(keyOrder, links, SpdxIds(data)))
  {
    ghost var ids := SpdxIds(data);
    ghost var described := data.relationships.value;
    assert described + Contains(keyOrder[..0], links, ids) == described;
    for i := 0 to |keyOrder|
      invariant data.relationships == Some(described + Contains(keyOrder[..i], links, ids))
      invariant SpdxIds(data) == ids
    {
      var packageId := keyOrder[i];
      ContainsStep(keyOrder, i, links, ids);
      if packageId !in data.packages || data.packages[packageId].spdxId == "" {
        continue;
      }
      var package := data.packages[packageId];
      assert Block(packageId, links, ids) == Containing(package.spdxId, packageToFiles[packageId]);
      assert described + Contains(keyOrder[..i + 1], links, ids)
        == described + Contains(keyOrder[..i], links, ids) + Containing(package.spdxId, packageToFiles[packageId]);
      label appending:
      AppendContaining(data, package.spdxId, packageToFiles[packageId]);
      IdsKept@appending(data);
    }
    assert keyOrder[..|keyOrder|] == keyOrder;
  }

  /**
   * Lines 136-162: filters the old relationships, groups the files'
   * identifiers by package in first-appearance order, then appends the
   * `DESCRIBES` and `CONTAINS` edges.
   */
  method RebuildRelationships(data: Data)
    requires data.PackagesHeld()
    requires forall k :: k in data.packagesSorted ==> k in data.packages
    modifies data`relationships
    ensures data.relationships ==
      Some(Rebuilt(old(data.relationships), data.packagesSorted, SpdxIds(data), LinksOf(data)))
  {
    var base := Base(data.relationships);
    data.relationships := Some(base);
    var packageToFiles, keyOrder := GroupFiles(data.files);
    ghost var ids := SpdxIds(data);
    ghost var links := LinksOf(data);
    GroupOrderMembers(links);
    var packagesWithFiles := packageToFiles.Keys;
    assert packagesWithFiles == Owners(links);
    label grouped:
    AppendDescribes(data, packagesWithFiles);
    IdsKept@grouped(data);
    ghost var described := Describes(data.packagesSorted, ids, packagesWithFiles);
    assert data.relationships == Some(base + described);
    label describedAll:
    AppendContains(data, packageToFiles, keyOrder, links);
    IdsKept@describedAll(data);
    LinksKept@describedAll(data);
    assert data.relationships == Some(base + described + Contains(keyOrder, links, ids));
  }
}
