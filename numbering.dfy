/**
 * The sixth and seventh passes of `pre_process`: the package keys are
 * sorted into `data.packages_sorted`, and packages (in that order) and files
 * (in file order) are numbered with SPDX identifiers counted from 1, for
 * stable cross references.
 */
module Numbering {
  import opened Optional
  import opened Text
  import opened StrOrder
  import opened Sorting
  import opened SbomData

  /** `f'SPDXRef-Package-{n}'`. */
  function PackageRef(n: nat): string
  {
    "SPDXRef-Package-" + NatToString(n)
  }

  /** `f'SPDXRef-File-{n}'`. */
  function FileRef(n: nat): string
  {
    "SPDXRef-File-" + NatToString(n)
  }

  /** Different counters give different package identifiers. */
  lemma PackageRefInjective(m: nat, n: nat)
    ensures PackageRef(m) == PackageRef(n) <==> m == n
  {
    PrefixedNatInjective("SPDXRef-Package-", m, n);
  }

  /** Different counters give different file identifiers. */
  lemma FileRefInjective(m: nat, n: nat)
    ensures FileRef(m) == FileRef(n) <==> m == n
  {
    PrefixedNatInjective("SPDXRef-File-", m, n);
  }

  /** No package identifier is a file identifier. */
  lemma PackageRefNotFileRef(m: nat, n: nat)
    ensures PackageRef(m) != FileRef(n)
  {
    assert PackageRef(m)[8] == 'P' && FileRef(n)[8] == 'F';
  }

  /** `sorted(data.packages.keys())`. */
  function PackagesSorted(packages: map<string, Package>): seq<string>
  {
    assert InjectiveOn(packages.Keys, Self);
    SortSetBy(packages.Keys, Self)
  }

  /** The sorted keys are the keys of the map, once each, in increasing order. */
  lemma PackagesSortedSpec(packages: map<string, Package>)
    ensures forall k :: k in PackagesSorted(packages) <==> k in packages
    ensures |PackagesSorted(packages)| == |packages|
    ensures var r := PackagesSorted(packages); forall i, j :: 0 <= i < j < |r| ==> LexLt(r[i], r[j])
  {
    assert InjectiveOn(packages.Keys, Self);
    SortSetBySpec(packages.Keys, Self);
    var r := PackagesSorted(packages);
    assert forall i, j :: 0 <= i < j < |r| ==> Self(r[i]) == r[i] && Self(r[j]) == r[j];
  }

  /** `data.packages_sorted = sorted(data.packages.keys())`. */
  method SortPackages(data: Data)
    modifies data`packagesSorted
    ensures data.packagesSorted == PackagesSorted(data.packages)
  {
    data.packagesSorted := PackagesSorted(data.packages);
  }

  /** `external_refs`, with `None` replaced by an empty list. */
  function RefsOrEmpty(refs: Option<seq<string>>): (r: Option<seq<string>>)
    ensures r.Some?
    ensures refs.Some? ==> r == refs
  {
    if refs.None? then Some([]) else refs
  }

  /**
   * Numbers the packages in `data.packages_sorted` order: the package at
   * position `i` gets `SPDXRef-Package-{i+1}`, and a missing
   * `external_refs` becomes an empty list. The keys are those of
   * `data.packages`, once each, as `sorted` of the keys gives them.
   */
  method NumberPackages(data: Data)
    requires data.PackagesIndexed()
    requires forall k :: k in data.packagesSorted <==> k in data.packages
    requires Distinct(data.packagesSorted)
    modifies data.packageObjects`spdxId, data.packageObjects`externalRefs
    ensures forall i :: 0 <= i < |data.packagesSorted| ==>
      data.packagesSorted[i] in SpdxIds(data) && SpdxIds(data)[data.packagesSorted[i]] == PackageRef(i + 1)
    ensures forall k :: k in old(RefsOf(data)) ==> k in RefsOf(data) && RefsOf(data)[k] == RefsOrEmpty(old(RefsOf(data))[k])
  {
    var sorted := data.packagesSorted;
    var packages := data.packages;
    ghost var ps := seq(|sorted|, j requires 0 <= j < |sorted| => packages[sorted[j]]);
    assert forall a, b :: 0 <= a < b < |ps| ==> ps[a] != ps[b];
    var packageCounter := 1;
    for i := 0 to |sorted|
      invariant packageCounter == i + 1
      invariant forall j :: 0 <= j < i ==> ps[j].spdxId == PackageRef(j + 1)
      invariant forall j :: 0 <= j < |ps| ==>
        ps[j].externalRefs == if j < i then RefsOrEmpty(old(ps[j].externalRefs)) else old(ps[j].externalRefs)
    {
      var package := packages[sorted[i]];
      assert package == ps[i];
      assert forall j :: 0 <= j < |ps| && j != i ==> ps[j] != package;
      package.spdxId := PackageRef(packageCounter);
      packageCounter := packageCounter + 1;
      if package.externalRefs.None? {
        package.externalRefs := Some([]);
      }
    }
    assert forall j :: 0 <= j < |sorted| ==> ps[j] == packages[sorted[j]];
    forall k | k in packages
      ensures packages[k].externalRefs == RefsOrEmpty(old(packages[k].externalRefs))
    {
      var j :| 0 <= j < |sorted| && sorted[j] == k;
      assert ps[j] == packages[k];
    }
  }

  /** Numbers the files in order: the file at position `j` gets `SPDXRef-File-{j+1}`. */
  method NumberFiles(data: Data)
    requires FilesDistinct(data.files)
    modifies data.files`spdxId
    ensures forall j :: 0 <= j < |data.files| ==> data.files[j].spdxId == FileRef(j + 1)
  {
    var files := data.files;
    NoRepeatsPairwise(files);
    var fileCounter := 1;
    for i := 0 to |files|
      invariant fileCounter == i + 1
      invariant forall j :: 0 <= j < i ==> files[j].spdxId == FileRef(j + 1)
    {
      files[i].spdxId := FileRef(fileCounter);
      fileCounter := fileCounter + 1;
    }
  }
}
