/**
 * The fifth pass of `pre_process`: the catalog's keys are listed in
 * `data.licenses_sorted` by the `lic_reorder` key, which puts the empty
 * expression first, then custom expressions, custom licenses, `LicenseRef-`
 * licenses, standard expressions and standard licenses, each group in
 * identifier order.
 */
module LicenseOrder {
  import opened Text
  import opened StrOrder
  import opened Sorting
  import opened SbomData
  import opened LicenseCatalog

  /** `lic_reorder(id)`: a group letter, followed by the identifier unless it is empty. */
  function ReorderKey(lic: Catalog, id: string): string
    requires id in lic
  {
    var entry := lic[id];
    if id == "" then
      "A"
    else if entry.IsExpr() then
      if entry.Custom() then "B" + id else "E" + id
    else if StartsWith(id, "LicenseRef-") then
      "D" + id
    else if entry.Custom() then
      "C" + id
    else
      "F" + id
  }

  /** `lic_reorder` as a key function; `sorted` only applies it to keys of the catalog. */
  function KeyOf(lic: Catalog): string -> string
  {
    id => if id in lic then ReorderKey(lic, id) else ""
  }

  /** The groups of the listing, in the order they appear. */
  datatype Group = NoLicense | CustomExpr | CustomLicense | RefLicense | StandardExpr | StandardLicense

  /** Which group an entry belongs to. */
  function GroupOf(id: string, entry: CatalogEntry): Group
  {
    if id == "" then NoLicense
    else if entry.IsExpr() && entry.Custom() then CustomExpr
    else if entry.IsExpr() then StandardExpr
    else if StartsWith(id, "LicenseRef-") then RefLicense
    else if entry.Custom() then CustomLicense
    else StandardLicense
  }

  /** The position of a group in the listing. */
  function Rank(g: Group): nat
  {
    match g
    case NoLicense => 0
    case CustomExpr => 1
    case CustomLicense => 2
    case RefLicense => 3
    case StandardExpr => 4
    case StandardLicense => 5
  }

  /** Entry `a` is listed before entry `b`: an earlier group, or the same group and a smaller identifier. */
  predicate ListedBefore(lic: Catalog, a: string, b: string)
    requires a in lic && b in lic
  {
    var ga, gb := Rank(GroupOf(a, lic[a])), Rank(GroupOf(b, lic[b]));
    ga < gb || (ga == gb && LexLt(a, b))
  }

  /** The key of a non-empty identifier is its group letter followed by the identifier. */
  lemma ReorderKeyShape(lic: Catalog, id: string)
    requires id in lic
    ensures id == "" ==> ReorderKey(lic, id) == "A"
    ensures id != "" ==> ReorderKey(lic, id) == ["ABCDEF"[Rank(GroupOf(id, lic[id]))]] + id
  {
  }

  /** Distinct keys of the catalog have distinct `lic_reorder` keys. */
  lemma ReorderKeyInjective(lic: Catalog)
    ensures InjectiveOn(lic.Keys, KeyOf(lic))
  {
    forall a, b | a in lic && b in lic && KeyOf(lic)(a) == KeyOf(lic)(b) ensures a == b {
      ReorderKeyShape(lic, a);
      ReorderKeyShape(lic, b);
      var ka := ReorderKey(lic, a);
      if a != "" && b != "" {
        assert a == ka[1..];
      }
    }
  }

  /** Comparing `lic_reorder` keys is comparing groups, then identifiers. */
  lemma ReorderKeyOrder(lic: Catalog, a: string, b: string)
    requires a in lic && b in lic
    ensures LexLt(ReorderKey(lic, a), ReorderKey(lic, b)) <==> ListedBefore(lic, a, b)
  {
    ReorderKeyShape(lic, a);
    ReorderKeyShape(lic, b);
    var ka, kb := ReorderKey(lic, a), ReorderKey(lic, b);
    if ka[0] == kb[0] {
      SameHeadLt(ka, kb);
      assert ka[1..] == a && kb[1..] == b;
    } else {
      DifferentHeadLt(ka, kb);
    }
  }

  /** `sorted(data.licenses.keys(), key=lic_reorder)`. */
  function LicensesSorted(lic: Catalog): seq<string>
  {
    ReorderKeyInjective(lic);
    SortSetBy(lic.Keys, KeyOf(lic))
  }

  /**
   * The listing holds every key of the catalog once, and lists the entries
   * group by group, each group in identifier order.
   */
  lemma LicensesSortedSpec(lic: Catalog)
    ensures forall k :: k in LicensesSorted(lic) <==> k in lic
    ensures |LicensesSorted(lic)| == |lic|
    ensures var r := LicensesSorted(lic);
      forall i, j :: 0 <= i < j < |r| ==> r[i] in lic && r[j] in lic && ListedBefore(lic, r[i], r[j])
  {
    ReorderKeyInjective(lic);
    SortSetBySpec(lic.Keys, KeyOf(lic));
    var r := LicensesSorted(lic);
    forall i, j | 0 <= i < j < |r| ensures r[i] in lic && r[j] in lic && ListedBefore(lic, r[i], r[j]) {
      assert r[i] in lic && r[j] in lic;
      ReorderKeyOrder(lic, r[i], r[j]);
    }
  }

  /** The empty expression, when it is in the catalog, is listed first. */
  lemma NoLicenseFirst(lic: Catalog)
    requires "" in lic
    ensures |LicensesSorted(lic)| > 0 && LicensesSorted(lic)[0] == ""
  {
    LicensesSortedSpec(lic);
    var r := LicensesSorted(lic);
    var i :| 0 <= i < |r| && r[i] == "";
    assert r[0] in lic && !ListedBefore(lic, r[0], r[i]);
    if i > 0 {
      assert false;
    }
  }

  /** `data.licenses_sorted = sorted(data.licenses.keys(), key=lic_reorder)`. */
  method SortLicenses(data: Data)
    modifies data`licensesSorted
    ensures data.licensesSorted == LicensesSorted(data.licenses)
  {
    data.licensesSorted := LicensesSorted(data.licenses);
  }
}
