/**
 * The fourth pass of `pre_process`: every license expression in use, and
 * every license identifier it is made of, gets an entry in a new
 * `data.licenses` dictionary.
 */
module LicenseCatalog {
  import opened Optional
  import opened Sorting
  import opened SbomData

  /** A catalog: `data.licenses` or the `used_licenses` being built. */
  type Catalog = map<string, CatalogEntry>

  /** An expression gets an entry of its own unless it is a single valid identifier. */
  predicate NeedsExprEntry(info: ExprInfo)
  {
    !info.valid || !info.isIdOnly
  }

  /** `expr.custom`: unparsable, or made of some identifier that is not an SPDX one. */
  predicate IsCustomExpr(c: Collaborators, valid: bool, ids: seq<string>)
  {
    !valid || exists id :: id in ids && !c.isSpdxLicense(id)
  }

  /** The `LicenseExpr` built for the expression `e`. */
  function MakeExpr(c: Collaborators, e: string): (r: LicenseExpr)
    ensures r.id == e && r.valid == c.exprInfo(e).valid && r.friendlyId == c.exprInfo(e).friendlyExpr
    ensures multiset(r.licenses) == multiset(c.exprInfo(e).licenses) && SortedBy(r.licenses, Self)
    ensures r.custom <==> !r.valid || exists id :: id in r.licenses && !c.isSpdxLicense(id)
  {
    var info := c.exprInfo(e);
    var ids := SortBy(info.licenses, Self);
    SortBySpec(info.licenses, Self);
    LicenseExpr(e, info.friendlyExpr, info.valid, ids, IsCustomExpr(c, info.valid, ids))
  }

  /**
   * The entry for an identifier: the registry's license for an SPDX one;
   * otherwise the entry the old catalog had; otherwise the registry's
   * license if it has one; otherwise a blank license named after the
   * identifier.
   */
  function ResolveId(c: Collaborators, previous: Catalog, id: string): CatalogEntry
    requires c.Coherent()
  {
    if c.isSpdxLicense(id) then
      Lic(c.getLicense(id).value)
    else if id in previous then
      previous[id]
    else
      match c.getLicense(id)
      case Some(lic) => Lic(lic)
      case None => Lic(c.blankLicense.(id := id, friendlyId := id))
  }

  /** The loop over an expression's identifiers, from the catalog `used`. */
  function AddIds(c: Collaborators, previous: Catalog, ids: seq<string>, used: Catalog): Catalog
    requires c.Coherent()
    decreases |ids|
  {
    if ids == [] then
      used
    else
      var next := if ids[0] in used then used else used[ids[0] := ResolveId(c, previous, ids[0])];
      AddIds(c, previous, ids[1..], next)
  }

  /** The body of the loop over the files, for a file whose expression is `e`. */
  function CatalogStep(c: Collaborators, previous: Catalog, used: Catalog, e: string): Catalog
    requires c.Coherent()
  {
    if e in used then
      used
    else
      var info := c.exprInfo(e);
      var withExpr := if NeedsExprEntry(info) then used[e := Expr(MakeExpr(c, e))] else used;
      AddIds(c, previous, info.licenses, withExpr)
  }

  /** The loop over the files whose expressions are `exprs`, from the catalog `used`. */
  function CatalogFrom(c: Collaborators, previous: Catalog, exprs: seq<string>, used: Catalog): Catalog
    requires c.Coherent()
    decreases |exprs|
  {
    if exprs == [] then used else CatalogFrom(c, previous, exprs[1..], CatalogStep(c, previous, used, exprs[0]))
  }

  /** The new `data.licenses`, built from the old one and the files' expressions. */
  function CatalogOf(c: Collaborators, previous: Catalog, exprs: seq<string>): Catalog
    requires c.Coherent()
  {
    CatalogFrom(c, previous, exprs, map[])
  }

  /**
   * `expr.custom = not info.valid`, then the loop that sets it when an
   * identifier is not an SPDX one and stops there.
   */
  method ExprCustom(c: Collaborators, valid: bool, ids: seq<string>) returns (custom: bool)
    ensures custom == IsCustomExpr(c, valid, ids)
  {
    custom := !valid;
    for i := 0 to |ids|
      invariant custom == (!valid || exists j :: 0 <= j < i && !c.isSpdxLicense(ids[j]))
    {
      if !c.isSpdxLicense(ids[i]) {
        custom := true;
        break;
      }
    }
  }

  /** The loop over one expression's identifiers. */
  method AddConstituents(c: Collaborators, previous: Catalog, ids: seq<string>, used0: Catalog)
    returns (used: Catalog)
    requires c.Coherent()
    ensures used == AddIds(c, previous, ids, used0)
  {
    used := used0;
    for i := 0 to |ids|
      invariant AddIds(c, previous, ids[i..], used) == AddIds(c, previous, ids, used0)
    {
      assert ids[i..][1..] == ids[i + 1..];
      var id := ids[i];
      if id in used {
        continue;
      } else if c.isSpdxLicense(id) {
        used := used[id := Lic(c.getLicense(id).value)];
      } else if id in previous {
        used := used[id := previous[id]];
      } else {
        var lic := c.getLicense(id);
        if lic.None? {
          lic := Some(c.blankLicense.(id := id, friendlyId := id));
        }
        used := used[id := Lic(lic.value)];
      }
    }
    assert ids[|ids|..] == [];
  }

  /** The body of the loop over the files. */
  method CatalogFile(c: Collaborators, previous: Catalog, used0: Catalog, e: string) returns (used: Catalog)
    requires c.Coherent()
    ensures used == CatalogStep(c, previous, used0, e)
  {
    used := used0;
    if e in used {
      return;
    }
    var info := c.exprInfo(e);
    if !info.valid || !info.isIdOnly {
      var ids := SortBy(info.licenses, Self);
      var custom := ExprCustom(c, info.valid, ids);
      used := used[e := Expr(LicenseExpr(e, info.friendlyExpr, info.valid, ids, custom))];
    }
    used := AddConstituents(c, previous, info.licenses, used);
  }

  /** `data.licenses = used_licenses`, built over the files in order. */
  method BuildCatalog(data: Data, c: Collaborators)
    requires c.Coherent()
    modifies data`licenses
    ensures data.licenses == CatalogOf(c, old(data.licenses), LicenseExprsOf(data.files))
  {
    ghost var exprs := LicenseExprsOf(data.files);
    LicenseExprsOfSpec(data.files);
    var previous := data.licenses;
    var used: Catalog := map[];
    for i := 0 to |data.files|
      invariant CatalogFrom(c, previous, exprs[i..], used) == CatalogOf(c, previous, exprs)
    {
      assert exprs[i..][1..] == exprs[i + 1..];
      used := CatalogFile(c, previous, used, data.files[i].licenseExpr);
    }
    assert exprs[|data.files|..] == [];
    data.licenses := used;
  }

  // What the new catalog holds.

  /** `id` is one of the identifiers of some expression in `exprs`. */
  ghost predicate IsConstituent(c: Collaborators, exprs: seq<string>, id: string)
  {
    exists e :: e in exprs && id in c.exprInfo(e).licenses
  }

  /**
   * Where an entry of the catalog built from `exprs` comes from: it is the
   * `LicenseExpr` of one of the expressions, or the resolved entry of one of
   * their identifiers.
   */
  ghost predicate EntryFrom(c: Collaborators, previous: Catalog, exprs: seq<string>, k: string, v: CatalogEntry)
    requires c.Coherent()
  {
    || (k in exprs && NeedsExprEntry(c.exprInfo(k)) && v == Expr(MakeExpr(c, k)))
    || (IsConstituent(c, exprs, k) && v == ResolveId(c, previous, k))
  }

  /** The identifier loop keeps every entry, and adds the resolved entry of each new identifier. */
  lemma {:induction false} AddIdsSpec(c: Collaborators, previous: Catalog, ids: seq<string>, used: Catalog)
    requires c.Coherent()
    ensures forall k :: k in used ==> k in AddIds(c, previous, ids, used) && AddIds(c, previous, ids, used)[k] == used[k]
    ensures forall k :: k in AddIds(c, previous, ids, used) <==> k in used || k in ids
    ensures forall k :: k in AddIds(c, previous, ids, used) && k !in used ==>
      AddIds(c, previous, ids, used)[k] == ResolveId(c, previous, k)
    decreases |ids|
  {
    if ids != [] {
      var next := if ids[0] in used then used else used[ids[0] := ResolveId(c, previous, ids[0])];
      AddIdsSpec(c, previous, ids[1..], next);
      assert forall k :: k in ids <==> k == ids[0] || k in ids[1..];
    }
  }

  /** One file's step keeps every entry; what it adds comes from its expression. */
  lemma CatalogStepSpec(c: Collaborators, previous: Catalog, used: Catalog, e: string)
    requires c.Coherent()
    ensures forall k :: k in used ==> k in CatalogStep(c, previous, used, e) && CatalogStep(c, previous, used, e)[k] == used[k]
    ensures forall k :: k in CatalogStep(c, previous, used, e) && k !in used ==>
      EntryFrom(c, previous, [e], k, CatalogStep(c, previous, used, e)[k])
    ensures NeedsExprEntry(c.exprInfo(e)) ==> e in CatalogStep(c, previous, used, e)
    ensures e !in used ==> forall id :: id in c.exprInfo(e).licenses ==> id in CatalogStep(c, previous, used, e)
  {
    if e !in used {
      var info := c.exprInfo(e);
      var withExpr := if NeedsExprEntry(info) then used[e := Expr(MakeExpr(c, e))] else used;
      AddIdsSpec(c, previous, info.licenses, withExpr);
      assert forall k :: IsConstituent(c, [e], k) <==> k in info.licenses;
    }
  }

  /** Provenance from some of the expressions is provenance from any list that holds them all. */
  lemma EntryFromWidens(c: Collaborators, previous: Catalog, part: seq<string>, whole: seq<string>, k: string,
    v: CatalogEntry)
    requires c.Coherent()
    requires forall d :: d in part ==> d in whole
    requires EntryFrom(c, previous, part, k, v)
    ensures EntryFrom(c, previous, whole, k, v)
  {
    if IsConstituent(c, part, k) {
      var d :| d in part && k in c.exprInfo(d).licenses;
      assert d in whole;
    }
  }

  /** Entry provenance, carried along the loop over the files: every entry comes from one of `exprs`. */
  lemma {:induction false} CatalogFromEntries(
    c: Collaborators, previous: Catalog, exprs: seq<string>, rest: seq<string>, used: Catalog)
    requires c.Coherent()
    requires forall e :: e in rest ==> e in exprs
    requires forall k :: k in used ==> EntryFrom(c, previous, exprs, k, used[k])
    ensures forall k :: k in CatalogFrom(c, previous, rest, used) ==>
      EntryFrom(c, previous, exprs, k, CatalogFrom(c, previous, rest, used)[k])
    decreases |rest|
  {
    if rest != [] {
      var e := rest[0];
      var next := CatalogStep(c, previous, used, e);
      CatalogStepSpec(c, previous, used, e);
      forall k | k in next ensures EntryFrom(c, previous, exprs, k, next[k]) {
        if k !in used {
          EntryFromWidens(c, previous, [e], exprs, k, next[k]);
        }
      }
      CatalogFromEntries(c, previous, exprs, rest[1..], next);
    }
  }

  /**
   * Every entry of the new catalog is the `LicenseExpr` of an expression
   * that needs one, or the resolved entry of a constituent identifier;
   * so its keys are among those expressions and identifiers.
   */
  lemma CatalogEntries(c: Collaborators, previous: Catalog, exprs: seq<string>)
    requires c.Coherent()
    ensures forall k :: k in CatalogOf(c, previous, exprs) ==>
      EntryFrom(c, previous, exprs, k, CatalogOf(c, previous, exprs)[k])
  {
    CatalogFromEntries(c, previous, exprs, exprs, map[]);
  }

  /**
   * A valid bare identifier used as a file's expression gets no entry of its
   * own: it becomes a key only when some expression's parse lists it among
   * its identifiers.
   */
  lemma BareExprNotKey(c: Collaborators, previous: Catalog, exprs: seq<string>, e: string)
    requires c.Coherent() && !NeedsExprEntry(c.exprInfo(e)) && !IsConstituent(c, exprs, e)
    ensures e !in CatalogOf(c, previous, exprs)
  {
    CatalogEntries(c, previous, exprs);
  }

  /** Keys are never removed along the loop over the files. */
  lemma {:induction false} CatalogFromKeeps(c: Collaborators, previous: Catalog, rest: seq<string>, used: Catalog)
    requires c.Coherent()
    ensures forall k :: k in used ==> k in CatalogFrom(c, previous, rest, used)
    decreases |rest|
  {
    if rest != [] {
      CatalogStepSpec(c, previous, used, rest[0]);
      CatalogFromKeeps(c, previous, rest[1..], CatalogStep(c, previous, used, rest[0]));
    }
  }

  /** Every expression that needs its own entry has one. */
  lemma {:induction false} CatalogFromHasExprs(c: Collaborators, previous: Catalog, rest: seq<string>, used: Catalog)
    requires c.Coherent()
    ensures forall e :: e in rest && NeedsExprEntry(c.exprInfo(e)) ==> e in CatalogFrom(c, previous, rest, used)
    decreases |rest|
  {
    if rest != [] {
      var next := CatalogStep(c, previous, used, rest[0]);
      CatalogStepSpec(c, previous, used, rest[0]);
      CatalogFromHasExprs(c, previous, rest[1..], next);
      CatalogFromKeeps(c, previous, rest[1..], next);
      assert forall e :: e in rest ==> e == rest[0] || e in rest[1..];
    }
  }

  /**
   * An expression that needs an entry has one, and unless it is also used
   * as an identifier it is the expression's own `LicenseExpr`.
   */
  lemma ExprEntry(c: Collaborators, previous: Catalog, exprs: seq<string>, e: string)
    requires c.Coherent()
    requires e in exprs && NeedsExprEntry(c.exprInfo(e))
    ensures e in CatalogOf(c, previous, exprs)
    ensures !IsConstituent(c, exprs, e) ==> CatalogOf(c, previous, exprs)[e] == Expr(MakeExpr(c, e))
  {
    CatalogFromHasExprs(c, previous, exprs, map[]);
    CatalogEntries(c, previous, exprs);
  }

  /**
   * Expressions that are also used as identifiers list no identifier but
   * themselves. Without this, an expression first met as an identifier is
   * skipped as already catalogued, and its own identifiers may be missed.
   */
  ghost predicate SelfContained(c: Collaborators, exprs: seq<string>)
  {
    forall e, id :: e in exprs && IsConstituent(c, exprs, e) && id in c.exprInfo(e).licenses ==> id == e
  }

  /** Constituent coverage, carried along the loop over the files. */
  lemma {:induction false} CatalogFromHasIds(
    c: Collaborators, previous: Catalog, done: seq<string>, rest: seq<string>, used: Catalog)
    requires c.Coherent()
    requires SelfContained(c, done + rest)
    requires forall e, id :: e in done && id in c.exprInfo(e).licenses ==> id in used
    requires forall k :: k in used ==> k in done || IsConstituent(c, done, k)
    ensures forall e, id :: e in done + rest && id in c.exprInfo(e).licenses ==> id in CatalogFrom(c, previous, rest, used)
    decreases |rest|
  {
    if rest == [] {
      assert done + rest == done;
    } else {
      var e := rest[0];
      var next := CatalogStep(c, previous, used, e);
      CatalogStepSpec(c, previous, used, e);
      assert e in done + rest;
      if e in used {
        forall id | id in c.exprInfo(e).licenses ensures id in next {
          if e !in done {
            var d :| d in done && e in c.exprInfo(d).licenses;
            assert d in done + rest;
          }
        }
      }
      forall k | k in next ensures k in done + [e] || IsConstituent(c, done + [e], k) {
        if k in used {
          if k !in done {
            var d :| d in done && k in c.exprInfo(d).licenses;
            assert d in done + [e];
          }
        } else {
          assert EntryFrom(c, previous, [e], k, next[k]);
          assert e in done + [e];
        }
      }
      assert (done + [e]) + rest[1..] == done + rest;
      CatalogFromHasIds(c, previous, done + [e], rest[1..], next);
    }
  }

  /**
   * When expressions used as identifiers are self-contained, every
   * identifier of every expression gets an entry: the keys are then exactly
   * the expressions that need an entry and their identifiers.
   */
  lemma CatalogKeys(c: Collaborators, previous: Catalog, exprs: seq<string>)
    requires c.Coherent() && SelfContained(c, exprs)
    ensures forall k :: k in CatalogOf(c, previous, exprs) <==>
      (k in exprs && NeedsExprEntry(c.exprInfo(k))) || IsConstituent(c, exprs, k)
  {
    CatalogEntries(c, previous, exprs);
    CatalogFromHasExprs(c, previous, exprs, map[]);
    assert [] + exprs == exprs;
    CatalogFromHasIds(c, previous, [], exprs, map[]);
  }
}
