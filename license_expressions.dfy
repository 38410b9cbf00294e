/**
 * The second pass of `pre_process`: each file's list of raw license tokens
 * becomes one SPDX expression, its `license_expr`.
 */
module LicenseExpressions {
  import opened Text
  import opened Sorting
  import opened SbomData

  /** The list the token loop runs over: `['']` in place of an empty list. */
  function RawTokens(licenses: seq<string>): seq<string>
  {
    if |licenses| > 0 then licenses else [""]
  }

  /** A token that must stay a term of its own: unparsable, or it holds an OR. */
  predicate IsOrItem(info: ExprInfo)
  {
    !info.valid || info.orPresent
  }

  /** A token whose identifiers must not also appear as bare terms. */
  predicate IsCompound(info: ExprInfo)
  {
    info.valid && !info.isIdOnly && |info.licenses| > 1
  }

  /** The identifiers a token adds to `repeated_expr_items`. */
  function RepeatedBy(info: ExprInfo): set<string>
  {
    if IsCompound(info) then set id | id in info.licenses else {}
  }

  /** The three sets the token loop accumulates. */
  datatype Classified = Classified(simple: set<string>, ors: set<string>, repeated: set<string>)

  /** The state before the first token. */
  const NoItems := Classified({}, {}, {})

  /** One iteration of the token loop. */
  function Classify(c: Collaborators, acc: Classified, license: string): Classified
  {
    var t := Upper(license);
    var info := c.exprInfo(t);
    Classified(
      if IsOrItem(info) then acc.simple else acc.simple + {t},
      if IsOrItem(info) then acc.ors + {t} else acc.ors,
      acc.repeated + RepeatedBy(info))
  }

  /** `{ f'({x})' for x in items }`. */
  function Parenthesised(items: set<string>): set<string>
  {
    set x | x in items :: "(" + x + ")"
  }

  /** Whether the or-items get parentheses: more than one of them, or some simple item left. */
  predicate NeedsParentheses(ors: set<string>, simple: set<string>)
  {
    |ors| > 1 || |simple| > 0
  }

  /** What follows the token loop: drop the repeated identifiers, parenthesise, sort and join. */
  function Render(acc: Classified): string
  {
    var simple := acc.simple - acc.repeated;
    var ors := if NeedsParentheses(acc.ors, simple) then Parenthesised(acc.ors) else acc.ors;
    Join(SortSetBy(simple + ors, Self), " AND ")
  }

  /** The state the token loop reaches from `acc` after the tokens `toks`. */
  function ClassifyFrom(c: Collaborators, toks: seq<string>, acc: Classified): Classified
    decreases |toks|
  {
    if toks == [] then acc else ClassifyFrom(c, toks[1..], Classify(c, acc, toks[0]))
  }

  /** The token loop run over `toks` from the state `acc`, then rendered. */
  function ExprFrom(c: Collaborators, toks: seq<string>, acc: Classified): string
    decreases |toks|
  {
    if toks == [] then Render(acc) else ExprFrom(c, toks[1..], Classify(c, acc, toks[0]))
  }

  /** The `license_expr` that `pre_process` computes for a file with this license list. */
  function LicenseExprOf(c: Collaborators, licenses: seq<string>): string
  {
    ExprFrom(c, RawTokens(licenses), NoItems)
  }

  /** Rendering happens once, after the whole loop. */
  lemma {:induction false} ExprFromClassify(c: Collaborators, toks: seq<string>, acc: Classified)
    ensures ExprFrom(c, toks, acc) == Render(ClassifyFrom(c, toks, acc))
    decreases |toks|
  {
    if toks != [] {
      ExprFromClassify(c, toks[1..], Classify(c, acc, toks[0]));
    }
  }

  /**
   * The per-file part of the pass: classify every token, drop the repeated
   * identifiers from the simple items, parenthesise the or-items when needed
   * and join the sorted terms.
   */
  method FileLicenseExpr(c: Collaborators, licenses: seq<string>) returns (expr: string)
    ensures expr == LicenseExprOf(c, licenses)
  {
    var raw := if |licenses| > 0 then licenses else [""];
    var simple: set<string>, ors: set<string>, repeated: set<string> := {}, {}, {};
    for i := 0 to |raw|
      invariant ClassifyFrom(c, raw[i..], Classified(simple, ors, repeated)) == ClassifyFrom(c, raw, NoItems)
    {
      var license := Upper(raw[i]);
      var info := c.exprInfo(license);
      ghost var acc := Classified(simple, ors, repeated);
      assert raw[i..][1..] == raw[i + 1..];
      assert ClassifyFrom(c, raw[i..], acc) == ClassifyFrom(c, raw[i + 1..], Classify(c, acc, raw[i]));
      if info.valid && !info.isIdOnly && |info.licenses| > 1 {
        repeated := repeated + set id | id in info.licenses;
      }
      if !info.valid || info.orPresent {
        ors := ors + {license};
      } else {
        simple := simple + {license};
      }
      assert Classified(simple, ors, repeated) == Classify(c, acc, raw[i]);
    }
    assert raw[|raw|..] == [];
    ExprFromClassify(c, raw, NoItems);
    expr := RenderItems(simple, ors, repeated);
  }

  /**
   * What follows the token loop: drop the repeated identifiers from the
   * simple items, parenthesise the or-items when needed, sort and join.
   */
  method RenderItems(simple: set<string>, ors: set<string>, repeated: set<string>) returns (expr: string)
    ensures expr == Render(Classified(simple, ors, repeated))
    ensures var terms := (simple - repeated) +
        (if NeedsParentheses(ors, simple - repeated) then Parenthesised(ors) else ors);
      exists r: seq<string> ::
        && expr == Join(r, " AND ")
        && StrictlySortedBy(r, Self)
        && (forall x :: x in r <==> x in terms)
  {
    var terms := simple - repeated;
    var wrapped := ors;
    if |ors| > 1 || |terms| > 0 {
      wrapped := set x | x in ors :: "(" + x + ")";
    }
    assert wrapped == if NeedsParentheses(ors, terms) then Parenthesised(ors) else ors;
    var sorted := SortSetBy(terms + wrapped, Self);
    SortSetBySpec(terms + wrapped, Self);
    expr := Join(sorted, " AND ");
    assert expr == Join(sorted, " AND ") && StrictlySortedBy(sorted, Self);
  }

  /** Every file's `license_expr` is set from its own license list. */
  method BuildLicenseExprs(data: Data, c: Collaborators)
    modifies data.files`licenseExpr
    ensures forall i :: 0 <= i < |data.files| ==>
      data.files[i].licenseExpr == LicenseExprOf(c, data.files[i].licenses)
  {
    for i := 0 to |data.files|
      invariant forall k :: 0 <= k < i ==>
        data.files[k].licenseExpr == LicenseExprOf(c, data.files[k].licenses)
    {
      var file := data.files[i];
      var expr := FileLicenseExpr(c, file.licenses);
      ghost var want := LicenseExprOf(c, file.licenses);
      label before:
      file.licenseExpr := expr;
      forall k | 0 <= k < i + 1
        ensures data.files[k].licenseExpr == LicenseExprOf(c, data.files[k].licenses)
      {
        if data.files[k] != file {
          assert data.files[k].licenseExpr == old@before(data.files[k].licenseExpr);
        } else {
          assert data.files[k].licenseExpr == want;
        }
      }
    }
  }

  // The properties of the pass, stated against a set-builder description
  // of the terms instead of the loop.

  /** The upper-cased tokens that are or-items. */
  ghost function OrTokens(c: Collaborators, raw: seq<string>): set<string>
  {
    set l | l in raw && IsOrItem(c.exprInfo(Upper(l))) :: Upper(l)
  }

  /** The upper-cased tokens that are not or-items. */
  ghost function SimpleTokens(c: Collaborators, raw: seq<string>): set<string>
  {
    set l | l in raw && !IsOrItem(c.exprInfo(Upper(l))) :: Upper(l)
  }

  /** Every identifier of every compound token. */
  ghost function RepeatedIds(c: Collaborators, raw: seq<string>): set<string>
  {
    set l, id | l in raw && IsCompound(c.exprInfo(Upper(l))) && id in c.exprInfo(Upper(l)).licenses :: id
  }

  /** The terms of a file's expression, described without the loop. */
  ghost function ExprTerms(c: Collaborators, licenses: seq<string>): set<string>
  {
    var raw := RawTokens(licenses);
    var simple := SimpleTokens(c, raw) - RepeatedIds(c, raw);
    var ors := OrTokens(c, raw);
    simple + (if NeedsParentheses(ors, simple) then Parenthesised(ors) else ors)
  }

  /** The described sets of a list with a first token. */
  lemma TokenSetsCons(c: Collaborators, l: string, rest: seq<string>)
    ensures var info := c.exprInfo(Upper(l));
      && SimpleTokens(c, [l] + rest) == (if IsOrItem(info) then {} else {Upper(l)}) + SimpleTokens(c, rest)
      && OrTokens(c, [l] + rest) == (if IsOrItem(info) then {Upper(l)} else {}) + OrTokens(c, rest)
  {
    var raw := [l] + rest;
    assert forall x :: x in raw <==> x == l || x in rest;
  }

  /** The repeated identifiers of a list with a first token. */
  lemma RepeatedIdsCons(c: Collaborators, l: string, rest: seq<string>)
    ensures RepeatedIds(c, [l] + rest) == RepeatedBy(c.exprInfo(Upper(l))) + RepeatedIds(c, rest)
  {
    var raw := [l] + rest;
    assert forall x :: x in raw <==> x == l || x in rest;
  }

  /** What the token loop accumulates is the three sets described above. */
  lemma {:induction false} ClassifyFromSets(c: Collaborators, raw: seq<string>, acc: Classified)
    ensures ClassifyFrom(c, raw, acc) == Classified(
      acc.simple + SimpleTokens(c, raw),
      acc.ors + OrTokens(c, raw),
      acc.repeated + RepeatedIds(c, raw))
    decreases |raw|
  {
    if raw == [] {
      assert SimpleTokens(c, raw) == {} && OrTokens(c, raw) == {} && RepeatedIds(c, raw) == {};
    } else {
      var next := Classify(c, acc, raw[0]);
      ClassifyFromSets(c, raw[1..], next);
      assert raw == [raw[0]] + raw[1..];
      TokenSetsCons(c, raw[0], raw[1..]);
      RepeatedIdsCons(c, raw[0], raw[1..]);
      assert next.simple + SimpleTokens(c, raw[1..]) == acc.simple + SimpleTokens(c, raw);
      assert next.ors + OrTokens(c, raw[1..]) == acc.ors + OrTokens(c, raw);
      assert next.repeated + RepeatedIds(c, raw[1..]) == acc.repeated + RepeatedIds(c, raw);
    }
  }

  /** Rendering the described sets gives the described terms. */
  lemma RenderTerms(c: Collaborators, licenses: seq<string>)
    ensures var raw := RawTokens(licenses);
      Render(Classified(SimpleTokens(c, raw), OrTokens(c, raw), RepeatedIds(c, raw)))
        == Join(SortSetBy(ExprTerms(c, licenses), Self), " AND ")
  {
  }

  /** The expression joins, in sorted order, exactly the terms described by `ExprTerms`. */
  lemma LicenseExprOfTerms(c: Collaborators, licenses: seq<string>)
    ensures LicenseExprOf(c, licenses) == Join(SortSetBy(ExprTerms(c, licenses), Self), " AND ")
    ensures var sorted := SortSetBy(ExprTerms(c, licenses), Self);
      && StrictlySortedBy(sorted, Self)
      && (forall x :: x in sorted <==> x in ExprTerms(c, licenses))
  {
    SortSetBySpec(ExprTerms(c, licenses), Self);
    var raw := RawTokens(licenses);
    ExprFromClassify(c, raw, NoItems);
    ClassifyFromSets(c, raw, NoItems);
    var simple, ors, repeated := SimpleTokens(c, raw), OrTokens(c, raw), RepeatedIds(c, raw);
    assert {} + simple == simple && {} + ors == ors && {} + repeated == repeated;
    assert ClassifyFrom(c, raw, NoItems) == Classified(simple, ors, repeated);
    RenderTerms(c, licenses);
  }

  /** The expression depends only on which strings the list holds: not on their order or repetition. */
  lemma LicenseExprOfSameMembers(c: Collaborators, l1: seq<string>, l2: seq<string>)
    requires forall x :: x in l1 <==> x in l2
    ensures LicenseExprOf(c, l1) == LicenseExprOf(c, l2)
  {
    var r1, r2 := RawTokens(l1), RawTokens(l2);
    if |l1| > 0 {
      assert l1[0] in l2;
    }
    if |l2| > 0 {
      assert l2[0] in l1;
    }
    assert forall x :: x in r1 <==> x in r2;
    assert SimpleTokens(c, r1) == SimpleTokens(c, r2);
    assert OrTokens(c, r1) == OrTokens(c, r2);
    assert RepeatedIds(c, r1) == RepeatedIds(c, r2);
    assert ExprTerms(c, l1) == ExprTerms(c, l2);
    LicenseExprOfTerms(c, l1);
    LicenseExprOfTerms(c, l2);
  }

  /** The sorted form of a one-element set. */
  lemma SortSingleton(t: string)
    ensures SortSetBy({t}, Self) == [t]
  {
    SortSetBySpec({t}, Self);
    var r := SortSetBy({t}, Self);
    assert r[0] in {t};
  }

  /** The described sets of the empty list. */
  lemma TokenSetsEmpty(c: Collaborators)
    ensures SimpleTokens(c, []) == {} && OrTokens(c, []) == {} && RepeatedIds(c, []) == {}
  {
  }

  /** The terms of a one-token list. */
  lemma SingleTokenTerms(c: Collaborators, l: string)
    ensures var t := Upper(l); var info := c.exprInfo(t);
      ExprTerms(c, [l]) == if !IsOrItem(info) && IsCompound(info) && t in info.licenses then {} else {t}
  {
    var t := Upper(l);
    var info := c.exprInfo(t);
    var raw := RawTokens([l]);
    assert raw == [l] + [];
    TokenSetsEmpty(c);
    TokenSetsCons(c, l, []);
    RepeatedIdsCons(c, l, []);
    var simple := SimpleTokens(c, raw) - RepeatedIds(c, raw);
    var ors := OrTokens(c, raw);
    assert RepeatedIds(c, raw) == RepeatedBy(info);
    if IsOrItem(info) {
      assert simple == {} && ors == {t};
      assert !NeedsParentheses(ors, simple);
    } else {
      assert ors == {};
      assert Parenthesised(ors) == {};
      assert simple == if !IsOrItem(info) && IsCompound(info) && t in info.licenses then {} else {t};
    }
  }

  /**
   * A single token is its own expression, upper-cased, except for a compound
   * token without an OR that lists itself among its identifiers: it is
   * dropped as repeated.
   */
  lemma SingleToken(c: Collaborators, l: string)
    ensures var t := Upper(l); var info := c.exprInfo(t);
      LicenseExprOf(c, [l]) == if !IsOrItem(info) && IsCompound(info) && t in info.licenses then "" else t
  {
    var t := Upper(l);
    SingleTokenTerms(c, l);
    LicenseExprOfTerms(c, [l]);
    if ExprTerms(c, [l]) == {} {
      SortSetBySpec({}, Self);
    } else {
      SortSingleton(t);
    }
  }

  /**
   * A file without licenses gets the empty expression, whatever the parser
   * says: the loop runs over `['']` and every outcome renders as `''`.
   */
  lemma NoLicensesEmptyExpr(c: Collaborators)
    ensures LicenseExprOf(c, []) == ""
  {
    assert RawTokens([]) == RawTokens([""]);
    SingleToken(c, "");
    assert Upper("") == "";
  }
}
