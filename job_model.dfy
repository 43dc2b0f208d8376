/** models/job.js: the second revision of the WHERE-clause builder
    (Job._filterQueryString), the bounds check findAll makes before building its
    query, and the parameters update passes with its SET list. The queries
    themselves, and the database that runs them, are not part of this model. */
module JobModel {
  import opened Wrappers
  import opened ExpressError
  import opened Decimal
  import opened JsObjects
  import opened Placeholders
  import opened FilterClauses
  import opened SqlHelpers

  /** _filterQueryString writes bare column names and inclusive bounds. */
  const JobDialect := Dialect(false, ">=", "<=")

  /** The result _filterQueryString returns for an object with properties es:
      `''` when no comparison was pushed, else `WHERE ` and the comparisons joined
      by ` AND `; the values are those of the object after the nameLike rewrite. */
  function JobFilterSql(es: seq<Entry>, jsToSql: map<string, string>): FilterSql {
    var parts := RenderAll(Conditions(JobDialect, jsToSql, Keys(es)));
    if |parts| == 0 then FilterSql("", Values(WrapNameLike(es)))
    else FilterSql(WhereText(parts), Values(WrapNameLike(es)))
  }

  /** The text the loop body of _filterQueryString pushes for key k at index i. */
  lemma JobFilterPush(jsToSql: map<string, string>, k: string, i: nat)
    ensures var col, n := ColumnText(jsToSql, k), NatToString(i + 1);
      RenderAll(Emit(JobDialect, jsToSql, k, i)) ==
        if k == "minEmployees" then [col + " >= $" + n]
        else if k == "maxEmployees" then [col + " <= $" + n]
        else if k == "nameLike" then [col + " ILIKE $" + n]
        else []
  {
    var col, n := ColumnText(jsToSql, k), NatToString(i + 1);
    if IsFilterKey(k) {
      var slot := Slot(Lead(JobDialect, jsToSql, k), i + 1);
      var op := Operator(JobDialect, k);
      assert Emit(JobDialect, jsToSql, k, i) == [slot];
      assert RenderAll([slot]) == [RenderSlot(slot)];
      assert RenderSlot(slot) == col + (" " + op + " $") + n;
      if k == "minEmployees" {
        assert " " + op + " $" == " >= $";
      } else if k == "maxEmployees" {
        assert " " + op + " $" == " <= $";
      } else {
        assert " " + op + " $" == " ILIKE $";
      }
    }
  }

  /** Job._filterQueryString(dataFilters, jsToSql): the same loop as sqlForFiltering
      with `<col> >= $<i+1>`, `<col> <= $<i+1>` and `<col> ILIKE $<i+1>`; it never
      throws, and an object with no filter key gives an empty clause. */
  method FilterQueryString(dataFilters: PlainObject, jsToSql: map<string, string>) returns (r: FilterSql)
    requires dataFilters.Valid()
    modifies dataFilters
    ensures dataFilters.Valid()
    ensures r == JobFilterSql(old(dataFilters.entries), jsToSql)
    ensures dataFilters.entries == WrapNameLike(old(dataFilters.entries))
  {
    var keys := Keys(dataFilters.entries);
    ghost var original := dataFilters.entries;
    WrapNameLikeEffect(original);
    var whereClauseComponents: seq<string> := [];
    for i := 0 to |keys|
      invariant dataFilters.Valid() && Keys(dataFilters.entries) == keys
      invariant whereClauseComponents == RenderAll(Conditions(JobDialect, jsToSql, keys[..i]))
      invariant dataFilters.entries == if "nameLike" in keys[..i] then WrapNameLike(original) else original
    {
      ConditionsStep(JobDialect, jsToSql, keys, i);
      RewriteStep(original, i);
      JobFilterPush(jsToSql, keys[i], i);
      var n := NatToString(i + 1);
      var col := ColumnText(jsToSql, keys[i]);
      if keys[i] == "minEmployees" {
        whereClauseComponents := whereClauseComponents + [col + " >= $" + n];
      }
      if keys[i] == "maxEmployees" {
        whereClauseComponents := whereClauseComponents + [col + " <= $" + n];
      }
      if keys[i] == "nameLike" {
        whereClauseComponents := whereClauseComponents + [col + " ILIKE $" + n];
        var pattern := Str("%" + TemplateString(dataFilters.Property("nameLike")) + "%");
        dataFilters.SetProperty("nameLike", pattern);
      }
    }
    assert keys[..|keys|] == keys;
    if |whereClauseComponents| == 0 {
      return FilterSql("", Values(dataFilters.entries));
    }
    r := FilterSql("WHERE " + Join(whereClauseComponents, " AND "), Values(dataFilters.entries));
  }

  /** With no filter key (an empty object included) the clause is '' and the values
      are the object's own, nothing rewritten. */
  lemma JobFilterNoneRecognised(es: seq<Entry>, jsToSql: map<string, string>)
    requires forall p :: 0 <= p < |es| ==> !IsFilterKey(es[p].0)
    ensures JobFilterSql(es, jsToSql) == FilterSql("", Values(es))
  {
    ConditionsEmpty(JobDialect, jsToSql, Keys(es));
    assert "nameLike" !in Keys(es) by {
      forall p | 0 <= p < |es| ensures Keys(es)[p] != "nameLike" { }
    }
    assert RenderAll([]) == [];
  }

  /** With some filter key the clause is `WHERE ` followed by text that reads back
      as exactly the pushed comparisons. */
  lemma JobFilterDecodes(es: seq<Entry>, jsToSql: map<string, string>)
    requires DollarFree(JobDialect, jsToSql)
    requires exists p :: 0 <= p < |es| && IsFilterKey(es[p].0)
    ensures var text := JobFilterSql(es, jsToSql).filterCols;
      && "WHERE " <= text
      && ParseSlots(text[6..], " AND ") == Some(Conditions(JobDialect, jsToSql, Keys(es)))
  {
    var keys := Keys(es);
    var p :| 0 <= p < |es| && IsFilterKey(es[p].0);
    ConditionsComplete(JobDialect, jsToSql, keys);
    assert keys[p] == es[p].0;
    assert HasPlaceholder(Conditions(JobDialect, jsToSql, keys), p + 1);
    WhereTextDecodes(JobDialect, jsToSql, keys);
  }

  /** The comparisons that clause decodes to: `<column> >= `, `<column> <= ` or
      `<column> ILIKE ` (the column unquoted) for a minEmployees, maxEmployees or
      nameLike key, with placeholder $i+1 where i is the key's position among ALL
      keys. */
  lemma JobFilterComparisons(es: seq<Entry>, jsToSql: map<string, string>)
    ensures var c := Conditions(JobDialect, jsToSql, Keys(es));
      forall j :: 0 <= j < |c| ==>
        && 1 <= c[j].index <= |es|
        && var k := es[c[j].index - 1].0;
        && IsFilterKey(k)
        && c[j].lead == ColumnText(jsToSql, k) + " "
             + (if k == "minEmployees" then ">=" else if k == "maxEmployees" then "<=" else "ILIKE")
             + " "
  {
    ConditionsSound(JobDialect, jsToSql, Keys(es));
  }

  /** Placeholder $n of every comparison stands for values[n - 1], the value of the
      key that pushed the comparison after the nameLike rewrite. */
  lemma JobFilterBindsValues(es: seq<Entry>, jsToSql: map<string, string>)
    requires DistinctKeys(es)
    ensures var r := JobFilterSql(es, jsToSql);
      var c := Conditions(JobDialect, jsToSql, Keys(es));
      && |r.values| == |es|
      && forall j :: 0 <= j < |c| ==>
           && 1 <= c[j].index <= |r.values|
           && var e := es[c[j].index - 1];
              r.values[c[j].index - 1] == if e.0 == "nameLike" then Wildcard(e.1) else e.1
    ensures var r := JobFilterSql(es, jsToSql);
      forall j :: 0 <= j < |es| ==>
        r.values[j] == if es[j].0 == "nameLike" then Wildcard(es[j].1) else es[j].1
  {
    ConditionsSound(JobDialect, jsToSql, Keys(es));
    WrapNameLikeEffect(es);
  }

  /** When every key is a filter key the comparisons use exactly $1..$n in key
      order, one per value. */
  lemma JobFilterAllRecognised(es: seq<Entry>, jsToSql: map<string, string>)
    requires forall p :: 0 <= p < |es| ==> IsFilterKey(es[p].0)
    ensures var c := Conditions(JobDialect, jsToSql, Keys(es));
      && |c| == |JobFilterSql(es, jsToSql).values| == |es|
      && Contiguous(Indices(c))
  {
    ConditionsContiguous(JobDialect, jsToSql, Keys(es));
  }

  /** The comparison `{maxEmployees: 32}` pushes in _filterQueryString. */
  lemma JobExampleComparison()
    ensures RenderAll(Conditions(JobDialect, map["maxEmployees" := "num_employees"], ["maxEmployees"]))
         == ["num_employees <= $1"]
  {
    var m := map["maxEmployees" := "num_employees"];
    var keys := ["maxEmployees"];
    var slot := Slot("num_employees <= ", 1);
    assert Conditions(JobDialect, m, keys) == [slot] by {
      assert keys[..0] == [];
      assert ColumnText(m, "maxEmployees") == "num_employees";
      assert Lead(JobDialect, m, "maxEmployees") == "num_employees" + " " + "<=" + " ";
      assert "num_employees" + " " + "<=" + " " == "num_employees <= ";
      assert Emit(JobDialect, m, "maxEmployees", 0) == [slot];
    }
    assert RenderSlot(slot) == "num_employees <= $1" by {
      assert NatToString(1) == "1";
    }
  }

  /** The code, not the doc comment above it, decides the text: `{maxEmployees: 32}`
      gives `WHERE num_employees <= $1`, unquoted and inclusive. */
  lemma JobFilterExample()
    ensures JobFilterSql([("maxEmployees", Num(32))], map["maxEmployees" := "num_employees"])
         == FilterSql("WHERE num_employees <= $1", [Num(32)])
  {
    JobExampleUnfold();
    JobExampleComparison();
    JobExampleWhere();
  }

  /** _filterQueryString on `{maxEmployees: 32}`, its keys read off and nothing
      rewritten. */
  lemma JobExampleUnfold()
    ensures JobFilterSql([("maxEmployees", Num(32))], map["maxEmployees" := "num_employees"])
         == var parts := RenderAll(Conditions(JobDialect, map["maxEmployees" := "num_employees"], ["maxEmployees"]));
            FilterSql(if |parts| == 0 then "" else WhereText(parts), [Num(32)])
  {
    var es := [("maxEmployees", Num(32))];
    assert Keys(es) == ["maxEmployees"];
    assert WrapNameLike(es) == es by {
      assert "nameLike" !in Keys(es);
    }
    assert Values(es) == [Num(32)];
  }

  /** The clause that example's comparison makes. */
  lemma JobExampleWhere()
    ensures WhereText(["num_employees <= $1"]) == "WHERE num_employees <= $1"
  {
  }

  /** The integer value of property k, when the object has one. */
  function NumberProperty(es: seq<Entry>, k: string): Option<int> {
    if k in Keys(es) && Lookup(es, k).Num? then Some(Lookup(es, k).n) else None
  }

  /** findAll's check `data.minEmployees > data.maxEmployees`, made before any
      query is built: the error it throws, if any. */
  function FindAllGuard(data: seq<Entry>): Option<BadRequestError> {
    match (NumberProperty(data, "minEmployees"), NumberProperty(data, "maxEmployees"))
    case (Some(lo), Some(hi)) =>
      if lo > hi then Some(BadRequestError("minEmployees cannot be greater than maxEmployees")) else None
    case _ => None
  }

  /** A count n meets both inclusive bounds. */
  predicate WithinBounds(n: int, lo: int, hi: int) {
    lo <= n && n <= hi
  }

  /** findAll rejects a filter exactly when both bounds are given and no employee
      count could meet them both under the inclusive comparisons _filterQueryString
      writes; a filter with a missing bound always passes. */
  lemma FindAllGuardRejectsEmptyRange(data: seq<Entry>)
    ensures FindAllGuard(data).Some? ==>
      FindAllGuard(data).value == BadRequestError("minEmployees cannot be greater than maxEmployees")
    ensures FindAllGuard(data).Some? <==>
      && NumberProperty(data, "minEmployees").Some?
      && NumberProperty(data, "maxEmployees").Some?
      && !exists n :: WithinBounds(n, NumberProperty(data, "minEmployees").value,
                                      NumberProperty(data, "maxEmployees").value)
  {
    var lo, hi := NumberProperty(data, "minEmployees"), NumberProperty(data, "maxEmployees");
    if lo.Some? && hi.Some? && lo.value <= hi.value {
      assert WithinBounds(lo.value, lo.value, hi.value);
    }
  }

  /** The field map findAll passes to the filter builder. */
  const CompanyFilterMap := map["nameLike" := "name", "minEmployees" := "num_employees",
                                "maxEmployees" := "num_employees"]

  /** findAll(data) up to its query: the bounds check, then the filter builder with
      findAll's field map (the source calls it through the Company class). A
      rejected filter is left as it was. */
  method FindAllFilter(data: PlainObject) returns (r: Result<FilterSql, BadRequestError>)
    requires data.Valid()
    modifies data
    ensures data.Valid()
    ensures FindAllGuard(old(data.entries)).Some? ==>
      r == Err(FindAllGuard(old(data.entries)).value) && data.entries == old(data.entries)
    ensures FindAllGuard(old(data.entries)).None? ==>
      && r == Ok(JobFilterSql(old(data.entries), CompanyFilterMap))
      && data.entries == WrapNameLike(old(data.entries))
  {
    var rejected := FindAllGuard(data.entries);
    if rejected.Some? {
      return Err(rejected.value);
    }
    var sql := FilterQueryString(data, CompanyFilterMap);
    r := Ok(sql);
  }

  /** The field map update passes to sqlForPartialUpdate. */
  const UpdateFieldMap := map["numEmployees" := "num_employees", "logoUrl" := "logo_url"]

  /** What update sends with its query: the SET list, the placeholder for the
      handle in its WHERE clause, and the parameter list. */
  datatype UpdateParts = UpdateParts(setCols: string, handleVarIdx: string, params: seq<Value>)

  /** update(handle, data) up to its query: the SET list from sqlForPartialUpdate
      (whose BadRequestError for empty data propagates), handleVarIdx =
      "$" + (values.length + 1), and the parameters [...values, handle]. */
  function UpdateQuery(handle: string, data: seq<Entry>): (r: Result<UpdateParts, BadRequestError>)
    ensures r.Err? <==> data == []
    ensures r.Err? ==> r.error == BadRequestError("No data")
  {
    match SqlForPartialUpdate(data, UpdateFieldMap)
    case Err(e) => Err(e)
    case Ok(u) => Ok(UpdateParts(u.setCols, "$" + NatToString(|u.values| + 1), u.values + [Str(handle)]))
  }

  /** The handle's placeholder is one past the last SET placeholder: the SET list
      uses $1..$n for the n values in order, handleVarIdx reads back as $n+1, and
      the parameter list holds the n values followed by the handle, so every
      placeholder $k stands for params[k - 1]. */
  lemma UpdateHandleFollowsSet(handle: string, data: seq<Entry>)
    requires data != [] && DollarFreeColumns(data, UpdateFieldMap)
    ensures UpdateQuery(handle, data).Ok?
    ensures var q := UpdateQuery(handle, data).value;
      var s := SetSlots(data, UpdateFieldMap);
      && ParseSlots(q.setCols, ", ") == Some(s)
      && |s| == |data|
      && Contiguous(Indices(s))
      && ParseSlots(q.handleVarIdx, ", ") == Some([Slot("", |s| + 1)])
      && |q.params| == |s| + 1
      && q.params[|s|] == Str(handle)
      && forall j :: 0 <= j < |s| ==> q.params[s[j].index - 1] == data[j].1
  {
    var q := UpdateQuery(handle, data).value;
    PartialUpdateDecodes(data, UpdateFieldMap);
    assert q.params == Values(data) + [Str(handle)];
    UpdateParams(handle, data);
    UpdateHandleSlot(|data|);
  }

  /** [...values, handle]: the SET placeholder $k stands for the value of key k-1,
      and the one after the last stands for the handle. */
  lemma UpdateParams(handle: string, data: seq<Entry>)
    ensures var s, params := SetSlots(data, UpdateFieldMap), Values(data) + [Str(handle)];
      && |s| == |data|
      && Contiguous(Indices(s))
      && |params| == |s| + 1
      && params[|s|] == Str(handle)
      && forall j :: 0 <= j < |s| ==> params[s[j].index - 1] == data[j].1
  {
    PartialUpdateFragments(data, UpdateFieldMap);
  }

  /** handleVarIdx for n values reads back as the single placeholder $n+1. */
  lemma UpdateHandleSlot(n: nat)
    ensures ParseSlots("$" + NatToString(n + 1), ", ") == Some([Slot("", n + 1)])
  {
    ParseRendered([Slot("", n + 1)], ", ");
    assert RenderAll([Slot("", n + 1)]) == ["" + "$" + NatToString(n + 1)];
    assert Join(["" + "$" + NatToString(n + 1)], ", ") == "$" + NatToString(n + 1);
  }
}
