/** helpers/sql.js: the SET-list builder for partial updates (sqlForPartialUpdate)
    and the first revision of the WHERE-clause builder (sqlForFiltering). */
module SqlHelpers {
  import opened Wrappers
  import opened ExpressError
  import opened Decimal
  import opened JsObjects
  import opened Placeholders
  import opened FilterClauses

  /** What sqlForPartialUpdate returns: `{ setCols, values }`. */
  datatype UpdateSql = UpdateSql(setCols: string, values: seq<Value>)

  /** `jsToSql[colName] || colName`: the mapped column, unless there is none or it
      is the empty string (falsy), in which case the key itself. */
  function ColumnFor(jsToSql: map<string, string>, k: string): string {
    if k in jsToSql && jsToSql[k] != "" then jsToSql[k] else k
  }

  /** The fragment `"<column>"=$<idx+1>` that `keys.map` makes for each key. */
  function SetSlots(data: seq<Entry>, jsToSql: map<string, string>): (slots: seq<Slot>)
    ensures |slots| == |data|
    ensures forall i :: 0 <= i < |data| ==>
      slots[i] == Slot("\"" + ColumnFor(jsToSql, data[i].0) + "\"=", i + 1)
  {
    seq(|data|, i requires 0 <= i < |data| => Slot("\"" + ColumnFor(jsToSql, data[i].0) + "\"=", i + 1))
  }

  /** No column a payload's keys are written as contains the placeholder sign '$'. */
  predicate DollarFreeColumns(data: seq<Entry>, jsToSql: map<string, string>) {
    forall i :: 0 <= i < |data| ==> '$' !in ColumnFor(jsToSql, data[i].0)
  }

  /** sqlForPartialUpdate(dataToUpdate, jsToSql). An empty payload throws
      BadRequestError("No data"); otherwise setCols is one `"<column>"=$<i+1>`
      fragment per key, joined by ", ", and values are the payload's values in
      key order. */
  function SqlForPartialUpdate(dataToUpdate: seq<Entry>, jsToSql: map<string, string>)
    : (r: Result<UpdateSql, BadRequestError>)
    ensures r.Err? <==> dataToUpdate == []
    ensures r.Err? ==> r.error == BadRequestError("No data")
    ensures r.Ok? ==> r.value.values == Values(dataToUpdate)
  {
    var keys := Keys(dataToUpdate);
    if |keys| == 0 then Err(BadRequestError("No data"))
    else Ok(UpdateSql(Join(RenderAll(SetSlots(dataToUpdate, jsToSql)), ", "), Values(dataToUpdate)))
  }

  /** For n keys, the fragments setCols decodes to (PartialUpdateDecodes) number
      their placeholders exactly $1..$n in order; fragment i names the column of
      key i (the mapped name when it is a non-empty string, the key itself
      otherwise), and $i+1 stands for the i-th of the values sqlForPartialUpdate
      returns, Object.values(dataToUpdate), which is the value of key i. */
  lemma PartialUpdateFragments(dataToUpdate: seq<Entry>, jsToSql: map<string, string>)
    ensures var slots, values := SetSlots(dataToUpdate, jsToSql), Values(dataToUpdate);
      && |slots| == |values| == |dataToUpdate|
      && Contiguous(Indices(slots))
      && forall i :: 0 <= i < |slots| ==>
           && values[slots[i].index - 1] == dataToUpdate[i].1
           && var k := dataToUpdate[i].0;
              slots[i].lead == "\"" + (if k in jsToSql && jsToSql[k] != "" then jsToSql[k] else k) + "\"="
  {
    var slots, values := SetSlots(dataToUpdate, jsToSql), Values(dataToUpdate);
    assert Contiguous(Indices(slots));
    forall i | 0 <= i < |slots|
      ensures values[slots[i].index - 1] == dataToUpdate[i].1
    {
      assert slots[i].index - 1 == i;
    }
  }

  /** setCols reads back as exactly the fragments `keys.map` made. */
  lemma PartialUpdateDecodes(dataToUpdate: seq<Entry>, jsToSql: map<string, string>)
    requires dataToUpdate != [] && DollarFreeColumns(dataToUpdate, jsToSql)
    ensures SqlForPartialUpdate(dataToUpdate, jsToSql).Ok?
    ensures ParseSlots(SqlForPartialUpdate(dataToUpdate, jsToSql).value.setCols, ", ")
         == Some(SetSlots(dataToUpdate, jsToSql))
  {
    var slots := SetSlots(dataToUpdate, jsToSql);
    forall j | 0 <= j < |slots| ensures '$' !in slots[j].lead {
      assert '$' !in ColumnFor(jsToSql, dataToUpdate[j].0);
    }
    ParseRendered(slots, ", ");
  }

  /** The fragments of the helpers/sql.test.js example. */
  lemma ExampleSetSlots()
    ensures SetSlots([("firstName", Str("Aliya")), ("age", Num(32))],
                     map["firstName" := "first_name", "lastName" := "last_name", "isAdmin" := "is_admin"])
         == [Slot("\"first_name\"=", 1), Slot("\"age\"=", 2)]
  {
    var m := map["firstName" := "first_name", "lastName" := "last_name", "isAdmin" := "is_admin"];
    var ss := SetSlots([("firstName", Str("Aliya")), ("age", Num(32))], m);
    assert "age" !in m && m["firstName"] == "first_name";
    assert ColumnFor(m, "firstName") == "first_name" && ColumnFor(m, "age") == "age";
    assert ss[0] == Slot("\"first_name\"=", 1) && ss[1] == Slot("\"age\"=", 2);
  }

  /** The fragments of that example, rendered and joined. */
  lemma ExampleSetCols()
    ensures Join(RenderAll([Slot("\"first_name\"=", 1), Slot("\"age\"=", 2)]), ", ")
         == "\"first_name\"=$1, \"age\"=$2"
  {
    var slots := [Slot("\"first_name\"=", 1), Slot("\"age\"=", 2)];
    var p0, p1 := "\"first_name\"=$1", "\"age\"=$2";
    assert RenderSlot(slots[0]) == p0 by {
      assert NatToString(1) == "1";
    }
    assert RenderSlot(slots[1]) == p1 by {
      assert NatToString(2) == "2";
    }
    assert RenderAll(slots) == [p0, p1];
    assert [p0, p1][1..] == [p1];
    assert Join([p0, p1], ", ") == p0 + ", " + p1;
  }

  /** helpers/sql.test.js, "working": `{firstName: 'Aliya', age: 32}` with a map
      that knows firstName gives `"first_name"=$1, "age"=$2` and ["Aliya", 32]. */
  lemma PartialUpdateExample()
    ensures SqlForPartialUpdate([("firstName", Str("Aliya")), ("age", Num(32))],
                                map["firstName" := "first_name", "lastName" := "last_name",
                                    "isAdmin" := "is_admin"])
         == Ok(UpdateSql("\"first_name\"=$1, \"age\"=$2", [Str("Aliya"), Num(32)]))
  {
    ExampleSetSlots();
    ExampleSetCols();
    assert Values([("firstName", Str("Aliya")), ("age", Num(32))]) == [Str("Aliya"), Num(32)];
  }

  /** sqlForFiltering writes quoted columns and exclusive bounds. */
  const FilteringDialect := Dialect(true, ">", "<")

  /** The result sqlForFiltering returns for an object with properties es: a throw
      of BadRequestError("No Filters") for an empty object, else `WHERE ` and the
      comparisons joined by ` AND `, with the values of the rewritten object. */
  function FilteringSql(es: seq<Entry>, jsToSql: map<string, string>): (r: Result<FilterSql, BadRequestError>)
    ensures r.Err? <==> es == []
    ensures r.Err? ==> r.error == BadRequestError("No Filters")
  {
    if |Keys(es)| == 0 then Err(BadRequestError("No Filters"))
    else Ok(FilterSql(WhereText(RenderAll(Conditions(FilteringDialect, jsToSql, Keys(es)))),
                      Values(WrapNameLike(es))))
  }

  /** The text the loop body of sqlForFiltering pushes for key k at index i. */
  lemma FilteringPush(jsToSql: map<string, string>, k: string, i: nat)
    ensures var col, n := ColumnText(jsToSql, k), NatToString(i + 1);
      RenderAll(Emit(FilteringDialect, jsToSql, k, i)) ==
        if k == "minEmployees" then ["\"" + col + "\" > $" + n]
        else if k == "maxEmployees" then ["\"" + col + "\" < $" + n]
        else if k == "nameLike" then ["\"" + col + "\" ILIKE $" + n]
        else []
  {
    var col, n := ColumnText(jsToSql, k), NatToString(i + 1);
    if IsFilterKey(k) {
      var slot := Slot(Lead(FilteringDialect, jsToSql, k), i + 1);
      var op := Operator(FilteringDialect, k);
      assert Emit(FilteringDialect, jsToSql, k, i) == [slot];
      assert RenderAll([slot]) == [RenderSlot(slot)];
      assert RenderSlot(slot) == "\"" + col + ("\" " + op + " $") + n;
      if k == "minEmployees" {
        assert "\" " + op + " $" == "\" > $";
      } else if k == "maxEmployees" {
        assert "\" " + op + " $" == "\" < $";
      } else {
        assert "\" " + op + " $" == "\" ILIKE $";
      }
    }
  }

  /** sqlForFiltering(dataFilters, jsToSql): loops over the keys with index i,
      pushing a comparison for each filter key with placeholder $i+1, and rewrites
      dataFilters.nameLike in place to `%<value>%`. */
  method SqlForFiltering(dataFilters: PlainObject, jsToSql: map<string, string>)
    returns (r: Result<FilterSql, BadRequestError>)
    requires dataFilters.Valid()
    modifies dataFilters
    ensures dataFilters.Valid()
    ensures r == FilteringSql(old(dataFilters.entries), jsToSql)
    ensures dataFilters.entries == WrapNameLike(old(dataFilters.entries))
  {
    var keys := Keys(dataFilters.entries);
    if |keys| == 0 {
      return Err(BadRequestError("No Filters"));
    }
    ghost var original := dataFilters.entries;
    WrapNameLikeEffect(original);
    var queriesArr: seq<string> := [];
    for i := 0 to |keys|
      invariant dataFilters.Valid() && Keys(dataFilters.entries) == keys
      invariant queriesArr == RenderAll(Conditions(FilteringDialect, jsToSql, keys[..i]))
      invariant dataFilters.entries == if "nameLike" in keys[..i] then WrapNameLike(original) else original
    {
      ConditionsStep(FilteringDialect, jsToSql, keys, i);
      RewriteStep(original, i);
      FilteringPush(jsToSql, keys[i], i);
      var n := NatToString(i + 1);
      var col := ColumnText(jsToSql, keys[i]);
      if keys[i] == "minEmployees" {
        queriesArr := queriesArr + ["\"" + col + "\" > $" + n];
      }
      if keys[i] == "maxEmployees" {
        queriesArr := queriesArr + ["\"" + col + "\" < $" + n];
      }
      if keys[i] == "nameLike" {
        queriesArr := queriesArr + ["\"" + col + "\" ILIKE $" + n];
        var pattern := Str("%" + TemplateString(dataFilters.Property("nameLike")) + "%");
        dataFilters.SetProperty("nameLike", pattern);
      }
    }
    assert keys[..|keys|] == keys;
    r := Ok(FilterSql("WHERE " + Join(queriesArr, " AND "), Values(dataFilters.entries)));
  }

  /** The WHERE clause sqlForFiltering builds is `WHERE ` followed by text that
      reads back as exactly the comparisons the loop pushed. */
  lemma FilteringDecodes(es: seq<Entry>, jsToSql: map<string, string>)
    requires DollarFree(FilteringDialect, jsToSql)
    requires exists p :: 0 <= p < |es| && IsFilterKey(es[p].0)
    ensures FilteringSql(es, jsToSql).Ok?
    ensures var text := FilteringSql(es, jsToSql).value.filterCols;
      && text[..6] == "WHERE "
      && ParseSlots(text[6..], " AND ") == Some(Conditions(FilteringDialect, jsToSql, Keys(es)))
  {
    var keys := Keys(es);
    var p :| 0 <= p < |es| && IsFilterKey(es[p].0);
    ConditionsComplete(FilteringDialect, jsToSql, keys);
    assert keys[p] == es[p].0;
    assert HasPlaceholder(Conditions(FilteringDialect, jsToSql, keys), p + 1);
    WhereTextDecodes(FilteringDialect, jsToSql, keys);
  }

  /** The comparisons that clause decodes to: each is `"<column>" > `,
      `"<column>" < ` or `"<column>" ILIKE ` for a minEmployees, maxEmployees or
      nameLike key, with placeholder $i+1 where i is that key's position among ALL
      keys. */
  lemma FilteringComparisons(es: seq<Entry>, jsToSql: map<string, string>)
    ensures var c := Conditions(FilteringDialect, jsToSql, Keys(es));
      forall j :: 0 <= j < |c| ==>
        && 1 <= c[j].index <= |es|
        && var k := es[c[j].index - 1].0;
        && IsFilterKey(k)
        && c[j].lead == "\"" + ColumnText(jsToSql, k) + "\" "
             + (if k == "minEmployees" then ">" else if k == "maxEmployees" then "<" else "ILIKE")
             + " "
  {
    var keys := Keys(es);
    ConditionsSound(FilteringDialect, jsToSql, keys);
  }

  /** The comparisons follow key order, and every filter key, wherever it stands
      among the keys, has one. */
  lemma FilteringCoversKeys(es: seq<Entry>, jsToSql: map<string, string>)
    ensures var c := Conditions(FilteringDialect, jsToSql, Keys(es));
      && (forall j, j' :: 0 <= j < j' < |c| ==> c[j].index < c[j'].index)
      && (forall p :: 0 <= p < |es| && IsFilterKey(es[p].0) ==> HasPlaceholder(c, p + 1))
  {
    var keys := Keys(es);
    var c := Conditions(FilteringDialect, jsToSql, keys);
    ConditionsOrdered(FilteringDialect, jsToSql, keys);
    ConditionsComplete(FilteringDialect, jsToSql, keys);
    forall p | 0 <= p < |es| && IsFilterKey(es[p].0) ensures HasPlaceholder(c, p + 1) {
      assert keys[p] == es[p].0;
    }
  }

  /** Placeholder $n of every comparison stands for values[n - 1], and that is the
      value of the key that pushed the comparison, after the nameLike rewrite:
      values list every property, recognised or not, so the loop-index numbering
      lines up. The values of unrecognised keys are passed even though no
      placeholder refers to them. */
  lemma FilteringBindsValues(es: seq<Entry>, jsToSql: map<string, string>)
    requires es != [] && DistinctKeys(es)
    ensures FilteringSql(es, jsToSql).Ok?
    ensures var r := FilteringSql(es, jsToSql).value;
      var c := Conditions(FilteringDialect, jsToSql, Keys(es));
      && |r.values| == |es|
      && forall j :: 0 <= j < |c| ==>
           && 1 <= c[j].index <= |r.values|
           && var e := es[c[j].index - 1];
              r.values[c[j].index - 1] == if e.0 == "nameLike" then Wildcard(e.1) else e.1
    ensures var r := FilteringSql(es, jsToSql).value;
      forall j :: 0 <= j < |es| ==>
        r.values[j] == if es[j].0 == "nameLike" then Wildcard(es[j].1) else es[j].1
  {
    ConditionsSound(FilteringDialect, jsToSql, Keys(es));
    WrapNameLikeEffect(es);
  }

  /** When every key is a filter key the comparisons use exactly $1..$n, one per
      key, and values[j] is the (rewritten) value of the j-th key. */
  lemma FilteringAllRecognised(es: seq<Entry>, jsToSql: map<string, string>)
    requires es != [] && DistinctKeys(es)
    requires forall p :: 0 <= p < |es| ==> IsFilterKey(es[p].0)
    ensures FilteringSql(es, jsToSql).Ok?
    ensures var r := FilteringSql(es, jsToSql).value;
      var c := Conditions(FilteringDialect, jsToSql, Keys(es));
      && |c| == |r.values| == |es|
      && Contiguous(Indices(c))
      && forall j :: 0 <= j < |es| ==>
           r.values[j] == if es[j].0 == "nameLike" then Wildcard(es[j].1) else es[j].1
  {
    ConditionsContiguous(FilteringDialect, jsToSql, Keys(es));
    WrapNameLikeEffect(es);
  }

  /** A non-empty object with no filter key gives the bare clause "WHERE " and its
      values unchanged (nothing is rewritten). */
  lemma FilteringNoneRecognised(es: seq<Entry>, jsToSql: map<string, string>)
    requires es != []
    requires forall p :: 0 <= p < |es| ==> !IsFilterKey(es[p].0)
    ensures FilteringSql(es, jsToSql) == Ok(FilterSql("WHERE ", Values(es)))
  {
    ConditionsEmpty(FilteringDialect, jsToSql, Keys(es));
    assert "nameLike" !in Keys(es) by {
      forall p | 0 <= p < |es| ensures Keys(es)[p] != "nameLike" { }
    }
    assert RenderAll([]) == [];
    assert WhereText([]) == "WHERE ";
  }

  /** The comparison the doc comment's example pushes. */
  lemma ExampleMaxComparison()
    ensures RenderAll(Conditions(FilteringDialect, map["maxEmployees" := "num_employees"], ["maxEmployees"]))
         == ["\"num_employees\" < $1"]
  {
    var m := map["maxEmployees" := "num_employees"];
    var keys := ["maxEmployees"];
    var slot := Slot("\"num_employees\" < ", 1);
    assert Conditions(FilteringDialect, m, keys) == [slot] by {
      assert keys[..0] == [];
      assert ColumnText(m, "maxEmployees") == "num_employees";
      assert Lead(FilteringDialect, m, "maxEmployees") == "\"" + "num_employees" + "\" " + "<" + " ";
      assert "\"" + "num_employees" + "\" " + "<" + " " == "\"num_employees\" < ";
      assert Emit(FilteringDialect, m, "maxEmployees", 0) == [slot];
    }
    assert RenderSlot(slot) == "\"num_employees\" < $1" by {
      assert NatToString(1) == "1";
    }
  }

  /** The example of the doc comment: `{maxEmployees: 32}` gives
      `WHERE "num_employees" < $1` and [32]. */
  lemma FilteringExample()
    ensures FilteringSql([("maxEmployees", Num(32))], map["maxEmployees" := "num_employees"])
         == Ok(FilterSql("WHERE \"num_employees\" < $1", [Num(32)]))
  {
    ExampleMaxUnfold();
    ExampleMaxComparison();
    ExampleMaxWhere();
  }

  /** sqlForFiltering on `{maxEmployees: 32}`, its keys read off and nothing rewritten. */
  lemma ExampleMaxUnfold()
    ensures FilteringSql([("maxEmployees", Num(32))], map["maxEmployees" := "num_employees"])
         == Ok(FilterSql(WhereText(RenderAll(Conditions(FilteringDialect, map["maxEmployees" := "num_employees"], ["maxEmployees"]))),
                         [Num(32)]))
  {
    var es := [("maxEmployees", Num(32))];
    assert Keys(es) == ["maxEmployees"];
    assert WrapNameLike(es) == es by {
      assert "nameLike" !in Keys(es);
    }
    assert Values(es) == [Num(32)];
  }

  /** The clause that example's comparison makes. */
  lemma ExampleMaxWhere()
    ensures WhereText(["\"num_employees\" < $1"]) == "WHERE \"num_employees\" < $1"
  {
  }

  /** Placeholders follow the loop index over all keys: after an unrecognised key,
      `{age: a, nameLike: name}` gives `WHERE "name" ILIKE $2` with values
      [a, "%name%"], so the clause uses $2 but not $1. */
  lemma FilteringSkipsIndex(age: Value, name: string)
    ensures FilteringSql([("age", age), ("nameLike", Str(name))], map["nameLike" := "name"])
         == Ok(FilterSql("WHERE \"name\" ILIKE $2", [age, Str("%" + name + "%")]))
  {
    ExampleSkipUnfold(age, name);
    ExampleSkipComparison();
    ExampleSkipWhere();
    ExampleSkipValues(age, name);
    assert Values([("age", age), ("nameLike", Str("%" + name + "%"))]) == [age, Str("%" + name + "%")];
  }

  /** sqlForFiltering on `{age: a, nameLike: name}`, its keys read off. */
  lemma ExampleSkipUnfold(age: Value, name: string)
    ensures FilteringSql([("age", age), ("nameLike", Str(name))], map["nameLike" := "name"])
         == Ok(FilterSql(WhereText(RenderAll(Conditions(FilteringDialect, map["nameLike" := "name"], ["age", "nameLike"]))),
                         Values(WrapNameLike([("age", age), ("nameLike", Str(name))]))))
  {
    assert Keys([("age", age), ("nameLike", Str(name))]) == ["age", "nameLike"];
  }

  /** The clause that example's one comparison makes. */
  lemma ExampleSkipWhere()
    ensures WhereText(["\"name\" ILIKE $2"]) == "WHERE \"name\" ILIKE $2"
  {
  }

  /** The one comparison `{age: a, nameLike: name}` pushes: at loop index 1. */
  lemma ExampleSkipComparison()
    ensures RenderAll(Conditions(FilteringDialect, map["nameLike" := "name"], ["age", "nameLike"]))
         == ["\"name\" ILIKE $2"]
  {
    var m := map["nameLike" := "name"];
    var keys := ["age", "nameLike"];
    var slot := Slot("\"name\" ILIKE ", 2);
    assert Conditions(FilteringDialect, m, keys) == [slot] by {
      assert keys[..1] == ["age"] && keys[..1][..0] == [];
      assert Conditions(FilteringDialect, m, keys[..1]) == [];
      assert ColumnText(m, "nameLike") == "name";
      assert Lead(FilteringDialect, m, "nameLike") == "\"" + "name" + "\" " + "ILIKE" + " ";
      assert "\"" + "name" + "\" " + "ILIKE" + " " == "\"name\" ILIKE ";
      assert Emit(FilteringDialect, m, "nameLike", 1) == [slot];
    }
    assert RenderSlot(slot) == "\"name\" ILIKE $2" by {
      assert NatToString(2) == "2";
    }
  }

  /** The properties of `{age: a, nameLike: name}` after the rewrite. */
  lemma ExampleSkipValues(age: Value, name: string)
    ensures WrapNameLike([("age", age), ("nameLike", Str(name))])
         == [("age", age), ("nameLike", Str("%" + name + "%"))]
  {
    var es := [("age", age), ("nameLike", Str(name))];
    assert Keys(es) == ["age", "nameLike"];
    WrapNameLikeEffect(es);
    var out := WrapNameLike(es);
    assert out[0] == es[0] && out[1] == ("nameLike", Wildcard(Str(name)));
  }
}
