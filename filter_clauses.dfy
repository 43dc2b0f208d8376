/** The loop both revisions of the filter builder run (helpers/sql.js
    sqlForFiltering, models/job.js Job._filterQueryString): for the key at loop
    index i, a recognised filter key pushes `<column> <op> $<i+1>` and unrecognised
    keys push nothing; a `nameLike` value is rewritten to `%<value>%` in place.
    The two revisions differ only in how they write a comparison (a Dialect) and
    in what they do with the pushed fragments afterwards. */
module FilterClauses {
  import opened Wrappers
  import opened JsObjects
  import opened Placeholders

  /** How a revision writes its comparisons: whether the column is put in double
      quotes, and the operators for the lower and the upper bound. */
  datatype Dialect = Dialect(quoteColumns: bool, minOperator: string, maxOperator: string)

  /** What a filter builder returns: `{ filterCols, values }`. */
  datatype FilterSql = FilterSql(filterCols: string, values: seq<Value>)

  /** The three keys the builders recognise. */
  predicate IsFilterKey(k: string) {
    k == "minEmployees" || k == "maxEmployees" || k == "nameLike"
  }

  /** `${jsToSql[key]}`: the mapped column, or "undefined" when the map has no entry. */
  function ColumnText(jsToSql: map<string, string>, k: string): string {
    if k in jsToSql then jsToSql[k] else "undefined"
  }

  function Operator(d: Dialect, k: string): string
    requires IsFilterKey(k)
  {
    if k == "minEmployees" then d.minOperator
    else if k == "maxEmployees" then d.maxOperator
    else "ILIKE"
  }

  /** The text of the comparison for key k before its placeholder. */
  function Lead(d: Dialect, jsToSql: map<string, string>, k: string): string
    requires IsFilterKey(k)
  {
    var col := ColumnText(jsToSql, k);
    (if d.quoteColumns then "\"" + col + "\" " else col + " ") + Operator(d, k) + " "
  }

  /** What one pass of the loop body pushes for key k at loop index i. */
  function Emit(d: Dialect, jsToSql: map<string, string>, k: string, i: nat): seq<Slot> {
    if IsFilterKey(k) then [Slot(Lead(d, jsToSql, k), i + 1)] else []
  }

  /** The comparisons pushed after the loop has visited every key of keys. */
  function Conditions(d: Dialect, jsToSql: map<string, string>, keys: seq<string>): seq<Slot>
    decreases |keys|
  {
    if keys == [] then []
    else
      var n := |keys| - 1;
      Conditions(d, jsToSql, keys[..n]) + Emit(d, jsToSql, keys[n], n)
  }

  /** One more pass of the loop appends what it pushes for the key at index i. */
  lemma ConditionsStep(d: Dialect, jsToSql: map<string, string>, keys: seq<string>, i: nat)
    requires i < |keys|
    ensures RenderAll(Conditions(d, jsToSql, keys[..i + 1]))
         == RenderAll(Conditions(d, jsToSql, keys[..i])) + RenderAll(Emit(d, jsToSql, keys[i], i))
  {
    assert keys[..i + 1][..i] == keys[..i];
    assert Conditions(d, jsToSql, keys[..i + 1])
        == Conditions(d, jsToSql, keys[..i]) + Emit(d, jsToSql, keys[i], i);
  }

  /** The WHERE clause built from pushed comparisons: `WHERE ` and the comparisons
      joined by ` AND `. */
  function WhereText(parts: seq<string>): string {
    "WHERE " + Join(parts, " AND ")
  }

  /** No column or operator a dialect writes contains the placeholder sign '$'. */
  predicate DollarFree(d: Dialect, jsToSql: map<string, string>) {
    && '$' !in d.minOperator && '$' !in d.maxOperator
    && '$' !in ColumnText(jsToSql, "minEmployees")
    && '$' !in ColumnText(jsToSql, "maxEmployees")
    && '$' !in ColumnText(jsToSql, "nameLike")
  }

  /** Every pushed comparison belongs to a filter key: its placeholder is that key's
      position among ALL keys plus one, and its text is that key's comparison. */
  lemma {:induction false} ConditionsSound(d: Dialect, jsToSql: map<string, string>, keys: seq<string>)
    ensures forall j :: 0 <= j < |Conditions(d, jsToSql, keys)| ==>
      var c := Conditions(d, jsToSql, keys)[j];
      && 1 <= c.index <= |keys|
      && IsFilterKey(keys[c.index - 1])
      && c.lead == Lead(d, jsToSql, keys[c.index - 1])
    decreases |keys|
  {
    if keys != [] {
      var n := |keys| - 1;
      var init := keys[..n];
      ConditionsSound(d, jsToSql, init);
      var s0 := Conditions(d, jsToSql, init);
      var s := Conditions(d, jsToSql, keys);
      assert s == s0 + Emit(d, jsToSql, keys[n], n);
      forall j | 0 <= j < |s|
        ensures && 1 <= s[j].index <= |keys|
                && IsFilterKey(keys[s[j].index - 1])
                && s[j].lead == Lead(d, jsToSql, keys[s[j].index - 1])
      {
        if j < |s0| {
          assert s[j] == s0[j];
          assert init[s0[j].index - 1] == keys[s0[j].index - 1];
        } else {
          assert s[j] == Slot(Lead(d, jsToSql, keys[n]), n + 1);
        }
      }
    }
  }

  /** The comparisons follow key order: their placeholders strictly increase. */
  lemma {:induction false} ConditionsOrdered(d: Dialect, jsToSql: map<string, string>, keys: seq<string>)
    ensures forall j, j' :: 0 <= j < j' < |Conditions(d, jsToSql, keys)| ==>
      Conditions(d, jsToSql, keys)[j].index < Conditions(d, jsToSql, keys)[j'].index
    decreases |keys|
  {
    if keys != [] {
      var n := |keys| - 1;
      var init := keys[..n];
      ConditionsOrdered(d, jsToSql, init);
      ConditionsSound(d, jsToSql, init);
      var s0 := Conditions(d, jsToSql, init);
      var s := Conditions(d, jsToSql, keys);
      assert s == s0 + Emit(d, jsToSql, keys[n], n);
      forall j, j' | 0 <= j < j' < |s| ensures s[j].index < s[j'].index {
        assert s[j] == s0[j];
        if j' < |s0| {
          assert s[j'] == s0[j'];
        } else {
          assert s[j'].index == n + 1;
        }
      }
    }
  }

  /** Some comparison of s uses placeholder $n. */
  predicate HasPlaceholder(s: seq<Slot>, n: nat) {
    exists j :: 0 <= j < |s| && s[j].index == n
  }

  /** Every filter key, wherever it stands among the keys, gets its comparison. */
  lemma {:induction false} ConditionsComplete(d: Dialect, jsToSql: map<string, string>, keys: seq<string>)
    ensures forall p :: 0 <= p < |keys| && IsFilterKey(keys[p]) ==>
      HasPlaceholder(Conditions(d, jsToSql, keys), p + 1)
    decreases |keys|
  {
    if keys != [] {
      var n := |keys| - 1;
      var init := keys[..n];
      ConditionsComplete(d, jsToSql, init);
      var s0 := Conditions(d, jsToSql, init);
      var s := Conditions(d, jsToSql, keys);
      assert s == s0 + Emit(d, jsToSql, keys[n], n);
      forall p | 0 <= p < |keys| && IsFilterKey(keys[p])
        ensures HasPlaceholder(s, p + 1)
      {
        if p < n {
          assert init[p] == keys[p];
          var j :| 0 <= j < |s0| && s0[j].index == p + 1;
          assert s[j] == s0[j];
        } else {
          assert s[|s0|].index == p + 1;
        }
      }
    }
  }

  /** When every key is a filter key, the placeholders are exactly $1..$n in order. */
  lemma {:induction false} ConditionsContiguous(d: Dialect, jsToSql: map<string, string>, keys: seq<string>)
    requires forall p :: 0 <= p < |keys| ==> IsFilterKey(keys[p])
    ensures |Conditions(d, jsToSql, keys)| == |keys|
    ensures Contiguous(Indices(Conditions(d, jsToSql, keys)))
    decreases |keys|
  {
    if keys != [] {
      var n := |keys| - 1;
      ConditionsContiguous(d, jsToSql, keys[..n]);
    }
  }

  /** Nothing is pushed exactly when no key is a filter key. */
  lemma {:induction false} ConditionsEmpty(d: Dialect, jsToSql: map<string, string>, keys: seq<string>)
    ensures Conditions(d, jsToSql, keys) == [] <==>
            forall p :: 0 <= p < |keys| ==> !IsFilterKey(keys[p])
    decreases |keys|
  {
    if keys != [] {
      var n := |keys| - 1;
      ConditionsEmpty(d, jsToSql, keys[..n]);
      assert forall p :: 0 <= p < n ==> keys[..n][p] == keys[p];
    }
  }

  lemma LeadDollarFree(d: Dialect, jsToSql: map<string, string>, k: string)
    requires DollarFree(d, jsToSql) && IsFilterKey(k)
    ensures '$' !in Lead(d, jsToSql, k)
  {
  }

  /** No pushed comparison's text contains '$' when no column or operator does. */
  lemma ConditionsDollarFree(d: Dialect, jsToSql: map<string, string>, keys: seq<string>)
    requires DollarFree(d, jsToSql)
    ensures forall j :: 0 <= j < |Conditions(d, jsToSql, keys)| ==> '$' !in Conditions(d, jsToSql, keys)[j].lead
  {
    var s := Conditions(d, jsToSql, keys);
    ConditionsSound(d, jsToSql, keys);
    forall j | 0 <= j < |s| ensures '$' !in s[j].lead {
      LeadDollarFree(d, jsToSql, keys[s[j].index - 1]);
    }
  }

  /** The pushed comparisons, joined as a WHERE clause, read back as themselves:
      the clause text carries each comparison and its placeholder unambiguously. */
  lemma WhereTextDecodes(d: Dialect, jsToSql: map<string, string>, keys: seq<string>)
    requires DollarFree(d, jsToSql)
    requires Conditions(d, jsToSql, keys) != []
    ensures var text := WhereText(RenderAll(Conditions(d, jsToSql, keys)));
      text[..6] == "WHERE " &&
      ParseSlots(text[6..], " AND ") == Some(Conditions(d, jsToSql, keys))
  {
    var s := Conditions(d, jsToSql, keys);
    ConditionsDollarFree(d, jsToSql, keys);
    ParseRendered(s, " AND ");
    var text := WhereText(RenderAll(s));
    assert text[6..] == Join(RenderAll(s), " AND ");
  }

  /** The `%<value>%` pattern the builders put in place of a nameLike value. */
  function Wildcard(v: Value): Value {
    Str("%" + TemplateString(v) + "%")
  }

  /** The object after `dataFilters.nameLike = \`%${dataFilters.nameLike}%\``,
      which runs when the loop reaches the nameLike key. */
  function WrapNameLike(es: seq<Entry>): seq<Entry> {
    if "nameLike" in Keys(es) then Assign(es, "nameLike", Wildcard(Lookup(es, "nameLike"))) else es
  }

  /** One pass of the loop over the keys of an object, as far as the rewrite is
      concerned: the nameLike key has been seen after index i exactly when it was
      seen before or is the key at i, and when it is at i it was not seen before
      and rewriting it there gives the rewritten object. */
  lemma RewriteStep(original: seq<Entry>, i: nat)
    requires DistinctKeys(original) && i < |original|
    ensures ("nameLike" in Keys(original)[..i + 1]) <==>
            ("nameLike" in Keys(original)[..i] || Keys(original)[i] == "nameLike")
    ensures Keys(original)[i] == "nameLike" ==>
      && "nameLike" !in Keys(original)[..i]
      && "nameLike" in Keys(original)
      && WrapNameLike(original) == Assign(original, "nameLike", Wildcard(Lookup(original, "nameLike")))
  {
    var keys := Keys(original);
    assert keys[..i + 1] == keys[..i] + [keys[i]];
    if keys[i] == "nameLike" {
      forall p | 0 <= p < i ensures keys[..i][p] != "nameLike" {
        assert original[p].0 != original[i].0;
      }
      assert keys[i] in keys;
    }
  }

  /** The rewrite changes the nameLike value to its pattern and nothing else: same
      keys in the same order, every other property untouched. */
  lemma WrapNameLikeEffect(es: seq<Entry>)
    requires DistinctKeys(es)
    ensures DistinctKeys(WrapNameLike(es))
    ensures Keys(WrapNameLike(es)) == Keys(es)
    ensures |WrapNameLike(es)| == |es|
    ensures forall i :: 0 <= i < |es| ==>
      WrapNameLike(es)[i] == if es[i].0 == "nameLike" then ("nameLike", Wildcard(es[i].1)) else es[i]
  {
    if "nameLike" in Keys(es) {
      var p := IndexOf(es, "nameLike");
      LookupAt(es, p);
      AssignEffect(es, "nameLike", Wildcard(es[p].1));
      assert forall i :: 0 <= i < |es| && es[i].0 == "nameLike" ==> i == p;
    } else {
      forall i | 0 <= i < |es| ensures es[i].0 != "nameLike" {
        assert Keys(es)[i] == es[i].0;
      }
    }
  }
}
