# express-jobly SQL fragment builders, in Dafny

express-jobly is a small Express/PostgreSQL REST backend for companies and jobs.
Its only real logic is in the SQL fragment builders. They take a plain JavaScript
object of logical field names and values and produce two things: a clause string
with numbered placeholders (`$1`, `$2`, …) and the ordered list of values those
placeholders stand for. This project models the builders and proves what they
promise:

- `sqlForPartialUpdate` (helpers/sql.js) builds the `SET` list of a partial update.
- `sqlForFiltering` (helpers/sql.js) builds a `WHERE` clause from the keys
  `minEmployees`, `maxEmployees` and `nameLike`.
- `Job._filterQueryString` (models/job.js) is the second revision of that
  builder. It writes inclusive bounds and bare column names, and it returns `''`
  instead of a bare `WHERE `.
- The bounds check in `Job.findAll` and the handle placeholder in `Job.update`
  (models/job.js).

Modules:

- `Wrappers`: `Option` and `Result` (a thrown error is an `Err`).
- `ExpressError`: `BadRequestError`.
- `Decimal`: the decimal text JavaScript writes for an integer, and reading it back.
- `JsObjects`: a JavaScript object as an ordered list of distinctly named
  properties (`Object.keys`/`Object.values` order). `PlainObject` is the class
  for an object a builder changes in place.
- `Placeholders`: a clause as fragments `<text>$<n>` joined by a separator. It
  includes a decoder, `ParseSlots`. The round-trip lemma `ParseRendered` lets each
  builder's text be described by what it decodes to: which placeholder numbers
  appear, in which order, after which column and operator.
- `FilterClauses`: the loop shared by both filter revisions (one comparison per
  recognised key, numbered by the loop index over all keys) and the in-place
  `nameLike` rewrite. A `Dialect` says how a revision writes a comparison.
- `SqlHelpers`: helpers/sql.js.
- `JobModel`: the parts of models/job.js listed above.

Behaviour of the code that the model keeps as written:

- `sqlForFiltering` puts every column in double quotes (`"num_employees" > $2`),
  with strict bounds.
- The doc comment of `_filterQueryString` shows `WHERE "num_employees" < $1`, but
  the code writes `num_employees <= $1` (`JobModel.JobFilterExample`).
- Placeholders are numbered by each key's position among all keys, not by how
  many comparisons came before. The model keeps this numbering.
  `SqlHelpers.FilteringSkipsIndex` shows a clause that uses `$2` without `$1`.
  The values list holds every property, recognised or not, so `$k` always stands
  for `values[k-1]`, the value of the key that wrote it
  (`SqlHelpers.FilteringBindsValues`). The values of unrecognised keys are still
  passed, although no placeholder uses them: `{age: a, nameLike: n}` gives a clause
  with only `$2` and two values.
- `sqlForFiltering` on a non-empty object with no recognised key returns the
  clause `"WHERE "` (`SqlHelpers.FilteringNoneRecognised`).

## Model

| member | source | states |
|---|---|---|
| `SqlHelpers.SqlForPartialUpdate` | helpers/sql.js:23-38 | An empty payload throws BadRequestError("No data"), and only an empty one does. Otherwise `values` is the payload's values in key order. |
| `SqlHelpers.ColumnFor` | helpers/sql.js:31 | `jsToSql[colName] || colName`: the mapped column when it is a non-empty string, else the key itself. It has no contract of its own; `PartialUpdateFragments` states how it names each fragment. |
| `SqlHelpers.SetSlots` | helpers/sql.js:30-32 | What `keys.map` makes: one fragment per key, in key order, fragment i being `"<column>"=` with placeholder i+1. |
| `SqlHelpers.PartialUpdateFragments` | helpers/sql.js:30-37 | The fragments the SET list is built from: for n keys, n fragments with placeholders exactly $1..$n in key order. Fragment i names `jsToSql[k]` when that is a non-empty string, else the key k itself, as `"<column>"=`. `$i+1` stands for `values[i]`, the value of key i. |
| `SqlHelpers.PartialUpdateDecodes` | helpers/sql.js:30-35 | A non-empty payload gives a `setCols` text that decodes back to exactly those fragments, joined by `, `. |
| `SqlHelpers.PartialUpdateExample` | helpers/sql.test.js:5-20 | `{firstName: 'Aliya', age: 32}` gives `"first_name"=$1, "age"=$2` and `["Aliya", 32]`. |
| `SqlHelpers.FilteringSql` | helpers/sql.js:60-65 | sqlForFiltering throws BadRequestError("No Filters") exactly when the object has no keys. |
| `SqlHelpers.SqlForFiltering` | helpers/sql.js:60-86 | The loop-built result equals `FilteringSql` of the object as it was, and the object afterwards is that object with `nameLike` rewritten in place. |
| `SqlHelpers.FilteringPush` | helpers/sql.js:69-78 | The loop body pushes `"<col>" > $<i+1>` for minEmployees, `"<col>" < $<i+1>` for maxEmployees, `"<col>" ILIKE $<i+1>` for nameLike, and nothing for any other key. |
| `SqlHelpers.FilteringDecodes` | helpers/sql.js:82-83 | With some recognised key, `filterCols` is `WHERE ` followed by the pushed comparisons joined by ` AND `, which decode back to exactly those comparisons. |
| `SqlHelpers.FilteringComparisons` | helpers/sql.js:68-79 | Every comparison `filterCols` decodes to (`FilteringDecodes`) belongs to a recognised key. Its placeholder is that key's position among all keys plus one, and its text is `"<col>" >`, `<` or `ILIKE` according to the key. |
| `SqlHelpers.FilteringCoversKeys` | helpers/sql.js:68-79 | Those comparisons follow key order (placeholders strictly increase), and every recognised key has one. |
| `SqlHelpers.FilteringBindsValues` | helpers/sql.js:68-84 | `values` has one entry per property, unrecognised keys included. Each comparison's placeholder $k stands for `values[k-1]`: the value of the key that wrote it, and for nameLike its `%v%` pattern. Every `values[j]` is the j-th property's value, rewritten for nameLike, whether or not its key is recognised. |
| `SqlHelpers.FilteringAllRecognised` | helpers/sql.js:68-84 | When every key is recognised, the comparisons' placeholders are exactly $1..$n, one per value, and `values[j]` is the j-th key's value, after the rewrite. |
| `SqlHelpers.FilteringNoneRecognised` | helpers/sql.js:82-85 | A non-empty object with no recognised key gives the bare clause `WHERE ` and its own values, unchanged. |
| `SqlHelpers.FilteringExample` | helpers/sql.js:48-55 | `{maxEmployees: 32}` gives `WHERE "num_employees" < $1` and `[32]`, as in the doc comment. |
| `SqlHelpers.FilteringSkipsIndex` | helpers/sql.js:68-84 | `{age: a, nameLike: name}` gives `WHERE "name" ILIKE $2` and `[a, "%name%"]`, for any a and name: the placeholder is the loop index plus one, whatever came before. |
| `FilterClauses.ConditionsStep` | helpers/sql.js:68-79 | One more pass of the loop appends what the body pushes for the key at index i. |
| `FilterClauses.ColumnText` | helpers/sql.js:70 | `${jsToSql[keys[i]]}`: the mapped column, or `undefined` for a key the map lacks. It has no contract of its own; `FilteringComparisons` and `JobFilterComparisons` state where it appears. |
| `FilterClauses.Emit` | helpers/sql.js:69-78 | The body of the loop for the key at index i: one comparison numbered i+1 for a recognised key, nothing otherwise. It has no contract of its own; `FilteringPush` and `JobFilterPush` state its text. |
| `FilterClauses.Conditions` | helpers/sql.js:68-79 | What the loop has pushed after visiting the keys. It has no contract of its own; `ConditionsStep`, `ConditionsSound`, `ConditionsOrdered`, `ConditionsComplete`, `ConditionsContiguous` and `ConditionsEmpty` state its meaning. |
| `FilterClauses.WrapNameLike` | helpers/sql.js:77 | The object after the `%v%` rewrite of nameLike. It has no contract of its own; `WrapNameLikeEffect` and `RewriteStep` state its meaning. |
| `FilterClauses.RewriteStep` | helpers/sql.js:75-77 | At the loop index where the key is nameLike, the key has not been seen before, and rewriting it in place gives the whole object's `%v%` rewrite. |
| `FilterClauses.ConditionsSound` | helpers/sql.js:68-79 | Each pushed comparison comes from a recognised key at position index-1 and carries that key's comparison text. |
| `FilterClauses.ConditionsOrdered` | models/job.js:78-90 | Pushed comparisons have strictly increasing placeholders. |
| `FilterClauses.ConditionsComplete` | models/job.js:78-90 | Every recognised key, at any position, gets a comparison with placeholder position+1. |
| `FilterClauses.ConditionsContiguous` | models/job.js:78-90 | When every key is recognised, there are n comparisons with placeholders $1..$n. |
| `FilterClauses.ConditionsEmpty` | models/job.js:78-92 | Nothing is pushed exactly when no key is recognised. |
| `FilterClauses.ConditionsDollarFree` | helpers/sql.js:70-76 | When the operators and the field map's columns contain no '$', no pushed comparison text does. |
| `FilterClauses.WhereTextDecodes` | helpers/sql.js:83 | `WHERE ` plus the comparisons joined by ` AND ` decodes back to exactly the comparisons. |
| `FilterClauses.WrapNameLikeEffect` | helpers/sql.js:75-78 | The rewrite turns the nameLike value v into `%v%`. Keys and their order are unchanged, every other property is untouched, and names stay distinct. |
| `JsObjects.AssignEffect` | models/job.js:88 | `obj[k] = v` gives k the value v, keeps an existing property in place, and changes no other property. |
| `JsObjects.PlainObject.SetProperty` | helpers/sql.js:77 | The in-place assignment: the object's properties become `Assign(old, k, v)` and stay distinctly named. |
| `Decimal.NatToString` | helpers/sql.js:31 | The placeholder number's text is non-empty, all decimal digits, and has no leading zero. |
| `Decimal.ParseNatToString` | helpers/sql.js:70 | Reading a number's text back gives the number, so placeholder numbers are recovered exactly. |
| `Decimal.CanonicalNatToString` | helpers/sql.js:70 | A non-empty digit string with no leading zero (other than "0") is the numeral of the number it reads as. |
| `Decimal.IntToString` | helpers/sql.js:77 | The text for an integer value in the `%${v}%` template starts with '-' exactly when the integer is negative. The digits after any sign are that integer's magnitude with no leading zero, as String(i) writes it up to 2^53. |
| `Placeholders.ParseOneRendered` | helpers/sql.js:31 | One fragment `<text>$<n>` followed by text that does not start with a digit is read back as that fragment, and the text after it is left over. |
| `Placeholders.ParseRendered` | helpers/sql.js:35 | Fragments joined by a separator decode back to exactly those fragments, when no fragment text contains '$' and the separator does not start with a digit. |
| `Placeholders.ParseOneInverse` | helpers/sql.js:31 | Whatever ParseOne reads off a text is a fragment's rendering followed by the rest: the text is `<lead>$<n>` with n written as `${n}` writes it, so zero-padded numbers are not read. |
| `Placeholders.RenderParsed` | helpers/sql.js:35 | Converse round trip: a text that decodes is exactly the fragments it decodes to, rendered and joined by the separator, so the decoded fragments determine the clause text. |
| `JobModel.FilterQueryString` | models/job.js:69-103 | The loop-built result equals `JobFilterSql` of the object as it was, and the object afterwards has nameLike rewritten in place. It never throws. |
| `JobModel.JobFilterPush` | models/job.js:78-89 | The loop body pushes `<col> >= $<i+1>`, `<col> <= $<i+1>` or `<col> ILIKE $<i+1>` with the column unquoted, and nothing for any other key. |
| `JobModel.JobFilterSql` | models/job.js:92-102 | The result of `_filterQueryString`: `''` with no comparison, else `WHERE ` and the comparisons joined by ` AND `, with the rewritten object's values. It has no contract of its own; `FilterQueryString`, `JobFilterNoneRecognised`, `JobFilterDecodes`, `JobFilterComparisons` and `JobFilterBindsValues` state its meaning. |
| `JobModel.JobFilterNoneRecognised` | models/job.js:92-97 | With no recognised key, the empty object included, `filterCols` is `''` and `values` is the object's own values in key order. |
| `JobModel.JobFilterDecodes` | models/job.js:99-101 | With some recognised key, `filterCols` is `WHERE ` followed by text that decodes to exactly the pushed comparisons. |
| `JobModel.JobFilterComparisons` | models/job.js:78-90 | Every comparison `filterCols` decodes to (`JobFilterDecodes`) belongs to a recognised key at position index-1 and reads `<col> >=`, `<=` or `ILIKE`, with the column unquoted. |
| `JobModel.JobFilterBindsValues` | models/job.js:78-101 | `values` has one entry per property. Each comparison's placeholder $k stands for `values[k-1]`, the value of the key that wrote it, after the `%v%` rewrite. Every `values[j]` is the j-th property's value, rewritten for nameLike, whether or not its key is recognised. |
| `JobModel.JobFilterAllRecognised` | models/job.js:78-101 | When every key is recognised, the comparisons' placeholders are exactly $1..$n, one per value. |
| `JobModel.JobFilterExample` | models/job.js:82-83 | `{maxEmployees: 32}` gives `WHERE num_employees <= $1` and `[32]`. |
| `JobModel.FindAllGuard` | models/job.js:114-118 | The bounds check `data.minEmployees > data.maxEmployees` for integer bounds. It has no contract of its own; `FindAllGuardRejectsEmptyRange` states its meaning. |
| `JobModel.FindAllGuardRejectsEmptyRange` | models/job.js:114-118 | findAll throws BadRequestError("minEmployees cannot be greater than maxEmployees") exactly when both bounds are integers and no count meets both inclusive bounds. A missing bound never throws. |
| `JobModel.FindAllFilter` | models/job.js:112-126 | The bounds check runs before the builder. A rejected filter returns the error and leaves the object unchanged; otherwise the result is `JobFilterSql` with findAll's field map, and nameLike is rewritten. |
| `JobModel.UpdateQuery` | models/job.js:185-199 | update throws sqlForPartialUpdate's BadRequestError("No data") exactly when the data is empty. |
| `JobModel.UpdateHandleFollowsSet` | models/job.js:185-199 | `setCols` decodes to the SET fragments, with placeholders $1..$n for the n values, and handleVarIdx decodes to $n+1. The parameters are the n values followed by the handle, so every placeholder $k stands for `params[k-1]`. |
| `JobModel.UpdateParams` | models/job.js:199 | `[...values, handle]` has one more entry than the SET list has placeholders, ends with the handle, and holds value j at the position of fragment j's placeholder. |
| `JobModel.UpdateHandleSlot` | models/job.js:192 | `"$" + (n+1)` decodes to the single placeholder $n+1. |

## Left out

- The authentication middleware (`authenticateJWT`, `ensureLoggedIn`, `ensureIsAdmin`, `ensureThisUserOrAdmin`) in middleware/auth.js: request handling outside the SQL fragment builders this project models.
- Every `db.query` call and the queries around it (`create`, the query of `findAll`, `get`, the query of `update`, `remove`): database I/O through a driver that is not part of this model. `create`'s five placeholders for four values are in that query text and are not modelled.
- `findAll` calls `Company._filterQueryString`, and `update` calls `sqlForPartialUpdate` without importing it: `JobModel.FindAllFilter` and `JobModel.UpdateQuery` call the builders directly.
- `console.log` calls: logging with no effect on results.
- Values other than strings and integers (floats, booleans, null, nested objects). Also left out are integers of magnitude above 2^53 (Number.MAX_SAFE_INTEGER): JavaScript cannot hold all of them, and it does not write them digit for digit (`String(2**64)` is `"18446744073709552000"`).
- Decimal.IntToString: writes every integer digit for digit, which is JavaScript's String(i) only up to 2^53 in magnitude; above that, the nameLike pattern `%${v}%` in the model has the exact digits where JavaScript has the shortest round-tripping ones.
- Integer-like property names: `Object.keys` lists them first, in ascending order. The model lists every property in insertion order.
- Field-map lookups that reach `Object.prototype` (a key such as `constructor`): the model sees only the map's own entries.
- JobModel.FindAllGuard: compares only integer bounds. A string-valued bound, which JavaScript compares as text or coerces to a number, is treated as passing.
- Placeholders.ParseRendered, FilterClauses.WhereTextDecodes, SqlHelpers.PartialUpdateDecodes, SqlHelpers.FilteringDecodes, JobModel.JobFilterDecodes, JobModel.UpdateHandleFollowsSet: stated only for columns that contain no '$'. With a '$' in a column name, the clause text no longer decodes unambiguously. The lemmas about the comparisons and fragments themselves hold for every column.
