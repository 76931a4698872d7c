# Exoplanet escape velocity: query URL and record loop

This project models the core of `exo_escape_velocity.py`, a script that asks
the NASA Exoplanet Archive's TAP service for planet rows and computes each
planet's surface escape velocity. Two parts of the script are modelled.

- **The query URL built by `get_exodataset`.** The URL is a fixed base, then a
  `select` clause (with `top <n>` when `select_specified_rows` is non-zero),
  then a `from` clause, then a `where` clause, then `&format=json`. In the
  query, `+` stands for a space. The where clause is built by a loop over the
  where dictionary. The loop appends `key=value+and+` for each entry, and
  `removesuffix("+and+")` then strips one trailing separator. The dictionary is
  a sequence of `(key, value)` pairs, because Python dictionaries keep
  insertion order. The loop is the method `ExoQuery.BuildWhere`, proved
  against the function `ExoQuery.WhereClause`. The whole assembly is the
  method `ExoQuery.BuildUrl`, proved against `ExoQuery.QueryUrl`.
- **The record loop of `calc_escape_velocity`.** It produces one
  `[pl_name, velocity]` entry per record, in record order. `earth_units_flag`
  chooses whether `pl_bmasse`/`pl_rade` or `pl_bmassj`/`pl_radj` are read. Each
  value is scaled by the Earth or Jupiter constant. The velocity formula is
  the function parameter `vesc`. The loop is the method
  `EscapeVelocity.CalcEscapeVelocity`, proved against the function
  `EscapeVelocity.EscapeVelocities`.

The Python builtins used by the URL code are modelled in module `Text`
(`text.dfy`):

- `str.join` is `Join`;
- `str.removesuffix` is `RemoveSuffix`;
- `str(int)` is `IntToString`.

`Join` has an inverse, `Split`, and `IntToString` has an inverse, `ParseInt`.
Module `QueryDecoding` (`query_decoding.dfy`) reads a URL back into its query.
For every query whose names and values avoid the URL's own delimiters
(`QueryDecoding.WellFormed`), decoding the built URL gives back the original
query. So the URL carries the columns, table, where entries (in order) and
row count faithfully, and two different such queries never get the same URL.

Files:

- `text.dfy`
- `exo_query.dfy`
- `query_decoding.dfy`
- `escape_velocity.dfy`

## Model

| member | source | states |
|---|---|---|
| `Text.RemoveSuffix` | exo_escape_velocity.py:60 | `removesuffix` cuts one copy of a non-empty suffix that ends the string. It returns the string unchanged when the suffix is absent or empty. |
| `Text.RemoveSuffixOfAppended` | exo_escape_velocity.py:60 | Removing a suffix that was just appended gives back exactly the original string, for every suffix. Only one copy of the suffix is removed. |
| `Text.Join` | exo_escape_velocity.py:46-51 | Definition of `",+".join(select_strs)`, without a contract of its own. It is constrained by `Text.JoinSnoc`, `Text.JoinEndsWithLast`, `Text.JoinSplit` and `Text.SplitJoin`. |
| `Text.JoinSnoc` | exo_escape_velocity.py:47 | Joining one more part onto a non-empty list adds exactly one separator and then that part. |
| `Text.JoinEndsWithLast` | exo_escape_velocity.py:47 | A joined non-empty list ends with its last part. |
| `Text.JoinSplit` | exo_escape_velocity.py:47 | Partner of `Join` used by the decoder (the source only joins): splitting on a character and joining the pieces with that character gives back the string. |
| `Text.SplitJoin` | exo_escape_velocity.py:47 | Partner of `Join` used by the decoder: joining a non-empty list of pieces free of `c` with `c`, then splitting on `c`, gives back the list. |
| `Text.Split` | exo_escape_velocity.py:47 | Not in the source: the decoder's inverse of line 47's `join`. A split always yields at least one piece, and no piece contains the separator. |
| `Text.SplitConcat` | exo_escape_velocity.py:47 | Not in the source: a decoder lemma about the inverse of `join`. A separator character between two strings puts their pieces side by side. |
| `Text.NatToString` | exo_escape_velocity.py:47 | The decimal rendering of a natural number is non-empty, all digits, and has no leading zero. |
| `Text.IntToString` | exo_escape_velocity.py:47 | `str(select_specified_rows)` is non-empty. It starts with `-` exactly when the number is negative, and every other character is a digit. |
| `Text.ParseIntOfIntToString` | exo_escape_velocity.py:47 | Reading back `str(n)` gives `n` for every integer. |
| `Text.IntToStringInjective` | exo_escape_velocity.py:47 | Different row counts are rendered as different strings. |
| `ExoQuery.SelectClause` | exo_escape_velocity.py:46-51 | Definition of the select clause, without a contract of its own. It is constrained by `QueryDecoding.SplitSelectWithTop`, `QueryDecoding.SplitSelectWithoutTop`, `QueryDecoding.SplitQueryBody` and `QueryDecoding.ParseTopOfTokens`. |
| `ExoQuery.FromClause` | exo_escape_velocity.py:54 | Definition of the from clause, without a contract of its own. It is constrained by `QueryDecoding.SplitFromWhere`. |
| `ExoQuery.ConditionText` | exo_escape_velocity.py:59 | Definition of one `key=value` entry, without a contract of its own. It is constrained by `QueryDecoding.SplitAtFirstOfJoined` and `QueryDecoding.ParseConditionListOfTokens`. |
| `ExoQuery.Terminated` | exo_escape_velocity.py:57-59 | Definition of the loop's string before `removesuffix`, without a contract of its own. It is constrained by `ExoQuery.TerminatedIsJoinPlusSeparator` and `ExoQuery.LoopStringThenRemoveSuffix`, and it is the loop invariant of `ExoQuery.BuildWhere`. |
| `ExoQuery.WhereClause` | exo_escape_velocity.py:57-60 | Definition of the where clause, without a contract of its own. It is constrained by `ExoQuery.BuildWhere`, `ExoQuery.LoopStringThenRemoveSuffix`, `QueryDecoding.SplitConditions`, `QueryDecoding.ParseConditionsOfTokens` and `QueryDecoding.DanglingWhereIffNoConditions`. |
| `ExoQuery.QueryUrl` | exo_escape_velocity.py:62 | Definition of the requested URL, without a contract of its own. It is constrained by `ExoQuery.BuildUrl`, `QueryDecoding.QueryPartOfUrl`, `QueryDecoding.UrlRoundTrip` and `QueryDecoding.UrlInjective`. |
| `ExoQuery.TerminatedIsJoinPlusSeparator` | exo_escape_velocity.py:57-59 | For a non-empty where list, the loop's string before `removesuffix` is the `+and+`-joined entries plus exactly one extra `+and+`. |
| `ExoQuery.LoopStringThenRemoveSuffix` | exo_escape_velocity.py:57-60 | `removesuffix` on the loop's string gives `where+` followed by the entries joined by `+and+`, in insertion order. For an empty list it leaves `where+` unchanged. |
| `ExoQuery.BuildWhere` | exo_escape_velocity.py:57-60 | The where loop followed by `removesuffix` returns exactly the where clause of the entries, in insertion order. |
| `ExoQuery.BuildUrl` | exo_escape_velocity.py:41-62 | The assembled URL is base + select + from + where + `&format=json`. It always starts with the TAP base URL and always ends with `&format=json`. |
| `QueryDecoding.SplitColumns` | exo_escape_velocity.py:47 | Split on `+`, the `",+"`-joined columns give one token per column, each but the last with its comma. An empty column list gives a single empty token. |
| `QueryDecoding.SplitConditions` | exo_escape_velocity.py:57-60 | Split on `+`, the `"+and+"`-joined entries give the `key=value` tokens with `and` between them. |
| `QueryDecoding.SplitFromWhere` | exo_escape_velocity.py:54-60 | The from and where clauses split into `from`, the table, `where` and the entry tokens. |
| `QueryDecoding.SplitColumnsFromWhere` | exo_escape_velocity.py:47-60 | The part after `select` and the optional row count splits into the column tokens and then the from/where tokens. |
| `QueryDecoding.SplitSelectWithTop` | exo_escape_velocity.py:46-47 | With a non-zero row count, the select clause splits into `select`, `top` and `str(n)`, followed by the pieces of the column list and of what comes after it. |
| `QueryDecoding.SplitSelectWithoutTop` | exo_escape_velocity.py:50-51 | With row count 0, the select clause splits into `select`, followed directly by the pieces of the column list. No `top` token is emitted. |
| `QueryDecoding.SplitQueryBody` | exo_escape_velocity.py:46-60 | The query splits on `+` into tokens in this order: `select`, then `top` and `str(n)` exactly when `n != 0`, then the column tokens, then `from`, the table, `where`, and the entry tokens. |
| `QueryDecoding.ParseTopOfTokens` | exo_escape_velocity.py:46-51 | The row count is recovered from the select tokens. It is `n` when `top n` was emitted (`n != 0`), and 0 when it was not. |
| `QueryDecoding.ParseColumnsOfTokens` | exo_escape_velocity.py:47-51 | The column list, empty or not, is recovered in order from its tokens. |
| `QueryDecoding.SplitAtFirstOfJoined` | exo_escape_velocity.py:59 | A `key=value` entry whose key has no `=` splits back into that key and value. |
| `QueryDecoding.ParseConditionListOfTokens` | exo_escape_velocity.py:57-60 | A non-empty where list is recovered in insertion order from its tokens. |
| `QueryDecoding.ParseConditionsOfTokens` | exo_escape_velocity.py:57-60 | The where list is recovered in order, and the lone empty token of an empty list reads back as no entries. |
| `QueryDecoding.ParseTokensOfQueryTokens` | exo_escape_velocity.py:46-60 | The token sequence of a well-formed query reads back as the same query. |
| `QueryDecoding.QueryPartOfUrl` | exo_escape_velocity.py:62 | Every URL starts with the TAP base URL and ends with `&format=json`. Cutting both off leaves exactly the query part (select, from and where clauses), which is what the decoder reads. |
| `QueryDecoding.UrlRoundTrip` | exo_escape_velocity.py:41-62 | Decoding the built URL of a well-formed query gives back the query: columns in order, table, where entries in insertion order, and row count. |
| `QueryDecoding.UrlInjective` | exo_escape_velocity.py:41-62 | Two well-formed queries with the same URL are the same query. |
| `QueryDecoding.EntriesEndWithoutPlus` | exo_escape_velocity.py:57-60 | For a well-formed non-empty where list, the joined entries are non-empty and do not end in `+`. No trailing `+and+` is left. |
| `QueryDecoding.DanglingWhereIffNoConditions` | exo_escape_velocity.py:57-62 | For a well-formed query, the URL ends in a dangling `+where+&format=json` exactly when the where list is empty. |
| `EscapeVelocity.MassKg` | exo_escape_velocity.py:122-128 | Definition of the mass scaled to kilograms, without a contract of its own. It is constrained by `EscapeVelocity.CalcEscapeVelocity`, `EscapeVelocity.EarthUnitsReadOnlyEarthFields` and `EscapeVelocity.JupiterUnitsReadOnlyJupiterFields`. |
| `EscapeVelocity.RadiusM` | exo_escape_velocity.py:122-128 | Definition of the radius scaled to metres, without a contract of its own. It is constrained by the same members as `EscapeVelocity.MassKg`. |
| `EscapeVelocity.Entry` | exo_escape_velocity.py:139 | Definition of the `[pl_name, velocity]` pair appended for one record, without a contract of its own. It is constrained by `EscapeVelocity.EscapeVelocities` and `EscapeVelocity.CalcEscapeVelocity`. |
| `EscapeVelocity.EscapeVelocities` | exo_escape_velocity.py:117-139 | `planet_data` has one entry per record. Entry `i` is the name of record `i` paired with the velocity of its scaled mass and radius. |
| `EscapeVelocity.CalcEscapeVelocity` | exo_escape_velocity.py:117-139 | The loop returns exactly one entry per record, in record order. Entry `i` carries `results[i]`'s `pl_name` and the formula applied to its unit-selected mass and radius, each times the matching Earth or Jupiter constant. |
| `EscapeVelocity.EarthUnitsReadOnlyEarthFields` | exo_escape_velocity.py:123-125 | In Earth units the result depends only on `pl_name`, `pl_bmasse` and `pl_rade`. |
| `EscapeVelocity.JupiterUnitsReadOnlyJupiterFields` | exo_escape_velocity.py:126-128 | In Jupiter units the result depends only on `pl_name`, `pl_bmassj` and `pl_radj`. |
| `EscapeVelocity.EscapeVelocitiesOfConcat` | exo_escape_velocity.py:117-139 | The list for two batches in sequence is their two lists in sequence. Records are processed independently and in order. |

## Left out

- The HTTP request, its headers, the status-code check and `sys.exit(1)` (exo_escape_velocity.py:65-88) are network I/O and process exit. The model stops at the URL.
- `get_vo_exodataset` (exo_escape_velocity.py:6-25) only wraps the pyvo TAP client, a foreign library. pyvo is not part of this model.
- The escape-velocity arithmetic (exo_escape_velocity.py:115, 131-137) is left out: the gravitational constant, the square root, the division by 1000 and the `np.float64` coercion. These are floating-point steps, so the whole formula is the function parameter `vesc`.
- EscapeVelocity.CalcEscapeVelocity: `vesc` is total, so the model always yields one entry per record. In the source, a selected radius of 0 makes `2*g*mass/radius` (exo_escape_velocity.py:131) raise `ZeroDivisionError` on Python floats, which aborts the whole call before anything is printed. With numpy values it gives an infinite velocity instead. A negative mass or radius gives a complex square root. None of these failures is modelled.
- The Earth and Jupiter constants (exo_escape_velocity.py:111-114) are exact reals in the model. Python's products such as `5.97219 * 10 ** 24` are doubles, so their rounding is not modelled.
- The `print` calls (exo_escape_velocity.py:63, 74, 82, 141) are console output. `calc_escape_velocity` returns nothing and only prints its list. The model returns the list instead.
- Missing keys and null or masked values in a record are not modelled. The source would raise on them or propagate masked values. The record type always carries all five fields, as the docstring of `calc_escape_velocity` says the results do.
- `calc_escape_velocity` skips no records and caps nothing: every record yields an entry. The only row cap in the script is the query's `top <n>` (exo_escape_velocity.py:46-47), which is modelled in `ExoQuery.SelectClause`. The TODO comments (exo_escape_velocity.py:23, 85-86) only mention cleaning missing values, which the code does not do, so the model does not do it either.
- The `__main__` driver (exo_escape_velocity.py:143-161) is fixed configuration plus a choice between the two I/O paths.
- Python dictionary keys are unique, but the model's where list allows repeated keys. The builder never relies on uniqueness, so every stated property holds either way.
- `QueryDecoding.UrlRoundTrip` only covers well-formed queries. Column names must be non-empty and free of `+` and `,`. The table name must be free of `+`. Where keys must be free of `+` and `=`, and where values free of `+`. Outside these limits the URL can be ambiguous, for example a value containing `+and+`. The URL builder itself is modelled for every input.
