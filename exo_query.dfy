/**
 * The TAP/ADQL query URL that `get_exodataset` sends to the NASA Exoplanet
 * Archive. The URL is
 *
 *   BaseUrl + select clause + from clause + where clause + FormatSuffix
 *
 * where `+` stands for a space inside the query. The where clause is built
 * by a loop that appends `key=value+and+` per entry of the where dictionary
 * and then strips one trailing `+and+` (`BuildWhere`); the other parts are
 * single expressions. `ParseUrl` reads a URL back into its query, which
 * shows that the URL carries the query faithfully.
 */
module ExoQuery {
  import opened Text

  const BaseUrl := "https://exoplanetarchive.ipac.caltech.edu/TAP/sync?query="
  const FormatSuffix := "&format=json"
  const AndSeparator := "+and+"

  /** What `get_exodataset` is asked for: the selected columns, the table,
      the where dictionary as its (key, value) entries in insertion order,
      and `select_specified_rows` (0 means all rows). */
  datatype Query = Query(
    columns: seq<string>,
    table: string,
    conditions: seq<(string, string)>,
    topRows: int)

  // ---------------------------------------------------------------------
  // The clauses
  // ---------------------------------------------------------------------

  /** `"select+top+<n>+" + ",+".join(columns) + "+"` when a row count is
      given, `"select+" + ",+".join(columns) + "+"` otherwise. */
  function SelectClause(columns: seq<string>, topRows: int): string
  {
    if topRows != 0 then "select+top+" + IntToString(topRows) + "+" + Join(",+", columns) + "+"
    else "select+" + Join(",+", columns) + "+"
  }

  function FromClause(table: string): string
  {
    "from+" + table + "+"
  }

  /** One where-dictionary entry as it appears in the query. */
  function ConditionText(condition: (string, string)): string
  {
    condition.0 + "=" + condition.1
  }

  function ConditionTexts(conditions: seq<(string, string)>): (r: seq<string>)
    ensures |r| == |conditions|
    ensures forall i :: 0 <= i < |r| ==> r[i] == ConditionText(conditions[i])
  {
    seq(|conditions|, i requires 0 <= i < |conditions| => ConditionText(conditions[i]))
  }

  /** The where clause as the loop and `removesuffix` leave it: `"where+"`
      followed by the entries joined by `"+and+"`. With no entries it is
      `"where+"` alone. */
  function WhereClause(conditions: seq<(string, string)>): string
  {
    "where+" + Join(AndSeparator, ConditionTexts(conditions))
  }

  /** The URL `get_exodataset` requests for a query. */
  function QueryUrl(q: Query): string
  {
    BaseUrl + SelectClause(q.columns, q.topRows) + FromClause(q.table)
      + WhereClause(q.conditions) + FormatSuffix
  }

  // ---------------------------------------------------------------------
  // The where loop and the URL assembly
  // ---------------------------------------------------------------------

  /** What the loop has appended after the given entries: each entry
      followed by its own `"+and+"`. */
  function Terminated(conditions: seq<(string, string)>): string
  {
    if |conditions| == 0 then ""
    else
      var n := |conditions|;
      Terminated(conditions[..n - 1]) + ConditionText(conditions[n - 1]) + AndSeparator
  }

  /** Before `removesuffix`, the loop's string for a non-empty where list
      has exactly one `"+and+"` too many at the end. */
  lemma {:induction false} TerminatedIsJoinPlusSeparator(conditions: seq<(string, string)>)
    requires |conditions| > 0
    ensures Terminated(conditions) == Join(AndSeparator, ConditionTexts(conditions)) + AndSeparator
  {
    var n := |conditions|;
    var init := conditions[..n - 1];
    var last := ConditionText(conditions[n - 1]);
    if n == 1 {
      assert ConditionTexts(conditions) == [last];
    } else {
      TerminatedIsJoinPlusSeparator(init);
      assert ConditionTexts(conditions) == ConditionTexts(init) + [last];
      JoinSnoc(AndSeparator, ConditionTexts(init), last);
    }
  }

  /** `removesuffix("+and+")` applied to the loop's string gives the where
      clause: one separator is removed from a non-empty list, and nothing
      from an empty one, whose `"where+"` stays dangling. */
  lemma LoopStringThenRemoveSuffix(conditions: seq<(string, string)>)
    ensures RemoveSuffix("where+" + Terminated(conditions), AndSeparator) == WhereClause(conditions)
  {
    if |conditions| == 0 {
      assert !EndsWith("where+", AndSeparator) by {
        assert "where+"[1..] != AndSeparator;
      }
    } else {
      TerminatedIsJoinPlusSeparator(conditions);
      var joined := Join(AndSeparator, ConditionTexts(conditions));
      assert "where+" + Terminated(conditions) == ("where+" + joined) + AndSeparator;
      RemoveSuffixOfAppended("where+" + joined, AndSeparator);
    }
  }

  /** The where-clause loop of `get_exodataset`. */
  method BuildWhere(conditions: seq<(string, string)>) returns (whereString: string)
    ensures whereString == WhereClause(conditions)
  {
    whereString := "where+" + "";
    for i := 0 to |conditions|
      invariant whereString == "where+" + Terminated(conditions[..i])
    {
      var (key, value) := conditions[i];
      whereString := whereString + key + "=" + value + AndSeparator;
      assert conditions[..i + 1][..i] == conditions[..i];
    }
    assert conditions[..|conditions|] == conditions;
    LoopStringThenRemoveSuffix(conditions);
    whereString := RemoveSuffix(whereString, AndSeparator);
  }

  /** The URL assembly of `get_exodataset`, up to the request it is used for. */
  method BuildUrl(selectStrs: seq<string>, tableName: string,
                  whereDict: seq<(string, string)>, selectSpecifiedRows: int)
    returns (url: string)
    ensures url == QueryUrl(Query(selectStrs, tableName, whereDict, selectSpecifiedRows))
    ensures StartsWith(url, BaseUrl) && EndsWith(url, FormatSuffix)
  {
    var selectString;
    if selectSpecifiedRows != 0 {
      selectString := "select+top+" + IntToString(selectSpecifiedRows) + "+" + Join(",+", selectStrs) + "+";
    } else {
      selectString := "select+" + Join(",+", selectStrs) + "+";
    }
    var fromString := "from+" + tableName + "+";
    var whereString := BuildWhere(whereDict);
    url := BaseUrl + selectString + fromString + whereString + FormatSuffix;
    var middle := selectString + fromString + whereString;
    assert url == BaseUrl + middle + FormatSuffix;
    assert url[..|BaseUrl|] == BaseUrl;
    assert url[|url| - |FormatSuffix|..] == FormatSuffix;
  }
}
