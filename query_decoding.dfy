/**
 * Reading a query URL back into its query. The query part of the URL is
 * split on `+` (the URL's spaces) into tokens, and the select, from and
 * where clauses are recognised from the tokens. For every query whose
 * names and values keep clear of the URL's delimiters (`WellFormed`),
 * decoding the URL `get_exodataset` builds gives back the query, so two
 * different such queries never yield the same URL.
 */
module QueryDecoding {
  import opened Text
  import opened ExoQuery

  /** A column name is non-empty and holds neither `+` nor `,`. */
  predicate WellFormedColumn(column: string)
  {
    |column| > 0 && '+' !in column && ',' !in column
  }

  /** A where key holds neither `+` nor `=`, and its value holds no `+`. */
  predicate WellFormedCondition(condition: (string, string))
  {
    '+' !in condition.0 && '=' !in condition.0 && '+' !in condition.1
  }

  predicate WellFormedColumns(columns: seq<string>)
  {
    forall i :: 0 <= i < |columns| ==> WellFormedColumn(columns[i])
  }

  predicate WellFormedConditions(conditions: seq<(string, string)>)
  {
    forall i :: 0 <= i < |conditions| ==> WellFormedCondition(conditions[i])
  }

  /** Queries whose parts can be told apart in the URL. */
  predicate WellFormed(q: Query)
  {
    WellFormedColumns(q.columns) && '+' !in q.table && WellFormedConditions(q.conditions)
  }

  // ---------------------------------------------------------------------
  // The tokens of each clause
  // ---------------------------------------------------------------------

  function TopTokens(topRows: int): seq<string>
  {
    if topRows != 0 then ["top", IntToString(topRows)] else []
  }

  /** Every column but the last carries the comma of `",+"`; no columns leave one empty token. */
  function ColumnTokens(columns: seq<string>): seq<string>
  {
    if |columns| == 0 then [""]
    else if |columns| == 1 then [columns[0]]
    else [columns[0] + ","] + ColumnTokens(columns[1..])
  }

  /** The entries with an `and` token between neighbours; no entries leave one empty token. */
  function ConditionTokens(conditions: seq<(string, string)>): seq<string>
  {
    if |conditions| == 0 then [""]
    else if |conditions| == 1 then [ConditionText(conditions[0])]
    else [ConditionText(conditions[0]), "and"] + ConditionTokens(conditions[1..])
  }

  /** The tokens from the `from` keyword on. */
  function FromWhereTokens(q: Query): seq<string>
  {
    ["from", q.table, "where"] + ConditionTokens(q.conditions)
  }

  function QueryTokens(q: Query): seq<string>
  {
    ["select"] + (TopTokens(q.topRows) + (ColumnTokens(q.columns) + FromWhereTokens(q)))
  }

  /** The query part of the URL, between `BaseUrl` and `FormatSuffix`. */
  function QueryBody(q: Query): string
  {
    SelectClause(q.columns, q.topRows) + FromClause(q.table) + WhereClause(q.conditions)
  }

  lemma {:induction false} SplitColumns(columns: seq<string>)
    requires WellFormedColumns(columns)
    ensures Split(Join(",+", columns), '+') == ColumnTokens(columns)
  {
    if |columns| == 1 {
      SplitNoSeparator(columns[0], '+');
    } else if |columns| > 1 {
      var c := columns[0];
      var rest := Join(",+", columns[1..]);
      assert c + ",+" + rest == (c + ",") + ['+'] + rest;
      SplitConcat(c + ",", rest, '+');
      SplitNoSeparator(c + ",", '+');
      SplitColumns(columns[1..]);
    }
  }

  lemma {:induction false} SplitConditions(conditions: seq<(string, string)>)
    requires WellFormedConditions(conditions)
    ensures Split(Join(AndSeparator, ConditionTexts(conditions)), '+') == ConditionTokens(conditions)
  {
    var texts := ConditionTexts(conditions);
    if |conditions| > 0 {
      assert WellFormedCondition(conditions[0]);
      SplitNoSeparator(texts[0], '+');
    }
    if |conditions| > 1 {
      assert texts[1..] == ConditionTexts(conditions[1..]);
      var rest := Join(AndSeparator, texts[1..]);
      assert texts[0] + AndSeparator + rest == texts[0] + ['+'] + ("and" + ['+'] + rest);
      SplitConcat(texts[0], "and" + ['+'] + rest, '+');
      SplitConcat("and", rest, '+');
      SplitNoSeparator("and", '+');
      SplitConditions(conditions[1..]);
    }
  }

  /** The tokens from the `from` keyword on. */
  lemma SplitFromWhere(q: Query)
    requires WellFormed(q)
    ensures Split(FromClause(q.table) + WhereClause(q.conditions), '+') == FromWhereTokens(q)
  {
    var where := Join(AndSeparator, ConditionTexts(q.conditions));
    var r5 := "where" + ['+'] + where;
    var r4 := q.table + ['+'] + r5;
    var r3 := "from" + ['+'] + r4;
    assert FromClause(q.table) + WhereClause(q.conditions) == r3;
    SplitConditions(q.conditions);
    SplitCons("where", where, '+');
    SplitCons(q.table, r5, '+');
    SplitCons("from", r4, '+');
  }

  /** The tokens after the select keyword and the optional row count. */
  lemma SplitColumnsFromWhere(q: Query)
    requires WellFormed(q)
    ensures Split(Join(",+", q.columns) + ['+'] + (FromClause(q.table) + WhereClause(q.conditions)), '+')
         == ColumnTokens(q.columns) + FromWhereTokens(q)
  {
    var r3 := FromClause(q.table) + WhereClause(q.conditions);
    SplitFromWhere(q);
    SplitColumns(q.columns);
    SplitConcat(Join(",+", q.columns), r3, '+');
  }

  lemma SelectShapeWithTop(n: string, columns: string, r3: string)
    ensures "select+top+" + n + "+" + (columns + ['+'] + r3)
         == "select" + ['+'] + ("top" + ['+'] + (n + ['+'] + (columns + ['+'] + r3)))
  {
  }

  lemma SelectShapeWithoutTop(columns: string, r3: string)
    ensures "select+" + (columns + ['+'] + r3) == "select" + ['+'] + (columns + ['+'] + r3)
  {
  }

  lemma SplitTopTokens(n: string, r2: string)
    requires '+' !in n
    ensures Split("select" + ['+'] + ("top" + ['+'] + (n + ['+'] + r2)), '+')
         == ["select"] + (["top"] + ([n] + Split(r2, '+')))
  {
    var r1 := n + ['+'] + r2;
    SplitCons(n, r2, '+');
    SplitCons("top", r1, '+');
    SplitCons("select", "top" + ['+'] + r1, '+');
  }

  lemma SplitSelectWithTop(n: string, columns: string, r3: string)
    requires '+' !in n
    ensures Split("select+top+" + n + "+" + (columns + ['+'] + r3), '+')
         == ["select"] + (["top"] + ([n] + Split(columns + ['+'] + r3, '+')))
  {
    SelectShapeWithTop(n, columns, r3);
    SplitTopTokens(n, columns + ['+'] + r3);
  }

  lemma SplitSelectWithoutTop(columns: string, r3: string)
    ensures Split("select+" + (columns + ['+'] + r3), '+') == ["select"] + Split(columns + ['+'] + r3, '+')
  {
    SelectShapeWithoutTop(columns, r3);
    SplitCons("select", columns + ['+'] + r3, '+');
  }

  lemma QueryBodyShape(q: Query)
    ensures var rest := Join(",+", q.columns) + ['+'] + (FromClause(q.table) + WhereClause(q.conditions));
      QueryBody(q) == if q.topRows != 0 then "select+top+" + IntToString(q.topRows) + "+" + rest
                      else "select+" + rest
  {
  }

  lemma QueryTokensShape(q: Query)
    ensures var rest := ColumnTokens(q.columns) + FromWhereTokens(q);
      QueryTokens(q) == if q.topRows != 0 then ["select"] + (["top"] + ([IntToString(q.topRows)] + rest))
                        else ["select"] + rest
  {
  }

  /** Splitting the query part on `+` gives the clauses' tokens in order. */
  lemma SplitQueryBody(q: Query)
    requires WellFormed(q)
    ensures Split(QueryBody(q), '+') == QueryTokens(q)
  {
    var columns := Join(",+", q.columns);
    var r3 := FromClause(q.table) + WhereClause(q.conditions);
    QueryBodyShape(q);
    QueryTokensShape(q);
    SplitColumnsFromWhere(q);
    if q.topRows != 0 {
      SplitSelectWithTop(IntToString(q.topRows), columns, r3);
    } else {
      SplitSelectWithoutTop(columns, r3);
    }
  }

  // ---------------------------------------------------------------------
  // Recognising the tokens
  // ---------------------------------------------------------------------

  /** An optional `top <n>` with a non-zero `n`; a lone column named `top`
      is told apart by the `from` that follows it. */
  function ParseTop(tokens: seq<string>): Option<(int, seq<string>)>
  {
    if |tokens| >= 2 && tokens[0] == "top" && tokens[1] != "from" then
      match ParseInt(tokens[1])
      case Some(n) => if n != 0 then Some((n, tokens[2..])) else None
      case None => None
    else Some((0, tokens))
  }

  function ParseColumns(tokens: seq<string>): Option<(seq<string>, seq<string>)>
  {
    if |tokens| == 0 then None
    else
      var t := tokens[0];
      if |t| > 0 && t[|t| - 1] == ',' then
        match ParseColumns(tokens[1..])
        case Some((columns, rest)) => Some(([t[..|t| - 1]] + columns, rest))
        case None => None
      else if t == "" then Some(([], tokens[1..]))
      else Some(([t], tokens[1..]))
  }

  /** The text before and after the first `c` in `s`, if there is one. */
  function SplitAtFirst(s: string, c: char): Option<(string, string)>
  {
    if |s| == 0 then None
    else if s[0] == c then Some(("", s[1..]))
    else
      match SplitAtFirst(s[1..], c)
      case Some((before, after)) => Some(([s[0]] + before, after))
      case None => None
  }

  function ParseConditionList(tokens: seq<string>): Option<seq<(string, string)>>
    decreases |tokens|
  {
    if |tokens| == 0 then None
    else
      match SplitAtFirst(tokens[0], '=')
      case None => None
      case Some(condition) =>
        if |tokens| == 1 then Some([condition])
        else if tokens[1] != "and" then None
        else
          match ParseConditionList(tokens[2..])
          case Some(rest) => Some([condition] + rest)
          case None => None
  }

  function ParseConditions(tokens: seq<string>): Option<seq<(string, string)>>
  {
    if tokens == [""] then Some([]) else ParseConditionList(tokens)
  }

  function ParseTokens(tokens: seq<string>): Option<Query>
  {
    if |tokens| == 0 || tokens[0] != "select" then None
    else
      match ParseTop(tokens[1..])
      case None => None
      case Some((topRows, afterTop)) =>
        match ParseColumns(afterTop)
        case None => None
        case Some((columns, afterColumns)) =>
          if |afterColumns| < 3 || afterColumns[0] != "from" || afterColumns[2] != "where" then None
          else
            match ParseConditions(afterColumns[3..])
            case None => None
            case Some(conditions) => Some(Query(columns, afterColumns[1], conditions, topRows))
  }

  /** The query a URL asks for, or `None` when the URL is not of the shape `get_exodataset` builds. */
  function ParseUrl(url: string): Option<Query>
  {
    if |BaseUrl| + |FormatSuffix| <= |url| && StartsWith(url, BaseUrl) && EndsWith(url, FormatSuffix) then
      ParseTokens(Split(url[|BaseUrl|..|url| - |FormatSuffix|], '+'))
    else None
  }

  // ---------------------------------------------------------------------
  // Round trips
  // ---------------------------------------------------------------------

  lemma ParseTopOfTokens(topRows: int, columns: seq<string>, rest: seq<string>)
    requires WellFormedColumns(columns)
    requires |rest| > 0 && rest[0] == "from"
    ensures ParseTop(TopTokens(topRows) + ColumnTokens(columns) + rest) == Some((topRows, ColumnTokens(columns) + rest))
  {
    var tokens := TopTokens(topRows) + ColumnTokens(columns) + rest;
    if topRows != 0 {
      var n := IntToString(topRows);
      assert tokens[1] == n;
      assert n[0] != "from"[0];
      ParseIntOfIntToString(topRows);
      assert tokens[2..] == ColumnTokens(columns) + rest;
    } else if |columns| == 1 {
      assert tokens == ColumnTokens(columns) + rest;
      assert tokens[1] == "from";
    } else if |columns| > 1 {
      assert tokens == ColumnTokens(columns) + rest;
      var first := columns[0] + ",";
      assert tokens[0] == first;
      assert first[|first| - 1] != "top"[2];
    }
  }

  lemma {:induction false} ParseColumnsOfTokens(columns: seq<string>, rest: seq<string>)
    requires WellFormedColumns(columns)
    ensures ParseColumns(ColumnTokens(columns) + rest) == Some((columns, rest))
  {
    var tokens := ColumnTokens(columns) + rest;
    if |columns| == 1 {
      var c := columns[0];
      assert WellFormedColumn(c);
      assert c[|c| - 1] in c;
      assert tokens == [c] + rest;
      assert tokens[1..] == rest;
      assert columns == [c];
    } else if |columns| > 1 {
      var c := columns[0];
      var t := c + ",";
      assert t[..|t| - 1] == c;
      assert tokens[1..] == ColumnTokens(columns[1..]) + rest;
      ParseColumnsOfTokens(columns[1..], rest);
      assert [c] + columns[1..] == columns;
    } else {
      assert tokens[0] == "";
      assert tokens[1..] == rest;
    }
  }

  lemma {:induction false} SplitAtFirstOfJoined(before: string, after: string, c: char)
    requires c !in before
    ensures SplitAtFirst(before + [c] + after, c) == Some((before, after))
  {
    var s := before + [c] + after;
    if |before| == 0 {
      assert s[1..] == after;
    } else {
      assert s[0] == before[0] && s[0] != c;
      assert s[1..] == before[1..] + [c] + after;
      SplitAtFirstOfJoined(before[1..], after, c);
      assert [before[0]] + before[1..] == before;
    }
  }

  lemma {:induction false} ParseConditionListOfTokens(conditions: seq<(string, string)>)
    requires |conditions| > 0 && WellFormedConditions(conditions)
    ensures ParseConditionList(ConditionTokens(conditions)) == Some(conditions)
  {
    var tokens := ConditionTokens(conditions);
    var (key, value) := conditions[0];
    assert WellFormedCondition(conditions[0]);
    assert ConditionText(conditions[0]) == key + ['='] + value;
    SplitAtFirstOfJoined(key, value, '=');
    if |conditions| == 1 {
      assert conditions == [(key, value)];
    } else {
      assert tokens[2..] == ConditionTokens(conditions[1..]);
      ParseConditionListOfTokens(conditions[1..]);
      assert [conditions[0]] + conditions[1..] == conditions;
    }
  }

  lemma ParseConditionsOfTokens(conditions: seq<(string, string)>)
    requires WellFormedConditions(conditions)
    ensures ParseConditions(ConditionTokens(conditions)) == Some(conditions)
  {
    if |conditions| > 0 {
      var first := ConditionText(conditions[0]);
      assert first[|conditions[0].0|] == '=';
      assert ConditionTokens(conditions)[0] != "";
      ParseConditionListOfTokens(conditions);
    }
  }

  /** The tokens of a well-formed query read back as that query. */
  lemma ParseTokensOfQueryTokens(q: Query)
    requires WellFormed(q)
    ensures ParseTokens(QueryTokens(q)) == Some(q)
  {
    var tokens := QueryTokens(q);
    var afterColumns := FromWhereTokens(q);
    assert tokens[1..] == TopTokens(q.topRows) + ColumnTokens(q.columns) + afterColumns;
    ParseTopOfTokens(q.topRows, q.columns, afterColumns);
    ParseColumnsOfTokens(q.columns, afterColumns);
    assert afterColumns[3..] == ConditionTokens(q.conditions);
    ParseConditionsOfTokens(q.conditions);
  }

  lemma Framed(front: string, middle: string, back: string)
    requires |front| > 0 && |back| > 0
    ensures var s := front + middle + back;
      |front| + |back| <= |s| && StartsWith(s, front) && EndsWith(s, back)
      && s[|front|..|s| - |back|] == middle
  {
    var s := front + middle + back;
    assert s[..|front|] == front;
    assert s[|s| - |back|..] == back;
  }

  /** Decoding the URL `get_exodataset` builds gives back the query: the
      columns in order, the table, the where entries in insertion order and
      the row count (0 when none was asked for). */
  lemma UrlRoundTrip(q: Query)
    requires WellFormed(q)
    ensures ParseUrl(QueryUrl(q)) == Some(q)
  {
    QueryPartOfUrl(q);
    SplitQueryBody(q);
    ParseTokensOfQueryTokens(q);
  }

  /** Different well-formed queries are sent as different URLs. */
  lemma UrlInjective(q1: Query, q2: Query)
    requires WellFormed(q1) && WellFormed(q2)
    requires QueryUrl(q1) == QueryUrl(q2)
    ensures q1 == q2
  {
    UrlRoundTrip(q1);
    UrlRoundTrip(q2);
  }

  /** The URL is the query part between the fixed base and the fixed suffix. */
  lemma QueryUrlFraming(q: Query)
    ensures QueryUrl(q) == BaseUrl + QueryBody(q) + FormatSuffix
  {
  }

  /** Every URL starts with the fixed base and ends with the fixed suffix,
      and cutting both off leaves exactly the query part. */
  lemma QueryPartOfUrl(q: Query)
    ensures var url := QueryUrl(q);
      |BaseUrl| + |FormatSuffix| <= |url| && StartsWith(url, BaseUrl) && EndsWith(url, FormatSuffix)
      && url[|BaseUrl|..|url| - |FormatSuffix|] == QueryBody(q)
  {
    QueryUrlFraming(q);
    Framed(BaseUrl, QueryBody(q), FormatSuffix);
  }

  /** The URL around its where entries. */
  lemma UrlAroundWhereEntries(q: Query)
    ensures QueryUrl(q) == (BaseUrl + SelectClause(q.columns, q.topRows) + "from+" + q.table)
      + "+where+" + Join(AndSeparator, ConditionTexts(q.conditions)) + FormatSuffix
  {
  }

  lemma EndsWithDangling(front: string, suffix: string)
    ensures EndsWith(front + "+where+" + "" + suffix, "+where+" + suffix)
  {
    var s := front + "+where+" + "" + suffix;
    assert s == front + ("+where+" + suffix);
  }

  lemma NotEndsWithDangling(front: string, entries: string, suffix: string)
    requires |entries| > 0 && entries[|entries| - 1] != '+'
    ensures !EndsWith(front + "+where+" + entries + suffix, "+where+" + suffix)
  {
    var s := front + "+where+" + entries + suffix;
    var tail := "+where+" + suffix;
    assert s[|s| - |suffix| - 1] == entries[|entries| - 1];
    if EndsWith(s, tail) {
      assert s[|s| - |suffix| - 1] == s[|s| - |tail|..][|tail| - |suffix| - 1];
    }
  }

  /** The last where entry never ends in `+`, so neither does the where clause. */
  lemma EntriesEndWithoutPlus(conditions: seq<(string, string)>)
    requires WellFormedConditions(conditions) && |conditions| > 0
    ensures var entries := Join(AndSeparator, ConditionTexts(conditions));
      |entries| > 0 && entries[|entries| - 1] != '+'
  {
    var texts := ConditionTexts(conditions);
    var n := |conditions|;
    var last := texts[n - 1];
    var (key, value) := conditions[n - 1];
    assert WellFormedCondition(conditions[n - 1]);
    assert last == key + "=" + value;
    if |value| > 0 {
      assert last[|last| - 1] == value[|value| - 1];
    }
    JoinEndsWithLast(AndSeparator, texts);
    var entries := Join(AndSeparator, texts);
    assert entries[|entries| - 1] == entries[|entries| - |last|..][|last| - 1];
  }

  /** With an empty where dictionary the URL ends in a dangling `where+`
      (removesuffix finds no `+and+` to strip); for a well-formed query
      that happens with no other where dictionary. */
  lemma DanglingWhereIffNoConditions(q: Query)
    requires WellFormed(q)
    ensures EndsWith(QueryUrl(q), "+where+" + FormatSuffix) <==> q.conditions == []
  {
    var front := BaseUrl + SelectClause(q.columns, q.topRows) + "from+" + q.table;
    UrlAroundWhereEntries(q);
    if q.conditions == [] {
      assert Join(AndSeparator, ConditionTexts(q.conditions)) == "";
      EndsWithDangling(front, FormatSuffix);
    } else {
      EntriesEndWithoutPlus(q.conditions);
      NotEndsWithDangling(front, Join(AndSeparator, ConditionTexts(q.conditions)), FormatSuffix);
    }
  }
}
