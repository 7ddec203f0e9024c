/**
 * TSimpleDynamicSql: a mapped statement whose SQL text holds dynamic tokens.
 * For a non-null parameter object, each mapping in turn replaces the first
 * remaining token with the value of the mapped property, and the result is
 * written back to the prepared statement.
 */
module DynamicSql {
  import opened Wrappers
  import opened Text

  /** TPropertyAccess::get on the parameter object: the value of a property by name. */
  type PropertyReader = string -> string

  /** The SQL after substituting `values` in order, one first occurrence of `token` per value. */
  function SubstituteAll(sql: string, token: string, values: seq<string>): (r: string)
    ensures values == [] ==> r == sql
    ensures token != [] && IndexOf(sql, token).None? ==> r == sql
  {
    if values == [] then sql
    else ReplaceFirst(SubstituteAll(sql, token, values[..|values| - 1]), token, values[|values| - 1])
  }

  /** The property values the mappings ask for, in mapping order. */
  function MappedValues(mappings: seq<string>, read: PropertyReader): (values: seq<string>)
    ensures |values| == |mappings|
  {
    seq(|mappings|, i requires 0 <= i < |mappings| => read(mappings[i]))
  }

  // ---------------------------------------------------------------- templates

  /**
   * SQL laid out as pieces with a slot between each two: slot i holds fills[i]
   * when there is one, and the token otherwise.
   */
  function Template(pieces: seq<string>, fills: seq<string>, token: string): string
    requires |pieces| >= 1
    decreases |pieces|
  {
    if |pieces| == 1 then pieces[0]
    else pieces[0] + (if fills != [] then fills[0] else token) +
         Template(pieces[1..], if fills != [] then fills[1..] else [], token)
  }

  /** None of the texts holds the character c. */
  predicate FreeOf(texts: seq<string>, c: char) {
    forall i :: 0 <= i < |texts| ==> c !in texts[i]
  }

  /** Searching after a prefix is searching the rest, shifted by the prefix's length. */
  lemma {:induction false} IndexFromShifts<T>(a: seq<T>, s: seq<T>, token: seq<T>, j: nat)
    ensures IndexFrom(s, token, j).None? ==> IndexFrom(a + s, token, |a| + j).None?
    ensures IndexFrom(s, token, j).Some? ==> IndexFrom(a + s, token, |a| + j) == Some(|a| + IndexFrom(s, token, j).value)
    decreases |s| - j
  {
    var w := a + s;
    if j + |token| <= |s| {
      assert MatchesAt(w, token, |a| + j) <==> MatchesAt(s, token, j) by {
        assert forall i :: |a| <= i < |w| ==> w[i] == s[i - |a|];
      }
      if !MatchesAt(s, token, j) {
        IndexFromShifts(a, s, token, j + 1);
      }
    }
  }

  /** No occurrence of a non-empty token starts inside text that lacks its first character. */
  lemma {:induction false} IndexFromSkipsPrefix<T>(a: seq<T>, s: seq<T>, token: seq<T>, j: nat)
    requires token != [] && token[0] !in a && j <= |a|
    ensures IndexFrom(a + s, token, j) == IndexFrom(a + s, token, |a|)
    decreases |a| - j
  {
    var w := a + s;
    if j < |a| && j + |token| <= |w| {
      assert !MatchesAt(w, token, j) by {
        assert w[j + 0] == a[j];
      }
      IndexFromSkipsPrefix(a, s, token, j + 1);
    }
  }

  /** The first occurrence of a non-empty token after text that lacks its first character lies in the rest. */
  lemma IndexOfAfterPrefix<T>(a: seq<T>, s: seq<T>, token: seq<T>)
    requires token != [] && token[0] !in a
    ensures IndexOf(s, token).None? ==> IndexOf(a + s, token).None?
    ensures IndexOf(s, token).Some? ==> IndexOf(a + s, token) == Some(|a| + IndexOf(s, token).value)
  {
    IndexFromSkipsPrefix(a, s, token, 0);
    IndexFromShifts(a, s, token, 0);
  }

  /** Replacing the first token after text that lacks the token's first character leaves that text in front. */
  lemma ReplaceFirstSkipsPrefix<T>(a: seq<T>, s: seq<T>, token: seq<T>, v: seq<T>)
    requires token != [] && token[0] !in a
    ensures ReplaceFirst(a + s, token, v) == a + ReplaceFirst(s, token, v)
  {
    IndexOfAfterPrefix(a, s, token);
    if IndexOf(s, token).Some? {
      ReplaceShifted(a, s, token, v, IndexOf(s, token).value);
    }
  }

  lemma ReplaceShifted<T>(a: seq<T>, s: seq<T>, token: seq<T>, v: seq<T>, i: nat)
    requires IndexOf(s, token) == Some(i) && IndexOf(a + s, token) == Some(|a| + i)
    ensures ReplaceFirst(a + s, token, v) == a + ReplaceFirst(s, token, v)
  {
    SpliceAfterPrefix(a, s, i, |token|, v);
  }

  /** A token at the very start is the first occurrence. */
  lemma ReplaceLeadingToken<T>(token: seq<T>, tail: seq<T>, v: seq<T>)
    ensures ReplaceFirst(token + tail, token, v) == v + tail
  {
    var w := token + tail;
    assert MatchesAt(w, token, 0);
    assert IndexOf(w, token) == Some(0);
    assert w[..0] == [] && w[|token|..] == tail;
  }

  /** Unfolding a template with at least two pieces. */
  lemma TemplateUnfolds(pieces: seq<string>, fills: seq<string>, token: string)
    requires |pieces| >= 2
    ensures fills == [] ==> Template(pieces, fills, token) == pieces[0] + token + Template(pieces[1..], [], token)
    ensures fills != [] ==> Template(pieces, fills, token) == pieces[0] + fills[0] + Template(pieces[1..], fills[1..], token)
  {
  }

  /**
   * In a template whose pieces and fills lack the token's first character, the
   * first token is the first unfilled slot: replacing it fills that slot.
   */
  lemma {:induction false} FillNextSlot(pieces: seq<string>, fills: seq<string>, token: string, v: string)
    requires |pieces| >= 1 && |fills| < |pieces| - 1
    requires token != [] && FreeOf(pieces, token[0]) && FreeOf(fills, token[0]) && token[0] !in v
    ensures ReplaceFirst(Template(pieces, fills, token), token, v) == Template(pieces, fills + [v], token)
    decreases |pieces|
  {
    var rest := pieces[1..];
    assert FreeOf(rest, token[0]) by {
      assert forall i :: 0 <= i < |rest| ==> rest[i] == pieces[i + 1];
    }
    assert token[0] !in pieces[0];
    TemplateUnfolds(pieces, fills, token);
    TemplateUnfolds(pieces, fills + [v], token);
    if fills == [] {
      var tail := Template(rest, [], token);
      var before := Template(pieces, [], token);
      var after := Template(pieces, [v], token);
      assert [v][1..] == [];
      assert after == pieces[0] + v + tail;
      assert before == pieces[0] + token + tail;
      AppendAssociates(pieces[0], token, tail);
      ReplaceFirstSkipsPrefix(pieces[0], token + tail, token, v);
      ReplaceLeadingToken(token, tail, v);
      AppendAssociates(pieces[0], v, tail);
    } else {
      var head := pieces[0] + fills[0];
      assert token[0] !in fills[0];
      assert token[0] !in head;
      var more := fills[1..];
      assert FreeOf(more, token[0]) by {
        assert forall i :: 0 <= i < |more| ==> more[i] == fills[i + 1];
      }
      FillNextSlot(rest, more, token, v);
      assert (fills + [v])[0] == fills[0] && (fills + [v])[1..] == more + [v];
      ReplaceFirstSkipsPrefix(head, Template(rest, more, token), token, v);
    }
  }

  /**
   * The mappings fill the tokens in order: with no more values than tokens,
   * value i replaces token i and every surplus token stays in the SQL.
   */
  lemma {:induction false} TokensFilledInOrder(pieces: seq<string>, values: seq<string>, token: string)
    requires |pieces| >= 1 && |values| <= |pieces| - 1
    requires token != [] && FreeOf(pieces, token[0]) && FreeOf(values, token[0])
    ensures SubstituteAll(Template(pieces, [], token), token, values) == Template(pieces, values, token)
    decreases |values|
  {
    if values != [] {
      var init := values[..|values| - 1];
      assert FreeOf(init, token[0]) by {
        assert forall i :: 0 <= i < |init| ==> init[i] == values[i];
      }
      var last := values[|values| - 1];
      var start := Template(pieces, [], token);
      assert SubstituteAll(start, token, values) == ReplaceFirst(SubstituteAll(start, token, init), token, last);
      TokensFilledInOrder(pieces, init, token);
      assert token[0] !in last;
      FillNextSlot(pieces, init, token, last);
      InitPlusLast(values);
    }
  }

  /** Splicing v over positions i..i+n of s behind a prefix is splicing it into s. */
  lemma SpliceAfterPrefix<T>(a: seq<T>, s: seq<T>, i: nat, n: nat, v: seq<T>)
    requires i + n <= |s|
    ensures (a + s)[..|a| + i] + v + (a + s)[|a| + i + n..] == a + (s[..i] + v + s[i + n..])
  {
    assert (a + s)[..|a| + i] == a + s[..i];
    assert (a + s)[|a| + i + n..] == s[i + n..];
  }

  lemma InitPlusLast<T>(s: seq<T>)
    requires s != []
    ensures s[..|s| - 1] + [s[|s| - 1]] == s
  {
  }

  /** Once no token is left, further mappings leave the SQL unchanged. */
  lemma {:induction false} NoTokenIsFixpoint(sql: string, token: string, values: seq<string>)
    requires IndexOf(sql, token).None?
    ensures SubstituteAll(sql, token, values) == sql
    decreases |values|
  {
    if values != [] {
      NoTokenIsFixpoint(sql, token, values[..|values| - 1]);
    }
  }

  /** Substituting a list of values is substituting its first part, then the rest. */
  lemma {:induction false} SubstituteAllSplits(sql: string, token: string, first: seq<string>, rest: seq<string>)
    ensures SubstituteAll(sql, token, first + rest) == SubstituteAll(SubstituteAll(sql, token, first), token, rest)
    decreases |rest|
  {
    if rest == [] {
      assert first + rest == first;
    } else {
      var init := rest[..|rest| - 1];
      SubstituteAllSplits(sql, token, first, init);
      assert (first + rest)[..|first + rest| - 1] == first + init;
    }
  }

  /** More mappings than tokens: once every token is filled, the extra mappings change nothing. */
  lemma SurplusMappingsChangeNothing(sql: string, token: string, used: seq<string>, extra: seq<string>)
    requires IndexOf(SubstituteAll(sql, token, used), token).None?
    ensures SubstituteAll(sql, token, used + extra) == SubstituteAll(sql, token, used)
  {
    SubstituteAllSplits(sql, token, used, extra);
    NoTokenIsFixpoint(SubstituteAll(sql, token, used), token, extra);
  }

  // ---------------------------------------------------------------- statements

  /** The prepared statement the parent static SQL produces; `writes` counts setPreparedSql calls. */
  class PreparedStatement {
    var preparedSql: string
    var writes: nat

    constructor(sql: string)
      ensures preparedSql == sql && writes == 0
    {
      preparedSql := sql;
      writes := 0;
    }

    method SetPreparedSql(sql: string)
      modifies this
      ensures preparedSql == sql && writes == old(writes) + 1
    {
      preparedSql := sql;
      writes := writes + 1;
    }
  }

  /** A TSimpleDynamicSql: the property names mapped to its dynamic tokens, in order. */
  class SimpleDynamicSql {
    const mappings: seq<string>
    /** TSimpleDynamicParser::DYNAMIC_TOKEN, taken as a literal. */
    const token: string

    constructor(mappings: seq<string>, token: string)
      ensures this.mappings == mappings && this.token == token
    {
      this.mappings := mappings;
      this.token := token;
    }

    /** mapDynamicParameter: substitutes every mapping in order, then writes the SQL back once. */
    method MapDynamicParameter(statement: PreparedStatement, read: PropertyReader)
      modifies statement
      ensures statement.preparedSql == SubstituteAll(old(statement.preparedSql), token, MappedValues(mappings, read))
      ensures statement.writes == old(statement.writes) + 1
    {
      var values := MappedValues(mappings, read);
      var sql := statement.preparedSql;
      for i := 0 to |mappings|
        invariant sql == SubstituteAll(old(statement.preparedSql), token, values[..i])
      {
        assert values[..i + 1][..i] == values[..i];
        sql := ReplaceFirst(sql, token, read(mappings[i]));
      }
      assert values[..|mappings|] == values;
      statement.SetPreparedSql(sql);
    }

    /**
     * getPreparedStatement, given the statement the parent produced: a null
     * parameter leaves it exactly as it is; otherwise the dynamic tokens are
     * substituted and the SQL written back once.
     */
    method GetPreparedStatement(statement: PreparedStatement, parameter: Option<PropertyReader>)
      returns (result: PreparedStatement)
      modifies statement
      ensures result == statement
      ensures parameter.None? ==> statement.preparedSql == old(statement.preparedSql) && statement.writes == old(statement.writes)
      ensures parameter.Some? ==>
                statement.preparedSql == SubstituteAll(old(statement.preparedSql), token, MappedValues(mappings, parameter.value)) &&
                statement.writes == old(statement.writes) + 1
    {
      if parameter.Some? {
        MapDynamicParameter(statement, parameter.value);
      }
      result := statement;
    }
  }
}
