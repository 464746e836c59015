/** ServerContext.CreateSqlWithParameters (Dal/Context/ServerContext.cs): appends the
    names of the DbParameter arguments of a stored-procedure call to its SQL. */
module ServerContext {
  import opened Common

  datatype ParameterDirection = Input | Output | InputOutput | ReturnValue

  /** The parts of an ADO.NET DbParameter the text depends on, and its direction. */
  datatype DbParameter = DbParameter(parameterName: string, direction: ParameterDirection)

  /** An entry of the `params object[]` array: a DbParameter, or None for any other
      object (including null), which the `is DbParameter` test rejects. */
  type Argument = Option<DbParameter>

  /** The text the entry at position i adds: nothing for a non-parameter, otherwise
      ` @name`, preceded by a comma at every position but the first. */
  function Contribution(i: nat, a: Argument): string {
    if a.None? then ""
    else (if 0 < i then "," else "") + " @" + a.value.parameterName
  }

  /** A non-parameter contributes nothing; a parameter contributes text that starts
      with a comma exactly when it is not the first entry, and ends with ` @name`. */
  lemma ContributionShape(i: nat, a: Argument)
    ensures a.None? ==> Contribution(i, a) == ""
    ensures a.Some? ==> var text := Contribution(i, a);
      && 0 < |text| && (text[0] == ',' <==> 0 < i)
      && |a.value.parameterName| + 2 <= |text|
      && text[|text| - |a.value.parameterName| - 2..] == " @" + a.value.parameterName
  {
    if a.Some? {
      var name := a.value.parameterName;
      var text := Contribution(i, a);
      var comma: string := if 0 < i then "," else "";
      assert text == comma + (" @" + name);
      assert text[|comma|..] == " @" + name;
    }
  }

  /** The SQL after the entries have been processed in array order. */
  function WithParameters(sql: string, args: seq<Argument>): string
    decreases |args|
  {
    if args == [] then sql
    else WithParameters(sql, args[..|args| - 1]) + Contribution(|args| - 1, args[|args| - 1])
  }

  /** The parameter text of the entries from position `from` on, read front to back. */
  function ParameterList(args: seq<Argument>, from: nat): string
    decreases |args|
  {
    if args == [] then "" else Contribution(from, args[0]) + ParameterList(args[1..], from + 1)
  }

  /** `CreateSqlWithParameters(sql, params object[] parameters)`; a null array is None. */
  method CreateSqlWithParameters(sql: string, parameters: Option<seq<Argument>>) returns (r: string)
    ensures r == WithParameters(sql, if parameters.Some? then parameters.value else [])
    ensures parameters.None? || parameters.value == [] ==> r == sql
  {
    var args := if parameters.Some? then parameters.value else [];
    r := sql;
    for i := 0 to |args|
      invariant r == WithParameters(sql, args[..i])
    {
      WithParametersStep(sql, args, i);
      if args[i].None? {
        continue;
      }
      var parameter := args[i].value;
      ghost var before := r;
      r := r + (if i > 0 then "," else "") + " @" + parameter.parameterName;
      AppendAssociates3(before, if i > 0 then "," else "", " @", parameter.parameterName);
      // the direction is not read: an Output or InputOutput parameter leaves the text as it is
    }
    assert args[..|args|] == args;
  }

  lemma WithParametersStep(sql: string, args: seq<Argument>, i: nat)
    requires i < |args|
    ensures WithParameters(sql, args[..i + 1]) == WithParameters(sql, args[..i]) + Contribution(i, args[i])
  {
    assert args[..i + 1][..i] == args[..i];
  }

  /** Associativity of the loop's append, kept apart from the loop so that the solver
      does not unfold WithParameters inside the element-wise comparison. */
  lemma AppendAssociates3(r: string, a: string, b: string, c: string)
    ensures r + a + b + c == r + (a + b + c)
  {
  }

  /** Appending one more entry extends the front-to-back list by its contribution. */
  lemma {:induction false} ParameterListSnoc(args: seq<Argument>, a: Argument, from: nat)
    ensures ParameterList(args + [a], from) == ParameterList(args, from) + Contribution(from + |args|, a)
    decreases |args|
  {
    if args == [] {
      assert ([] + [a])[1..] == [];
    } else {
      assert (args + [a])[1..] == args[1..] + [a];
      ParameterListSnoc(args[1..], a, from + 1);
    }
  }

  /** The front-to-back list, split before its last entry. */
  lemma ParameterListLast(args: seq<Argument>, from: nat)
    requires args != []
    ensures ParameterList(args, from)
         == ParameterList(args[..|args| - 1], from) + Contribution(from + |args| - 1, args[|args| - 1])
  {
    var init, last := args[..|args| - 1], args[|args| - 1];
    assert init + [last] == args;
    ParameterListSnoc(init, last, from);
  }

  /** The result is the input SQL followed by every entry's contribution in array
      order: text is only ever appended. */
  lemma {:induction false} WithParametersAppendsList(sql: string, args: seq<Argument>)
    ensures WithParameters(sql, args) == sql + ParameterList(args, 0)
    decreases |args|
  {
    if args != [] {
      var init, last := args[..|args| - 1], args[|args| - 1];
      ParameterListLast(args, 0);
      WithParametersAppendsList(sql, init);
      AppendAssociates(WithParameters(sql, init), sql, ParameterList(init, 0), Contribution(|init|, last));
    }
  }

  /** Associativity for the induction step, kept apart from it for the same reason. */
  lemma AppendAssociates(w: string, sql: string, list: string, c: string)
    requires w == sql + list
    ensures w + c == sql + (list + c)
  {
  }

  /** The result always starts with the input SQL. */
  lemma StartsWithSql(sql: string, args: seq<Argument>)
    ensures sql <= WithParameters(sql, args)
  {
    WithParametersAppendsList(sql, args);
  }

  /** Entries that are not DbParameters add no text. */
  lemma {:induction false} NonParametersAddNothing(sql: string, args: seq<Argument>)
    requires forall i :: 0 <= i < |args| ==> args[i].None?
    ensures WithParameters(sql, args) == sql
    decreases |args|
  {
    if args != [] {
      NonParametersAddNothing(sql, args[..|args| - 1]);
    }
  }

  /** Same name, different direction: a parameter's direction never changes the text. */
  lemma {:induction false} DirectionIgnored(sql: string, args: seq<Argument>, other: seq<Argument>)
    requires |args| == |other|
    requires forall i :: 0 <= i < |args| ==> (args[i].Some? <==> other[i].Some?)
    requires forall i :: 0 <= i < |args| && args[i].Some? && other[i].Some?
               ==> args[i].value.parameterName == other[i].value.parameterName
    ensures WithParameters(sql, args) == WithParameters(sql, other)
    decreases |args|
  {
    if args != [] {
      DirectionIgnored(sql, args[..|args| - 1], other[..|other| - 1]);
    }
  }

  /** The comma depends on the position only: an object before the first parameter
      still gives it a leading comma. */
  lemma LeadingCommaExample()
    ensures WithParameters("EXEC p", [None, Some(DbParameter("a", Output))]) == "EXEC p, @a"
  {
    var args: seq<Argument> := [None, Some(DbParameter("a", Output))];
    assert args[..1] == [None] && args[..1][..0] == [];
  }
}
