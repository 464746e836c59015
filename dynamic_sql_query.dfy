/** DynamicSqlQuery (Dal/Context/DynamicSqlQuery.cs): a builder of SQL text with a
    parallel list of positional parameter values. Each parameterised append renumbers
    its snippet's `{i}` placeholders past the values already bound, IN lists expand
    one `{0}` into a run of fresh placeholders, and reading Parameters freezes the
    parameterised append. */
module DynamicSql {
  import opened Common
  import opened SqlTemplate

  /** Environment.NewLine: a platform constant whose value does not matter here. */
  const NewLine: string := "\n"

  /** The most values AppendIn accepts. */
  const InListLimit: nat := 1000

  /** A parameter value (an `object`): null, a string, or any other object. */
  datatype Value = Null | Text(text: string) | Object(id: nat)

  /** The state of a builder: the fragments written (as tokens), the values bound,
      and the snapshot taken when Parameters was first read. */
  datatype Query = Query(text: Snippet, params: seq<Value>, frozen: Option<seq<Value>>)

  /** How an operation ends, and the state it leaves. */
  datatype Step = Step(outcome: Outcome, query: Query)

  const Empty: Query := Query([], [], None)

  /** Every placeholder written names a bound value. */
  ghost predicate PlaceholdersBound(q: Query) {
    forall k :: k in Indices(q.text) ==> k < |q.params|
  }

  /** The snapshot holds the values as they were when it was taken: a prefix of them. */
  predicate SnapshotIsPrefix(q: Query) {
    q.frozen.Some? ==> q.frozen.value <= q.params
  }

  /** A snippet passed in is plain: its literal text holds no `{` (see Plain). */
  predicate PlainSnippet(snippet: Option<Snippet>) {
    snippet.Some? ==> Plain(snippet.value)
  }

  /** C#'s `snippet + Environment.NewLine`, where a null string concatenates as "". */
  function PlusNewLine(snippet: Option<Snippet>): (r: Snippet)
    ensures Render(r) == (if snippet.Some? then Render(snippet.value) else "") + NewLine
    ensures PlainSnippet(snippet) ==> Plain(r)
  {
    var s := if snippet.Some? then snippet.value else [];
    RenderSnoc(s, Lit(NewLine));
    PlainConcat(s, [Lit(NewLine)]);
    s + [Lit(NewLine)]
  }

  /** `Append(sqlSnippet, params object[] parameters)`: null arguments, then the freeze,
      then the placeholder range are checked; on success the snippet is written with
      every `{i}` renumbered to `{c + i}` (c the number of values bound before) and
      values 0 .. Bound - 1 are bound, in index order. */
  function AppendStep(q: Query, snippet: Option<Snippet>, values: Option<seq<Value>>): (r: Step)
    requires snippet.Some? && values.Some? && q.frozen.None? ==> Formattable(snippet.value, |values.value|)
    ensures r.outcome != Done ==> r.query == q
    ensures r.query.frozen == q.frozen
    ensures q.text <= r.query.text && q.params <= r.query.params
  {
    if snippet.None? || values.None? then Step(Threw(ArgumentNullException), q)
    else if q.frozen.Some? then Step(Threw(InvalidOperationException), q)
    else if Bound(snippet.value) > |values.value| then Step(Threw(IndexOutOfRangeException), q)
    else
      Step(Done, q.(text := q.text + Shift(snippet.value, |q.params|),
                    params := q.params + values.value[..Bound(snippet.value)]))
  }

  /** `Append(sqlSnippet)`: the snippet is written as it is, placeholders included,
      whether or not Parameters has been read. */
  function AppendTextStep(q: Query, snippet: Option<Snippet>): (r: Step)
    ensures r.outcome == Done <==> snippet.Some?
    ensures r.query.params == q.params && r.query.frozen == q.frozen
    ensures q.text <= r.query.text
  {
    if snippet.None? then Step(Threw(ArgumentNullException), q)
    else Step(Done, q.(text := q.text + snippet.value))
  }

  /** `AppendIn(values, sqlSnippet)`: nothing for a null or empty list, an exception
      for more than InListLimit values; otherwise each `{0}` in turn binds all the
      values and becomes the IN list of their indices. A placeholder other than
      `{0}` raises InvalidOperationException: the values bound for the `{0}`s before
      it stay bound and no text is written. The freeze is not checked. */
  function AppendInStep(q: Query, values: Option<seq<Value>>, snippet: Option<Snippet>): (r: Step)
    ensures r.outcome != Done ==> r.query.text == q.text
    ensures r.query.frozen == q.frozen
    ensures q.text <= r.query.text && q.params <= r.query.params
  {
    if snippet.None? then Step(Threw(ArgumentNullException), q)
    else if values.None? || values.value == [] then Step(Done, q)
    else if |values.value| > InListLimit then Step(Threw(InvalidOperationException), q)
    else
      var s, vs := snippet.value, values.value;
      var stop := FirstOther(s);
      if stop == |s| then
        Step(Done, q.(text := q.text + ExpandIn(s, |vs|, |q.params|),
                      params := q.params + Repeat(vs, PlaceholderCount(s))))
      else
        Step(Threw(InvalidOperationException), q.(params := q.params + Repeat(vs, PlaceholderCount(s[..stop]))))
  }

  // ---------------------------------------------------------------------------
  // Properties of Append

  /** A snippet without placeholders is written verbatim and binds nothing. */
  lemma AppendVerbatim(q: Query, s: Snippet, values: seq<Value>)
    requires q.frozen.None? && PlaceholderCount(s) == 0
    ensures AppendStep(q, Some(s), Some(values)) == Step(Done, q.(text := q.text + s))
  {
    CountZeroIffNoIndices(s);
    ShiftWithoutPlaceholders(s, |q.params|);
    assert values[..0] == [];
  }

  lemma AppendStepDone(q: Query, s: Snippet, values: seq<Value>)
    requires q.frozen.None? && Formattable(s, |values|) && Bound(s) <= |values|
    ensures AppendStep(q, Some(s), Some(values))
         == Step(Done, q.(text := q.text + Shift(s, |q.params|), params := q.params + values[..Bound(s)]))
  {
  }

  /** A lone `{0}` is written as `{c}`, c the number of values bound before, and
      exactly the first value is bound. */
  lemma AppendSingle(q: Query, s: Snippet, values: seq<Value>)
    requires q.frozen.None? && Formattable(s, |values|) && PlaceholderCount(s) == 1 && 0 < |values|
    ensures AppendStep(q, Some(s), Some(values))
         == Step(Done, q.(text := q.text + Shift(s, |q.params|), params := q.params + [values[0]]))
    ensures Indices(Shift(s, |q.params|)) == {|q.params|}
  {
    assert Bound(s) == 1;
    assert values[..1] == [values[0]];
    ShiftIndices(s, |q.params|);
  }

  /** Binding: after a successful append each `{i}` of the snippet has become `{c + i}`
      and value c + i is `values[i]`. The values grow by the number of distinct
      indices, so a repeated placeholder binds a single value. */
  lemma AppendBinds(q: Query, s: Snippet, values: seq<Value>)
    requires q.frozen.None? && Formattable(s, |values|) && Bound(s) <= |values|
    ensures AppendStep(q, Some(s), Some(values)).outcome == Done
    ensures var r := AppendStep(q, Some(s), Some(values)).query;
      && |r.params| == |q.params| + Bound(s)
      && r.params[..|q.params|] == q.params
      && forall i :: i in Indices(s) ==> |q.params| + i in Indices(r.text) && r.params[|q.params| + i] == values[i]
  {
    var r := AppendStep(q, Some(s), Some(values)).query;
    var c := |q.params|;
    ShiftIndices(s, c);
    IndicesConcat(q.text, Shift(s, c));
    forall i | i in Indices(s)
      ensures c + i in Indices(r.text) && r.params[c + i] == values[i]
    {
      assert c + i - c == i;
    }
  }

  /** Among several placeholders, one beyond the values raises IndexOutOfRangeException
      before anything is written or bound. */
  lemma AppendOutOfRange(q: Query, s: Snippet, values: seq<Value>, i: nat)
    requires q.frozen.None? && Formattable(s, |values|)
    requires 1 < PlaceholderCount(s) && i in Indices(s) && |values| <= i
    ensures AppendStep(q, Some(s), Some(values)) == Step(Threw(IndexOutOfRangeException), q)
  {
  }

  /** Once Parameters has been read, the parameterised append is refused. */
  lemma FrozenRejectsAppend(q: Query, s: Snippet, values: seq<Value>)
    requires q.frozen.Some?
    ensures AppendStep(q, Some(s), Some(values)) == Step(Threw(InvalidOperationException), q)
  {
  }

  /** Appending keeps every written placeholder bound, and the placeholders it writes
      are fresh: above every index written before. */
  lemma AppendKeepsPlaceholdersBound(q: Query, snippet: Option<Snippet>, values: Option<seq<Value>>)
    requires snippet.Some? && values.Some? && q.frozen.None? ==> Formattable(snippet.value, |values.value|)
    requires PlaceholdersBound(q) && SnapshotIsPrefix(q)
    ensures var r := AppendStep(q, snippet, values).query;
      && PlaceholdersBound(r) && SnapshotIsPrefix(r)
      && forall k :: k in Indices(r.text) ==> k in Indices(q.text) || |q.params| <= k < |r.params|
  {
    var step := AppendStep(q, snippet, values);
    if step.outcome == Done {
      var s := snippet.value;
      var c := |q.params|;
      ShiftIndices(s, c);
      IndicesConcat(q.text, Shift(s, c));
      assert |step.query.params| == c + Bound(s);
    }
  }

  /** The plain append ignores the freeze and writes placeholders unrenumbered, so it
      keeps the placeholders bound exactly when the snippet's own indices are bound. */
  lemma AppendTextVerbatim(q: Query, s: Snippet)
    ensures AppendTextStep(q, Some(s)) == Step(Done, q.(text := q.text + s))
    ensures PlaceholdersBound(AppendTextStep(q, Some(s)).query)
        <==> PlaceholdersBound(q) && forall k :: k in Indices(s) ==> k < |q.params|
  {
    IndicesConcat(q.text, s);
  }

  // ---------------------------------------------------------------------------
  // Properties of AppendIn

  lemma FirstOtherIsLength(s: Snippet)
    ensures FirstOther(s) == |s| <==> OnlyZero(s)
  {
    var r := FirstOther(s);
    if r == |s| {
      assert s[..r] == s;
    }
  }

  lemma FirstOtherAt(s: Snippet, t: nat)
    requires t < |s| && OnlyZero(s[..t]) && s[t].Ph? && s[t].index != 0
    ensures FirstOther(s) == t
  {
    assert forall i :: 0 <= i < t ==> s[..t][i] == s[i];
    assert forall i :: 0 <= i < FirstOther(s) ==> s[..FirstOther(s)][i] == s[i];
  }

  lemma AppendInStepStops(q: Query, vs: seq<Value>, s: Snippet, t: nat)
    requires 0 < |vs| <= InListLimit && t < |s| && FirstOther(s) == t
    ensures AppendInStep(q, Some(vs), Some(s))
         == Step(Threw(InvalidOperationException), q.(params := q.params + Repeat(vs, PlaceholderCount(s[..t]))))
  {
  }

  lemma AppendInStepDone(q: Query, vs: seq<Value>, s: Snippet)
    requires 0 < |vs| <= InListLimit && OnlyZero(s)
    ensures AppendInStep(q, Some(vs), Some(s))
         == Step(Done, q.(text := q.text + ExpandIn(s, |vs|, |q.params|), params := q.params + Repeat(vs, PlaceholderCount(s))))
  {
    FirstOtherIsLength(s);
  }

  /** One more copy of the values: the next one starts right after the previous ones. */
  lemma AppendCopy(before: seq<Value>, vs: seq<Value>, k: nat)
    ensures |before + Repeat(vs, k)| == |before| + |vs| * k
    ensures before + Repeat(vs, k) + vs == before + Repeat(vs, k + 1)
  {
    RepeatLength(vs, k);
    assert Repeat(vs, k + 1) == Repeat(vs, k) + vs;
  }

  /** One step of the IN rewrite: a `{0}` at position t binds another copy of the
      values and adds the IN list of their indices; a literal is copied. */
  lemma ExpandStep(s: Snippet, t: nat, vs: seq<Value>, before: seq<Value>, params: seq<Value>, replaced: Snippet)
    requires t < |s| && 0 < |vs| && !(s[t].Ph? && s[t].index != 0) && OnlyZero(s[..t])
    requires replaced == ExpandIn(s[..t], |vs|, |before|)
    requires params == before + Repeat(vs, PlaceholderCount(s[..t]))
    ensures OnlyZero(s[..t + 1])
    ensures s[t].Ph? ==> (ExpandIn(s[..t + 1], |vs|, |before|) == replaced + InList(|params|, |vs|)
                          && params + vs == before + Repeat(vs, PlaceholderCount(s[..t + 1])))
    ensures s[t].Lit? ==> (ExpandIn(s[..t + 1], |vs|, |before|) == replaced + [s[t]]
                           && params == before + Repeat(vs, PlaceholderCount(s[..t + 1])))
  {
    var k := PlaceholderCount(s[..t]);
    ExpandInPrefix(s, t, |vs|, |before|);
    if s[t].Ph? {
      AppendCopy(before, vs, k);
      assert |params| == |before| + |vs| * k;
    }
  }

  /** A null or empty list appends nothing. */
  lemma AppendInNothing(q: Query, values: Option<seq<Value>>, s: Snippet)
    requires values.None? || values.value == []
    ensures AppendInStep(q, values, Some(s)) == Step(Done, q)
  {
  }

  /** More than InListLimit values raise InvalidOperationException and change nothing. */
  lemma AppendInTooMany(q: Query, values: seq<Value>, s: Snippet)
    requires InListLimit < |values|
    ensures AppendInStep(q, Some(values), Some(s)) == Step(Threw(InvalidOperationException), q)
  {
  }

  /** A placeholder other than `{0}` raises InvalidOperationException and writes no text;
      only values are added, a whole copy of the list per `{0}` before it. */
  lemma AppendInOtherPlaceholder(q: Query, values: seq<Value>, s: Snippet)
    requires 0 < |values| <= InListLimit && !OnlyZero(s)
    ensures var r := AppendInStep(q, Some(values), Some(s));
      && r.outcome == Threw(InvalidOperationException)
      && r.query.text == q.text && r.query.frozen == q.frozen
      && r.query.params == q.params + Repeat(values, PlaceholderCount(s[..FirstOther(s)]))
  {
    FirstOtherIsLength(s);
  }

  /** The IN expansion: each `{0}` binds all n values and becomes the list of their
      indices. The values grow by n per `{0}`, the old ones are kept, and the indices
      written are exactly the old ones and the new positions. */
  lemma AppendInExpands(q: Query, values: seq<Value>, s: Snippet)
    requires 0 < |values| <= InListLimit && OnlyZero(s)
    ensures var r := AppendInStep(q, Some(values), Some(s));
      && r.outcome == Done
      && |r.query.params| == |q.params| + |values| * PlaceholderCount(s)
      && r.query.params[..|q.params|] == q.params
      && forall k :: k in Indices(r.query.text) <==> k in Indices(q.text) || |q.params| <= k < |r.query.params|
  {
    var c, n, m := |q.params|, |values|, PlaceholderCount(s);
    AppendInStepDone(q, values, s);
    AppendCopy(q.params, values, m);
    assert (q.params + Repeat(values, m))[..c] == q.params;
    ExpandInIndices(s, n, c);
    IndicesConcat(q.text, ExpandIn(s, n, c));
  }

  /** Binding: with c values bound before, the p-th `{0}` of the snippet binds
      values[j] at index c + p * n + j. */
  lemma AppendInBinds(q: Query, values: seq<Value>, s: Snippet, p: nat, j: nat)
    requires 0 < |values| <= InListLimit && OnlyZero(s)
    requires p < PlaceholderCount(s) && j < |values|
    ensures var r := AppendInStep(q, Some(values), Some(s)).query;
      && |q.params| + p * |values| + j < |r.params|
      && r.params[|q.params| + p * |values| + j] == values[j]
  {
    AppendInStepDone(q, values, s);
    CopyAt(q.params, values, PlaceholderCount(s), p, j);
  }

  lemma CopyAt(before: seq<Value>, vs: seq<Value>, m: nat, p: nat, j: nat)
    requires p < m && j < |vs|
    ensures |Repeat(vs, m)| == m * |vs|
    ensures p * |vs| + j < m * |vs| && (before + Repeat(vs, m))[|before| + p * |vs| + j] == vs[j]
  {
    RepeatIndex(vs, m, p, j);
    var x := p * |vs| + j;
    assert (before + Repeat(vs, m))[|before| + x] == Repeat(vs, m)[x];
  }

  /** AppendIn does not check the snapshot: after Parameters has been read it still
      writes an IN list whose first index lies past every value of the snapshot. */
  lemma AppendInIgnoresFreeze(q: Query, values: seq<Value>, s: Snippet)
    requires q.frozen.Some? && SnapshotIsPrefix(q)
    requires 0 < |values| <= InListLimit && OnlyZero(s) && 0 < PlaceholderCount(s)
    ensures var r := AppendInStep(q, Some(values), Some(s));
      && r.outcome == Done
      && r.query.frozen == q.frozen
      && |q.params| in Indices(r.query.text)
      && |r.query.frozen.value| <= |q.params|
  {
    AppendInExpands(q, values, s);
    var r := AppendInStep(q, Some(values), Some(s));
    assert |q.params| < |r.query.params|;
  }

  /** AppendIn keeps every written placeholder bound and the snapshot a prefix. */
  lemma AppendInKeepsPlaceholdersBound(q: Query, values: Option<seq<Value>>, snippet: Option<Snippet>)
    requires PlaceholdersBound(q) && SnapshotIsPrefix(q)
    ensures PlaceholdersBound(AppendInStep(q, values, snippet).query)
    ensures SnapshotIsPrefix(AppendInStep(q, values, snippet).query)
  {
    var r := AppendInStep(q, values, snippet);
    if snippet.Some? && values.Some? && 0 < |values.value| <= InListLimit {
      if OnlyZero(snippet.value) {
        AppendInExpands(q, values.value, snippet.value);
      } else {
        AppendInOtherPlaceholder(q, values.value, snippet.value);
      }
    }
  }

  /** `AppendIn([a, b, c], "id IN ({0})")` on a fresh builder. */
  lemma AppendInExample(s: Snippet, a: Value, b: Value, c: Value)
    requires s == [Lit("id IN ("), Ph(0), Lit(")")]
    ensures var r := AppendInStep(Empty, Some([a, b, c]), Some(s)).query;
      Render(r.text) == "id IN ({0}, {1}, {2})" && r.params == [a, b, c]
  {
    var e := [Lit("id IN ("), Ph(0), Lit(", "), Ph(1), Lit(", "), Ph(2), Lit(")")];
    assert OnlyZero(s);
    AppendInStepDone(Empty, [a, b, c], s);
    ExampleExpansion(s, e);
    assert Repeat([a, b, c], 1) == [a, b, c];
    var r := AppendInStep(Empty, Some([a, b, c]), Some(s)).query;
    assert r.text == [] + e == e;
    assert r.params == [] + [a, b, c] == [a, b, c];
    ExampleListText(r.text);
  }

  lemma ExampleExpansion(s: Snippet, e: Snippet)
    requires s == [Lit("id IN ("), Ph(0), Lit(")")]
    requires e == [Lit("id IN ("), Ph(0), Lit(", "), Ph(1), Lit(", "), Ph(2), Lit(")")]
    ensures PlaceholderCount(s) == 1 && ExpandIn(s, 3, 0) == e
  {
    assert s[..0] == [] && s[..3] == s;
    ExpandInPrefix(s, 0, 3, 0);
    ExpandInPrefix(s, 1, 3, 0);
    ExpandInPrefix(s, 2, 3, 0);
    assert InList(0, 3) == [Ph(0), Lit(", "), Ph(1), Lit(", "), Ph(2)];
  }

  lemma ExampleListText(x: Snippet)
    requires x == [Lit("id IN ("), Ph(0), Lit(", "), Ph(1), Lit(", "), Ph(2), Lit(")")]
    ensures Render(x) == "id IN ({0}, {1}, {2})"
  {
    assert RenderToken(Ph(0)) == "{0}" && RenderToken(Ph(1)) == "{1}" && RenderToken(Ph(2)) == "{2}";
    assert x[..1][..0] == x[..0];
    assert Render(x[..1]) == "id IN (";
    assert x[..2][..1] == x[..1];
    assert Render(x[..2]) == "id IN ({0}";
    assert x[..3][..2] == x[..2];
    assert Render(x[..3]) == "id IN ({0}, ";
    assert x[..4][..3] == x[..3];
    assert Render(x[..4]) == "id IN ({0}, {1}";
    assert x[..5][..4] == x[..4];
    assert Render(x[..5]) == "id IN ({0}, {1}, ";
    assert x[..6][..5] == x[..5];
    assert Render(x[..6]) == "id IN ({0}, {1}, {2}";
    assert x[..7][..6] == x[..6];
    assert x[..7] == x;
  }

  // ---------------------------------------------------------------------------
  // Finding: the single-placeholder path of Append as written

  /** Lines 125-129 as written: the text is written before `parameters[0]` is read, so
      an empty parameter array raises IndexOutOfRangeException after the text. */
  function SingleAppendAsWritten(q: Query, s: Snippet, values: seq<Value>): (r: Step)
    requires q.frozen.None? && PlaceholderCount(s) == 1 && Indices(s) == {0}
    ensures r.query.text == q.text + Shift(s, |q.params|)
    ensures r.outcome == Done <==> values != []
  {
    assert Bound(s) == 1;
    assert [|q.params|] == Offsets(|q.params|, 1);
    SubstituteOffsets(s, |q.params|, 1);
    var written := q.(text := q.text + Substitute(s, [|q.params|]));
    if |values| == 0 then Step(Threw(IndexOutOfRangeException), written)
    else Step(Done, written.(params := q.params + [values[0]]))
  }

  /** As written, `Append("id = {0}", new object[0])` raises the exception yet leaves
      `id = {0}` in the text with no value bound: a dangling placeholder. */
  lemma DanglingPlaceholderAsWritten()
    ensures var r := SingleAppendAsWritten(Empty, [Lit("id = "), Ph(0)], []);
      && r.outcome == Threw(IndexOutOfRangeException)
      && Render(r.query.text) == "id = {0}"
      && !PlaceholdersBound(r.query)
  {
    var s := [Lit("id = "), Ph(0)];
    assert s[..1] == [Lit("id = ")];
    assert Ph(0) in s;
    assert Indices(s) == {0};
    var r := SingleAppendAsWritten(Empty, s, []);
    assert Substitute(s, [0]) == s;
    assert r.query.text == s;
    assert 0 in Indices(r.query.text);
  }

  /** The corrected single-placeholder path agrees with the code as written whenever a
      value is given, and otherwise raises the exception with nothing written. */
  lemma SingleAppendCorrected(q: Query, s: Snippet, values: seq<Value>)
    requires q.frozen.None? && Formattable(s, |values|) && PlaceholderCount(s) == 1
    ensures AppendStep(q, Some(s), Some(values))
         == if values == [] then Step(Threw(IndexOutOfRangeException), q) else SingleAppendAsWritten(q, s, values)
  {
    assert Bound(s) == 1;
    assert [|q.params|] == Offsets(|q.params|, 1);
    SubstituteOffsets(s, |q.params|, 1);
    if values != [] {
      assert values[..1] == [values[0]];
    }
  }

  // ---------------------------------------------------------------------------
  // The two loops of the several-placeholder path of Append

  /** The scan of the matches into the SortedList placeMap: each index is mapped to its
      value; the first index past the values stops the scan (IndexOutOfRangeException). */
  method CollectPlaces(s: Snippet, ps: seq<Value>) returns (placeMap: map<nat, Value>, inRange: bool)
    ensures inRange <==> Bound(s) <= |ps|
    ensures inRange ==> placeMap.Keys == Indices(s)
    ensures forall k :: k in placeMap ==> k < |ps| && placeMap[k] == ps[k]
  {
    placeMap := map[];
    for t := 0 to |s|
      invariant placeMap.Keys == Indices(s[..t])
      invariant forall k :: k in placeMap ==> k < |ps| && placeMap[k] == ps[k]
    {
      assert s[..t + 1] == s[..t] + [s[t]];
      IndicesConcat(s[..t], [s[t]]);
      if s[t].Ph? {
        var place := s[t].index;
        if place >= |ps| {
          assert s[t] in s;
          assert place in Indices(s);
          return placeMap, false;
        }
        placeMap := placeMap[place := ps[place]];
      }
    }
    assert s[..|s|] == s;
    inRange := true;
  }

  /** The keys of placeMap in ascending order: key j gives the format argument
      `{c + j}` and the value bound next. With dense indices the keys are 0, 1, ... */
  method FormatArguments(placeMap: map<nat, Value>, c: nat, ghost s: Snippet, ghost ps: seq<Value>)
    returns (args: seq<nat>, bound: seq<Value>)
    requires placeMap.Keys == Indices(s) && Dense(s) && Bound(s) <= |ps|
    requires forall k :: k in placeMap ==> k < |ps| && placeMap[k] == ps[k]
    ensures args == Offsets(c, Bound(s)) && bound == ps[..Bound(s)]
  {
    args, bound := [], [];
    var key: nat := 0;
    while key in placeMap
      invariant key <= Bound(s)
      invariant args == Offsets(c, key) && bound == ps[..key]
      decreases Bound(s) - key
    {
      args := args + [c + key];
      bound := bound + [placeMap[key]];
      assert ps[..key + 1] == ps[..key] + [ps[key]];
      key := key + 1;
    }
  }

  // ---------------------------------------------------------------------------
  // The builder

  class DynamicSqlQuery {
    /** The SQL text written so far (the StringBuilder). */
    var sql: string
    /** The values bound so far, in index order (the List<object>). */
    var parameters: seq<Value>
    /** The Lazy<object[]> snapshot: None until Parameters is first read. */
    var snapshot: Option<seq<Value>>
    /** The fragments whose rendering is sql. */
    ghost var text: Snippet

    ghost predicate Valid()
      reads this
    {
      sql == Render(text) && Plain(text) && SnapshotIsPrefix(State())
    }

    ghost function State(): Query
      reads this
    {
      Query(text, parameters, snapshot)
    }

    constructor ()
      ensures Valid() && State() == Empty
    {
      sql, parameters, snapshot, text := "", [], None, [];
    }

    /** `Create(sql, params object[] parameters)`: a new builder and Append. */
    static method Create(snippet: Option<Snippet>, values: Option<seq<Value>>) returns (query: DynamicSqlQuery, outcome: Outcome)
      requires PlainSnippet(snippet)
      requires snippet.Some? && values.Some? ==> Formattable(snippet.value, |values.value|)
      ensures fresh(query) && query.Valid()
      ensures Step(outcome, query.State()) == AppendStep(Empty, snippet, values)
    {
      query := new DynamicSqlQuery();
      outcome := query.Append(snippet, values);
    }

    /** `CreateLine(sql, params object[] parameters)`: a new builder and Append of the
        snippet and a line break; a null snippet is not refused, it stands for "". */
    static method CreateLine(snippet: Option<Snippet>, values: Option<seq<Value>>) returns (query: DynamicSqlQuery, outcome: Outcome)
      requires PlainSnippet(snippet)
      requires values.Some? ==> Formattable(PlusNewLine(snippet), |values.value|)
      ensures fresh(query) && query.Valid()
      ensures Step(outcome, query.State()) == AppendStep(Empty, Some(PlusNewLine(snippet)), values)
    {
      query := new DynamicSqlQuery();
      outcome := query.Append(Some(PlusNewLine(snippet)), values);
    }

    /** The SQL text: the rendering of the fragments written. */
    function Sql(): (r: string)
      reads this
      requires Valid()
      ensures r == Render(text)
      ensures multiset(r)['{'] == PlaceholderCount(text)
    {
      BracesArePlaceholders(text);
      sql
    }

    /** The text is empty exactly when every fragment written was empty text. */
    function IsEmpty(): (empty: bool)
      reads this
      requires Valid()
      ensures empty <==> forall t :: t in text ==> t == Lit("")
    {
      RenderEmpty(text);
      |sql| == 0
    }

    /** `Parameters`: the first read takes the snapshot, every later read returns it. */
    method Parameters() returns (values: seq<Value>)
      requires Valid()
      modifies this`snapshot
      ensures Valid()
      ensures values == if old(snapshot).Some? then old(snapshot).value else parameters
      ensures snapshot == Some(values)
    {
      if snapshot.None? {
        snapshot := Some(parameters);
      }
      values := snapshot.value;
    }

    /** Writes a fragment to the SQL text (StringBuilder.Append). */
    method Write(fragment: Snippet)
      requires Valid() && Plain(fragment)
      modifies this`sql, this`text
      ensures Valid() && text == old(text) + fragment
    {
      PlainConcat(text, fragment);
      RenderConcat(text, fragment);
      sql := sql + Render(fragment);
      text := text + fragment;
    }

    /** `Append(sqlSnippet, params object[] parameters)`. */
    method Append(snippet: Option<Snippet>, values: Option<seq<Value>>) returns (outcome: Outcome)
      requires PlainSnippet(snippet)
      requires Valid()
      requires snippet.Some? && values.Some? && snapshot.None? ==> Formattable(snippet.value, |values.value|)
      modifies this`sql, this`text, this`parameters
      ensures Valid()
      ensures Step(outcome, State()) == AppendStep(old(State()), snippet, values)
    {
      if snippet.None? || values.None? {
        return Threw(ArgumentNullException);
      }
      if snapshot.Some? {
        return Threw(InvalidOperationException);
      }
      var s, ps := snippet.value, values.value;
      var c := |parameters|;
      var matches := PlaceholderCount(s);
      if matches == 1 {
        assert Bound(s) == 1;
        // parameters[0] is checked before the text is written (see the finding)
        SingleAppendCorrected(State(), s, ps);
        if |ps| == 0 {
          return Threw(IndexOutOfRangeException);
        }
        AppendStepDone(State(), s, ps);
        assert [c] == Offsets(c, 1);
        SubstituteOffsets(s, c, 1);
        ShiftPlain(s, c);
        Write(Substitute(s, [c]));
        parameters := parameters + [ps[0]];
        assert ps[..1] == [ps[0]];
        return Done;
      } else if matches > 1 {
        var placeMap, inRange := CollectPlaces(s, ps);
        if !inRange {
          AppendOutOfRange(State(), s, ps, Bound(s) - 1);
          return Threw(IndexOutOfRangeException);
        }
        var args, bound := FormatArguments(placeMap, c, s, ps);
        AppendStepDone(State(), s, ps);
        SubstituteOffsets(s, c, Bound(s));
        ShiftPlain(s, c);
        Write(Substitute(s, args));
        parameters := parameters + bound;
      } else {
        CountZeroIffNoIndices(s);
        ShiftWithoutPlaceholders(s, c);
        assert ps[..0] == [];
        AppendStepDone(State(), s, ps);
        Write(s);
      }
      outcome := Done;
    }

    /** `Append(sqlSnippet)`. */
    method AppendText(snippet: Option<Snippet>) returns (outcome: Outcome)
      requires PlainSnippet(snippet)
      requires Valid()
      modifies this`sql, this`text
      ensures Valid()
      ensures Step(outcome, State()) == AppendTextStep(old(State()), snippet)
    {
      if snippet.None? {
        return Threw(ArgumentNullException);
      }
      Write(snippet.value);
      outcome := Done;
    }

    /** `AppendLine(sqlSnippet, params object[] parameters)`. */
    method AppendLine(snippet: Option<Snippet>, values: Option<seq<Value>>) returns (outcome: Outcome)
      requires PlainSnippet(snippet)
      requires Valid()
      requires snippet.Some? && values.Some? && snapshot.None? ==> Formattable(PlusNewLine(snippet), |values.value|)
      modifies this`sql, this`text, this`parameters
      ensures Valid()
      ensures Step(outcome, State())
           == if snippet.None? then Step(Threw(ArgumentNullException), old(State()))
              else AppendStep(old(State()), Some(PlusNewLine(snippet)), values)
    {
      if snippet.None? {
        return Threw(ArgumentNullException);
      }
      outcome := Append(Some(PlusNewLine(snippet)), values);
    }

    /** `AppendLine(sqlSnippet)`. */
    method AppendTextLine(snippet: Option<Snippet>) returns (outcome: Outcome)
      requires PlainSnippet(snippet)
      requires Valid()
      modifies this`sql, this`text
      ensures Valid()
      ensures Step(outcome, State())
           == if snippet.None? then Step(Threw(ArgumentNullException), old(State()))
              else AppendTextStep(old(State()), Some(PlusNewLine(snippet)))
    {
      if snippet.None? {
        return Threw(ArgumentNullException);
      }
      outcome := AppendText(Some(PlusNewLine(snippet)));
    }

    /** `AppendNotNull(val, sqlSnippet)`: Append with `val` bound to `{0}`, unless val is null. */
    method AppendNotNull(val: Value, snippet: Option<Snippet>) returns (outcome: Outcome)
      requires PlainSnippet(snippet)
      requires Valid()
      requires snippet.Some? && val != Null && snapshot.None? ==> Formattable(snippet.value, 1)
      modifies this`sql, this`text, this`parameters
      ensures Valid()
      ensures Step(outcome, State())
           == if snippet.None? then Step(Threw(ArgumentNullException), old(State()))
              else if val == Null then Step(Done, old(State()))
              else AppendStep(old(State()), snippet, Some([val]))
    {
      if snippet.None? {
        return Threw(ArgumentNullException);
      }
      if val != Null {
        outcome := Append(snippet, Some([val]));
      } else {
        outcome := Done;
      }
    }

    /** `AppendLineNotNull(val, sqlSnippet)`. */
    method AppendLineNotNull(val: Value, snippet: Option<Snippet>) returns (outcome: Outcome)
      requires PlainSnippet(snippet)
      requires Valid()
      requires snippet.Some? && val != Null && snapshot.None? ==> Formattable(PlusNewLine(snippet), 1)
      modifies this`sql, this`text, this`parameters
      ensures Valid()
      ensures Step(outcome, State())
           == if snippet.None? then Step(Threw(ArgumentNullException), old(State()))
              else if val == Null then Step(Done, old(State()))
              else AppendStep(old(State()), Some(PlusNewLine(snippet)), Some([val]))
    {
      if snippet.None? {
        return Threw(ArgumentNullException);
      }
      outcome := AppendNotNull(val, Some(PlusNewLine(snippet)));
    }

    /** `AppendNotNullOrEmpty(val, sqlSnippet)`: Append with the string bound to `{0}`,
        unless it is null or "". */
    method AppendNotNullOrEmpty(val: Option<string>, snippet: Option<Snippet>) returns (outcome: Outcome)
      requires PlainSnippet(snippet)
      requires Valid()
      requires snippet.Some? && val.Some? && val.value != "" && snapshot.None? ==> Formattable(snippet.value, 1)
      modifies this`sql, this`text, this`parameters
      ensures Valid()
      ensures Step(outcome, State())
           == if snippet.None? then Step(Threw(ArgumentNullException), old(State()))
              else if val.None? || val.value == "" then Step(Done, old(State()))
              else AppendStep(old(State()), snippet, Some([Text(val.value)]))
    {
      if snippet.None? {
        return Threw(ArgumentNullException);
      }
      if val.Some? && val.value != "" {
        outcome := Append(snippet, Some([Text(val.value)]));
      } else {
        outcome := Done;
      }
    }

    /** `AppendLineNotNullOrEmpty(val, sqlSnippet)`. */
    method AppendLineNotNullOrEmpty(val: Option<string>, snippet: Option<Snippet>) returns (outcome: Outcome)
      requires PlainSnippet(snippet)
      requires Valid()
      requires snippet.Some? && val.Some? && val.value != "" && snapshot.None? ==> Formattable(PlusNewLine(snippet), 1)
      modifies this`sql, this`text, this`parameters
      ensures Valid()
      ensures Step(outcome, State())
           == if snippet.None? then Step(Threw(ArgumentNullException), old(State()))
              else if val.None? || val.value == "" then Step(Done, old(State()))
              else AppendStep(old(State()), Some(PlusNewLine(snippet)), Some([Text(val.value)]))
    {
      if snippet.None? {
        return Threw(ArgumentNullException);
      }
      outcome := AppendNotNullOrEmpty(val, Some(PlusNewLine(snippet)));
    }

    /** `AppendIf(condition, sqlSnippet, params object[] parameters)`. */
    method AppendIf(condition: bool, snippet: Option<Snippet>, values: Option<seq<Value>>) returns (outcome: Outcome)
      requires PlainSnippet(snippet)
      requires Valid()
      requires condition && snippet.Some? && values.Some? && snapshot.None? ==> Formattable(snippet.value, |values.value|)
      modifies this`sql, this`text, this`parameters
      ensures Valid()
      ensures Step(outcome, State())
           == if snippet.None? then Step(Threw(ArgumentNullException), old(State()))
              else if condition then AppendStep(old(State()), snippet, values)
              else Step(Done, old(State()))
    {
      if snippet.None? {
        return Threw(ArgumentNullException);
      }
      if condition {
        outcome := Append(snippet, values);
      } else {
        outcome := Done;
      }
    }

    /** `AppendIf(condition, sqlSnippet)`. */
    method AppendTextIf(condition: bool, snippet: Option<Snippet>) returns (outcome: Outcome)
      requires PlainSnippet(snippet)
      requires Valid()
      modifies this`sql, this`text
      ensures Valid()
      ensures Step(outcome, State())
           == if snippet.None? then Step(Threw(ArgumentNullException), old(State()))
              else if condition then AppendTextStep(old(State()), snippet)
              else Step(Done, old(State()))
    {
      if snippet.None? {
        return Threw(ArgumentNullException);
      }
      if condition {
        outcome := AppendText(snippet);
      } else {
        outcome := Done;
      }
    }

    /** `AppendLineIf(condition, sqlSnippet, params object[] parameters)`. */
    method AppendLineIf(condition: bool, snippet: Option<Snippet>, values: Option<seq<Value>>) returns (outcome: Outcome)
      requires PlainSnippet(snippet)
      requires Valid()
      requires condition && snippet.Some? && values.Some? && snapshot.None? ==> Formattable(PlusNewLine(snippet), |values.value|)
      modifies this`sql, this`text, this`parameters
      ensures Valid()
      ensures Step(outcome, State())
           == if snippet.None? then Step(Threw(ArgumentNullException), old(State()))
              else if condition then AppendStep(old(State()), Some(PlusNewLine(snippet)), values)
              else Step(Done, old(State()))
    {
      if snippet.None? {
        return Threw(ArgumentNullException);
      }
      if condition {
          outcome := Append(Some(PlusNewLine(snippet)), values);
      } else {
        outcome := Done;
      }
    }

    /** `AppendLineIf(condition, sqlSnippet)`. */
    method AppendTextLineIf(condition: bool, snippet: Option<Snippet>) returns (outcome: Outcome)
      requires PlainSnippet(snippet)
      requires Valid()
      modifies this`sql, this`text
      ensures Valid()
      ensures Step(outcome, State())
           == if snippet.None? then Step(Threw(ArgumentNullException), old(State()))
              else if condition then AppendTextStep(old(State()), Some(PlusNewLine(snippet)))
              else Step(Done, old(State()))
    {
      if snippet.None? {
        return Threw(ArgumentNullException);
      }
      if condition {
        outcome := AppendTextLine(snippet);
      } else {
        outcome := Done;
      }
    }

    /** `AppendIn(values, sqlSnippet)`: the pattern's replace callback runs once per
        placeholder, left to right, binding the values as it goes; the text is
        written only after every placeholder has been replaced. */
    method AppendIn(values: Option<seq<Value>>, snippet: Option<Snippet>) returns (outcome: Outcome)
      requires PlainSnippet(snippet)
      requires Valid()
      modifies this`sql, this`text, this`parameters
      ensures Valid()
      ensures Step(outcome, State()) == AppendInStep(old(State()), values, snippet)
    {
      if snippet.None? {
        return Threw(ArgumentNullException);
      }
      if values.None? || |values.value| == 0 {
        return Done;
      }
      var vs := values.value;
      if |vs| > InListLimit {
        return Threw(InvalidOperationException);
      }
      var s := snippet.value;
      var replaced: Snippet := [];
      ghost var before, c := parameters, |parameters|;
      assert s[..0] == [];
      var t := 0;
      while t < |s| && !(s[t].Ph? && s[t].index != 0)
        invariant t <= |s|
        invariant OnlyZero(s[..t])
        invariant replaced == ExpandIn(s[..t], |vs|, c)
        invariant parameters == before + Repeat(vs, PlaceholderCount(s[..t]))
        invariant sql == old(sql) && text == old(text)
      {
        ExpandStep(s, t, vs, before, parameters, replaced);
        if s[t].Ph? {
          var start := |parameters|;
          parameters := parameters + vs;
          replaced := replaced + InList(start, |vs|);
        } else {
          replaced := replaced + [s[t]];
        }
        t := t + 1;
      }
      if t < |s| {
        // The first placeholder other than {0}: the replacement throws here.
        FirstOtherAt(s, t);
        AppendInStepStops(old(State()), vs, s, t);
        return Threw(InvalidOperationException);
      }
      assert s[..|s|] == s;
      AppendInStepDone(old(State()), vs, s);
      ExpandInPlain(s, |vs|, c);
      Write(replaced);
      outcome := Done;
    }

    /** `AppendLineIn(values, sqlSnippet)`. */
    method AppendLineIn(values: Option<seq<Value>>, snippet: Option<Snippet>) returns (outcome: Outcome)
      requires PlainSnippet(snippet)
      requires Valid()
      modifies this`sql, this`text, this`parameters
      ensures Valid()
      ensures Step(outcome, State())
           == if snippet.None? then Step(Threw(ArgumentNullException), old(State()))
              else AppendInStep(old(State()), values, Some(PlusNewLine(snippet)))
    {
      if snippet.None? {
        return Threw(ArgumentNullException);
      }
      outcome := AppendIn(values, Some(PlusNewLine(snippet)));
    }
  }
}
