# EF-Core-Demo data-access core, modelled in Dafny

The repository is a demonstration of Entity Framework Core with a data-access layer
(`Dal`) and a web host (`EF-Core-Demo`). This project models the parts of it that
compute something on their own:

- **`DynamicSqlQuery`** (module `DynamicSql`), a builder that accumulates SQL text
  and a positional parameter list. Each appended fragment may carry `{n}`
  placeholders; the builder renumbers them so that they name the fragment's values
  at their global position in the list. The `AppendIn` variant turns `{0}` into an
  IN list of up to 1000 fresh placeholders. Reading `Parameters` takes a snapshot of
  the list, after which the parameter-binding `Append` refuses to run.
  The builder is a class with the source's three fields (`sql` for the
  StringBuilder, `parameters` for the List, `snapshot` for the Lazy array) and a
  ghost `text` holding the fragments as tokens (`SqlTemplate.Token`: literal text or
  a placeholder `{n}`), with `sql == Render(text)` as its invariant. Every
  state-changing method is proved against a pure step function (`AppendStep`,
  `AppendTextStep`, `AppendInStep`) that gives the outcome (done, or the CLR
  exception raised) and the new state; the properties are lemmas about those
  functions.
- **`ServerContext.CreateSqlWithParameters`** (module `ServerContext`), which appends
  ` @name` for every `DbParameter` argument of a stored-procedure call, proved
  against `WithParameters`.
- **`GetAllDals` and `GetAllBusiness`** (module `DalsRegister`), which pick
  data-access types by namespace and pair business interfaces with their
  implementations for dependency injection. The loaded assemblies and the
  configuration are parameters.
- **`BoolToDecimalConverter`** (module `Converter`), the two conversion lambdas
  between `bool?` and `decimal?`.

`Common` holds the shared `Option`, `Result` and CLR exception datatypes.

A snippet is modelled as a sequence of tokens rather than a string matched by the
source's regular expression: `Lit(text)` is text copied as is, `Ph(n)` is a
placeholder `{n}`. `Render` gives the string. String.Format's renumbering becomes
`Shift` (add an offset to every index) and `Substitute` (replace index i by the
i-th new index).

Fragments are plain (`SqlTemplate.Plain`): literal text holds no `{`, so every `{`
of the SQL text opens a placeholder, and `Sql` states that the text has exactly as
many `{` as the fragments have placeholders.

The code is followed where it and the design intent differ, with one exception:
the single-placeholder path of `Append` is modelled check-first, as listed under
"## Left out" and "## Findings".

- After `Parameters` has been read, only the parameter-binding `Append` (and so the
  parameter-taking `AppendLine`, the `NotNull`, `NotNullOrEmpty` and
  parameter-taking `If` variants) throws InvalidOperationException. `Create` cannot
  throw it: it appends to a fresh builder.
- The plain-text `Append(string)`, `AppendLine(string)` and their `If` variants
  still write.
- `AppendIn` still writes and binds values after the snapshot
  (`DynamicSql.AppendInIgnoresFreeze`). The values it binds are then missing from
  the snapshot.

## Model

| member | source | states |
|---|---|---|
| DynamicSql.DynamicSqlQuery.constructor | Dal/Context/DynamicSqlQuery.cs:39-46 | a new builder has empty text, no values and no snapshot |
| DynamicSql.DynamicSqlQuery.Create | Dal/Context/DynamicSqlQuery.cs:18-21 | a fresh builder on which the fragment was appended, as `AppendStep` from the empty state |
| DynamicSql.DynamicSqlQuery.CreateLine | Dal/Context/DynamicSqlQuery.cs:29-32 | a fresh builder on which the fragment plus a line break was appended; a null fragment stands for the empty text |
| DynamicSql.DynamicSqlQuery.Sql | Dal/Context/DynamicSqlQuery.cs:54 | the SQL text is the rendering of all fragments written, and its `{` characters are exactly the placeholders written |
| SqlTemplate.BracesArePlaceholders | Dal/Context/DynamicSqlQuery.cs:37 | in a plain fragment the number of `{` in the text equals the number of placeholder matches |
| DynamicSql.PlusNewLine | Dal/Context/DynamicSqlQuery.cs:74-80 | the fragment plus a line break renders as the fragment's text (empty for null) followed by the line break, and stays plain |
| DynamicSql.AppendStep | Dal/Context/DynamicSqlQuery.cs:112-149 | a failed parameter-binding append leaves the state unchanged; the snapshot is never touched; text and values are only extended |
| DynamicSql.AppendTextStep | Dal/Context/DynamicSqlQuery.cs:98-104 | the plain append completes exactly for a non-null fragment, binds nothing, ignores the snapshot and only extends the text |
| DynamicSql.AppendInStep | Dal/Context/DynamicSqlQuery.cs:288-312 | a failed AppendIn writes no text; the snapshot is never touched; text and values are only extended |
| DynamicSql.DynamicSqlQuery.IsEmpty | Dal/Context/DynamicSqlQuery.cs:63 | the builder is empty exactly when every fragment written was empty literal text |
| DynamicSql.DynamicSqlQuery.Parameters | Dal/Context/DynamicSqlQuery.cs:46-58 | the first read snapshots the values bound so far; every later read returns that snapshot, even after more values are bound |
| DynamicSql.CollectPlaces | Dal/Context/DynamicSqlQuery.cs:130-139 | the scan stops exactly when some index is past the values; otherwise the map's keys are exactly the indices written, each mapped to its own value |
| DynamicSql.FormatArguments | Dal/Context/DynamicSqlQuery.cs:140-144 | for dense indices the keys in order give the arguments `{c}`, `{c+1}`, … and bind the first Bound values |
| DynamicSql.DynamicSqlQuery.Write | Dal/Context/DynamicSqlQuery.cs:102 | defines `StringBuilder.Append` of a fragment: the text gains the fragment's rendering and stays plain |
| DynamicSql.DynamicSqlQuery.Append | Dal/Context/DynamicSqlQuery.cs:112-149 | the outcome and new state are those of `AppendStep`, with the text kept equal to the rendering of the fragments |
| DynamicSql.DynamicSqlQuery.AppendText | Dal/Context/DynamicSqlQuery.cs:98-104 | null raises ArgumentNullException; otherwise the fragment is written as is, placeholders included, even after the snapshot |
| DynamicSql.DynamicSqlQuery.AppendLine | Dal/Context/DynamicSqlQuery.cs:74-80 | null raises ArgumentNullException; otherwise `AppendStep` on the fragment plus a line break |
| DynamicSql.DynamicSqlQuery.AppendTextLine | Dal/Context/DynamicSqlQuery.cs:86-92 | null raises ArgumentNullException; otherwise the fragment plus a line break is written as is |
| DynamicSql.DynamicSqlQuery.AppendNotNull | Dal/Context/DynamicSqlQuery.cs:171-179 | null fragment raises ArgumentNullException; a null value changes nothing; otherwise `AppendStep` with the one value |
| DynamicSql.DynamicSqlQuery.AppendLineNotNull | Dal/Context/DynamicSqlQuery.cs:157-163 | as AppendNotNull, on the fragment plus a line break |
| DynamicSql.DynamicSqlQuery.AppendNotNullOrEmpty | Dal/Context/DynamicSqlQuery.cs:201-209 | null fragment raises ArgumentNullException; a null or empty string changes nothing; otherwise `AppendStep` with the string |
| DynamicSql.DynamicSqlQuery.AppendLineNotNullOrEmpty | Dal/Context/DynamicSqlQuery.cs:187-193 | as AppendNotNullOrEmpty, on the fragment plus a line break |
| DynamicSql.DynamicSqlQuery.AppendIf | Dal/Context/DynamicSqlQuery.cs:253-262 | null fragment raises ArgumentNullException; a false condition changes nothing; otherwise `AppendStep` |
| DynamicSql.DynamicSqlQuery.AppendTextIf | Dal/Context/DynamicSqlQuery.cs:270-279 | null fragment raises ArgumentNullException; a false condition changes nothing; otherwise the text is written as is |
| DynamicSql.DynamicSqlQuery.AppendLineIf | Dal/Context/DynamicSqlQuery.cs:218-227 | as AppendIf, on the fragment plus a line break |
| DynamicSql.DynamicSqlQuery.AppendTextLineIf | Dal/Context/DynamicSqlQuery.cs:235-244 | as AppendTextIf, on the fragment plus a line break |
| DynamicSql.DynamicSqlQuery.AppendIn | Dal/Context/DynamicSqlQuery.cs:288-312 | the outcome and new state are those of `AppendInStep`, including the values left bound when a placeholder other than `{0}` aborts the rewrite |
| DynamicSql.DynamicSqlQuery.AppendLineIn | Dal/Context/DynamicSqlQuery.cs:321-327 | null raises ArgumentNullException; otherwise `AppendInStep` on the fragment plus a line break |
| SqlTemplate.Shift | Dal/Context/DynamicSqlQuery.cs:127 | defines the renumbering String.Format performs with the arguments `{c}`, `{c+1}`, …: every `{i}` becomes `{c+i}`, literals unchanged |
| SqlTemplate.Substitute | Dal/Context/DynamicSqlQuery.cs:142 | defines String.Format with arguments that are themselves placeholder texts: every `{i}` becomes `{args[i]}` |
| SqlTemplate.InList | Dal/Context/DynamicSqlQuery.cs:302-306 | defines the IN list the Replace callback returns: `{start}, {start+1}, …` for n values |
| SqlTemplate.ExpandIn | Dal/Context/DynamicSqlQuery.cs:298-307 | defines Regex.Replace with that callback: the k-th `{0}` becomes the IN list starting at start + k·n, literals unchanged |
| DynamicSql.AppendVerbatim | Dal/Context/DynamicSqlQuery.cs:145-148 | a fragment without placeholders is written as is and binds nothing, whatever values are passed |
| DynamicSql.AppendSingle | Dal/Context/DynamicSqlQuery.cs:125-129 | a single `{0}` becomes `{c}`, where c is the number of values bound before, and binds the first value at c |
| DynamicSql.AppendBinds | Dal/Context/DynamicSqlQuery.cs:130-144 | with all indices in range, the first Bound(s) values are appended after the old ones, which are kept; each placeholder `{i}` of the fragment becomes `{c+i}`, which is written and names values[i] |
| DynamicSql.AppendStepDone | Dal/Context/DynamicSqlQuery.cs:125-144 | with all indices in range the append completes, shifting the fragment by the number of bound values |
| DynamicSql.AppendOutOfRange | Dal/Context/DynamicSqlQuery.cs:133-139 | with several placeholders, any one index i not below the number of values raises IndexOutOfRangeException before anything is written |
| DynamicSql.FrozenRejectsAppend | Dal/Context/DynamicSqlQuery.cs:120-121 | once the snapshot is taken, Append raises InvalidOperationException and changes nothing |
| DynamicSql.AppendKeepsPlaceholdersBound | Dal/Context/DynamicSqlQuery.cs:112-149 | whatever Append's outcome, every placeholder written still names a bound value, the snapshot stays a prefix of the values, and every placeholder not written before names a value bound by this call |
| DynamicSql.AppendTextVerbatim | Dal/Context/DynamicSqlQuery.cs:98-104 | the plain-text Append writes the fragment unchanged; it keeps every placeholder bound exactly when the fragment's own indices are bound |
| DynamicSql.FirstOtherIsLength | Dal/Context/DynamicSqlQuery.cs:298-303 | the rewrite runs to the end of the fragment exactly when every placeholder is `{0}` |
| DynamicSql.AppendInNothing | Dal/Context/DynamicSqlQuery.cs:293 | a null or empty value list changes nothing, even for a fragment that has placeholders |
| DynamicSql.AppendInTooMany | Dal/Context/DynamicSqlQuery.cs:295-296 | more than 1000 values raise InvalidOperationException and change nothing |
| DynamicSql.AppendInOtherPlaceholder | Dal/Context/DynamicSqlQuery.cs:298-308 | a placeholder other than `{0}` raises InvalidOperationException; no text is written, the snapshot is kept, and the values gain one whole copy of the list per `{0}` before it |
| DynamicSql.AppendInExpands | Dal/Context/DynamicSqlQuery.cs:298-308 | each `{0}` binds all n values: n times the count more values, the old ones kept, and the indices written are exactly the old ones plus the new positions |
| DynamicSql.AppendInBinds | Dal/Context/DynamicSqlQuery.cs:298-308 | the p-th `{0}` binds the j-th value at position c + p·n + j |
| DynamicSql.AppendInKeepsPlaceholdersBound | Dal/Context/DynamicSqlQuery.cs:288-312 | whatever AppendIn's outcome, every placeholder written still names a bound value and the snapshot stays a prefix |
| DynamicSql.AppendInIgnoresFreeze | Dal/Context/DynamicSqlQuery.cs:288-312 | after the snapshot, AppendIn still completes and writes an index that lies past the snapshot |
| DynamicSql.AppendInExample | Dal/Context/DynamicSqlQuery.cs:298-308 | `AppendIn([a, b, c], "id IN ({0})")` on a new builder writes `id IN ({0}, {1}, {2})` and binds `[a, b, c]` |
| DynamicSql.SingleAppendAsWritten | Dal/Context/DynamicSqlQuery.cs:125-129 | as written, the single-placeholder path writes the renumbered fragment whatever the values, and completes exactly when a value is given |
| DynamicSql.DanglingPlaceholderAsWritten | Dal/Context/DynamicSqlQuery.cs:125-129 | as written, `Append("id = {0}", new object[0])` raises IndexOutOfRangeException but leaves `id = {0}` in the text with nothing bound |
| DynamicSql.SingleAppendCorrected | Dal/Context/DynamicSqlQuery.cs:125-129 | the corrected single-placeholder path agrees with the code as written when a value is given, and otherwise raises with nothing written |
| ServerContext.Contribution | Dal/Context/ServerContext.cs:66-69 | defines the text one argument adds: nothing for a non-parameter, otherwise an optional comma and ` @name` |
| ServerContext.WithParameters | Dal/Context/ServerContext.cs:64-76 | defines the SQL after the arguments have been processed in array order |
| ServerContext.ContributionShape | Dal/Context/ServerContext.cs:66-69 | a non-parameter contributes nothing; a parameter contributes ` @name`, preceded by a comma exactly when it is not the first argument |
| ServerContext.CreateSqlWithParameters | Dal/Context/ServerContext.cs:61-77 | the result is `WithParameters` of the arguments; a null or empty argument array leaves the SQL unchanged |
| ServerContext.WithParametersAppendsList | Dal/Context/ServerContext.cs:64-76 | the result is the SQL followed by the parameter list read front to back |
| ServerContext.StartsWithSql | Dal/Context/ServerContext.cs:61-77 | the SQL given is a prefix of the result |
| ServerContext.NonParametersAddNothing | Dal/Context/ServerContext.cs:66-67 | arguments that are not DbParameters leave the SQL unchanged |
| ServerContext.DirectionIgnored | Dal/Context/ServerContext.cs:72-73 | two argument arrays with the same parameter names at the same positions give the same SQL, whatever the directions |
| ServerContext.LeadingCommaExample | Dal/Context/ServerContext.cs:69 | a non-parameter first argument followed by parameter `a` gives `EXEC p, @a`: the comma depends on the position, not on what came before |
| DalsRegister.Contains | EF-Core-Demo/Infrastructure/Extensions/DalsRegisterExtentsions.cs:42 | defines `string.Contains`: the part occurs at some position of the string |
| DalsRegister.InNamespace | EF-Core-Demo/Infrastructure/Extensions/DalsRegisterExtentsions.cs:42 | defines the namespace test: the namespace is not null and contains the fragment |
| DalsRegister.DalsOf | EF-Core-Demo/Infrastructure/Extensions/DalsRegisterExtentsions.cs:42 | defines the data-access types of one assembly: those in the Dals namespace, in order |
| DalsRegister.BusinessOf | EF-Core-Demo/Infrastructure/Extensions/DalsRegisterExtentsions.cs:61 | defines the implementation candidates of one assembly: non-nested types in the Blls namespace, in order |
| DalsRegister.InterfacesOf | EF-Core-Demo/Infrastructure/Extensions/DalsRegisterExtentsions.cs:65 | defines the interface candidates of one assembly: its interface types, in order |
| DalsRegister.Implements | EF-Core-Demo/Infrastructure/Extensions/DalsRegisterExtentsions.cs:76 | defines the pairing test: the implementation implements the interface and the interface's name contains the implementation's name |
| DalsRegister.AddAll | EF-Core-Demo/Infrastructure/Extensions/DalsRegisterExtentsions.cs:78 | defines `Dictionary.Add` of each registration in turn: a key already present raises ArgumentException |
| DalsRegister.BusinessMap | EF-Core-Demo/Infrastructure/Extensions/DalsRegisterExtentsions.cs:46-83 | defines GetAllBusiness as a function: empty without interface candidates, otherwise the matching pairs added to an empty dictionary |
| DalsRegister.Where | EF-Core-Demo/Infrastructure/Extensions/DalsRegisterExtentsions.cs:41 | a type is kept exactly when it is in the input and passes the test |
| DalsRegister.GetAllDals | EF-Core-Demo/Infrastructure/Extensions/DalsRegisterExtentsions.cs:38-45 | a type is returned exactly when some assembly defines it and its namespace is non-null and contains the configured `Dals` fragment |
| DalsRegister.LastNamed | EF-Core-Demo/Infrastructure/Extensions/DalsRegisterExtentsions.cs:57-67 | no assembly is chosen exactly when none has the module name; otherwise the position of the last one that has it is returned |
| DalsRegister.ScanAssemblies | EF-Core-Demo/Infrastructure/Extensions/DalsRegisterExtentsions.cs:57-67 | the scan over the loaded assemblies yields exactly the interface and implementation candidates of the last assembly with each configured name |
| DalsRegister.AddPairs | EF-Core-Demo/Infrastructure/Extensions/DalsRegisterExtentsions.cs:72-81 | the nested loops give the same dictionary, or the same ArgumentException, as adding the matching pairs one by one to an empty dictionary |
| DalsRegister.BusinessTypes | EF-Core-Demo/Infrastructure/Extensions/DalsRegisterExtentsions.cs:59-62 | the candidates are the non-nested types of the last `ModuleName` assembly whose namespace contains the `Blls` fragment |
| DalsRegister.InterfaceTypes | EF-Core-Demo/Infrastructure/Extensions/DalsRegisterExtentsions.cs:63-66 | the interface candidates are the interfaces of the last `interfaceBlls` assembly |
| DalsRegister.Row | EF-Core-Demo/Infrastructure/Extensions/DalsRegisterExtentsions.cs:74-80 | the inner loop pairs an interface with exactly the candidates that implement it and whose names its name contains |
| DalsRegister.Pairs | EF-Core-Demo/Infrastructure/Extensions/DalsRegisterExtentsions.cs:72-81 | the nested loops find exactly the matching (interface, implementation) pairs |
| DalsRegister.GetAllBusiness | EF-Core-Demo/Infrastructure/Extensions/DalsRegisterExtentsions.cs:46-83 | the result is `BusinessMap`: empty without interface candidates, otherwise the pairs added one by one to an empty dictionary |
| DalsRegister.LastScannedWins | EF-Core-Demo/Infrastructure/Extensions/DalsRegisterExtentsions.cs:57-67 | when several assemblies share the module name, the scan keeps the candidates of the last one |
| DalsRegister.NoInterfacesNoRegistrations | EF-Core-Demo/Infrastructure/Extensions/DalsRegisterExtentsions.cs:63-71 | when no assembly has the interfaceBlls name, or the last one that has it defines no interface, the result is the empty dictionary |
| DalsRegister.AddAllContents | EF-Core-Demo/Infrastructure/Extensions/DalsRegisterExtentsions.cs:78 | when every Add succeeds, the dictionary holds exactly the registrations added |
| DalsRegister.AddAllSucceedsIff | EF-Core-Demo/Infrastructure/Extensions/DalsRegisterExtentsions.cs:78 | adding succeeds exactly when no key repeats; otherwise it raises ArgumentException |
| DalsRegister.BusinessMapSucceedsIff | EF-Core-Demo/Infrastructure/Extensions/DalsRegisterExtentsions.cs:72-82 | GetAllBusiness returns exactly when no interface matches two implementations; otherwise it raises ArgumentException |
| DalsRegister.BusinessMapSoundComplete | EF-Core-Demo/Infrastructure/Extensions/DalsRegisterExtentsions.cs:72-82 | on success an interface maps to an implementation exactly when the pair matches |
| DalsRegister.SecondMatchRepeats | EF-Core-Demo/Infrastructure/Extensions/DalsRegisterExtentsions.cs:76-79 | an interface that matches two implementations yields a repeated key among the pairs |
| DalsRegister.SecondMatchThrows | EF-Core-Demo/Infrastructure/Extensions/DalsRegisterExtentsions.cs:76-79 | an interface that matches two implementations makes the whole call raise ArgumentException |
| Converter.ToProvider | Dal/Context/Converter.cs:13 | the column value is never null; it is 1 exactly for true and 0 otherwise, null included |
| Converter.FromProvider | Dal/Context/Converter.cs:14 | the model value is never null; it is true exactly for a non-null, non-zero decimal |
| Converter.RoundTrip | Dal/Context/Converter.cs:13-14 | a non-null bool survives the round trip through the column |
| Converter.NullNotPreserved | Dal/Context/Converter.cs:13-14 | a null bool comes back as false |
| Converter.ColumnNormalised | Dal/Context/Converter.cs:13-14 | a column value read and written back becomes 0 or 1 |

## Left out

- The placeholder regular expression is replaced by the token model. Its quirks are not modelled:
  - the `s*` in the pattern, which reads literal `s` characters;
  - its optional neighbour groups, which make adjacent placeholders such as `{0}{1}` count as one match;
  - `{{` and `}}` escapes;
  - a literal `{` that opens no placeholder: every method requires its fragment to be plain (`DynamicSql.PlainSnippet`), so a `{` in a fragment is always a placeholder.
- Format errors are not modelled. The parameter-binding Append members require the fragment to avoid them (`Formattable`):
  - FormatException from String.Format for a single placeholder other than `{0}`, for several in-range indices that do not cover 0..n-1, and for a `}` in the literal text of a fragment that has placeholders;
  - OverflowException from `int.Parse` for an index above 2147483647 among several placeholders.
- `{00}` and other padded indices are not modelled. The token model reads them as `{0}`, while AppendIn compares the digits with the text "0".
- Exception messages are not modelled, only exception types.
- `Environment.NewLine` is modelled as `"\n"`.
- Null configuration values are not modelled; `string.Contains(null)` would raise. A null `sql` argument to CreateSqlWithParameters is not modelled either: strings are non-null there.
- `decimal` is modelled as `real`, which is exact for the values 0 and 1 that the converter produces.
- CLR `Type` identity is modelled by record equality of `ClrType`, and `GetInterfaces()` by a set of type ids. A type's id is taken to name that one record, so the two notions of identity agree; the model does not state this as a predicate.
- `AppDomain.CurrentDomain.GetAssemblies()` and `IConfiguration` become parameters. The order of the assembly list is taken as given.
- The rest of ServerContext (entity sets, stored-procedure execution), RegisterDals, ServerRepository, EntityFrameworkCoreExtensions and the interface files are not part of this model. They call into EF Core and the DI container.
- DynamicSql.DynamicSqlQuery.Append: the single-placeholder path with an empty value array (for example `Append("id = {0}", new object[0])`) is modelled check-first: it raises IndexOutOfRangeException and writes nothing, where lines 125-129 write the fragment before raising. AppendLine, AppendIf and AppendLineIf inherit this; Create and CreateLine do too, but a builder whose creation raises is never returned, so there the difference cannot be seen. The code as written is `DynamicSql.SingleAppendAsWritten`, and `DynamicSql.SingleAppendCorrected` relates the two (see "## Findings").
- DynamicSql.AppendStep: for the same input it gives the check-first outcome (exception, state unchanged). `DynamicSql.AppendOutOfRange` is stated for several placeholders only, where the source itself checks first.
- The Append step functions describe the builder's state as a value. Aliasing between builders is not modelled: every builder is its own object.

## Findings

| source | as written | input that shows it | evidently intended | confidence | as-written member | corrected member |
|---|---|---|---|---|---|---|
| Dal/Context/DynamicSqlQuery.cs:125-129 | the single-placeholder path writes the renumbered fragment to the SQL text before reading `parameters[0]` | `Append("id = {0}", new object[0])`: IndexOutOfRangeException, yet the text now holds `id = {0}` with no value bound | check the value first, as the several-placeholder path does at lines 133-139, so that the exception leaves the builder unchanged | medium; not executed | DynamicSql.DanglingPlaceholderAsWritten | DynamicSql.AppendKeepsPlaceholdersBound |
