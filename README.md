# XELive event formatter and profile resolution, modelled in Dafny

XELive streams SQL Server Extended Events to the console. This project models
the parts of it that decide what is shown and how:

- **Filters** (`filters.dfy`): the case-insensitive filter sets built from a
  profile's lists. An empty list gives an absent set, which constrains nothing.
  Also the three-valued prefix test `IsPrefixInSet`.
- **Formatter** (`formatter.dfy`): `FormatText`. It either suppresses an event
  (by database, user, statement or statement prefix) or renders it as
  `<database>: <statement>`.
- **Reconstruct** and **ReconstructProperties** (`reconstruct.dfy`,
  `reconstruct_props.dfy`): `FillParameters`. It turns
  `exec sp_executesql N'<stmt>',N'<defs>',@a=v,...` back into the statement,
  with each `@name` replaced by its value.
- **Substitution** (`substitution.dfy`): what the substitution loop of
  `FillParameters` does to one reference and to one quoted literal inside a
  longer statement.
- **Quoting** (`quoting.dfy`): `SkipString`, the T-SQL literal scanner.
- **Collapse** and **CollapseSample** (`collapse.dfy`, `collapse_sample.dfy`):
  `CollapseSelects`. It replaces a long `SELECT t.c AS a, ... FROM` projection
  by `SELECT t.*, ... FROM`.
- **Profiles** (`profiles.dfy`): the profile record and `Combine`.
- **Resolution** (`resolution.dfy`): the start-up code that chooses a profile,
  merges its ancestors and then merges the command-line options.
- **Text** and **Wrappers** (`text.dfy`, `wrappers.dfy`): shared pieces.
  - `Text` holds `OrdinalIgnoreCase` comparison as an ASCII fold, `IndexOf`
    and case-insensitive dictionaries.
  - `Wrappers` holds `Option`, which stands for null.

How each part is modelled:

- The pure parts of the code are functions:
  - filter-set construction;
  - `FormatText`;
  - the regular-expression replacement, modelled by a backtracking matcher
    for exactly its shape;
  - `Combine`.
- The loops of the code are methods proved equal to those functions:
  - `SkipString`;
  - the assignment loop and the substitution loop of `FillParameters`;
  - the `foreach` of `IsPrefixInSet`;
  - the profile pass and the inheritance loop of `Program`.

The matcher for the regular expression has two proofs about it:

- soundness: each match it finds is a match of a declarative grammar;
- completeness: it finds a match wherever the grammar has one.

There are two ways the code can read its unescaped `.` between table and
column. Both are modelled (see Findings).

## Model

| member | source | states |
|---|---|---|
| Filters.CreateFilterSet | XEStreamer.cs:35-39 | the set is absent iff the list is empty; when present it holds exactly the case-folded list elements |
| Filters.PrefixInSet | XEStreamer.cs:41-55 | defines the prefix test: null when the set or the statement is null, else whether some member is a case-insensitive prefix. The loop is proved equal to it by IsPrefixInSet and its meaning on built sets by PrefixInCreated |
| Filters.ContainsCreated | XEStreamer.cs:35-39 | a value is in a set built from a list iff it equals some element ignoring case |
| Filters.IsPrefixInSet | XEStreamer.cs:41-55 | the result is null iff the set or the statement is null. It is true iff some member is a case-insensitive prefix of the statement. It equals PrefixInSet |
| Filters.PrefixInCreated | XEStreamer.cs:35-55 | on a set built from a list: the prefix test is true iff some list element is a prefix, ignoring case |
| Filters.ContainsTestIsExclusion | XEStreamer.cs:160 | `ignored?.Contains(v) == true \|\| only?.Contains(v) == false` holds iff the value is excluded |
| Filters.AbsentSetsNeverExclude | XEStreamer.cs:160-181 | absent sets exclude no value and no prefix |
| Formatter.StatementSource | XEStreamer.cs:174-175 | the statement is the `statement` field when that key exists, even if its value is not a string. Only when the key is absent is it `batch_text` |
| Formatter.FormatText | XEStreamer.cs:154-199 | defines the event text: suppressed (no text) when the database, the user, the statement or its prefix is excluded; otherwise `<database>: <statement>` with the call filled in and the selects collapsed, or the generic text when there is no statement. Its properties are stated by FormatSuppression, FormatGeneric, FormatShown, FormatFilled and FormatUnfilled |
| Formatter.PrefixTestIsExclusion | XEStreamer.cs:180 | the two prefix tests together hold iff the statement is prefix-excluded |
| Formatter.FormatSuppression | XEStreamer.cs:154-199 | an event is suppressed iff its database, user or statement is excluded, or its statement is prefix-excluded. A missing action or statement excludes nothing |
| Formatter.FormatGeneric | XEStreamer.cs:154-199 | an event without a statement gets its generic text unless its database or user is excluded |
| Formatter.FormatShown | XEStreamer.cs:174-195 | a shown statement event is the database name, `: ` and the rendered statement |
| Formatter.FormatFilled | XEStreamer.cs:185-195 | a statement with the parametrised-call prefix (any case) whose parameters fill in is shown filled in, then collapsed |
| Formatter.FormatUnfilled | XEStreamer.cs:185-195 | any other statement, or a call that does not fill in, is shown collapsed as it came |
| Formatter.FormatVerbatim | XEStreamer.cs:185-195 | under the literal-dot reading, a plain statement without a `.` is shown unchanged after the database name. As written, such a statement can still be rewritten (CollapseSample.SampleAsWritten) |
| Formatter.MissingDatabaseIgnoresFilters | XEStreamer.cs:158-164 | without a string `database_name` action, the database filter sets do not affect the result |
| Formatter.MissingUserIgnoresFilters | XEStreamer.cs:166-172 | without a string `nt_username` action, the user filter sets do not affect the result |
| Formatter.DefaultShowsEverything | XEStreamer.cs:20-33 | a streamer built from a default profile (all lists empty) suppresses no event |
| Formatter.ListExclusion | XEStreamer.cs:158-162 | with sets built from lists: a value is excluded iff it equals an ignored entry, or the only-list is non-empty and holds no entry equal to it (case ignored) |
| Formatter.ListPrefixExclusion | XEStreamer.cs:180-181 | the same for prefix lists, with "is a prefix of" instead of "equals" |
| Formatter.StreamerExclusion | XEStreamer.cs:20-33 | a streamer built from a profile excludes by each of that profile's four pairs of lists |
| Formatter.NewStreamer | XEStreamer.cs:20-33 | defines the constructor: one filter set per profile list, built by CreateFilterSet. StreamerExclusion and DefaultShowsEverything state what the streamer then excludes |
| Formatter.Formatted | XEStreamer.cs:183-194 | defines how a shown statement is written: filled in and collapsed when it starts with the parametrised-call prefix (any case) and fills in, otherwise collapsed as it came. FormatFilled, FormatUnfilled and FormatVerbatim state it |
| Quoting.QuoteEndSound | XEStreamer.cs:204-226 | when the scan finds an end, the interior is well escaped and the closing quote is not doubled |
| Quoting.QuoteEnd | XEStreamer.cs:204-226 | defines where a literal whose interior starts at `j` ends: just past the first quote that is not doubled, or none. Any end it gives lies after `j`, within the text, and is just past a quote. QuoteEndIsLiteral states what it finds |
| Quoting.QuoteEndComplete | XEStreamer.cs:204-226 | a well-escaped interior closed by an undoubled quote is found at that quote |
| Quoting.QuoteEndIsLiteral | XEStreamer.cs:204-226 | the scan ends at `close` iff the text from `open` to `close` is one complete literal |
| Quoting.SkipString | XEStreamer.cs:204-226 | no quote at `i`: returns false and leaves `i` unchanged. Otherwise the result is true iff the literal terminates; `i` is then just past the closing quote, or at the end of the text if it does not terminate |
| Quoting.UnescapeEscape | XEStreamer.cs:277 | unescaping `''` undoes doubling the quotes |
| Quoting.Unescape | XEStreamer.cs:277 | defines `Replace("''", "'")`, left to right: every doubled quote becomes one quote, and the result is never longer. UnescapeEscape and EscapeUnescape state that it inverts doubling |
| Quoting.EscapeUnescape | XEStreamer.cs:277 | on a well-escaped interior, doubling the quotes undoes unescaping |
| Quoting.EscapeIsEscapedBody | XEStreamer.cs:277 | doubling the quotes gives a well-escaped interior |
| Text.FoldIdempotent | XEStreamer.cs:37 | case-folding twice is folding once |
| Text.StartsWithFolded | XEStreamer.cs:47 | a case-insensitive prefix test does not depend on the case of the prefix |
| Text.IndexOf | XEStreamer.cs:254-256 | `IndexOf` returns the first index of the character at or after the start, or -1 when there is none |
| Text.GetPut | XEStreamer.cs:274 | storing in a case-insensitive dictionary overwrites exactly the keys equal to it ignoring case |
| Reconstruct.NextAssignmentSpan | XEStreamer.cs:250-274 | one successful loop iteration consumed exactly `,name=value` |
| Reconstruct.NextAssignment | XEStreamer.cs:250-274 | defines one iteration of the assignment loop: no match without a leading `,` or without an `=`, a read past the end after a final `,`, otherwise the binding and the index after its value. Its name is non-empty and the index moves forward. NextAssignmentSpan, AssignmentNeedsComma and AssignmentNeedsEquals state it |
| Reconstruct.AssignmentFrom | XEStreamer.cs:257-274 | defines the rest of one iteration once the `=` is found: the name is the text between the comma and the `=`, and the value is a quoted literal (after an optional `N`) or runs to the next comma. AssignmentNeedsClosedValue states the unterminated case |
| Reconstruct.AssignmentNeedsComma | XEStreamer.cs:250-251 | an assignment that does not start with `,` gives no match, for the iteration and for the whole loop |
| Reconstruct.AssignmentNeedsEquals | XEStreamer.cs:252-256 | with no `=` after the first character of the name, the iteration and the loop give no match |
| Reconstruct.AssignmentNeedsClosedValue | XEStreamer.cs:258-266 | a value that opens a quote (after an optional `N`) that never closes gives no match, for the iteration and for the loop |
| Reconstruct.AssignmentsSpan | XEStreamer.cs:248-275 | a successful assignment loop consumed the rest of the text as its assignments in order |
| Reconstruct.Assignments | XEStreamer.cs:248-275 | defines the whole assignment loop: the bindings in order, or the first failure. Every binding has a non-empty name. AssignmentsSpan states that a success covers the rest of the text |
| Reconstruct.BuildMapLookup | XEStreamer.cs:246-275 | a name is mapped iff some assignment names it (case ignored); the last such assignment gives the value |
| Reconstruct.BuildMap | XEStreamer.cs:246-274 | defines the `paramVal` dictionary: each binding stored in order into a case-insensitive map. BuildMapLookup states its keys and values |
| Reconstruct.IndexOfAny | XEStreamer.cs:284 | returns the first `@` or quote at or after the start, or -1 when there is none |
| Reconstruct.RenderWithoutReferences | XEStreamer.cs:279-323 | a statement without `@` comes back unchanged, whatever the parameters |
| Reconstruct.RenderEmptyMap | XEStreamer.cs:279-323 | with no assignments every reference is kept as written, so the statement comes back unchanged |
| Reconstruct.Statement | XEStreamer.cs:277 | defines the recovered statement: the inside of the first literal with `''` unescaped. Quoting.UnescapeEscape states the unescaping |
| Reconstruct.Render | XEStreamer.cs:279-323 | defines the substitution: literals copied whole, each `@name` replaced by its value or kept, every other character copied. The Substitution lemmas, RenderWithoutReferences and RenderEmptyMap state it |
| Reconstruct.FillFromLiterals | XEStreamer.cs:230-277 | when both literals are found and the assignments parse, the result is the unescaped statement with the assignments substituted |
| Reconstruct.FillFailsInAssignments | XEStreamer.cs:246-275 | when the assignments do not parse, there is no result |
| Reconstruct.FillComplete | XEStreamer.cs:230-324 | a statement literal, then `,N`, then a definitions literal, then assignments that parse: the call fills in to the statement with those assignments substituted |
| Reconstruct.FillSound | XEStreamer.cs:230-324 | a result comes only from such a call. The assignments cover the rest of the text, and the result is the statement with them substituted |
| Reconstruct.FillStatementStage | XEStreamer.cs:233-236 | a result needs a terminated statement literal at the end of the prefix, and the rest is read after it |
| Reconstruct.FillDefinitionsStage | XEStreamer.cs:238-244 | after the statement literal a result needs `,N'` and a terminated definitions literal |
| Reconstruct.FoundParts | XEStreamer.cs:233-275 | where the scans stop are the parts of the call: the two literals, and assignments that are the rest of the text |
| Reconstruct.FillNeedsStatementLiteral | XEStreamer.cs:233-235 | without a complete literal starting at the prefix's last quote there is no match |
| Reconstruct.FillNeedsSeparator | XEStreamer.cs:238-239 | without `,N'` after the statement literal there is no result. As written it is no match, except that a text ending in `,N` there reads past the end |
| Reconstruct.FillNeedsDefinitionsLiteral | XEStreamer.cs:241-243 | after `,N'`, a definitions literal that does not terminate gives no match |
| Reconstruct.FillOverrunAtSeparator | XEStreamer.cs:238 | as written, a statement literal followed only by `,N` reads past the end |
| Reconstruct.FillOverrunInAssignments | XEStreamer.cs:254 | as written, an assignment loop that overruns makes the whole call overrun |
| Reconstruct.FillAsWritten | XEStreamer.cs:230-324 | defines the reconstruction as the code is written: no match, a read past the end, or the statement with its assignments substituted. FillOverrunAtSeparator and FillOverrunInAssignments state when it reads past the end |
| Reconstruct.Fill | XEStreamer.cs:230-324 | defines the corrected reconstruction: the as-written result with a read past the end turned into no match. FillSound and FillComplete state that it gives a result exactly for a call of the expected shape. FillNeedsStatementLiteral, FillNeedsSeparator, FillNeedsDefinitionsLiteral and FillFailsInAssignments state its no-match cases |
| Reconstruct.FillParameters | XEStreamer.cs:230-324 | the method returns the corrected reconstruction Fill |
| Reconstruct.ScanAssignment | XEStreamer.cs:250-274 | one loop iteration: succeeds iff the specified step does, with the same name, value and next index |
| Reconstruct.ParseAssignments | XEStreamer.cs:246-275 | the loop succeeds iff the assignments parse; the dictionary it builds is BuildMap of them |
| Reconstruct.ScanIdentifier | XEStreamer.cs:306-308 | the scan stops at the end of the identifier run |
| Reconstruct.ScanToken | XEStreamer.cs:295-314 | a quoted region is copied whole. A reference is replaced by its value, or kept as written when unknown |
| Reconstruct.Substitute | XEStreamer.cs:279-323 | the substitution loop builds the rendered statement |
| ReconstructProperties.AssignmentsReadBack | XEStreamer.cs:248-275 | a well-formed argument list that ends the text is parsed back into exactly its assignments |
| ReconstructProperties.FillCall | XEStreamer.cs:230-324 | a call built from a statement, any definitions and well-formed arguments fills back to the statement with the arguments substituted |
| ReconstructProperties.SeparatorOverrun | XEStreamer.cs:238 | as written, `<prefix><stmt>',N` reads past the end; the corrected Fill gives no match |
| ReconstructProperties.SeparatorOverrunExample | XEStreamer.cs:238 | `exec sp_executesql N'x',N` reads past the end |
| ReconstructProperties.TrailingCommaOverrun | XEStreamer.cs:252-254 | as written, a well-formed call followed by a comma reads past the end; the corrected Fill gives no match |
| ReconstructProperties.AssignmentsTrailingComma | XEStreamer.cs:252-254 | the assignment loop on a well-formed list followed by a comma reads past the end |
| Substitution.RenderShift | XEStreamer.cs:279-323 | rendering from a position depends only on the text from there on: a prefix that is skipped does not change the result |
| Substitution.RenderReference | XEStreamer.cs:304-314 | in `pre + "@" + w + post`, with no `@` or quote in `pre`, a word `w` and `post` not continuing the word, the reference is replaced by its value (or kept when unknown), `pre` is copied and the rest is rendered |
| Substitution.RenderLiteralBody | XEStreamer.cs:297-302 | a quoted literal with a well-escaped interior, not followed by a quote, is copied whole, even when it contains `@` |
| Substitution.RenderLiteral | XEStreamer.cs:297-302 | `'` + the text with its quotes doubled + `'` is copied whole, whatever the parameters and whatever `@` it contains |
| Substitution.FillSubstitutes | XEStreamer.cs:230-324 | a call whose statement has one reference `@w` and whose one argument is `@w=v` fills in to the statement with `@w` replaced by `v` |
| Substitution.FillSubstitutesExample | XEStreamer.cs:230-324 | the call with statement `pre@apost` and argument `,@a=5` fills in to `pre5post` |
| Collapse.RunEnd | XEStreamer.cs:326-328 | a greedy run ends at the first character outside its class |
| Collapse.MatchAt | XEStreamer.cs:326-329 | every match the matcher returns is a match of the grammar |
| Collapse.MatchComplete | XEStreamer.cs:326-329 | wherever the grammar has a match, the matcher finds one |
| Collapse.MatchIff | XEStreamer.cs:326-329 | there is a match at a position iff the grammar has one there |
| Collapse.ValidBounds | XEStreamer.cs:326-329 | a match lies within the text, with `SELECT`, the columns and `FROM` in that order |
| Collapse.Tables | XEStreamer.cs:336 | lists the table names of a match's items, in order |
| Collapse.DistinctMembers | XEStreamer.cs:335-338 | the listed tables are exactly those of the match |
| Collapse.DistinctUnique | XEStreamer.cs:335-338 | no table is listed twice |
| Collapse.DistinctAppend | XEStreamer.cs:335-338 | tables are listed in order of first appearance |
| Collapse.ReplaceUnchanged | XEStreamer.cs:332-340 | text with no match from a position on is copied unchanged |
| Collapse.Replace | XEStreamer.cs:332-340 | defines `Regex.Replace` from a position: the leftmost match is replaced and the scan resumes after it; other characters are copied. ReplaceUnchanged and MatchIff state it |
| Collapse.Replacement | XEStreamer.cs:333-339 | defines what a match becomes: its `SELECT` with any `TOP`, a space, the listing of its distinct tables, a space, and `FROM` |
| Collapse.Listing | XEStreamer.cs:335-338 | defines `string.Join(", ", ...)` of `t.*` for each table. CollapseSample.SampleAsWritten shows it on a sample |
| Collapse.Distinct | XEStreamer.cs:336-337 | defines the `GroupBy` keys: the tables without repeats, in order of first appearance. DistinctMembers, DistinctUnique and DistinctAppend state it |
| Collapse.CollapseSelects | XEStreamer.cs:332-340 | defines the replacement of every match, left to right, by `SELECT` with its `TOP`, the distinct tables as `t.*` and `FROM`. Its matches are characterised by MatchIff and its output by ReplaceUnchanged, NoDotUnchanged and the CollapseSample lemmas |
| Collapse.NoDotUnchanged | XEStreamer.cs:326-340 | under the literal-dot reading, a statement without `.` is never rewritten |
| Collapse.ValidDotAnyChar | XEStreamer.cs:327-328 | every match under the literal-dot reading is also a match as written |
| Collapse.DotReadings | XEStreamer.cs:327 | under the literal-dot reading a table name never backs off, so there is at most one reading of an item |
| CollapseSample.SampleAsWritten | XEStreamer.cs:326-328 | as written, `SELECT abc AS x, def AS y FROM t` is rewritten to `SELECT a.*, d.* FROM t` |
| CollapseSample.SampleIntended | XEStreamer.cs:326-328 | under the literal-dot reading the same text is left unchanged |
| CollapseSample.SampleLiteral | XEStreamer.cs:326-340 | both results for the literal sample string |
| Profiles.CombineIdentity | Profile.cs:19-27 | the name, default flag and connection come from the second profile; the parent comes from the first |
| Profiles.CombineIgnoreLists | Profile.cs:29-32 | each ignore list is the first profile's entries followed by the second's |
| Profiles.CombineWithEmptyLists | Profile.cs:14-32 | a profile with the default empty lists adds no entries on either side |
| Profiles.CombineAssociative | Profile.cs:19-35 | merging is associative |
| Profiles.Combine | Profile.cs:19-35 | defines the merge: name, default flag and connection from the second profile, parent from the first, each ignore list the first's then the second's, every other field at its default. CombineIdentity and CombineIgnoreLists state it |
| Resolution.LastSpec | Program.cs:47-54 | a remembered profile exists iff some profile meets the criterion, and it is the last one that does |
| Resolution.Selected | Program.cs:59 | defines the choice `selected ?? cfgDefault ?? nameDefault`. SelectionPrecedence and NothingSelected state it |
| Resolution.ProfileMap | Program.cs:45-56 | defines the dictionary of named profiles, keys compared ignoring case, the later overwriting the earlier. ProfileMapLookup states its keys and values |
| Resolution.Inherit | Program.cs:60-64 | defines the profile the inheritance loop ends with. InheritProperties and InheritStep state it |
| Resolution.Options | Program.cs:66-69 | defines the options as merged: the `IndividualStatements` switch copied into the options profile when it is set |
| Resolution.Resolve | Program.cs:44-70 | defines the resolved profile: the selected profile merged under its ancestors, then with the options merged last; no profile when none is selected. ResolveProperties states it and ResolveProfile is proved equal to it |
| Resolution.SelectionPrecedence | Program.cs:59 | the requested profile wins over the one flagged as default, which wins over the one named `default` |
| Resolution.NothingSelected | Program.cs:59 | nothing is selected iff no profile is requested, flagged or named `default` |
| Resolution.ProfileMapLookup | Program.cs:45-56 | a name is a key iff some profile carries it (case ignored); the last such profile is stored. Nameless profiles are skipped |
| Resolution.PassStep | Program.cs:47-57 | one iteration of the pass updates the three remembered profiles and the map |
| Resolution.InheritProperties | Program.cs:60-64 | the loop stops exactly when no parent is left in the map, and the map only shrinks. The merged profile keeps the start profile's identity, and each ignore list ends with the start profile's entries |
| Resolution.InheritStep | Program.cs:60-64 | one step merges the parent under the profile and removes the parent, so the map shrinks by one |
| Resolution.ResolveProperties | Program.cs:59-70 | resolution fails iff nothing is selected. Otherwise the options decide the name, the default flag and the connection, and the parent comes from the inheritance result. Each of the four ignore lists ends with the options' entries, and before them it ends with the selected profile's entries |
| Resolution.ResolveProfile | Program.cs:44-70 | the method's pass and inheritance loop give exactly Resolve |

## Left out

- `XEStreamer.Run` and the rest of `Program` are not modelled: the database session, the event stream, console output, timestamps, durations, colours, cancellation and the configuration readers. All of it is I/O.
- Colour wrappers (`Output.Cyan`, `Yellow`, `Dim`, `BrightGreen`, `BrightMagenta`, `Red`) are the identity. They only add terminal escape codes. `Output.Cyan(null)` renders as the empty string.
- `e.ToString()` of an event is an uninterpreted parameter (`generic`) of FormatText, because its text comes from the event library.
- Formatter.FormatText: an exception that FillParameters throws is caught by the caller in `Run`, which prints an error line. The model uses the corrected Fill instead (see Findings), so that case falls back to the collapsed raw statement.
- Formatter.FormatText uses the literal-dot reading of CollapseSelects (see Findings). The as-written reading is Collapse.CollapseSelects with AnyChar.
- Formatter.FormatText: because colours are the identity, it misses one effect of them. FillParameters wraps each literal and each substituted value in colour codes (XEStreamer.cs:301, 310-312). CollapseSelects then runs on that coloured text (XEStreamer.cs:187). The escape character is not in `[[\]\w_]` and not a space, so a column list of coloured values is not collapsed in the source. Example: `exec sp_executesql N'SELECT @a AS c, @b AS d FROM t',N'@a float,@b float',@a=1.5,@b=2.5` is shown as `SELECT 1.5 AS c, 2.5 AS d FROM t` (with colours), while Formatter.FormatFilled gives `SELECT 1.*, 2.* FROM t`.
- Profiles.Combine: a `null` list or a `null` entry in a list, which the configuration can supply, is not modelled, because `seq<string>` holds neither. In the source a `null` list makes `new HashSet` (XEStreamer.cs:37) and `Concat` (Profile.cs:29-32) throw, and a `null` prefix makes `StartsWith` (XEStreamer.cs:48) throw.
- Case-insensitive comparison, `char.IsLetterOrDigit`, `\w`, `\s` and `\S` are modelled on ASCII only. There is no Unicode case folding or classification.
- Profiles.Combine: the only-lists and the `IndividualStatements` switch are not part of the profile class shown. Combine leaves them at their initial values, and no claim is made about them.
- Resolution.ResolveProfile: reading the two configuration files is left out; the profiles are given as a sequence.
- Resolution.ResolveProfile: when no profile is selected, the source dereferences null at Program.cs:60 and the surrounding `catch` reports it. The model returns `NoProfile` instead.
- Resolution.Options: the hidden `IndividualStatements` copy of Program.cs:66-69 is folded into the options value. The rest of the options object is a profile argument. The copy has no effect on Resolve's result, because Combine resets `individualStatements` to its default.
- The `HashSet` iteration order in IsPrefixInSet is not modelled. The loop picks any remaining member, and the result does not depend on the order.
- A hand-written `sp_executesql` call with `, N'` (a space after the comma) between its literals is not reconstructed, because the check at XEStreamer.cs:238 needs `,N'` with no space. The event stream does not produce such calls. The model follows the code.

## Findings

| source | as written | input that shows it | evidently intended | confidence | as-written member | corrected member |
|---|---|---|---|---|---|---|
| XEStreamer.cs:238 | tests `i + 2 > sql.Length`, then reads `sql[i + 2]` | `exec sp_executesql N'x',N` (the index equals the length) | no match when fewer than three characters follow | not executed | ReconstructProperties.SeparatorOverrun | Reconstruct.Fill |
| XEStreamer.cs:252-254 | after a comma, `IndexOf('=', i + 1)` starts past the end when the comma is last | a well-formed call followed by `,` | a trailing comma ends the scan with no match | not executed | ReconstructProperties.TrailingCommaOverrun | Reconstruct.FillParameters |
| XEStreamer.cs:326-328 | the `.` between table and column is unescaped, so it matches any character | `SELECT abc AS x, def AS y FROM t` becomes `SELECT a.*, d.* FROM t` | a literal `\.` | not executed | CollapseSample.SampleAsWritten | Collapse.NoDotUnchanged |
