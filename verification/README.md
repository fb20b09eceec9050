# A verified model of the NoisePage binder and three of its tools

The SQL binder of NoisePage (`src/binder`) resolves names over a chain of nested contexts, infers types by
visiting expression trees twice and updating them in place, rewrites the rows of an INSERT into schema order,
and promotes constants with exact integer ranges. This project models that code, and three smaller components:
the bracket scanners and the nesting stack of the lint engine (`build-support/cpplint.py`), the ticket counter
of a benchmark driver, and the address lookup of the symbolizer script.

Each component comes as a specification on values, an implementation in the source's own form (classes whose
methods update fields, loops over rows, lines and characters) proved equal to it, and a `*_laws.dfy` file with
what the specification guarantees on all inputs.

| file | what it holds |
|---|---|
| `sql_types`, `options` | types, constants, errors |
| `promotion`, `promotion_laws`, `parameters` | constants and parameters, `std::stol`, the fast path of prepared statements |
| `scopes`, `context`, `scope_laws` | contexts, name resolution, star expansion |
| `bind_spec` | one visit of an expression, a FROM clause and a SELECT, as functions on trees |
| `sherpa`, `visitor_trees`, `visitor` | the visitor on node objects, notes by node identity and a current context |
| `rebind_laws`, `bind_laws`, `sound_laws`, `select_laws`, `statement_laws` | binding again, soundness, scope discipline |
| `compare_laws`, `star_laws` | which comparisons, FROM clauses and SELECTs bind, and what they and their stars become |
| `insert`, `insert_laws`, `value_laws` | INSERT: rows, types, and the value of every column or the error |
| `tickets`, `ticket_laws` | the shared counter, as a step system over every interleaving |
| `symbolizer`, `symbolizer_laws` | the sorted index against a linear scan |
| `brackets`, `bracket_laws`, `angle_laws` | the forward, backward and third bracket matcher, and text with angle brackets |
| `nesting`, `nesting_laws`, `live_laws`, `block_laws` | the nesting stack and its snapshots, the steps that count, the fields of a block |

`dafny verify dfyconfig.toml` checks everything.

## What the proofs show

**Binding twice.** Every comparison and conjunction visits its operands twice, so a tree is bound again and
again. The first visit of an unqualified column fills in a table alias; the second visit looks that alias up as a
qualified name, and regular tables of all enclosing contexts come before derived tables. A column of a derived
table `t` can therefore be captured by an outer base table `t`. `StableExactly` says for which columns this
happens, by their aliases alone. `CapturedNameBreaksTypes` exhibits `a = NULL` bound to a BIGINT column and a DATE
constant without an error, and `CapturedNameMoves` an `a = 5` that changes when it is bound again. `SoundExactly`
and, for whole SELECTs, `SelectSoundExactly` give the exact condition, before binding, under which a bound tree is
sound; `NoReusePosed` shows that lower-case aliases that are not reused imply it. Whatever the names, a tree
visited twice has settled (`SettlesAtSecondVisit`), and another visit changes no type, oid, depth or value
(`SettledRebinds`). `RebindingExactly` says when one visit is enough: it depends on the aliases and types of the
columns next to the root.

**Comparisons.** The types that give way are written out: `ColumnsCompareExactly` says which two columns can be
compared, `ConstantMeetsColumn` what a constant becomes beside a column, and `ConstantsMeet` what two constants
become, each of which may be asked to take the type of the other. So a text beside a decimal is read as one
(`TextMeetsDecimal`), but an INTEGER literal and a text never bind (`IntegerNeverMeetsText`).

**Scopes.** `ScopeDiscipline` covers arbitrarily nested SELECTs, derived tables, joins and subqueries, visited
any number of times; `BindNameToNode` carries it to the objects, where the visitor's context is entered and left.
`FromAdds` says what context a FROM clause leaves behind, table by table, and `StarsExpanded` that every star of a
SELECT and of its derived tables has become all columns of that context. `SelectBindsExactly` says which SELECTs
bind: their parts do, and their aliases are distinct.

**INSERT.** The column list is shared by all rows and rewritten inside the row loop, after the first row.
`ManyRowsExactly` proves that statements with a given list bind as they say, errors included, if and only if the
list is missing, begins with all columns in schema order, names an unknown column, or lets no row through. For
every other list `SecondRowDiffers` builds two equal rows of NULLs and at most one value that bind as written but
come out differently; `SecondRowIsSwapped` is the plain case. `BoundTypesExactly` says when every bound value has
its column's type: a stored default that is written as DEFAULT is not promoted, unlike one for a column left out
(`DefaultKeywordIsNotPromoted`). `InsertBindsExactly` and `InsertFailsExactly` say which statements bind and with
which error the others fail; `LiteralBound`, `NumbersBound` and `OthersBound` say what value each column of each
row then holds, and `CastIsTransparent` that a literal may be cast to its column's type.

**Prepared statements.** `FastPathAgrees` proves the recorded types sufficient if and only if no text parameter
is read as an integer on its way to DECIMAL and means another number as a decimal (`TextReadTwice`: "1e1").

**Tickets.** `ExactlyOnceIff`: n transactions by t workers each run exactly once in every interleaving if and
only if n = 0, t = 1, or there is no submit interval and n + t <= 2^32. Otherwise a transaction is run twice or
lost, by a schedule that is constructed. `BoundedIff` and `CounterExactIff` do the same for the number of
transactions and for the counter.

**Lint engine.** On angle-free text the two scanners are inverse to each other and equal to a declarative notion
of enclosing balanced text, and the third matcher agrees with them. `TemplatesScannedBothWays` extends this to
lines with template argument lists, arrows, shifts, comparisons and operator names; text that is not so built is
refused (`TemplateRefused`, `PairRefused` and their backward forms). At every point of every sequence of directives
and stack operations, nested or not, the nesting stack is that of the steps that count (`LiveStack`): those outside
the later branches of a closed #if and the earlier branches of an open one. No live block is shared with a snapshot.

**Symbolizer.** `ParsesExactly`: a file is accepted if and only if its FILE records are numbered in order.
`LookupScansIff`: the lookup agrees with a scan at every address if and only if no record reaches the start of the
next. `LookupRefinesScan` carries it to the records of any accepted file, exceptions included.

## Model

| member | source | states |
|---|---|---|
| `Promotion.TryCastNumericAll` | src/binder/binder_util.cpp:197-247 | an integer changes type exactly when it is within the new width, keeps its value, and becomes a decimal or an error otherwise |
| `Promotion.PromoteText` | src/binder/binder_util.cpp:62-171 | the text switch: dates, timestamps, booleans, four integer widths and decimals, with the exception that escapes when text holds no number |
| `Promotion.CheckAndTryPromoteType` | src/binder/binder_util.cpp:26-181 | promotion in place gives the promoted constant, or an error and the constant unchanged; a typed NULL cannot be promoted again |
| `PromotionLaws.StolReadsNumeral` | src/binder/binder_util.cpp:94-98 | the integer reader gives back every numeral, whatever blanks precede and text follows it, or reports that it exceeds long |
| `PromotionLaws.TextPromotionExact` | src/binder/binder_util.cpp:91-150 | text promoted to any of the four integer types is the integer it denotes exactly when that fits, and out of range otherwise |
| `PromotionLaws.EveryIntegerHasANumeral` | src/binder/binder_util.cpp:91-150 | every mathematical integer has a decimal numeral, so the law before covers all of them |
| `PromotionLaws.OnlyNumeralsConvert` | src/binder/binder_util.cpp:94-98 | a text is read as an integer exactly when blanks, an optional sign and digits begin it, with the number they spell, and is out of range exactly when that exceeds long |
| `PromotionLaws.PromotesExactly` | src/binder/binder_util.cpp:26-181 | a constant is promoted to a type exactly to the value it means there, with ranges and boolean words written out; NULL to NULL only |
| `PromotionLaws.FailsExactly` | src/binder/binder_util.cpp:26-181 | and otherwise fails with the error given for its type and the desired one |
| `PromotionLaws.IntegerChain` | src/binder/binder_util.cpp:39-59 | any successful chain of promotions of an integer equals one promotion to its last type |
| `PromotionLaws.ChainCollapses` | src/binder/binder_util.cpp:26-181 | any successful chain from any constant equals one promotion exactly when it does not read a text twice |
| `PromotionLaws.TextReadTwice` | src/binder/binder_util.cpp:121-163 | a text that means 1 through INTEGER and 10 as a decimal |
| `Parameters.ParameterBinder.VisitParameter` | src/binder/bind_node_visitor.cpp:682-693 | a visit promotes the parameter in place unless nothing is desired, and records the type it then has; a failed one changes nothing |
| `Parameters.VisitsAreChains` | src/binder/bind_node_visitor.cpp:682-693 | interleaved visits of many parameters act on each as its own chain, and the last type is the one recorded |
| `Parameters.PromoteParameters` | src/binder/binder_util.cpp:12-24 | the loop promotes the parameters in order; at the first failure those before it are promoted and the others untouched |
| `Parameters.FastPathAgrees` | src/binder/binder_util.cpp:12-24 | promoting raw parameters to the recorded types equals full binding exactly when no text is read twice, and is a no-op on bound parameters |
| `Context.BinderContext.AddRegularTable` | src/binder/binder_context.cpp:33-71 | an accepted add extends map and list, a rejected one changes nothing, and the context stays valid |
| `Context.BinderContext.AddNewTable` | src/binder/binder_context.cpp:73-87 | the same for a table under creation |
| `Context.BinderContext.AddNestedTable` | src/binder/binder_context.cpp:89-113 | the same for a derived table, with the columns its select list names |
| `ScopeLaws.LastItemWins` | src/binder/binder_context.cpp:97-112 | a derived table offers a name with the type of the last select item so named |
| `ScopeLaws.OnlyItemNames` | src/binder/binder_context.cpp:97-112 | and offers no name that no item has |
| `ScopeLaws.LastDefinitionWins` | src/binder/binder_context.cpp:82-86 | a table under creation offers a column with the type of its last definition |
| `ScopeLaws.OnlyDefinedNames` | src/binder/binder_context.cpp:82-86 | and no column that is not defined |
| `ScopeLaws.AddsKeepContextValid` | src/binder/binder_context.cpp:33-113 | over every run of adds aliases stay disjoint and the list enumerates the regular tables once, in the order of the accepted adds |
| `Context.BinderContext.SearchHere` | src/binder/binder_context.cpp:142-176 | the search of one context finds nothing, the only table with the column, or an ambiguity, in any order of the hash maps |
| `Context.BinderContext.SetColumnPosTuple` | src/binder/binder_context.cpp:135-180 | the loop up the chain gives the specified resolution of an unqualified column |
| `ScopeLaws.UnqualifiedIsInnermost` | src/binder/binder_context.cpp:135-180 | it binds to the innermost context with the column, is ambiguous exactly when that context has several tables with it, and fails exactly when none has |
| `ScopeLaws.UnqualifiedResolvesExactly` | src/binder/bind_node_visitor.cpp:579-597 | a reference without a table name resolves exactly when the innermost context that offers its column offers it once; with a column oid and no name at all never |
| `ScopeLaws.LowerExactly` | src/binder/bind_node_visitor.cpp:579-597 | two names are the same to the binder exactly when they differ in the case of ASCII letters only |
| `ScopeLaws.ResolveIgnoresCase` | src/binder/bind_node_visitor.cpp:579-611 | writing a reference in other letters changes nothing but the table name that a column of a base table shows |
| `Context.BinderContext.GetRegularTableObj` | src/binder/binder_context.cpp:182-196 | the nearest regular table of an alias and its depth |
| `Context.BinderContext.CheckNestedTableColumn` | src/binder/binder_context.cpp:198-218 | the nearest derived table of an alias binds the column or is an error; no other is tried |
| `ScopeLaws.QualifiedIsLexical` | src/binder/bind_node_visitor.cpp:598-610 | qualified resolution equals innermost-alias scoping exactly when no derived alias hides a regular one, or both lack the column |
| `ScopeLaws.HiddenTableIsStillFound` | src/binder/bind_node_visitor.cpp:598-610 | a derived table hides a base table of the outer query, yet the name means the base table |
| `Context.BinderContext.GenerateAllColumnExpressions` | src/binder/binder_context.cpp:220-262 | the loops generate the specified expansion of a star |
| `ScopeLaws.StarListsEachOnce` | src/binder/binder_context.cpp:245-261 | whatever the hash order, every derived column comes exactly once, after the regular ones |
| `ScopeLaws.RegularStarComplete` | src/binder/binder_context.cpp:223-243 | every column of every regular table is listed |
| `ScopeLaws.RegularStarOnce` | src/binder/binder_context.cpp:223-243 | and none twice |
| `ScopeLaws.StarAgreesWithLookup` | src/binder/binder_context.cpp:220-262 | an expression of a star is what the qualified lookup of its names gives exactly when the lower-cased names lead back to it: the same column of a regular table here, or a derived alias that no enclosing context has as a regular one |
| `ScopeLaws.LowerCaseFoundAgain` | src/binder/binder_context.cpp:220-262 | with names in lower case only derived columns can fail to, exactly when their alias is a regular one further out |
| `Sherpa.BinderSherpa.SetDesiredTypePair` | src/binder/binder_sherpa.cpp:10-62 | the notes of the two nodes afterwards, and of all others |
| `CompareLaws.ColumnsCompareExactly` | src/binder/binder_sherpa.cpp:10-62 | two columns can be compared exactly when they have the same type or neither type is INVALID, VARCHAR or INTEGER |
| `CompareLaws.ConstantMeetsColumn` | src/binder/bind_node_visitor.cpp:616-642 | a constant on either side takes the type of the column, or the comparison fails as the promotion does |
| `CompareLaws.ConstantsMeet` | src/binder/bind_node_visitor.cpp:616-642 | of two constants each of type INVALID, VARCHAR or INTEGER is promoted to the type of the other, unless that is INVALID |
| `CompareLaws.ConstantMeetsSubquery` | src/binder/bind_node_visitor.cpp:616-622 | a constant beside a subquery stays as it is and the subquery is visited twice |
| `CompareLaws.TextMeetsDecimal` | src/binder/binder_sherpa.cpp:10-62 | a text beside a decimal is read as a decimal |
| `CompareLaws.IntegerNeverMeetsText` | src/binder/binder_sherpa.cpp:10-62 | an INTEGER literal and a text literal cannot be compared |
| `Visitor.BindNodeVisitor.BindNames` | src/binder/bind_node_visitor.cpp:579-611 | the name part of a column visit is the specified resolution in the current chain |
| `Visitor.BindNodeVisitor.VisitColumn` | src/binder/bind_node_visitor.cpp:570-614 | checks the note, resolves, and notes the type found; other notes are untouched |
| `Visitor.BindNodeVisitor.VisitConstant` | src/binder/bind_node_visitor.cpp:635-642 | promotes to the noted type or leaves the constant |
| `Visitor.BindNodeVisitor.VisitComparison` | src/binder/bind_node_visitor.cpp:616-622 | two passes over both operands with the pair's types noted in between, on nodes in place |
| `Visitor.BindNodeVisitor.VisitConjunction` | src/binder/bind_node_visitor.cpp:624-633 | two passes over all operands with BOOLEAN noted in between |
| `Visitor.BindNodeVisitor.VisitSubquery` | src/binder/bind_node_visitor.cpp:703-707 | binds the inner SELECT and leaves the current context as it was |
| `Visitor.BindNodeVisitor.VisitSelect` | src/binder/bind_node_visitor.cpp:450-494 | a new context is entered, filled, used and left; on success the current context and everything above it are as before |
| `Visitor.BindNodeVisitor.VisitStar` | src/binder/bind_node_visitor.cpp:472-493 | a star is expanded at the first visit and its columns are visited later |
| `Visitor.BindNodeVisitor.VisitBase` | src/binder/bind_node_visitor.cpp:768-774 | a base table joins the current context, with the errors of catalog and database |
| `Visitor.BindNodeVisitor.VisitDerived` | src/binder/bind_node_visitor.cpp:749-759 | a derived table is bound inside and added to the context that was current |
| `Visitor.BindNodeVisitor.VisitBoth` | src/binder/bind_node_visitor.cpp:763-766 | tables of a list are added in order |
| `Visitor.BindNodeVisitor.VisitOn` | src/binder/bind_node_visitor.cpp:722-729 | a join condition is bound after both tables |
| `Visitor.BindNodeVisitor.BindNameToNode` | src/binder/bind_node_visitor.cpp:51-60 | the tree or the error is the specified one; after a success there is no context and every reference is in its scope |
| `SelectLaws.ResolvedIsOwned` | src/binder/binder_context.cpp:173-218 | a visited reference has the depth of a context that owns its table, with that table's oids and type |
| `SelectLaws.FromFills` | src/binder/bind_node_visitor.cpp:743-775 | a FROM clause only adds to the context, and its base tables alone decide the regular aliases |
| `StarLaws.FromAdds` | src/binder/bind_node_visitor.cpp:743-775 | the context after a FROM clause lists its base aliases left to right, and holds each base table as the catalog has it and each derived table with the types of its outputs |
| `StarLaws.FromBindsExactly` | src/binder/bind_node_visitor.cpp:743-775 | a FROM clause binds exactly when its tables can be found, its inner SELECTs and conditions bind, and its aliases are new |
| `StarLaws.BaseFails` | src/binder/bind_node_visitor.cpp:768-774 | the error of a base table that does not: database, other database, schema, table or alias |
| `StarLaws.SelectBindsExactly` | src/binder/bind_node_visitor.cpp:450-494 | a SELECT binds exactly when its FROM clause does, its aliases are distinct, and each clause and select item binds in the context of the FROM clause |
| `StarLaws.StarsExpanded` | src/binder/bind_node_visitor.cpp:472-493 | at every depth of derived tables each star has become all columns of its SELECT's context, regular ones in FROM and schema order and derived ones each once; other items keep their places and aliases |
| `SelectLaws.ScopeDiscipline` | src/binder/bind_node_visitor.cpp:450-494 | in nested SELECTs, derived tables, joins and subqueries every reference is owned by the context of its depth, never deeper than its SELECT |
| `RebindLaws.StableExactly` | src/binder/bind_node_visitor.cpp:570-614 | a visited reference keeps its meaning at the next visit exactly when it came bound or qualified, or its table is regular, has no alias, or is the derived table its lower-case alias leads to |
| `RebindLaws.SecondTypeExactly` | src/binder/bind_node_visitor.cpp:570-614 | otherwise its type becomes that of the column of that name in the nearest table the alias leads to |
| `RebindLaws.ResolveTwiceStable` | src/binder/bind_node_visitor.cpp:570-614 | after two visits a reference no longer changes, whatever the aliases |
| `RebindLaws.SettledRebinds` | src/binder/bind_node_visitor.cpp:616-642 | another visit of a settled tree succeeds and changes nothing but notes |
| `RebindLaws.SettlesAtSecondVisit` | src/binder/bind_node_visitor.cpp:616-633 | every tree of comparisons and conjunctions is settled after two successful visits |
| `BindLaws.PairHoldsExactly` | src/binder/binder_sherpa.cpp:10-62 | the operands of a bound comparison ask nothing more of each other exactly when a column's second type is the type the other side was given, or neither of the two converts |
| `BindLaws.RebindingExactly` | src/binder/bind_node_visitor.cpp:570-642 | a bound tree binds again unchanged exactly when its root keeps its meaning: a column by its alias, comparisons and conjunctions by the two types of their columns; after a second bind unconditionally |
| `BindLaws.UncapturedSettles` | src/binder/bind_node_visitor.cpp:570-642 | which is so whenever no operand changes its type between its two visits |
| `BindLaws.NoReuseUncaptured` | src/binder/binder_context.cpp:135-218 | lower-case derived aliases that are not reused in the chain exclude capture |
| `SoundLaws.SoundExactly` | src/binder/bind_node_visitor.cpp:570-642 | operands of conjunctions are BOOLEAN and columns meet constants of their type exactly when no operand is captured by a table of another type between the visits that matter |
| `SoundLaws.NoReusePosed` | src/binder/binder_context.cpp:135-218 | that condition holds when derived aliases are in lower case and not reused |
| `SoundLaws.BindingWithoutReuse` | src/binder/bind_node_visitor.cpp:570-642 | then binding is sound and stable |
| `SoundLaws.CapturedNameBreaksTypes` | src/binder/bind_node_visitor.cpp:598-610 | a tree that binds without error to a BIGINT column and a DATE constant |
| `SoundLaws.CapturedNameMoves` | src/binder/bind_node_visitor.cpp:598-610 | a tree that binds without error and changes when it is bound again |
| `StatementLaws.SelectSoundExactly` | src/binder/bind_node_visitor.cpp:450-494 | a SELECT is sound in all clauses, select lists and join conditions, at every depth of derived tables, exactly when none of its operands is captured |
| `SoundLaws.BindingKeepsIntegers` | src/binder/bind_node_visitor.cpp:635-642 | every non-null integer constant that still has an integer type denotes the same integer, in inner SELECTs too |
| `Insert.FillInSchemaOrder` | src/binder/bind_node_visitor.cpp:351-391 | the loop over the schema gives the specified row or the first error, a read beyond the row included |
| `Insert.VisitValue` | src/binder/bind_node_visitor.cpp:405-436 | DEFAULT and casts are taken away and a literal is promoted, with or without a desired type |
| `Insert.VisitRow` | src/binder/bind_node_visitor.cpp:329-437 | one row is checked, filled and typed, and the shared column list is replaced |
| `Insert.VisitInsert` | src/binder/bind_node_visitor.cpp:313-440 | unknown columns are rejected first, then the rows are bound in order in place |
| `InsertLaws.RowKeepsMeaning` | src/binder/bind_node_visitor.cpp:351-400 | each supplied value under its own column, a default or typed NULL elsewhere, and failure exactly when a missing column has neither default nor nullability |
| `InsertLaws.DroppedExactly` | src/binder/bind_node_visitor.cpp:353-360 | a supplied value has no effect exactly when its column is named earlier in the list |
| `InsertLaws.SecondRowDiffers` | src/binder/bind_node_visitor.cpp:393-399 | for every other list a row that binds as written, and whose second copy comes out differently or fails |
| `InsertLaws.ManyRowsExactly` | src/binder/bind_node_visitor.cpp:313-440 | all statements with a column list give what each row says under the list as written, errors included, exactly when the list is missing, begins with the schema, names an unknown column, or leaves out a column that no row can do without |
| `InsertLaws.SecondRowIsSwapped` | src/binder/bind_node_visitor.cpp:393-399 | (b, a) VALUES (1, 2), (3, 4) goes in as (2, 1), (3, 4) |
| `InsertLaws.RowOfInsert` | src/binder/bind_node_visitor.cpp:329-438 | each row of a bound statement was filled under the list the earlier rows left behind, then typed |
| `InsertLaws.InsertBindsAsWritten` | src/binder/bind_node_visitor.cpp:313-440 | the first row always, and all rows under a list in schema order, are bound as written |
| `InsertLaws.GivenIsBound` | src/binder/bind_node_visitor.cpp:329-438 | what stands for each column of each row, by name in the first row and by position after it, is what was typed |
| `InsertLaws.BoundTypesExactly` | src/binder/bind_node_visitor.cpp:313-440 | every value of a bound statement has its column's type exactly when no DEFAULT or cast stands for an expression of another type |
| `InsertLaws.DefaultKeywordIsNotPromoted` | src/binder/bind_node_visitor.cpp:405-436 | a text default is promoted when the column is left out and stays text under DEFAULT |
| `ValueLaws.LiteralBound` | src/binder/bind_node_visitor.cpp:405-436 | a literal, cast or not, is bound to the value it means in its column's type |
| `ValueLaws.NumbersBound` | src/binder/bind_node_visitor.cpp:405-436 | an integer is bound to itself or to itself as a decimal, a numeral to its integer, NULL to NULL, and nothing else to NULL |
| `ValueLaws.OthersBound` | src/binder/bind_node_visitor.cpp:405-436 | DEFAULT is bound to the stored expression, and a cast of anything but a literal to what is cast |
| `ValueLaws.InsertBindsExactly` | src/binder/bind_node_visitor.cpp:313-440 | a statement binds exactly when its columns exist, its rows have the right length, and every column of every row gets something that can be bound to it |
| `ValueLaws.InsertFailsExactly` | src/binder/bind_node_visitor.cpp:313-440 | a statement fails with an error exactly when a listed column is unknown, or else its first row that does not bind has it: lengths and columns without a value first, then the first value that cannot be bound |
| `ValueLaws.CastIsTransparent` | src/binder/bind_node_visitor.cpp:422-433 | casting a literal to its column's type changes neither what a statement binds to nor how it fails |
| `Tickets.StepKeepsBalance` | benchmark/benchmark_util/data_table_benchmark_util.cpp:111-121 | every step keeps the balance modulo 2^32, and with n + t <= 2^32 the bound on it; then a ticket is handed back only from a positive counter |
| `Tickets.CounterBalances` | benchmark/benchmark_util/data_table_benchmark_util.cpp:101-134 | over every interleaving the counter is started + held + exited modulo 2^32 |
| `TicketLaws.CounterExactIff` | benchmark/benchmark_util/data_table_benchmark_util.cpp:101-134 | it is equal until all have left, in every interleaving, if and only if n + t <= 2^32 |
| `TicketLaws.BoundedIff` | benchmark/benchmark_util/data_table_benchmark_util.cpp:101-134 | every complete interleaving runs between n - (t - 1) and n transactions if and only if n + t <= 2^32 |
| `TicketLaws.LowestCountReached` | benchmark/benchmark_util/data_table_benchmark_util.cpp:112-119 | some interleaving runs only n - (t - 1) |
| `TicketLaws.OrderKept` | benchmark/benchmark_util/data_table_benchmark_util.cpp:111-133 | without an interval, or with one worker, the ids issued are 0, 1, 2 and so on, each held or started once |
| `TicketLaws.HandBackRepeats` | benchmark/benchmark_util/data_table_benchmark_util.cpp:116-119 | with an interval and two workers an id can be run twice |
| `TicketLaws.HandBackLoses` | benchmark/benchmark_util/data_table_benchmark_util.cpp:116-119 | with one transaction it can be lost |
| `TicketLaws.WrapRepeats` | benchmark/benchmark_util/data_table_benchmark_util.cpp:101-111 | the 32-bit counter wraps around and id 0 runs again |
| `TicketLaws.ExactlyOnceIff` | benchmark/benchmark_util/data_table_benchmark_util.cpp:101-134 | exactly once in every interleaving if and only if n = 0, t = 1, or no interval and n + t <= 2^32 |
| `Symbolizer.BreakpadSymbolizer.ParseLines` | build-support/asan_symbolize.py:236-260 | the loop builds the specified index and sorts the addresses, or fails on a misnumbered file |
| `Symbolizer.BreakpadSymbolizer.BisectLeft` | build-support/asan_symbolize.py:267-267 | the insertion point: smaller addresses before it, others after |
| `Symbolizer.BreakpadSymbolizer.FindKey` | build-support/asan_symbolize.py:263-271 | the greatest record address at most addr, or none |
| `Symbolizer.BreakpadSymbolizer.GetSymFileLine` | build-support/asan_symbolize.py:262-278 | the answer is determined by that record, exceptions included |
| `SymbolizerLaws.ParsesExactly` | build-support/asan_symbolize.py:236-260 | a file is accepted exactly when every FILE record has the number of FILE records before it |
| `SymbolizerLaws.NamesExactly` | build-support/asan_symbolize.py:240-250 | a symbol is named by its last PUBLIC or else first FUNC record, and files by their numbers |
| `SymbolizerLaws.ParseReflects` | build-support/asan_symbolize.py:236-260 | at each address the map holds exactly the last line record there, with the function it belongs to |
| `SymbolizerLaws.ReflectedDisjoint` | build-support/asan_symbolize.py:236-260 | and if no record reaches the next, no entry does |
| `SymbolizerLaws.LookupScansIff` | build-support/asan_symbolize.py:262-278 | the lookup gives the only covering record at every address if and only if no record reaches the next |
| `SymbolizerLaws.LookupRefinesScan` | build-support/asan_symbolize.py:236-278 | whatever the records, the answer, exceptions included, is what the last of the nearest records at or below the address says, and nothing if there is none |
| `SymbolizerLaws.FoundExactly` | build-support/asan_symbolize.py:262-278 | on disjoint records a position is found exactly when one covers the address and has a function and a file |
| `Brackets.FindEndOfExpressionInLine` | build-support/cpplint.py:1744-1819 | the loop over a line, angle brackets and operators included, is the specified scan |
| `Brackets.CloseExpression` | build-support/cpplint.py:1822-1863 | the loop over lines is the specified scan, with its failure result |
| `Brackets.FindStartOfExpressionInLine` | build-support/cpplint.py:1866-1940 | the same backwards, with the characters it skips |
| `Brackets.ReverseCloseExpression` | build-support/cpplint.py:1943-1978 | the same backwards over lines |
| `Brackets.GetTextInside` | build-support/cpplint.py:4891-4921 | the text up to the position where the expected closers are used up, or nothing |
| `BracketLaws.CloserEncloses` | build-support/cpplint.py:1744-1819 | the forward scan of a text finds a bracket exactly when it encloses balanced text with the first one |
| `BracketLaws.OpenerEncloses` | build-support/cpplint.py:1866-1940 | the same for the backward scan |
| `BracketLaws.LinesScanInText` | build-support/cpplint.py:1822-1863 | scanning lines is one scan over their concatenation |
| `BracketLaws.ScannersUndoEachOther` | build-support/cpplint.py:1744-1978 | on any number of angle-free lines, between any two positions, each scanner returns to where the other started, exactly when they are brackets around balanced text |
| `BracketLaws.TextInsideAgrees` | build-support/cpplint.py:4905-4921 | on every text the third matcher finds the bracket that the forward scan without its treatment of angle brackets finds, or fails with it; on angle-free text that is the forward scanner |
| `BracketLaws.MatchersAgree` | build-support/cpplint.py:4891-4921 | and agrees with the scan over lines |
| `BracketLaws.PairsExactly` | build-support/cpplint.py:1785-1787 | the three pairs of brackets |
| `AngleLaws.TemplatesScannedBothWays` | build-support/cpplint.py:1744-1978 | around text built of templates, arrows, shifts, comparisons, operator names and statements, the two scanners go to the closing bracket and back |
| `AngleLaws.ForwardSkipsExactly` | build-support/cpplint.py:1761-1807 | a < is no bracket exactly after operator, and a > exactly after - or after operator and one more character |
| `AngleLaws.BackwardSkipsExactly` | build-support/cpplint.py:1888-1898 | backwards a > is no bracket exactly after - or operator or in >= between blanks |
| `AngleLaws.TemplateRefused` | build-support/cpplint.py:1744-1863 | << and <= start no expression, and neither does a < whose text runs into ;, a closing bracket or a third < |
| `AngleLaws.PairRefused` | build-support/cpplint.py:1744-1863 | nor a bracket whose text runs into a closing bracket of another kind |
| `AngleLaws.TemplateRefusedBack` | build-support/cpplint.py:1866-1978 | backwards a > whose text runs into ; or an opening bracket ends no expression |
| `AngleLaws.PairRefusedBack` | build-support/cpplint.py:1866-1978 | nor a bracket whose text runs into an opening bracket of another kind |
| `AngleLaws.OpensNothing` | build-support/cpplint.py:1744-1863 | a < that is no bracket, with none opened after it on the line, finds nothing, whatever the next lines hold |
| `AngleLaws.ClosesNothing` | build-support/cpplint.py:1866-1978 | the same backwards |
| `Nesting.NestingState.DeepCopy` | build-support/cpplint.py:2781-2793 | fresh, distinct blocks of the same contents |
| `Nesting.NestingState.UpdatePreprocessor` | build-support/cpplint.py:2757-2811 | the specified effect of #if, #else and #endif on objects, and no live block is shared with a snapshot |
| `Nesting.NestingState.SetTop` | build-support/cpplint.py:2840-2859 | a block is updated in place and every snapshot keeps its contents |
| `Nesting.NestingState.Update` | build-support/cpplint.py:2838-2976 | each step of a line changes the stack as specified and no snapshot |
| `NestingLaws.ErasureAlways` | build-support/cpplint.py:2757-2811 | at every point of every sequence, nested or not, what survives is the stack of the sequence without its else regions |
| `NestingLaws.ElseRegionsErased` | build-support/cpplint.py:2757-2811 | a well-nested sequence leaves that stack and the preprocessor stack it started with |
| `LiveLaws.LiveStack` | build-support/cpplint.py:2757-2811 | at every point of every sequence the stack is that of the steps that count, and each open #if holds the stacks before it and before its first #else |
| `NestingLaws.BalancedSourceKeepsStack` | build-support/cpplint.py:2838-2976 | however blocks, namespaces, classes, aliases, forward declarations, class parameters and statements are nested, balanced source leaves the stack as it was |
| `BlockLaws.LinesCounted` | build-support/cpplint.py:2838-2859 | after any lines the block on top has the parentheses of all of them, and is inside assembly exactly since a line that opened it |
| `BlockLaws.LastLabelWins` | build-support/cpplint.py:2913-2921 | a class has the access of its last label |
| `BlockLaws.HeadLines` | build-support/cpplint.py:2908-2911 | a class is derived exactly if a line of its head has a colon |
| `BlockLaws.ClosersPop` | build-support/cpplint.py:2971-2975 | closing braces pop the innermost blocks, and beyond the last one nothing |

## Where code and documentation differ

- The header of `SetColumnPosTuple` speaks of the current context; the code goes on to the contexts above, and the
  model follows the code.
- The comment in the preprocessor handling limits itself to well-formed files; the erasure law needs no such limit.

## Left out

- Catalog: a finite map from names to tables whose columns have distinct names and types other than
  INVALID, and whose oids are valid; oid
  allocation and transactions are not modelled.
- Hash maps: the order in which a hash map is iterated is an arbitrary function of its keys, not of the history
  of its insertions; every law is proved for every order.
- Sherpa: notes are kept by node identity; the reuse of a freed node's address is not modelled. The columns a star
  was replaced by are kept as values, since each satisfies its own note.
- Expressions: aggregates, functions, operators, CASE and casts inside expressions; only comparisons, conjunctions,
  columns, constants and subqueries form trees. The soundness and stability laws exclude trees with subqueries, which
  a comparison binds twice in contexts that may differ; derived tables are covered.
- Parameters inside trees: two expressions may share one parameter; parameters are modelled by their visits.
- VisitSelect: ORDER BY is not modelled, because its items may be select items shared by pointer; nor are LIMIT,
  derived depths and names of inner nodes. After a failed visit, here and in the other visits, the error is stated
  but not the half-updated nodes nor the context pointer that the source leaves dangling.
- ScopeDiscipline: says nothing of ORDER BY references, for the same reason.
- BindNameToNode: only SELECT statements.
- VisitInsert: after a failure the rows already bound are not described; the same holds for ParseLines.
- CREATE, DROP, COPY, ANALYZE, DELETE and UPDATE statements, INSERT from SELECT, and error texts.
- Values of an INSERT other than literals, DEFAULT and casts.
- Promote: decimals are exact reals, so rounding of large integers is not modelled; date, timestamp and decimal
  texts are arbitrary partial functions.
- Tickets: clock readings are a free choice at each ticket; the transactions themselves are not modelled.
- Symbol files: lines come split into fields.
- Update: which steps a line of source consists of is taken as given.
- Lint engine: the regular expressions that classify a line; the step system starts from what they found.
  Character classes are those of ASCII, and `previous_stack_top` is not modelled.
- ScannersUndoEachOther: angle-free text only; with angle brackets the source goes by heuristics, and
  TemplatesScannedBothWays is proved within one line, for text built as it describes.
