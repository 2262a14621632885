# Member search with Querydsl, modelled in Dafny

This project models the member search of a Spring Data JPA / Querydsl study
application. The model follows what the queries *mean*, not the JPA plumbing.

- **`MemberTestRepository`** builds a search from a `MemberSearchCond`. The
  condition has four optional fields: username, team name, minimum age and
  maximum age.
  - The two string fields become conditions only when they have text
    (`StringUtils.hasText`).
  - The two age bounds become conditions only when they are not null.
  - The conditions that are present are ANDed over `member left join team`.
  - The result is cut to a Spring page.
- **`QuerydslBasicTest`** runs a series of queries over a four-member fixture:
  - two styles of dynamic query: a `BooleanBuilder` filled step by step, and
    nullable where-parameters;
  - `between`, paging, a multi-key sort with nulls last, and joins;
  - `max` and `in` sub-queries;
  - bulk update, bulk add and bulk delete statements, which rewrite the member
    table in place.

Files:

- `wrappers.dfy`: `Option`.
- `seqs.dfy`: the order-preserving `Filter`, the paging `Slice` and `Map`, with
  their lemmas.
- `domain.dfy`: `Team`, `Member`, `MemberSearchCond`, and the four-member
  fixture that every test persists first.
- `string_utils.dfy`: Java's `Character.isWhitespace` and Spring's `hasText`.
- `querydsl.dfy`: query expressions (`Expr`, `Holds`), joins, the `Query`
  record, and the terminals `fetch`, `fetchCount` and `fetchResults`.
- `ordering.dfy`: order specifiers, the comparator they define, and a sort
  proved to return a sorted permutation.
- `member_test_repository.dfy`: the repository (a pure module).
- `bulk_statements.dfy`: the bulk statements.
  - As functions on the table: `UpdateUsername`, `AddToAge` and `DeleteWhere`.
  - As methods of the `MemberStore` class, which change its `rows` field in
    place and are proved equal to those functions.
- `querydsl_basic_test.dfy`: the test class.
  - `searchMember1` is a method with a local builder.
  - `searchMember2` is a function.
  - Each test scenario is a lemma or a method.

Modelling choices:

- A SQL null column is `None`.
  - The where clauses only combine with AND, so SQL's "unknown" is treated as
    false, which matches SQL for these queries.
  - A null sorts below every value unless `nullsFirst`/`nullsLast` says
    otherwise.
  - Strings compare by character code.
- Without an `orderBy` the rows come back in table (insertion) order. The
  tests' `containsExactly` assumes this.
- `PageRequest.of` rejects a negative page number and a size below one, so the
  model's `Pageable` takes a `nat` page number and a `PageSize` of at least one.
- Many scenario lemmas take the table as a parameter `t` that must equal the
  fixture. This only keeps the proofs small; the lemma states the property for
  the fixture.

## Model

| member | source | states |
|---|---|---|
| StringUtils.ContainsTextIff | src/main/java/study/querydsl/domain/member/repository/MemberTestRepository.java:92 | A string has text exactly when some character is not whitespace |
| StringUtils.NoTextCases | src/main/java/study/querydsl/domain/member/repository/MemberTestRepository.java:92 | Null, empty and all-whitespace strings have no text |
| StringUtils.TextCase | src/main/java/study/querydsl/domain/member/repository/MemberTestRepository.java:92 | A string with one non-whitespace character has text |
| MemberTestRepository.UsernameEq | src/main/java/study/querydsl/domain/member/repository/MemberTestRepository.java:91-93 | A condition is produced iff the username has text; when produced, it holds of a member iff the member's username equals it |
| MemberTestRepository.TeamNameEq | src/main/java/study/querydsl/domain/member/repository/MemberTestRepository.java:95-97 | A condition is produced iff the team name has text; when produced, it holds iff the member has a team with exactly that name |
| MemberTestRepository.AgeGoe | src/main/java/study/querydsl/domain/member/repository/MemberTestRepository.java:99-101 | A condition is produced iff the bound is non-null; it is the inclusive `age >= v` |
| MemberTestRepository.AgeLoe | src/main/java/study/querydsl/domain/member/repository/MemberTestRepository.java:103-105 | A condition is produced iff the bound is non-null; it is the inclusive `age <= v` |
| MemberTestRepository.ConditionsMeanMatches | src/main/java/study/querydsl/domain/member/repository/MemberTestRepository.java:42-47 | The four where arguments, nulls skipped and the rest ANDed, hold of a member iff it satisfies the independent reading `Matches` of the condition |
| MemberTestRepository.Search | src/main/java/study/querydsl/domain/member/repository/MemberTestRepository.java:40-47 | The left-joined, filtered query returns exactly the members matching the condition, in table order |
| MemberTestRepository.BasicSelect | src/main/java/study/querydsl/domain/member/repository/MemberTestRepository.java:28-32 | `select(member).from(member)` returns the whole table in order |
| MemberTestRepository.BasicSelectFrom | src/main/java/study/querydsl/domain/member/repository/MemberTestRepository.java:34-37 | `selectFrom(member)` returns the whole table in order |
| MemberTestRepository.SearchPageBuApplyPage | src/main/java/study/querydsl/domain/member/repository/MemberTestRepository.java:39-52 | The page's content is the search result sliced at the page's offset with at most pageSize rows; its total is the full search length; it keeps the request |
| MemberTestRepository.ApplyPagination | src/main/java/study/querydsl/domain/member/repository/MemberTestRepository.java:54-65 | The same page contract for the one-lambda helper, whose count comes from the content query |
| MemberTestRepository.ApplyPagination2 | src/main/java/study/querydsl/domain/member/repository/MemberTestRepository.java:67-89 | The same page contract, with the total taken from the separate id-only count query |
| MemberTestRepository.CountQueryMatchesContent | src/main/java/study/querydsl/domain/member/repository/MemberTestRepository.java:78-87 | The count query returns the ids of exactly the rows the content query returns, in order |
| MemberTestRepository.PagesAgree | src/main/java/study/querydsl/domain/member/repository/MemberTestRepository.java:39-89 | All three paging entry points return the same page for the same input |
| MemberTestRepository.PageWindow | src/main/java/study/querydsl/domain/member/repository/MemberTestRepository.java:48-49 | A page holds at most pageSize rows; it holds exactly min(pageSize, total - offset) rows when the offset is within the total; row i of the page is row offset+i of the search |
| MemberTestRepository.EmptyConditionReturnsAll | src/main/java/study/querydsl/domain/member/repository/MemberTestRepository.java:40-47 | With all four fields null the search is the whole table, members without a team included, and equals `basicSelect` |
| MemberTestRepository.NoTextImposesNothing | src/main/java/study/querydsl/domain/member/repository/MemberTestRepository.java:91-97 | A null, empty or blank username or team name gives the same result as leaving it null |
| MemberTestRepository.TeamNameNeedsTeam | src/main/java/study/querydsl/domain/member/repository/MemberTestRepository.java:41 | With a team-name condition, every returned member has a team with that name |
| MemberTestRepository.SearchMonotone | src/main/java/study/querydsl/domain/member/repository/MemberTestRepository.java:42-47 | Making an absent field present refilters the earlier result: it can only shrink, never gain a member |
| MemberTestRepository.SearchScenario | src/test/java/study/querydsl/domain/member/repository/MemberRepositoryTest.java:67-75 | `ageGoe=35, ageLoe=40, teamName="teamB"` over the four members gives exactly `[member4]` |
| MemberTestRepository.FirstPageOfEverything | src/main/java/study/querydsl/domain/member/repository/MemberTestRepository.java:48-51 | With an empty condition, page (0, n) is the table's first n rows, the total is the table size and the page size is n |
| MemberTestRepository.PageScenario | src/test/java/study/querydsl/domain/member/repository/MemberRepositoryTest.java:99-106 | Empty condition with page (0, 3): member1, member2, member3, page size 3, total 4 |
| Querydsl.MaxAge | src/test/java/study/querydsl/QuerydslBasicTest.java:415-416 | `max(age)` is null exactly on an empty table; otherwise it is some member's age and no member is older |
| Querydsl.AllHoldIff | src/main/java/study/querydsl/domain/member/repository/MemberTestRepository.java:42-47 | A where list holds of a member iff every non-null argument holds of it |
| Querydsl.Joined | src/test/java/study/querydsl/QuerydslBasicTest.java:282 | Joined rows come from the table; an inner join keeps exactly the members that have a team, and a left join keeps every member |
| Querydsl.Matching | src/test/java/study/querydsl/QuerydslBasicTest.java:279-284 | A row matches iff it is a joined row that passes the where clause; under an inner join it has a team |
| Querydsl.Fetch | src/test/java/study/querydsl/QuerydslBasicTest.java:187-192 | Fetched rows come from the table and pass the where clause; at most `limit` rows come back |
| Querydsl.FetchCount | src/test/java/study/querydsl/QuerydslBasicTest.java:148-150 | `fetchCount` is the number of rows the query returns without its order, offset and limit |
| Querydsl.FetchResults | src/test/java/study/querydsl/QuerydslBasicTest.java:204-209 | `fetchResults` reports the full count and a page of min(limit, total - offset) rows; with a positive count it echoes the query's limit and offset and returns its fetch; with a zero count it is `emptyResults()` (no rows, no limit, offset 0) |
| Querydsl.OrderByNothing | src/test/java/study/querydsl/QuerydslBasicTest.java:170-174 | An empty order list leaves the rows in input order |
| Querydsl.FetchUnordered | src/test/java/study/querydsl/QuerydslBasicTest.java:105-109 | Without orderBy, fetch is the order-preserving filter of the joined rows, sliced by offset and limit |
| Querydsl.FetchWhere | src/test/java/study/querydsl/QuerydslBasicTest.java:105-109 | A one-condition selectFrom over a join is the filter of the joined rows by that condition |
| Querydsl.LeftJoinKeepsEveryMember | src/main/java/study/querydsl/domain/member/repository/MemberTestRepository.java:41 | A left join with no where clause returns every member, those without a team included |
| Querydsl.InnerJoinKeepsMembersWithTeam | src/test/java/study/querydsl/QuerydslBasicTest.java:279-282 | An inner join without a where clause returns exactly the members that have a team, in table order |
| Querydsl.InnerJoinAgreesOnTeamName | src/test/java/study/querydsl/QuerydslBasicTest.java:282-283 | Once the where clause tests the team name, inner and left joins select the same rows |
| Querydsl.WhereArgumentsAreAnded | src/test/java/study/querydsl/QuerydslBasicTest.java:121-123 | `where(a, b)` and `where(a.and(b))` return the same rows |
| Querydsl.BetweenIsInclusive | src/test/java/study/querydsl/QuerydslBasicTest.java:108 | `between(lo, hi)` is `goe(lo).and(loe(hi))`; both ends match whenever lo <= hi |
| Querydsl.MaxSubQuery | src/test/java/study/querydsl/QuerydslBasicTest.java:414-417 | `age = (select max(age))` holds exactly of the oldest members, and a non-empty table has one |
| Querydsl.InSubQueryOfSameTable | src/test/java/study/querydsl/QuerydslBasicTest.java:449-453 | Over the same table, `age in (select age where age > v)` holds exactly when `age > v` |
| Ordering.CompareStrings | src/test/java/study/querydsl/QuerydslBasicTest.java:173 | The name comparison answers -1, 0 or 1, and 0 exactly for equal strings |
| Ordering.CompareStringsAntisym | src/test/java/study/querydsl/QuerydslBasicTest.java:173 | Swapping the two strings negates the comparison |
| Ordering.CompareStringsTrans | src/test/java/study/querydsl/QuerydslBasicTest.java:173 | The string order is transitive |
| Ordering.CompareKey | src/test/java/study/querydsl/QuerydslBasicTest.java:173 | A one-specifier comparison answers -1, 0 or 1 |
| Ordering.CompareKeyAntisym | src/test/java/study/querydsl/QuerydslBasicTest.java:173 | A one-specifier comparison is antisymmetric, including for nulls first and nulls last |
| Ordering.CompareKeyTrans | src/test/java/study/querydsl/QuerydslBasicTest.java:173 | A one-specifier comparison is transitive |
| Ordering.CompareKeyStrict | src/test/java/study/querydsl/QuerydslBasicTest.java:173 | A chain of non-increasing steps with one strict step is strict |
| Ordering.CompareBy | src/test/java/study/querydsl/QuerydslBasicTest.java:173 | The multi-key comparison answers -1, 0 or 1 |
| Ordering.CompareByAntisym | src/test/java/study/querydsl/QuerydslBasicTest.java:173 | The multi-key comparison is antisymmetric |
| Ordering.CompareByTotal | src/test/java/study/querydsl/QuerydslBasicTest.java:173 | Any two rows are comparable |
| Ordering.CompareByTrans | src/test/java/study/querydsl/QuerydslBasicTest.java:173 | The multi-key order is transitive |
| Ordering.Insert | src/test/java/study/querydsl/QuerydslBasicTest.java:173 | Inserting a row adds exactly that row to the multiset |
| Ordering.InsertSorted | src/test/java/study/querydsl/QuerydslBasicTest.java:173 | Inserting into a sorted sequence keeps it sorted |
| Ordering.OrderBy | src/test/java/study/querydsl/QuerydslBasicTest.java:173 | `orderBy` returns a sorted permutation of its rows |
| QuerydslBasicTest.UsernameEq | src/test/java/study/querydsl/QuerydslBasicTest.java:739-741 | A condition is produced iff the parameter is non-null, empty string included; it is username equality |
| QuerydslBasicTest.AgeEq | src/test/java/study/querydsl/QuerydslBasicTest.java:743-745 | A condition is produced iff the parameter is non-null; it is age equality |
| QuerydslBasicTest.SearchMember2 | src/test/java/study/querydsl/QuerydslBasicTest.java:730-737 | Returns, in table order, exactly the members equal on every non-null parameter |
| QuerydslBasicTest.BuilderAnd | src/test/java/study/querydsl/QuerydslBasicTest.java:703 | `builder.and(e)` holds iff the earlier builder (if any) holds and e holds |
| QuerydslBasicTest.SearchMember1 | src/test/java/study/querydsl/QuerydslBasicTest.java:699-714 | The BooleanBuilder method returns the same rows as searchMember2 for every input; with both parameters null it returns the whole table |
| QuerydslBasicTest.SearchMember2NoParams | src/test/java/study/querydsl/QuerydslBasicTest.java:730-745 | Both parameters null: an unfiltered scan |
| QuerydslBasicTest.EmptyUsernameStillFilters | src/test/java/study/querydsl/QuerydslBasicTest.java:740 | `""` still filters by equality in searchMember2, whereas the repository's hasText rule ignores it |
| QuerydslBasicTest.DynamicQueryScenario | src/test/java/study/querydsl/QuerydslBasicTest.java:686-728 | `("member1", null)` and `("member1", 10)` each return exactly member1 over the fixture |
| QuerydslBasicTest.DynamicQueryBooleanBuilder | src/test/java/study/querydsl/QuerydslBasicTest.java:686-697 | searchMember1("member1", null) over the fixture returns exactly [member1] |
| QuerydslBasicTest.DynamicQueryWhereParam | src/test/java/study/querydsl/QuerydslBasicTest.java:716-728 | searchMember2("member1", 10) over the fixture returns exactly [member1] |
| QuerydslBasicTest.StartQuerydslScenario | src/test/java/study/querydsl/QuerydslBasicTest.java:84-100 | `username.eq("member1")` finds exactly member1 |
| QuerydslBasicTest.SearchBetweenScenario | src/test/java/study/querydsl/QuerydslBasicTest.java:102-114 | `username.eq("member1").and(age.between(10, 30))` returns exactly member1, whose age 10 is the inclusive lower end |
| QuerydslBasicTest.SearchAndParamScenario | src/test/java/study/querydsl/QuerydslBasicTest.java:116-129 | `where(username.eq("member1"), age.eq(10))` returns exactly member1 |
| QuerydslBasicTest.JoinScenario | src/test/java/study/querydsl/QuerydslBasicTest.java:274-288 | The inner join filtered on teamA returns member1 then member2 |
| QuerydslBasicTest.FixtureMaxAge | src/test/java/study/querydsl/QuerydslBasicTest.java:415-416 | The fixture's `max(age)` is 40 |
| QuerydslBasicTest.SubQueryRows | src/test/java/study/querydsl/QuerydslBasicTest.java:408-418 | `age.eq(select max(age))` returns exactly member4 |
| QuerydslBasicTest.SubQueryScenario | src/test/java/study/querydsl/QuerydslBasicTest.java:420-421 | Its extracted ages are exactly [40] |
| QuerydslBasicTest.FixtureInSubQuery | src/test/java/study/querydsl/QuerydslBasicTest.java:449-453 | The in-sub-query holds of member2, member3 and member4, not member1 |
| QuerydslBasicTest.SubQueryInRows | src/test/java/study/querydsl/QuerydslBasicTest.java:443-454 | `age.in(select age where age > 10)` returns member2, member3, member4 in order |
| QuerydslBasicTest.SubQueryInScenario | src/test/java/study/querydsl/QuerydslBasicTest.java:456-457 | Its extracted ages are exactly [20, 30, 40] |
| QuerydslBasicTest.PagingLength | src/test/java/study/querydsl/QuerydslBasicTest.java:187-192 | Unfiltered paging returns min(limit, n - offset) rows, or none past the end |
| QuerydslBasicTest.Paging1Scenario | src/test/java/study/querydsl/QuerydslBasicTest.java:182-197 | Sort by name descending, offset 1, limit 2 over four members: 2 rows |
| QuerydslBasicTest.CountWithoutWhere | src/test/java/study/querydsl/QuerydslBasicTest.java:204-212 | Without a where clause, fetchCount counts every row |
| QuerydslBasicTest.Paging2Scenario | src/test/java/study/querydsl/QuerydslBasicTest.java:199-217 | fetchResults reports total 4, limit 2, offset 1 and 2 results |
| QuerydslBasicTest.AgeDescUsernameAscNullsLastLe | src/test/java/study/querydsl/QuerydslBasicTest.java:173 | Under `age desc, username asc nulls last`, an earlier row is no younger; at a tie an unnamed row is followed only by unnamed rows, and named rows are in ascending name order |
| QuerydslBasicTest.SameAgeComparesNames | src/test/java/study/querydsl/QuerydslBasicTest.java:173 | For rows of the same age, the comparison reduces to the name key |
| QuerydslBasicTest.SortQueryMatching | src/test/java/study/querydsl/QuerydslBasicTest.java:170-172 | The sort query orders exactly the members aged 100, taken in table order |
| QuerydslBasicTest.SortOrder | src/test/java/study/querydsl/QuerydslBasicTest.java:155-174 | For any table, the sort test's result is a permutation of the members aged 100, ordered by age descending, then name ascending, with null names last |
| QuerydslBasicTest.SortThree | src/test/java/study/querydsl/QuerydslBasicTest.java:173 | Three rows of equal age, one unnamed and two named in order, sort to named, named, unnamed |
| QuerydslBasicTest.OrderByTwo | src/test/java/study/querydsl/QuerydslBasicTest.java:173 | Two ordered rows stay in order |
| QuerydslBasicTest.InsertAfterTwo | src/test/java/study/querydsl/QuerydslBasicTest.java:173 | A row that sorts after both rows of a pair goes behind them |
| QuerydslBasicTest.SortTableMatching | src/test/java/study/querydsl/QuerydslBasicTest.java:165-172 | On the sort test's table, the rows aged 100 are the three added members in insertion order |
| QuerydslBasicTest.FetchSorted | src/test/java/study/querydsl/QuerydslBasicTest.java:170-174 | Without offset or limit, fetch of an ordered query is the sorted matching rows |
| QuerydslBasicTest.SortScenario | src/test/java/study/querydsl/QuerydslBasicTest.java:161-180 | The sort test returns member5, member6, then the unnamed member |
| QuerydslBasicTest.BulkUpdateRows | src/test/java/study/querydsl/QuerydslBasicTest.java:755-759 | `set(username, "비회원").where(age.lt(28))` renames member1 and member2 and leaves member3 and member4 as they were |
| QuerydslBasicTest.BulkUpdateCount | src/test/java/study/querydsl/QuerydslBasicTest.java:755-759 | That statement affects 2 rows |
| QuerydslBasicTest.BulkUpdateScenario | src/test/java/study/querydsl/QuerydslBasicTest.java:751-771 | Running the statement on a store holding the fixture returns count 2 and leaves the renamed table the later select reads |
| QuerydslBasicTest.BulkAddScenario | src/test/java/study/querydsl/QuerydslBasicTest.java:773-794 | `set(age, age.add(1))` returns count 4 and leaves ages 11, 21, 31, 41 with everything else unchanged |
| QuerydslBasicTest.BulkDeleteRows | src/test/java/study/querydsl/QuerydslBasicTest.java:800-803 | `delete.where(age.lt(18))` keeps member2, member3, member4 in order and affects 1 row |
| QuerydslBasicTest.BulkDeleteScenario | src/test/java/study/querydsl/QuerydslBasicTest.java:796-815 | Running it on a store holding the fixture returns count 1 and leaves member2, member3, member4 |
| BulkStatements.UpdateUsername | src/test/java/study/querydsl/QuerydslBasicTest.java:755-759 | Same length; every row keeps its id, age and team; a row's name becomes the new name iff the where clause held of it in the old table, and otherwise stays |
| BulkStatements.AddToAge | src/test/java/study/querydsl/QuerydslBasicTest.java:777-780 | Same length; every row's age grows by the amount and nothing else changes |
| BulkStatements.DeleteWhere | src/test/java/study/querydsl/QuerydslBasicTest.java:800-803 | A row survives iff it was in the table and the clause did not hold of it; kept plus deleted is the table size |
| BulkStatements.Affected | src/test/java/study/querydsl/QuerydslBasicTest.java:755-759 | The affected count never exceeds the table size |
| BulkStatements.AffectedIsFetchCount | src/test/java/study/querydsl/QuerydslBasicTest.java:755-759 | The count execute() returns equals fetchCount of a select with the same where clause |
| BulkStatements.NameBlindHolds | src/test/java/study/querydsl/QuerydslBasicTest.java:758 | A clause that reads neither the name nor a sub-query gives the same answer on a renamed row in any table |
| BulkStatements.UpdateUsernameIdempotent | src/test/java/study/querydsl/QuerydslBasicTest.java:755-759 | Repeating a rename whose clause ignores names changes nothing more |
| BulkStatements.UpdateUsernameNoMatch | src/test/java/study/querydsl/QuerydslBasicTest.java:755-759 | A rename that affects no row leaves the table unchanged |
| BulkStatements.AddToAgeTwice | src/test/java/study/querydsl/QuerydslBasicTest.java:777-780 | Two age updates compose into one by the sum |
| BulkStatements.AddToAgeZero | src/test/java/study/querydsl/QuerydslBasicTest.java:777-780 | Adding zero changes no row |
| BulkStatements.DeleteWhereIdempotent | src/test/java/study/querydsl/QuerydslBasicTest.java:800-803 | Repeating a delete whose clause ignores names and sub-queries removes nothing more |
| BulkStatements.MemberStore.BulkUpdateUsername | src/test/java/study/querydsl/QuerydslBasicTest.java:755-759 | The rows become UpdateUsername of the old rows, and the returned count is the number of affected rows |
| BulkStatements.MemberStore.BulkAddAge | src/test/java/study/querydsl/QuerydslBasicTest.java:777-780 | The rows become AddToAge of the old rows, and the count is the old row count |
| BulkStatements.MemberStore.BulkDelete | src/test/java/study/querydsl/QuerydslBasicTest.java:800-803 | The rows become DeleteWhere of the old rows, and the count is the number of rows removed |

## Left out

- The count-skipping rule of `PageableExecutionUtils.getPage` and `Querydsl4RepositorySupport` is left out because their code is not part of this model. The total is always the full filtered count.
- The model's `Pageable` carries no sort. The sort `Querydsl.applyPagination` would apply from a sorted `Pageable` is not modelled, so the content order under a sorted `Pageable` is not covered.
- Persistence is left out: `EntityManager`, `persist`, `flush`/`clear` and transactions are framework state. The table is a value, or the `rows` field of `MemberStore`.
- Fetch joins and lazy loading (`isLoaded`) are left out, because they are persistence-context behaviour.
- Tuple aggregates (`count`, `sum`, `min`, `max` and `avg` selected together) and `groupBy` are left out, because their results are untyped `Tuple` rows read through the library. `avg` and `subQueryGoe`'s average bound are floating point. The `max(age)` sub-query is modelled as `MaxAge`.
- Sub-queries in the select list and `CaseBuilder` are left out, as are SQL functions and templates, constants and `concat`/`stringValue`. These tests only print what they get, and they use database functions.
- DTO projections (`Projections.*`, `QMemberDto`) and raw JPQL strings are left out; they are reflection and string parsing.
- The exception `fetchOne` throws on a non-unique result is left out, because it is library behaviour; the scenarios that use `fetchOne` return one row. `fetchFirst` and the `resultFetch` test, which asserts nothing, have no member of their own.
- `allEq` is left out: it is unused, and its behaviour on null depends on a Java NullPointerException.
- Theta joins, `join ... on` filtering and joins without a relation are left out. Only the member-to-team inner and left joins are modelled.
- `MemberApiController` is left out because it is HTTP routing. `MemberRepository` and `MemberRepositoryCustom` are left out because they are interfaces whose implementations are not part of this model.
- The repository-test scenarios (`SearchScenario`, `PageScenario`) call `MemberRepositoryCustom.search`/`searchPageSimple`, whose implementation is not part of this model. They are stated for `MemberTestRepository`'s query, which applies the same four conditions.
- MemberStore.BulkAddAge: does not model 32-bit wrap-around of `age + 1`, because ages are unbounded integers here. It also generalises the constant 1 to an amount.
- Ordering.OrderBy: the order of rows that tie on every key is whatever the insertion sort gives; a database leaves it unspecified.
- Ordering.CompareStrings: compares by character code rather than by the database collation.
- Ordering.NullRank: the default null placement (without `nullsFirst`/`nullsLast`) is fixed as "null lowest". The real placement depends on the database.
- The where clause and sub-queries of a bulk statement are evaluated on the table as it was before the statement. No row sees the statement's own earlier changes.
- The `sort` and `bulk*` tests only print their rows. Their scenarios state the rows that would be printed.
