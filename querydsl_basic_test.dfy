/**
 * The query scenarios of the Querydsl walkthrough over the four fixture
 * members: the two dynamic-query styles, `between`, paging, sorting, joins,
 * sub-queries, and the bulk update and delete statements.
 */
module QuerydslBasicTest {
  import opened Wrappers
  import opened Domain
  import opened Seqs
  import opened Ordering
  import opened Querydsl
  import opened BulkStatements
  import MemberTestRepository

  // ---------------------------------------------------------------------------
  // Dynamic queries: BooleanBuilder versus nullable where parameters

  /** What both dynamic queries demand of a member: equality on each non-null parameter. */
  predicate ParamsMatch(usernameCond: Option<string>, ageCond: Option<int>, m: Member)
  {
    (usernameCond.Some? ==> m.username == usernameCond) && (ageCond.Some? ==> m.age == ageCond.value)
  }

  /** `usernameEq` of the where-parameter style: tested with `!= null` only, so `""` still filters. */
  function UsernameEq(usernameCond: Option<string>): (r: Option<Expr>)
    ensures r.Some? <==> usernameCond.Some?
    ensures r.Some? ==> forall table, m :: Holds(table, r.value, m) <==> m.username == usernameCond
  {
    if usernameCond.Some? then Some(Expr.UsernameEq(usernameCond.value)) else None
  }

  /** `ageEq`: equality on the age when the parameter is not null. */
  function AgeEq(ageCond: Option<int>): (r: Option<Expr>)
    ensures r.Some? <==> ageCond.Some?
    ensures r.Some? ==> forall table, m :: Holds(table, r.value, m) <==> m.age == ageCond.value
  {
    if ageCond.Some? then Some(Expr.AgeEq(ageCond.value)) else None
  }

  /** `searchMember2`: `selectFrom(member).where(usernameEq(u), ageEq(a))`. */
  function SearchMember2(table: seq<Member>, usernameCond: Option<string>, ageCond: Option<int>): (r: seq<Member>)
    ensures r == Filter(table, (m: Member) => ParamsMatch(usernameCond, ageCond, m))
  {
    var q := SelectFrom().(where := [UsernameEq(usernameCond), AgeEq(ageCond)]);
    FetchUnordered(table, q);
    forall m: Member ensures AllHold(table, q.where, m) == ParamsMatch(usernameCond, ageCond, m) {
      var w1 := q.where[1..];
      assert w1[1..] == [];
      assert AllHold(table, w1, m) == (ageCond.Some? ==> m.age == ageCond.value);
    }
    FilterExt(table, (m: Member) => AllHold(table, q.where, m), (m: Member) => ParamsMatch(usernameCond, ageCond, m));
    Fetch(table, q)
  }

  /** `BooleanBuilder.and(right)`: the first operand becomes the value, later ones are ANDed on. */
  function BuilderAnd(builder: Option<Expr>, right: Expr): (r: Option<Expr>)
    ensures r.Some?
    ensures forall table, m :: Holds(table, r.value, m) <==> (builder.Some? ==> Holds(table, builder.value, m)) && Holds(table, right, m)
  {
    if builder.None? then Some(right) else Some(And(builder.value, right))
  }

  /** `searchMember1`: conditions accumulated in a `BooleanBuilder`, then `where(builder)`. */
  method SearchMember1(table: seq<Member>, usernameCond: Option<string>, ageCond: Option<int>) returns (result: seq<Member>)
    ensures result == SearchMember2(table, usernameCond, ageCond)
    ensures usernameCond.None? && ageCond.None? ==> result == table
  {
    var builder: Option<Expr> := None;
    if usernameCond.Some? {
      builder := BuilderAnd(builder, Expr.UsernameEq(usernameCond.value));
    }
    if ageCond.Some? {
      builder := BuilderAnd(builder, Expr.AgeEq(ageCond.value));
    }
    var q := SelectFrom().(where := [builder]);
    result := Fetch(table, q);

    FetchUnordered(table, q);
    forall m: Member ensures AllHold(table, q.where, m) == ParamsMatch(usernameCond, ageCond, m) {
      assert q.where[1..] == [];
    }
    FilterExt(table, (m: Member) => AllHold(table, q.where, m), (m: Member) => ParamsMatch(usernameCond, ageCond, m));
    if usernameCond.None? && ageCond.None? {
      FilterAll(table, (m: Member) => ParamsMatch(usernameCond, ageCond, m));
    }
  }

  /** `searchMember2` with both parameters null is an unfiltered scan. */
  lemma SearchMember2NoParams(table: seq<Member>)
    ensures SearchMember2(table, None, None) == table
  {
    FilterAll(table, (m: Member) => ParamsMatch(None, None, m));
  }

  /**
   * Unlike the repository's `hasText` test, the where-parameter style treats
   * `""` as a real condition: it keeps only members whose name is empty.
   */
  lemma EmptyUsernameStillFilters(table: seq<Member>)
    ensures SearchMember2(table, Some(""), None) == Filter(table, (m: Member) => m.username == Some(""))
    ensures MemberTestRepository.Search(table, EmptyCond().(username := Some(""))) == table
  {
    FilterExt(table, (m: Member) => ParamsMatch(Some(""), None, m), (m: Member) => m.username == Some(""));
    MemberTestRepository.NoTextImposesNothing(table, EmptyCond(), Some(""), None);
    MemberTestRepository.EmptyConditionReturnsAll(table);
  }

  /** Filtering a four-row table, given which rows the predicate holds of: the result is `r`. */
  lemma FilterOfFour(t: seq<Member>, a: Member, b: Member, c: Member, d: Member, p: Member -> bool,
                     ka: bool, kb: bool, kc: bool, kd: bool, r: seq<Member>)
    requires t == [a, b, c, d]
    requires p(a) == ka && p(b) == kb && p(c) == kc && p(d) == kd
    requires r == Keep(ka, a) + (Keep(kb, b) + (Keep(kc, c) + Keep(kd, d)))
    ensures Filter(t, p) == r
  {
    Filter4(a, b, c, d, p);
  }

  /** `("member1", null)` and `("member1", 10)` each return exactly member1. */
  lemma DynamicQueryScenario(t: seq<Member>)
    requires t == Fixture()
    ensures SearchMember2(t, Some("member1"), None) == [Member1()]
    ensures SearchMember2(t, Some("member1"), Some(10)) == [Member1()]
  {
    FilterOfFour(t, Member1(), Member2(), Member3(), Member4(), (m: Member) => ParamsMatch(Some("member1"), None, m),
                 true, false, false, false, [Member1()]);
    FilterOfFour(t, Member1(), Member2(), Member3(), Member4(), (m: Member) => ParamsMatch(Some("member1"), Some(10), m),
                 true, false, false, false, [Member1()]);
  }

  /** The test of the BooleanBuilder style: `("member1", null)` gives one member. */
  method DynamicQueryBooleanBuilder() returns (result: seq<Member>)
    ensures result == [Member1()]
  {
    var t := Fixture();
    result := SearchMember1(t, Some("member1"), None);
    DynamicQueryScenario(t);
  }

  /** The test of the where-parameter style: `("member1", 10)` gives one member. */
  method DynamicQueryWhereParam() returns (result: seq<Member>)
    ensures result == [Member1()]
  {
    var t := Fixture();
    result := SearchMember2(t, Some("member1"), Some(10));
    DynamicQueryScenario(t);
  }

  // ---------------------------------------------------------------------------
  // Single queries over the fixture
  //
  // The scenarios take the table as a parameter `t` equal to the fixture, and
  // find the rows with `FetchOfFour` from the four facts "the condition holds
  // of member i or not".

  /** The rows `k` selects: `[m]` when the flag is set, none otherwise. */
  function Keep(k: bool, m: Member): seq<Member>
  {
    if k then [m] else []
  }

  /**
   * `selectFrom(member).where(e)` over a four-row table keeps, in order, the
   * rows `e` holds of: given the four flags, the result is `r`.
   */
  lemma FetchOfFour(t: seq<Member>, a: Member, b: Member, c: Member, d: Member, j: Join, e: Expr,
                    ka: bool, kb: bool, kc: bool, kd: bool, r: seq<Member>)
    requires t == [a, b, c, d] && j != InnerJoinTeam
    requires Holds(t, e, a) == ka && Holds(t, e, b) == kb && Holds(t, e, c) == kc && Holds(t, e, d) == kd
    requires r == Keep(ka, a) + (Keep(kb, b) + (Keep(kc, c) + Keep(kd, d)))
    ensures Fetch(t, SelectFrom().(join := j, where := [Some(e)])) == r
  {
    FetchWhere(t, j, e);
    Filter4(a, b, c, d, (m: Member) => Holds(t, e, m));
  }

  /** `username.eq("member1")` finds member1 (the JPQL and the Querydsl start). */
  lemma StartQuerydslScenario(t: seq<Member>)
    requires t == Fixture()
    ensures Fetch(t, SelectFrom().(where := [Some(Expr.UsernameEq("member1"))])) == [Member1()]
  {
    FetchOfFour(t, Member1(), Member2(), Member3(), Member4(), NoJoin, Expr.UsernameEq("member1"), true, false, false, false, [Member1()]);
  }

  /** `username.eq("member1").and(age.between(10, 30))`: member1, whose age 10 is the lower end. */
  lemma SearchBetweenScenario(t: seq<Member>)
    requires t == Fixture()
    ensures var r := Fetch(t, SelectFrom().(where := [Some(And(Expr.UsernameEq("member1"), AgeBetween(10, 30)))]));
      r == [Member1()] && r[0].age == 10
  {
    FetchOfFour(t, Member1(), Member2(), Member3(), Member4(), NoJoin,
                And(Expr.UsernameEq("member1"), AgeBetween(10, 30)), true, false, false, false, [Member1()]);
  }

  /** `where(username.eq("member1"), age.eq(10))` gives the same single member. */
  lemma SearchAndParamScenario(t: seq<Member>)
    requires t == Fixture()
    ensures Fetch(t, SelectFrom().(where := [Some(Expr.UsernameEq("member1")), Some(Expr.AgeEq(10))])) == [Member1()]
  {
    var e := And(Expr.UsernameEq("member1"), Expr.AgeEq(10));
    FetchOfFour(t, Member1(), Member2(), Member3(), Member4(), NoJoin, e, true, false, false, false, [Member1()]);
    WhereArgumentsAreAnded(t, SelectFrom(), Expr.UsernameEq("member1"), Expr.AgeEq(10));
  }

  /** `join(member.team, team).where(team.name.eq("teamA"))` gives member1 and member2 in order. */
  lemma JoinScenario(t: seq<Member>)
    requires t == Fixture()
    ensures Fetch(t, SelectFrom().(join := InnerJoinTeam, where := [Some(TeamNameEq("teamA"))])) == [Member1(), Member2()]
  {
    FetchOfFour(t, Member1(), Member2(), Member3(), Member4(), LeftJoinTeam, TeamNameEq("teamA"), true, true, false, false, [Member1(), Member2()]);
    InnerJoinAgreesOnTeamName(t, SelectFrom().(join := LeftJoinTeam, where := [Some(TeamNameEq("teamA"))]), "teamA");
  }

  /** The `age` column, as `extracting("age")` reads it. */
  function AgeOf(m: Member): int
  {
    m.age
  }

  /** The fixture's oldest member is member4, aged 40. */
  lemma FixtureMaxAge(t: seq<Member>)
    requires t == Fixture()
    ensures MaxAge(t) == Some(40)
  {
    assert Member4() in t;
    assert forall m :: m in t ==> m.age <= 40;
  }

  /** `age.eq(select(max(age)))` selects member4 only. */
  lemma SubQueryRows(t: seq<Member>)
    requires t == Fixture()
    ensures Fetch(t, SelectFrom().(where := [Some(AgeEqMaxAge)])) == [Member4()]
  {
    FixtureMaxAge(t);
    FetchOfFour(t, Member1(), Member2(), Member3(), Member4(), NoJoin, AgeEqMaxAge, false, false, false, true, [Member4()]);
  }

  /** The same query's `extracting("age")`: 40. */
  lemma SubQueryScenario(t: seq<Member>)
    requires t == Fixture()
    ensures Map(Fetch(t, SelectFrom().(where := [Some(AgeEqMaxAge)])), AgeOf) == [40]
  {
    SubQueryRows(t);
    AgesOfOne(Member4());
  }

  lemma AgesOfOne(a: Member)
    ensures Map([a], AgeOf) == [a.age]
  {
  }

  /** Over the fixture, `age in (select age where age > 10)` holds of member2, member3 and member4. */
  lemma FixtureInSubQuery(t: seq<Member>)
    requires t == Fixture()
    ensures !Holds(t, AgeIn(AgeGt(10)), Member1())
    ensures Holds(t, AgeIn(AgeGt(10)), Member2()) && Holds(t, AgeIn(AgeGt(10)), Member3()) && Holds(t, AgeIn(AgeGt(10)), Member4())
  {
    InSubQueryOfSameTable(t, 10);
    assert Member1() in t && Member2() in t && Member3() in t && Member4() in t;
  }

  /** `age.in(select(age).where(age.gt(10)))` selects member2, member3 and member4. */
  lemma SubQueryInRows(t: seq<Member>)
    requires t == Fixture()
    ensures Fetch(t, SelectFrom().(where := [Some(AgeIn(AgeGt(10)))])) == [Member2(), Member3(), Member4()]
  {
    FixtureInSubQuery(t);
    FetchOfFour(t, Member1(), Member2(), Member3(), Member4(), NoJoin, AgeIn(AgeGt(10)), false, true, true, true, [Member2(), Member3(), Member4()]);
  }

  /** The same query's `extracting("age")`: 20, 30 and 40. */
  lemma SubQueryInScenario(t: seq<Member>)
    requires t == Fixture()
    ensures Map(Fetch(t, SelectFrom().(where := [Some(AgeIn(AgeGt(10)))])), AgeOf) == [20, 30, 40]
  {
    SubQueryInRows(t);
    AgesOfThree(Member2(), Member3(), Member4());
  }

  lemma AgesOfThree(a: Member, b: Member, c: Member)
    ensures Map([a, b, c], AgeOf) == [a.age, b.age, c.age]
  {
  }

  // ---------------------------------------------------------------------------
  // Paging and sorting

  /** `orderBy(username.desc())`. */
  function UsernameDesc(): seq<OrderSpecifier>
  {
    [OrderSpecifier(Username, Desc, Default)]
  }

  /** All four members sorted by name descending, then offset 1, limit 2. */
  function PagingQuery(): Query
  {
    SelectFrom().(orderBy := UsernameDesc(), offset := 1, limit := Some(2))
  }

  /** Paging by offset and limit over the whole table returns `min(limit, n - offset)` rows. */
  lemma PagingLength(table: seq<Member>, q: Query)
    requires q.join == NoJoin && q.where == [] && q.limit.Some?
    ensures |Fetch(table, q)| == if q.offset > |table| then 0
                                 else if q.offset + q.limit.value <= |table| then q.limit.value
                                 else |table| - q.offset
  {
    FilterAll(table, (m: Member) => AllHold(table, q.where, m));
  }

  /** `paging1`: two rows come back. */
  lemma Paging1Scenario(t: seq<Member>)
    requires t == Fixture()
    ensures |Fetch(t, PagingQuery())| == 2
  {
    PagingLength(t, PagingQuery());
  }

  /** An unfiltered query counts every row. */
  lemma CountWithoutWhere(table: seq<Member>, q: Query)
    requires q.join == NoJoin && q.where == []
    ensures FetchCount(table, q) == |table|
  {
    FilterAll(table, (m: Member) => AllHold(table, q.where, m));
  }

  /** `paging2`: total 4, limit 2, offset 1, two results. */
  lemma Paging2Scenario(t: seq<Member>)
    requires t == Fixture()
    ensures var r := FetchResults(t, PagingQuery());
      r.total == 4 && r.limit == Some(2) && r.offset == 1 && |r.results| == 2
  {
    CountWithoutWhere(t, PagingQuery());
  }

  /** `orderBy(age.desc(), username.asc().nullsLast())`. */
  function AgeDescUsernameAscNullsLast(): seq<OrderSpecifier>
  {
    [OrderSpecifier(Age, Desc, Default), OrderSpecifier(Username, Asc, NullsLast)]
  }

  /** What `Le` means under `age desc, username asc nulls last`. */
  lemma AgeDescUsernameAscNullsLastLe(a: Member, b: Member)
    requires Le(AgeDescUsernameAscNullsLast(), a, b)
    ensures a.age >= b.age
    ensures a.age == b.age && a.username.None? ==> b.username.None?
    ensures a.age == b.age && a.username.Some? && b.username.Some?
            ==> CompareStrings(a.username.value, b.username.value) <= 0
  {
    if a.age == b.age {
      SameAgeComparesNames(a, b);
    }
  }

  /** Between two rows of the same age, `age desc, username asc nulls last` compares the names only. */
  lemma SameAgeComparesNames(a: Member, b: Member)
    requires a.age == b.age
    ensures CompareBy(AgeDescUsernameAscNullsLast(), a, b) == CompareKey(OrderSpecifier(Username, Asc, NullsLast), a, b)
  {
    var specs := AgeDescUsernameAscNullsLast();
    var name := OrderSpecifier(Username, Asc, NullsLast);
    assert specs[1..] == [name] && [name][1..] == [];
    assert CompareKey(specs[0], a, b) == 0;
    assert CompareBy(specs, a, b) == CompareBy([name], a, b);
    assert CompareBy([name], a, b) == if CompareKey(name, a, b) != 0 then CompareKey(name, a, b) else CompareBy([], a, b);
  }

  /** The sort test's query: the members aged 100, oldest first, then by name, nulls last. */
  function SortQuery(): Query
  {
    SelectFrom().(where := [Some(Expr.AgeEq(100))], orderBy := AgeDescUsernameAscNullsLast())
  }

  /** The rows the sort query orders are the members aged 100, in table order. */
  lemma SortQueryMatching(table: seq<Member>)
    ensures Matching(table, SortQuery()) == Filter(table, (m: Member) => m.age == 100)
  {
    var w := SortQuery().where;
    assert w == [Some(Expr.AgeEq(100))] && w[1..] == [];
    var p := (m: Member) => AllHold(table, w, m);
    forall m: Member ensures p(m) == (m.age == 100) {
      assert AllHold(table, w[1..], m);
    }
    FilterExt(table, p, (m: Member) => m.age == 100);
  }

  /**
   * The sort query returns a permutation of the matching rows in which age
   * never increases, names ascend within one age, and a null name comes after
   * every non-null name of the same age.
   */
  lemma SortOrder(table: seq<Member>)
    ensures var r := Fetch(table, SortQuery());
      && multiset(r) == multiset(Filter(table, (m: Member) => m.age == 100))
      && (forall i, j :: 0 <= i < j < |r| ==> r[i].age >= r[j].age)
      && (forall i, j :: 0 <= i < j < |r| && r[i].age == r[j].age && r[i].username.None? ==> r[j].username.None?)
      && (forall i, j :: 0 <= i < j < |r| && r[i].age == r[j].age && r[i].username.Some? && r[j].username.Some?
            ==> CompareStrings(r[i].username.value, r[j].username.value) <= 0)
  {
    var specs := AgeDescUsernameAscNullsLast();
    var r := Fetch(table, SortQuery());
    SortQueryMatching(table);
    assert r == OrderBy(specs, Matching(table, SortQuery()));
    forall i, j | 0 <= i < j < |r|
      ensures r[i].age >= r[j].age
      ensures r[i].age == r[j].age && r[i].username.None? ==> r[j].username.None?
      ensures r[i].age == r[j].age && r[i].username.Some? && r[j].username.Some?
            ==> CompareStrings(r[i].username.value, r[j].username.value) <= 0
    {
      AgeDescUsernameAscNullsLastLe(r[i], r[j]);
    }
  }

  /**
   * Three rows of one age, the first without a name and the other two named
   * in ascending order, sort as: the two named rows, then the unnamed one.
   */
  lemma SortThree(a: Member, b: Member, c: Member)
    requires a.age == b.age == c.age
    requires a.username.None? && b.username.Some? && c.username.Some?
    requires CompareStrings(b.username.value, c.username.value) < 0
    ensures OrderBy(AgeDescUsernameAscNullsLast(), [a, b, c]) == [b, c, a]
  {
    var specs := AgeDescUsernameAscNullsLast();
    SameAgeComparesNames(b, c);
    SameAgeComparesNames(a, b);
    SameAgeComparesNames(a, c);
    OrderByTwo(specs, b, c);
    InsertAfterTwo(specs, a, b, c);
    assert [a, b, c][1..] == [b, c];
  }

  /** Two rows already in order stay in order. */
  lemma OrderByTwo(specs: seq<OrderSpecifier>, b: Member, c: Member)
    requires Le(specs, b, c)
    ensures OrderBy(specs, [b, c]) == [b, c]
  {
    assert [b, c][1..] == [c] && [c][1..] == [];
    assert OrderBy(specs, [c]) == [c];
  }

  /** A row that sorts after both rows of a pair goes behind them. */
  lemma InsertAfterTwo(specs: seq<OrderSpecifier>, a: Member, b: Member, c: Member)
    requires !Le(specs, a, b) && !Le(specs, a, c)
    ensures Insert(specs, a, [b, c]) == [b, c, a]
  {
    assert [b, c][1..] == [c] && [c][1..] == [];
    assert Insert(specs, a, [c]) == [c, a];
  }

  // The three members the sort test persists on top of the fixture, all aged 100.
  function Nameless(): Member { Member(5, None, 100, None) }
  function Member5(): Member { Member(6, Some("member5"), 100, None) }
  function Member6(): Member { Member(7, Some("member6"), 100, None) }

  /** The sort test's table: the fixture followed by the three added members. */
  function SortTable(): seq<Member>
  {
    [Member1(), Member2(), Member3(), Member4(), Nameless(), Member5(), Member6()]
  }

  /** Filtering seven rows of which only the last three pass keeps those three. */
  lemma FilterLastThree(t: seq<Member>, a: Member, b: Member, c: Member, d: Member, x: Member, y: Member, z: Member,
                        p: Member -> bool)
    requires t == [a, b, c, d, x, y, z]
    requires !p(a) && !p(b) && !p(c) && !p(d) && p(x) && p(y) && p(z)
    ensures Filter(t, p) == [x, y, z]
  {
    assert t == [a, b, c, d] + [x, y, z];
    FilterConcat([a, b, c, d], [x, y, z], p);
    Filter4(a, b, c, d, p);
    FilterAll([x, y, z], p);
  }

  /** The rows of the sort test's table aged 100: the three added members, in insertion order. */
  lemma SortTableMatching(t: seq<Member>)
    requires t == SortTable()
    ensures Matching(t, SortQuery()) == [t[4], t[5], t[6]]
  {
    SortQueryMatching(t);
    FilterLastThree(t, t[0], t[1], t[2], t[3], t[4], t[5], t[6], (m: Member) => m.age == 100);
  }

  /** Without offset or limit, `fetch()` of an ordered query is the sorted matching rows. */
  lemma FetchSorted(table: seq<Member>, q: Query, r: seq<Member>)
    requires q.orderBy != [] && q.offset == 0 && q.limit.None?
    requires OrderBy(q.orderBy, Matching(table, q)) == r
    ensures Fetch(table, q) == r
  {
  }

  /** The sort test prints member5, member6, then the member without a name. */
  lemma SortScenario(t: seq<Member>)
    requires t == SortTable()
    ensures Fetch(t, SortQuery()) == [Member5(), Member6(), Nameless()]
  {
    SortTableMatching(t);
    assert CompareStrings("member5", "member6") == -1;
    SortThree(t[4], t[5], t[6]);
    FetchSorted(t, SortQuery(), [t[5], t[6], t[4]]);
  }

  // ---------------------------------------------------------------------------
  // Bulk update and delete over the fixture

  /** A rename over a four-row table, row by row. */
  lemma UpdateOfFour(t: seq<Member>, a: Member, b: Member, c: Member, d: Member, e: Expr, name: string, r: seq<Member>)
    requires t == [a, b, c, d]
    requires r == [Renamed(t, e, name, a), Renamed(t, e, name, b), Renamed(t, e, name, c), Renamed(t, e, name, d)]
    ensures UpdateUsername(t, e, name) == r
  {
  }

  /** `bulkUpdate` on the fixture: member1 and member2 (ages 10 and 20) become "비회원". */
  lemma BulkUpdateRows(t: seq<Member>)
    requires t == Fixture()
    ensures UpdateUsername(t, AgeLt(28), "비회원")
         == [Member1().(username := Some("비회원")), Member2().(username := Some("비회원")), Member3(), Member4()]
  {
    UpdateOfFour(t, Member1(), Member2(), Member3(), Member4(), AgeLt(28), "비회원",
                 [Member1().(username := Some("비회원")), Member2().(username := Some("비회원")), Member3(), Member4()]);
  }

  /** The number of rows of a four-row table a clause affects, given which rows it holds of. */
  lemma AffectedOfFour(t: seq<Member>, a: Member, b: Member, c: Member, d: Member, e: Expr,
                       ka: bool, kb: bool, kc: bool, kd: bool, n: nat)
    requires t == [a, b, c, d]
    requires Holds(t, e, a) == ka && Holds(t, e, b) == kb && Holds(t, e, c) == kc && Holds(t, e, d) == kd
    requires n == |Keep(ka, a) + (Keep(kb, b) + (Keep(kc, c) + Keep(kd, d)))|
    ensures Affected(t, e) == n
  {
    Filter4(a, b, c, d, (m: Member) => Holds(t, e, m));
  }

  /** Two fixture rows are younger than 28. */
  lemma BulkUpdateCount(t: seq<Member>)
    requires t == Fixture()
    ensures Affected(t, AgeLt(28)) == 2
  {
    AffectedOfFour(t, Member1(), Member2(), Member3(), Member4(), AgeLt(28), true, true, false, false, 2);
  }

  /** The `bulkUpdate` test: the statement's count and the table a later `selectFrom(member)` reads. */
  method BulkUpdateScenario() returns (count: nat, result: seq<Member>)
    ensures count == 2
    ensures result == [Member1().(username := Some("비회원")), Member2().(username := Some("비회원")), Member3(), Member4()]
  {
    var store := new MemberStore(Fixture());
    var before := store.rows;
    count := store.BulkUpdateUsername("비회원", AgeLt(28));
    result := store.rows;
    BulkUpdateRows(before);
    BulkUpdateCount(before);
  }

  /** An age update over a four-row table, row by row. */
  lemma AddOfFour(t: seq<Member>, a: Member, b: Member, c: Member, d: Member, amount: int, r: seq<Member>)
    requires t == [a, b, c, d]
    requires r == [AgedBy(amount, a), AgedBy(amount, b), AgedBy(amount, c), AgedBy(amount, d)]
    ensures AddToAge(t, amount) == r
  {
  }

  /** The `bulkAdd` test: every member is a year older and all four rows are affected. */
  method BulkAddScenario() returns (count: nat, result: seq<Member>)
    ensures count == 4
    ensures result == [Member1().(age := 11), Member2().(age := 21), Member3().(age := 31), Member4().(age := 41)]
  {
    var store := new MemberStore(Fixture());
    var before := store.rows;
    count := store.BulkAddAge(1);
    result := store.rows;
    AddOfFour(before, Member1(), Member2(), Member3(), Member4(), 1,
              [Member1().(age := 11), Member2().(age := 21), Member3().(age := 31), Member4().(age := 41)]);
  }

  /** A delete over a four-row table keeps, in order, the rows `e` does not hold of. */
  lemma DeleteOfFour(t: seq<Member>, a: Member, b: Member, c: Member, d: Member, e: Expr,
                     ka: bool, kb: bool, kc: bool, kd: bool, r: seq<Member>)
    requires t == [a, b, c, d]
    requires !Holds(t, e, a) == ka && !Holds(t, e, b) == kb && !Holds(t, e, c) == kc && !Holds(t, e, d) == kd
    requires r == Keep(ka, a) + (Keep(kb, b) + (Keep(kc, c) + Keep(kd, d)))
    ensures DeleteWhere(t, e) == r
  {
    Filter4(a, b, c, d, (m: Member) => !Holds(t, e, m));
  }

  /** `bulkDelete` on the fixture: only member1 (age 10) is younger than 18. */
  lemma BulkDeleteRows(t: seq<Member>)
    requires t == Fixture()
    ensures DeleteWhere(t, AgeLt(18)) == [Member2(), Member3(), Member4()]
    ensures Affected(t, AgeLt(18)) == 1
  {
    DeleteOfFour(t, Member1(), Member2(), Member3(), Member4(), AgeLt(18), false, true, true, true,
                 [Member2(), Member3(), Member4()]);
  }

  /** The `bulkDelete` test: one row goes, the other three stay in order. */
  method BulkDeleteScenario() returns (count: nat, result: seq<Member>)
    ensures count == 1
    ensures result == [Member2(), Member3(), Member4()]
  {
    var store := new MemberStore(Fixture());
    var before := store.rows;
    count := store.BulkDelete(AgeLt(18));
    result := store.rows;
    BulkDeleteRows(before);
  }
}
