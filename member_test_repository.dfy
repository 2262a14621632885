/**
 * The member search repository: four optional conditions built from a
 * `MemberSearchCond`, ANDed over `member left join team`, optionally cut to a page.
 */
module MemberTestRepository {
  import opened Wrappers
  import opened Domain
  import opened StringUtils
  import opened Seqs
  import opened Querydsl

  /** A page size `PageRequest.of` accepts: it rejects sizes below one. */
  type PageSize = n: nat | n >= 1 witness 1

  /** A Spring `PageRequest`: zero-based page number (never negative) and a positive page size. */
  datatype Pageable = PageRequest(pageNumber: nat, pageSize: PageSize) {
    /** `getOffset()`: the rows skipped before this page. */
    function Offset(): nat { pageNumber * pageSize }
  }

  /** A Spring `Page`: the content, the request it answers and the total row count. */
  datatype Page = Page(content: seq<Member>, pageable: Pageable, totalElements: nat) {
    /** `getSize()`: the requested page size, not the content length. */
    function Size(): nat { pageable.pageSize }
  }

  /** The independent reading of a search condition: what a matching member must satisfy. */
  predicate Matches(cond: MemberSearchCond, m: Member)
  {
    && (HasText(cond.username) ==> m.username == cond.username)
    && (HasText(cond.teamName) ==> m.team.Some? && Some(m.team.value.name) == cond.teamName)
    && (cond.ageGoe.Some? ==> m.age >= cond.ageGoe.value)
    && (cond.ageLoe.Some? ==> m.age <= cond.ageLoe.value)
  }

  /** `usernameEq`: exact equality, only when the value has text. */
  function UsernameEq(username: Option<string>): (r: Option<Expr>)
    ensures r.Some? <==> HasText(username)
    ensures r.Some? ==> forall table, m :: Holds(table, r.value, m) <==> m.username == username
  {
    if HasText(username) then Some(Expr.UsernameEq(username.value)) else None
  }

  /** `teamNameEq`: exact equality on the joined team's name, only when the value has text. */
  function TeamNameEq(teamName: Option<string>): (r: Option<Expr>)
    ensures r.Some? <==> HasText(teamName)
    ensures r.Some? ==> forall table, m :: Holds(table, r.value, m) <==> m.team.Some? && Some(m.team.value.name) == teamName
  {
    if HasText(teamName) then Some(Expr.TeamNameEq(teamName.value)) else None
  }

  /** `ageGoe`: inclusive lower bound, only when the bound is not null. */
  function AgeGoe(ageGoe: Option<int>): (r: Option<Expr>)
    ensures r.Some? <==> ageGoe.Some?
    ensures r.Some? ==> forall table, m :: Holds(table, r.value, m) <==> m.age >= ageGoe.value
  {
    if ageGoe.Some? then Some(Expr.AgeGoe(ageGoe.value)) else None
  }

  /** `ageLoe`: inclusive upper bound, only when the bound is not null. */
  function AgeLoe(ageLoe: Option<int>): (r: Option<Expr>)
    ensures r.Some? <==> ageLoe.Some?
    ensures r.Some? ==> forall table, m :: Holds(table, r.value, m) <==> m.age <= ageLoe.value
  {
    if ageLoe.Some? then Some(Expr.AgeLoe(ageLoe.value)) else None
  }

  /** The four `where` arguments, a null entry for each absent condition. */
  function Conditions(cond: MemberSearchCond): seq<Option<Expr>>
  {
    [UsernameEq(cond.username), TeamNameEq(cond.teamName), AgeGoe(cond.ageGoe), AgeLoe(cond.ageLoe)]
  }

  /** `selectFrom(member).leftJoin(member.team, team).where(...)`. */
  function ContentQuery(cond: MemberSearchCond): Query
  {
    Query(LeftJoinTeam, Conditions(cond), [], 0, None)
  }

  /**
   * `select(member.id).from(member).leftJoin(member.team, team).where(...)`:
   * the same join and where clause as the content query; the `member.id`
   * projection is applied by `FetchIds`.
   */
  function CountQuery(cond: MemberSearchCond): Query
  {
    Query(LeftJoinTeam, Conditions(cond), [], 0, None)
  }

  /** `applyPagination(pageable, query)`: the page's offset and size become the query's. */
  function ApplyPaging(pageable: Pageable, q: Query): Query
  {
    q.(offset := pageable.Offset(), limit := Some(pageable.pageSize))
  }

  /** The where arguments hold of a member exactly when the member matches the condition. */
  lemma ConditionsMeanMatches(table: seq<Member>, cond: MemberSearchCond, m: Member)
    ensures AllHold(table, Conditions(cond), m) <==> Matches(cond, m)
  {
    var cs := Conditions(cond);
    var c1, c2, c3 := cs[1..], cs[1..][1..], cs[1..][1..][1..];
    assert c3[1..] == [];
    assert AllHold(table, c3, m) <==> (cond.ageLoe.Some? ==> m.age <= cond.ageLoe.value);
    assert AllHold(table, c2, m) <==> (cond.ageGoe.Some? ==> m.age >= cond.ageGoe.value) && AllHold(table, c3, m);
    assert AllHold(table, c1, m) <==>
      (HasText(cond.teamName) ==> m.team.Some? && Some(m.team.value.name) == cond.teamName) && AllHold(table, c2, m);
    assert AllHold(table, cs, m) <==> (HasText(cond.username) ==> m.username == cond.username) && AllHold(table, c1, m);
  }

  /** The unpaged content query: every matching member, in table order. */
  function Search(table: seq<Member>, cond: MemberSearchCond): (r: seq<Member>)
    ensures r == Filter(table, (m: Member) => Matches(cond, m))
  {
    var q := ContentQuery(cond);
    FetchUnordered(table, q);
    forall m: Member ensures AllHold(table, q.where, m) == Matches(cond, m) {
      ConditionsMeanMatches(table, cond, m);
    }
    FilterExt(table, (m: Member) => AllHold(table, q.where, m), (m: Member) => Matches(cond, m));
    Fetch(table, q)
  }

  /** `basicSelect`: `select(member).from(member)`, every member in table order. */
  function BasicSelect(table: seq<Member>): (r: seq<Member>)
    ensures r == table
  {
    FetchUnordered(table, SelectFrom());
    FilterAll(table, (m: Member) => AllHold(table, [], m));
    Fetch(table, SelectFrom())
  }

  /** `basicSelectFrom`: `selectFrom(member)`, every member in table order. */
  function BasicSelectFrom(table: seq<Member>): (r: seq<Member>)
    ensures r == table
  {
    var q := Query(NoJoin, [], [], 0, None);
    FetchUnordered(table, q);
    FilterAll(table, (m: Member) => AllHold(table, q.where, m));
    Fetch(table, q)
  }

  /** `searchPageBuApplyPage`: the paged content query, totalled by `fetchCount` of the same query. */
  function SearchPageBuApplyPage(table: seq<Member>, cond: MemberSearchCond, pageable: Pageable): (p: Page)
    ensures p.pageable == pageable
    ensures p.totalElements == |Search(table, cond)|
    ensures p.content == Slice(Search(table, cond), pageable.Offset(), Some(pageable.pageSize))
  {
    var query := ContentQuery(cond);
    FetchUnordered(table, ApplyPaging(pageable, query));
    FetchUnordered(table, query);
    Page(Fetch(table, ApplyPaging(pageable, query)), pageable, FetchCount(table, query))
  }

  /** `applyPagination(cond, pageable)`: the helper pages the content query and counts it. */
  function ApplyPagination(table: seq<Member>, cond: MemberSearchCond, pageable: Pageable): (p: Page)
    ensures p.pageable == pageable
    ensures p.totalElements == |Search(table, cond)|
    ensures p.content == Slice(Search(table, cond), pageable.Offset(), Some(pageable.pageSize))
  {
    var contentQuery := ContentQuery(cond);
    var content := Fetch(table, ApplyPaging(pageable, contentQuery));
    FetchUnordered(table, ApplyPaging(pageable, contentQuery));
    FetchUnordered(table, contentQuery);
    Page(content, pageable, FetchCount(table, contentQuery))
  }

  /** `applyPagination2`: the total comes from the separate id-only count query. */
  function ApplyPagination2(table: seq<Member>, cond: MemberSearchCond, pageable: Pageable): (p: Page)
    ensures p.pageable == pageable
    ensures p.totalElements == |Search(table, cond)|
    ensures p.content == Slice(Search(table, cond), pageable.Offset(), Some(pageable.pageSize))
  {
    var contentQuery := ContentQuery(cond);
    FetchUnordered(table, ApplyPaging(pageable, contentQuery));
    FetchUnordered(table, CountQuery(cond));
    Page(Fetch(table, ApplyPaging(pageable, contentQuery)), pageable, |FetchIds(table, CountQuery(cond))|)
  }

  /** The count query returns the id of every row the content query returns, in order. */
  lemma CountQueryMatchesContent(table: seq<Member>, cond: MemberSearchCond)
    ensures FetchIds(table, CountQuery(cond)) == Map(Search(table, cond), (m: Member) => m.id)
  {
    assert CountQuery(cond) == ContentQuery(cond);
  }

  /** The three paging entry points return the same page for the same input. */
  lemma PagesAgree(table: seq<Member>, cond: MemberSearchCond, pageable: Pageable)
    ensures SearchPageBuApplyPage(table, cond, pageable) == ApplyPagination(table, cond, pageable)
    ensures ApplyPagination(table, cond, pageable) == ApplyPagination2(table, cond, pageable)
  {
  }

  /** A page holds at most `pageSize` rows, taken from `offset` of the filtered sequence. */
  lemma PageWindow(table: seq<Member>, cond: MemberSearchCond, pageable: Pageable)
    ensures var p := ApplyPagination2(table, cond, pageable);
      && |p.content| <= pageable.pageSize
      && (pageable.Offset() <= p.totalElements ==>
            |p.content| == if pageable.Offset() + pageable.pageSize <= p.totalElements
                           then pageable.pageSize else p.totalElements - pageable.Offset())
      && (forall i :: 0 <= i < |p.content| ==> p.content[i] == Search(table, cond)[pageable.Offset() + i])
  {
  }

  /** With every field absent the search is an unfiltered scan; members without a team stay. */
  lemma EmptyConditionReturnsAll(table: seq<Member>)
    ensures Search(table, EmptyCond()) == table
    ensures Search(table, EmptyCond()) == BasicSelect(table)
  {
    FilterAll(table, (m: Member) => Matches(EmptyCond(), m));
  }

  /** A null, empty or blank username or team name imposes no constraint. */
  lemma NoTextImposesNothing(table: seq<Member>, cond: MemberSearchCond, u: Option<string>, t: Option<string>)
    requires !HasText(u) && !HasText(t)
    ensures Search(table, cond.(username := u, teamName := t)) == Search(table, cond.(username := None, teamName := None))
  {
    var c1, c2 := cond.(username := u, teamName := t), cond.(username := None, teamName := None);
    FilterExt(table, (m: Member) => Matches(c1, m), (m: Member) => Matches(c2, m));
  }

  /** A team-name condition keeps only members whose team exists and has that name. */
  lemma TeamNameNeedsTeam(table: seq<Member>, cond: MemberSearchCond, m: Member)
    requires HasText(cond.teamName) && m in Search(table, cond)
    ensures m.team.Some? && m.team.value.name == cond.teamName.value
  {
  }

  /** `c2` keeps every condition `c1` applies and may add ones `c1` left absent. */
  predicate Refines(c1: MemberSearchCond, c2: MemberSearchCond)
  {
    && (HasText(c1.username) ==> c2.username == c1.username)
    && (HasText(c1.teamName) ==> c2.teamName == c1.teamName)
    && (c1.ageGoe.Some? ==> c2.ageGoe == c1.ageGoe)
    && (c1.ageLoe.Some? ==> c2.ageLoe == c1.ageLoe)
  }

  /** Monotonicity: adding a condition filters the earlier result further, so it never grows. */
  lemma SearchMonotone(table: seq<Member>, c1: MemberSearchCond, c2: MemberSearchCond)
    requires Refines(c1, c2)
    ensures Search(table, c2) == Filter(Search(table, c1), (m: Member) => Matches(c2, m))
    ensures |Search(table, c2)| <= |Search(table, c1)|
    ensures forall m :: m in Search(table, c2) ==> m in Search(table, c1)
  {
    FilterNarrow(table, (m: Member) => Matches(c1, m), (m: Member) => Matches(c2, m));
  }

  /** `ageGoe=35, ageLoe=40, teamName="teamB"` over the four members gives `[member4]`. */
  lemma SearchScenario()
    ensures Search(Fixture(), MemberSearchCond(None, Some("teamB"), Some(35), Some(40))) == [Member4()]
  {
    var cond := MemberSearchCond(None, Some("teamB"), Some(35), Some(40));
    var p := (m: Member) => Matches(cond, m);
    TextCase("teamB", 0);
    assert !p(Member1()) && !p(Member2()) && !p(Member3()) && p(Member4());
    var front := [Member1(), Member2(), Member3()];
    assert Filter(front, p) == [] by {
      assert forall x :: x in front ==> !p(x);
    }
    assert Filter([Member4()], p) == [Member4()];
    assert Fixture() == front + [Member4()];
    FilterConcat(front, [Member4()], p);
  }

  /** With an empty condition the first page is the table's first `size` rows. */
  lemma FirstPageOfEverything(table: seq<Member>, size: PageSize)
    requires size <= |table|
    ensures var p := SearchPageBuApplyPage(table, EmptyCond(), PageRequest(0, size));
      p.content == table[..size] && p.totalElements == |table| && p.Size() == size
  {
    EmptyConditionReturnsAll(table);
    assert Slice(table, 0, Some(size)) == table[..size];
  }

  /** An empty condition with page (0, 3) gives member1..3, page size 3, total 4. */
  lemma PageScenario()
    ensures var p := SearchPageBuApplyPage(Fixture(), EmptyCond(), PageRequest(0, 3));
      p.content == [Member1(), Member2(), Member3()] && p.Size() == 3 && p.totalElements == 4
  {
    FirstPageOfEverything(Fixture(), 3);
    FixturePrefix();
  }
}
