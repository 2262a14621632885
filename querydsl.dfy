/**
 * The meaning of the JPA queries the code builds: boolean expressions over a
 * member row, the member-to-team joins, `where`, `orderBy`, `offset`/`limit`,
 * and the `fetch`, `fetchCount` and `fetchResults` terminals.
 *
 * Without an `orderBy` the rows come back in table order. The where clauses
 * only ever combine conditions with AND, so SQL's "unknown" (a comparison
 * with a null column) behaves exactly like false here.
 */
module Querydsl {
  import opened Wrappers
  import opened Domain
  import opened Seqs
  import opened Ordering

  /** A `BooleanExpression` over `member` (and the joined `team`). */
  datatype Expr =
    | UsernameEq(username: string)        // member.username.eq(s)
    | TeamNameEq(name: string)            // team.name.eq(s)
    | AgeEq(age: int)                     // member.age.eq(v)
    | AgeGoe(age: int)                    // member.age.goe(v)
    | AgeLoe(age: int)                    // member.age.loe(v)
    | AgeLt(age: int)                     // member.age.lt(v)
    | AgeGt(age: int)                     // member.age.gt(v)
    | AgeBetween(lo: int, hi: int)        // member.age.between(lo, hi)
    | AgeEqMaxAge                         // member.age.eq(select(memberSub.age.max()).from(memberSub))
    | AgeIn(sub: Expr)                    // member.age.in(select(memberSub.age).from(memberSub).where(sub))
    | And(left: Expr, right: Expr)        // left.and(right)

  /** `max(age)` over a table; null on an empty table. */
  function MaxAge(rows: seq<Member>): (r: Option<int>)
    ensures r.None? <==> rows == []
    ensures r.Some? ==> exists m :: m in rows && m.age == r.value
    ensures r.Some? ==> forall m :: m in rows ==> m.age <= r.value
  {
    if rows == [] then None
    else
      var rest := MaxAge(rows[1..]);
      assert forall m :: m in rows <==> m == rows[0] || m in rows[1..];
      match rest
      case None => Some(rows[0].age)
      case Some(v) => Some(if rows[0].age >= v then rows[0].age else v)
  }

  /** Whether `e` is true of row `m`; sub-queries range over the whole `table`. */
  predicate Holds(table: seq<Member>, e: Expr, m: Member)
    decreases e
  {
    match e
    case UsernameEq(s) => m.username == Some(s)
    case TeamNameEq(s) => m.team.Some? && m.team.value.name == s
    case AgeEq(v) => m.age == v
    case AgeGoe(v) => m.age >= v
    case AgeLoe(v) => m.age <= v
    case AgeLt(v) => m.age < v
    case AgeGt(v) => m.age > v
    case AgeBetween(lo, hi) => lo <= m.age <= hi
    case AgeEqMaxAge => MaxAge(table) == Some(m.age)
    case AgeIn(sub) => exists x {:trigger Holds(table, sub, x)} :: x in table && Holds(table, sub, x) && x.age == m.age
    case And(l, r) => Holds(table, l, m) && Holds(table, r, m)
  }

  /** `where(p1, p2, ...)`: the null arguments are skipped, the others are ANDed. */
  predicate AllHold(table: seq<Member>, preds: seq<Option<Expr>>, m: Member)
  {
    preds == [] || ((preds[0].None? || Holds(table, preds[0].value, m)) && AllHold(table, preds[1..], m))
  }

  lemma {:induction false} AllHoldIff(table: seq<Member>, preds: seq<Option<Expr>>, m: Member)
    ensures AllHold(table, preds, m)
        <==> forall i :: 0 <= i < |preds| && preds[i].Some? ==> Holds(table, preds[i].value, m)
  {
    if preds != [] {
      AllHoldIff(table, preds[1..], m);
      assert forall i :: 1 <= i < |preds| ==> preds[i] == preds[1..][i - 1];
    }
  }

  /** The join a query makes from `member` to `team`. */
  datatype Join = NoJoin | InnerJoinTeam | LeftJoinTeam

  /**
   * The rows a join produces. The relation is many-to-one, so a left join
   * keeps one row per member, and an inner join drops the members without a team.
   */
  function Joined(table: seq<Member>, j: Join): (r: seq<Member>)
    ensures forall m :: m in r ==> m in table
    ensures j == InnerJoinTeam ==> forall m :: m in r ==> m.team.Some?
    ensures forall m :: m in table && (j != InnerJoinTeam || m.team.Some?) ==> m in r
  {
    match j
    case NoJoin => table
    case LeftJoinTeam => table
    case InnerJoinTeam => Filter(table, (m: Member) => m.team.Some?)
  }

  /** A `selectFrom(member)` query with its clauses. */
  datatype Query = Query(
    join: Join,
    where: seq<Option<Expr>>,
    orderBy: seq<OrderSpecifier>,
    offset: nat,
    limit: Option<nat>)

  /** `selectFrom(member)` with no further clause. */
  function SelectFrom(): Query
  {
    Query(NoJoin, [], [], 0, None)
  }

  /** The joined rows that pass the where clause, before ordering and paging. */
  function Matching(table: seq<Member>, q: Query): (r: seq<Member>)
    ensures forall m :: m in r ==> m in table && AllHold(table, q.where, m)
    ensures q.join == InnerJoinTeam ==> forall m :: m in r ==> m.team.Some?
    ensures forall m :: m in Joined(table, q.join) && AllHold(table, q.where, m) ==> m in r
  {
    var joined := Joined(table, q.join);
    var p := (m: Member) => AllHold(table, q.where, m);
    var r := Filter(joined, p);
    assert forall m :: m in r ==> m in joined && p(m);
    r
  }

  /** `fetch()`: the matching rows, ordered when an `orderBy` is given, then cut to `[offset, offset + limit)`. */
  function Fetch(table: seq<Member>, q: Query): (r: seq<Member>)
    ensures forall m :: m in r ==> m in table && AllHold(table, q.where, m)
    ensures q.join == InnerJoinTeam ==> forall m :: m in r ==> m.team.Some?
    ensures q.limit.Some? ==> |r| <= q.limit.value
  {
    var matching := Matching(table, q);
    var ordered := if q.orderBy == [] then matching else OrderBy(q.orderBy, matching);
    assert forall m :: m in ordered ==> m in multiset(matching);
    assert forall m :: m in ordered ==> m in matching;
    Slice(ordered, q.offset, q.limit)
  }

  /** `select(member.id)` of the same query. */
  function FetchIds(table: seq<Member>, q: Query): seq<nat>
  {
    Map(Fetch(table, q), (m: Member) => m.id)
  }

  /** `fetchCount()`: the number of matching rows; order, offset and limit are dropped. */
  function FetchCount(table: seq<Member>, q: Query): (n: nat)
    ensures n == |Fetch(table, q.(orderBy := [], offset := 0, limit := None))|
    ensures n == |Fetch(table, q.(offset := 0, limit := None))|
  {
    |Matching(table, q)|
  }

  /** What `fetchResults()` reports: the page of rows, the limit and offset used, and the total. */
  datatype QueryResults = QueryResults(results: seq<Member>, limit: Option<nat>, offset: nat, total: nat)

  /** `QueryResults.emptyResults()`: no rows, no limit (`Long.MAX_VALUE`), offset 0, total 0. */
  function EmptyResults(): QueryResults
  {
    QueryResults([], None, 0, 0)
  }

  /**
   * `fetchResults()`: the count query runs first; only a positive count runs
   * the content query, and a zero count answers `emptyResults()`.
   */
  function FetchResults(table: seq<Member>, q: Query): (r: QueryResults)
    ensures r.total == FetchCount(table, q)
    ensures r.total == 0 ==> r == EmptyResults()
    ensures r.total > 0 ==> r.limit == q.limit && r.offset == q.offset && r.results == Fetch(table, q)
    ensures |r.results| == (if q.offset > r.total then 0
                            else if q.limit.Some? && q.offset + q.limit.value <= r.total then q.limit.value
                            else r.total - q.offset)
  {
    var total := FetchCount(table, q);
    if total > 0 then QueryResults(Fetch(table, q), q.limit, q.offset, total) else EmptyResults()
  }

  /**
   * With no order specifier every row ties and the sort keeps the input order:
   * this is why `Fetch` may skip the sort when `orderBy` is empty.
   */
  lemma {:induction false} OrderByNothing(rows: seq<Member>)
    ensures OrderBy([], rows) == rows
  {
    if rows != [] {
      OrderByNothing(rows[1..]);
      assert rows == [rows[0]] + rows[1..];
    }
  }

  /** Without `orderBy`, `fetch()` is the order-preserving filter, cut to the page. */
  lemma FetchUnordered(table: seq<Member>, q: Query)
    requires q.orderBy == []
    ensures Fetch(table, q) == Slice(Matching(table, q), q.offset, q.limit)
  {
  }

  /** `selectFrom(member).where(e)` over a join, without paging: the rows of the join `e` holds of. */
  lemma FetchWhere(table: seq<Member>, j: Join, e: Expr)
    ensures Fetch(table, SelectFrom().(join := j, where := [Some(e)]))
         == Filter(Joined(table, j), (m: Member) => Holds(table, e, m))
  {
    var q := SelectFrom().(join := j, where := [Some(e)]);
    FetchUnordered(table, q);
    forall m: Member ensures AllHold(table, q.where, m) == Holds(table, e, m) {
      assert q.where[1..] == [];
    }
    FilterExt(Joined(table, j), (m: Member) => AllHold(table, q.where, m), (m: Member) => Holds(table, e, m));
  }

  /** A left join loses no member, including those without a team. */
  lemma LeftJoinKeepsEveryMember(table: seq<Member>)
    ensures Fetch(table, SelectFrom().(join := LeftJoinTeam)) == table
  {
    var q := SelectFrom().(join := LeftJoinTeam);
    FetchUnordered(table, q);
    FilterAll(table, (m: Member) => AllHold(table, q.where, m));
  }

  /** An inner join with no where clause keeps exactly the members that have a team, in table order. */
  lemma InnerJoinKeepsMembersWithTeam(table: seq<Member>)
    ensures Fetch(table, SelectFrom().(join := InnerJoinTeam)) == Filter(table, (m: Member) => m.team.Some?)
  {
    var q := SelectFrom().(join := InnerJoinTeam);
    FetchUnordered(table, q);
    FilterAll(Joined(table, q.join), (m: Member) => AllHold(table, q.where, m));
  }

  /** Once the where clause tests the team's name, inner and left join agree. */
  lemma InnerJoinAgreesOnTeamName(table: seq<Member>, q: Query, name: string)
    requires q.join == LeftJoinTeam
    requires Some(TeamNameEq(name)) in q.where
    ensures Matching(table, q.(join := InnerJoinTeam)) == Matching(table, q)
  {
    var hasTeam := (m: Member) => m.team.Some?;
    var p := (m: Member) => AllHold(table, q.where, m);
    forall m | m in table && p(m) ensures hasTeam(m) {
      AllHoldIff(table, q.where, m);
      var i :| 0 <= i < |q.where| && q.where[i] == Some(TeamNameEq(name));
    }
    FilterNarrow(table, hasTeam, p);
  }

  /** `where(a, b)` and `where(a.and(b))` select the same rows. */
  lemma WhereArgumentsAreAnded(table: seq<Member>, q: Query, a: Expr, b: Expr)
    ensures Fetch(table, q.(where := [Some(a), Some(b)])) == Fetch(table, q.(where := [Some(And(a, b))]))
  {
    var q1, q2 := q.(where := [Some(a), Some(b)]), q.(where := [Some(And(a, b))]);
    forall m: Member ensures AllHold(table, q1.where, m) == AllHold(table, q2.where, m) {
      assert q1.where[1..][1..] == [] && q2.where[1..] == [];
    }
    FilterExt(Joined(table, q.join), (m: Member) => AllHold(table, q1.where, m), (m: Member) => AllHold(table, q2.where, m));
    assert Matching(table, q1) == Matching(table, q2);
  }

  /** `between` is inclusive at both ends: it is `goe(lo).and(loe(hi))`. */
  lemma BetweenIsInclusive(table: seq<Member>, lo: int, hi: int, m: Member)
    ensures Holds(table, AgeBetween(lo, hi), m) <==> Holds(table, And(AgeGoe(lo), AgeLoe(hi)), m)
    ensures Holds(table, AgeBetween(lo, hi), m.(age := lo)) <==> lo <= hi
    ensures Holds(table, AgeBetween(lo, hi), m.(age := hi)) <==> lo <= hi
  {
  }

  /** The max sub-query selects exactly the oldest members; a non-empty table has one. */
  lemma MaxSubQuery(table: seq<Member>)
    ensures forall m :: m in table ==>
              (Holds(table, AgeEqMaxAge, m) <==> forall x :: x in table ==> x.age <= m.age)
    ensures table != [] ==> exists m :: m in table && Holds(table, AgeEqMaxAge, m)
  {
    var mx := MaxAge(table);
    if table != [] {
      var w :| w in table && w.age == mx.value;
      assert Holds(table, AgeEqMaxAge, w);
    }
  }

  /** `age in (select age where age > v)` over the same table is just `age > v`. */
  lemma InSubQueryOfSameTable(table: seq<Member>, v: int)
    ensures forall m :: m in table ==> (Holds(table, AgeIn(AgeGt(v)), m) <==> Holds(table, AgeGt(v), m))
  {
    forall m | m in table && Holds(table, AgeGt(v), m)
      ensures Holds(table, AgeIn(AgeGt(v)), m)
    {
      assert m in table && Holds(table, AgeGt(v), m) && m.age == m.age;
    }
  }
}
