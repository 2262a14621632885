/**
 * The bulk statements `update(member).set(...).where(...).execute()` and
 * `delete(member).where(...).execute()`: they change the member table in
 * place, row by row, and return the number of rows they touched.
 *
 * The where clause of one statement is evaluated against the table as it was
 * before the statement, so a sub-query in it does not see the statement's own
 * changes.
 */
module BulkStatements {
  import opened Wrappers
  import opened Domain
  import opened Seqs
  import opened Querydsl

  // ---------------------------------------------------------------------------
  // What each statement does to the table

  /** The row that `set(member.username, name).where(e)` leaves in place of `m`. */
  function Renamed(table: seq<Member>, e: Expr, name: string, m: Member): Member
  {
    if Holds(table, e, m) then m.(username := Some(name)) else m
  }

  /** `update(member).set(member.username, name).where(e)`: only the names of matching rows change. */
  function UpdateUsername(table: seq<Member>, e: Expr, name: string): (r: seq<Member>)
    ensures |r| == |table|
    ensures forall i :: 0 <= i < |table| ==>
              r[i].id == table[i].id && r[i].age == table[i].age && r[i].team == table[i].team
    ensures forall i :: 0 <= i < |table| ==>
              r[i].username == (if Holds(table, e, table[i]) then Some(name) else table[i].username)
  {
    Map(table, (m: Member) => Renamed(table, e, name, m))
  }

  /** The row that `set(member.age, member.age.add(amount))` leaves in place of `m`. */
  function AgedBy(amount: int, m: Member): Member
  {
    m.(age := m.age + amount)
  }

  /** `update(member).set(member.age, member.age.add(amount))` without a where clause: every row. */
  function AddToAge(table: seq<Member>, amount: int): (r: seq<Member>)
    ensures |r| == |table|
    ensures forall i :: 0 <= i < |table| ==>
              r[i].age == table[i].age + amount
              && r[i].id == table[i].id && r[i].username == table[i].username && r[i].team == table[i].team
  {
    Map(table, (m: Member) => AgedBy(amount, m))
  }

  /** `delete(member).where(e)`: the rows `e` does not hold of stay, in their order. */
  function DeleteWhere(table: seq<Member>, e: Expr): (r: seq<Member>)
    ensures forall m :: m in r <==> m in table && !Holds(table, e, m)
    ensures |r| + |Filter(table, (m: Member) => Holds(table, e, m))| == |table|
  {
    var keep := (m: Member) => !Holds(table, e, m);
    FilterSplit(table, (m: Member) => Holds(table, e, m), keep);
    Filter(table, keep)
  }

  /** The number of rows a statement with where clause `e` affects. */
  function Affected(table: seq<Member>, e: Expr): (n: nat)
    ensures n <= |table|
  {
    |Filter(table, (m: Member) => Holds(table, e, m))|
  }

  /** A statement affects as many rows as `selectFrom(member).where(e).fetchCount()` counts. */
  lemma AffectedIsFetchCount(table: seq<Member>, e: Expr)
    ensures Affected(table, e) == FetchCount(table, SelectFrom().(where := [Some(e)]))
  {
    FetchWhere(table, NoJoin, e);
  }

  // ---------------------------------------------------------------------------
  // Properties of the statements

  /** A where clause that reads neither the name nor a sub-query over the table. */
  predicate NameBlind(e: Expr)
  {
    match e
    case UsernameEq(_) => false
    case AgeEqMaxAge => false
    case AgeIn(_) => false
    case And(l, r) => NameBlind(l) && NameBlind(r)
    case _ => true
  }

  /** A name-blind clause gives the same answer on a row that differs only in its name. */
  lemma {:induction false} NameBlindHolds(t1: seq<Member>, t2: seq<Member>, e: Expr, m: Member, name: Option<string>)
    requires NameBlind(e)
    ensures Holds(t1, e, m) == Holds(t2, e, m.(username := name))
  {
    if e.And? {
      NameBlindHolds(t1, t2, e.left, m, name);
      NameBlindHolds(t1, t2, e.right, m, name);
    }
  }

  /** Running the same rename twice is the same as running it once, when the clause ignores names. */
  lemma UpdateUsernameIdempotent(table: seq<Member>, e: Expr, name: string)
    requires NameBlind(e)
    ensures UpdateUsername(UpdateUsername(table, e, name), e, name) == UpdateUsername(table, e, name)
  {
    var once := UpdateUsername(table, e, name);
    var twice := UpdateUsername(once, e, name);
    forall i | 0 <= i < |table| ensures twice[i] == once[i] {
      NameBlindHolds(table, once, e, table[i], once[i].username);
      assert once[i] == table[i].(username := once[i].username);
    }
  }

  /** A rename whose clause matches no row leaves the table as it was. */
  lemma UpdateUsernameNoMatch(table: seq<Member>, e: Expr, name: string)
    requires Affected(table, e) == 0
    ensures UpdateUsername(table, e, name) == table
  {
    forall i | 0 <= i < |table| ensures !Holds(table, e, table[i]) {
      assert table[i] in table;
    }
  }

  /** Two age updates add up. */
  lemma AddToAgeTwice(table: seq<Member>, a: int, b: int)
    ensures AddToAge(AddToAge(table, a), b) == AddToAge(table, a + b)
  {
  }

  /** Adding zero changes no row. */
  lemma AddToAgeZero(table: seq<Member>)
    ensures AddToAge(table, 0) == table
  {
  }

  /** A second delete with the same name-blind, sub-query-free clause removes nothing more. */
  lemma DeleteWhereIdempotent(table: seq<Member>, e: Expr)
    requires NameBlind(e)
    ensures DeleteWhere(DeleteWhere(table, e), e) == DeleteWhere(table, e)
  {
    var once := DeleteWhere(table, e);
    forall m | m in once ensures !Holds(once, e, m) {
      NameBlindHolds(table, once, e, m, m.username);
      assert m.(username := m.username) == m;
    }
    FilterAll(once, (m: Member) => !Holds(once, e, m));
  }

  // ---------------------------------------------------------------------------
  // The table the statements run against

  /** The member table, changed in place by the bulk statements. */
  class MemberStore {
    var rows: seq<Member>

    constructor(initial: seq<Member>)
      ensures rows == initial
    {
      rows := initial;
    }

    /** `update(member).set(member.username, name).where(e).execute()`. */
    method BulkUpdateUsername(name: string, e: Expr) returns (count: nat)
      modifies this
      ensures rows == UpdateUsername(old(rows), e, name)
      ensures count == Affected(old(rows), e)
    {
      var before := rows;
      count := 0;
      var i := 0;
      while i < |rows|
        invariant RenamedUpTo(before, e, name, rows, i, count)
      {
        var hit := Holds(before, e, before[i]);
        var next := if hit then rows[i := before[i].(username := Some(name))] else rows;
        RenameStep(before, e, name, rows, i, count, next);
        rows := next;
        count := if hit then count + 1 else count;
        i := i + 1;
      }
      RenameDone(before, e, name, rows, count);
    }

    /** `update(member).set(member.age, member.age.add(amount)).execute()`. */
    method BulkAddAge(amount: int) returns (count: nat)
      modifies this
      ensures rows == AddToAge(old(rows), amount)
      ensures count == |old(rows)|
    {
      var before := rows;
      count := 0;
      var i := 0;
      while i < |rows|
        invariant |rows| == |before| && 0 <= i <= |rows| && count == i
        invariant forall k :: 0 <= k < i ==> rows[k] == AgedBy(amount, before[k])
        invariant forall k :: i <= k < |rows| ==> rows[k] == before[k]
      {
        rows := rows[i := rows[i].(age := rows[i].age + amount)];
        count := count + 1;
        i := i + 1;
      }
    }

    /** `delete(member).where(e).execute()`. */
    method BulkDelete(e: Expr) returns (count: nat)
      modifies this
      ensures rows == DeleteWhere(old(rows), e)
      ensures count == Affected(old(rows), e)
    {
      var before := rows;
      var keep := (m: Member) => !Holds(before, e, m);
      var kept: seq<Member> := [];
      count := 0;
      var i := 0;
      while i < |before|
        invariant 0 <= i <= |before|
        invariant kept == Filter(before[..i], keep)
        invariant count + |kept| == i
      {
        if Holds(before, e, before[i]) {
          count := count + 1;
        } else {
          kept := kept + [before[i]];
        }
        FilterPrefixStep(before, i, keep);
        i := i + 1;
      }
      assert before[..i] == before;
      rows := kept;
    }
  }

  /**
   * The state of a rename after its first `i` rows: those rows are renamed,
   * the rest are untouched, and `count` matched rows have been seen.
   */
  predicate RenamedUpTo(before: seq<Member>, e: Expr, name: string, after: seq<Member>, i: nat, count: nat)
  {
    && |after| == |before| && i <= |before|
    && (forall k :: 0 <= k < i ==> after[k] == Renamed(before, e, name, before[k]))
    && (forall k :: i <= k < |after| ==> after[k] == before[k])
    && count == |Filter(before[..i], (m: Member) => Holds(before, e, m))|
  }

  /** Renaming row `i`, when it matches, extends the renamed prefix by one row. */
  lemma RenameStep(before: seq<Member>, e: Expr, name: string, after: seq<Member>, i: nat, count: nat, next: seq<Member>)
    requires RenamedUpTo(before, e, name, after, i, count) && i < |before|
    requires next == if Holds(before, e, before[i]) then after[i := before[i].(username := Some(name))] else after
    ensures RenamedUpTo(before, e, name, next, i + 1, if Holds(before, e, before[i]) then count + 1 else count)
  {
    FilterPrefixStep(before, i, (m: Member) => Holds(before, e, m));
  }

  /** A rename that has passed every row has produced `UpdateUsername` and counted the affected rows. */
  lemma RenameDone(before: seq<Member>, e: Expr, name: string, after: seq<Member>, count: nat)
    requires RenamedUpTo(before, e, name, after, |before|, count)
    ensures after == UpdateUsername(before, e, name)
    ensures count == Affected(before, e)
  {
    assert before[..|before|] == before;
  }

  /** Extending a prefix by one element extends its filter by that element or by nothing. */
  lemma FilterPrefixStep(s: seq<Member>, i: nat, p: Member -> bool)
    requires i < |s|
    ensures Filter(s[..i + 1], p) == Filter(s[..i], p) + (if p(s[i]) then [s[i]] else [])
  {
    assert s[..i + 1] == s[..i] + [s[i]];
    FilterConcat(s[..i], [s[i]], p);
    assert [s[i]][1..] == [];
  }
}
