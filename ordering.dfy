/**
 * The meaning of an `orderBy(...)` clause: a comparator per order specifier,
 * combined field by field, and a sort that returns a sorted permutation.
 */
module Ordering {
  import opened Wrappers
  import opened Domain

  /** The member column an order specifier sorts on. */
  datatype Target = Age | Username
  datatype Direction = Asc | Desc
  /** `Default` is the database's own rule: a null compares below every value. */
  datatype NullHandling = Default | NullsFirst | NullsLast
  /** `member.age.desc()`, `member.username.asc().nullsLast()`, ... */
  datatype OrderSpecifier = OrderSpecifier(target: Target, direction: Direction, nulls: NullHandling)

  /** Three-way lexicographic comparison by character code: -1, 0 or 1. */
  function CompareStrings(a: string, b: string): (c: int)
    ensures -1 <= c <= 1
    ensures c == 0 <==> a == b
  {
    if a == [] then (if b == [] then 0 else -1)
    else if b == [] then 1
    else if a[0] < b[0] then -1
    else if a[0] > b[0] then 1
    else
      var rest := CompareStrings(a[1..], b[1..]);
      assert a == [a[0]] + a[1..] && b == [b[0]] + b[1..];
      rest
  }

  lemma {:induction false} CompareStringsAntisym(a: string, b: string)
    ensures CompareStrings(a, b) == -CompareStrings(b, a)
  {
    if a != [] && b != [] && a[0] == b[0] {
      CompareStringsAntisym(a[1..], b[1..]);
    }
  }

  lemma {:induction false} CompareStringsTrans(a: string, b: string, c: string)
    requires CompareStrings(a, b) <= 0 && CompareStrings(b, c) <= 0
    ensures CompareStrings(a, c) <= 0
  {
    if a != [] && b != [] && c != [] && a[0] == b[0] && b[0] == c[0] {
      CompareStringsTrans(a[1..], b[1..], c[1..]);
    }
  }

  function CompareInts(x: int, y: int): int
  {
    if x < y then -1 else if x > y then 1 else 0
  }

  function Directed(d: Direction, c: int): int
  {
    if d == Asc then c else -c
  }

  /** Where a null goes relative to a non-null value: -1 before it, 1 after it. */
  function NullRank(o: OrderSpecifier): int
  {
    match o.nulls
    case NullsFirst => -1
    case NullsLast => 1
    case Default => Directed(o.direction, -1)
  }

  /** Compares two members on one order specifier only. */
  function CompareKey(o: OrderSpecifier, a: Member, b: Member): (c: int)
    ensures -1 <= c <= 1
  {
    match o.target
    case Age => Directed(o.direction, CompareInts(a.age, b.age))
    case Username =>
      match (a.username, b.username)
      case (None, None) => 0
      case (None, Some(_)) => NullRank(o)
      case (Some(_), None) => -NullRank(o)
      case (Some(x), Some(y)) => Directed(o.direction, CompareStrings(x, y))
  }

  lemma CompareKeyAntisym(o: OrderSpecifier, a: Member, b: Member)
    ensures CompareKey(o, a, b) == -CompareKey(o, b, a)
  {
    if o.target == Username && a.username.Some? && b.username.Some? {
      CompareStringsAntisym(a.username.value, b.username.value);
    }
  }

  lemma CompareKeyTrans(o: OrderSpecifier, a: Member, b: Member, c: Member)
    requires CompareKey(o, a, b) <= 0 && CompareKey(o, b, c) <= 0
    ensures CompareKey(o, a, c) <= 0
  {
    if o.target == Username && a.username.Some? && b.username.Some? && c.username.Some? {
      var x, y, z := a.username.value, b.username.value, c.username.value;
      if o.direction == Asc {
        CompareStringsTrans(x, y, z);
      } else {
        CompareStringsAntisym(x, y);
        CompareStringsAntisym(y, z);
        CompareStringsAntisym(x, z);
        CompareStringsTrans(z, y, x);
      }
    }
  }

  /** Strict and tied steps combine: a tie followed by a strict step is strict. */
  lemma CompareKeyStrict(o: OrderSpecifier, a: Member, b: Member, c: Member)
    requires CompareKey(o, a, b) <= 0 && CompareKey(o, b, c) <= 0
    requires CompareKey(o, a, b) < 0 || CompareKey(o, b, c) < 0
    ensures CompareKey(o, a, c) < 0
  {
    CompareKeyTrans(o, a, b, c);
    if CompareKey(o, a, c) == 0 {
      CompareKeyAntisym(o, a, c);
      CompareKeyAntisym(o, a, b);
      CompareKeyAntisym(o, b, c);
      if CompareKey(o, a, b) < 0 {
        // c <= a and b <= c would give b <= a
        CompareKeyTrans(o, b, c, a);
      } else {
        CompareKeyTrans(o, c, a, b);
      }
      assert false;
    }
  }

  /** `orderBy(o1, o2, ...)`: the first specifier that tells two rows apart decides. */
  function CompareBy(specs: seq<OrderSpecifier>, a: Member, b: Member): (c: int)
    ensures -1 <= c <= 1
  {
    if specs == [] then 0
    else
      var k := CompareKey(specs[0], a, b);
      if k != 0 then k else CompareBy(specs[1..], a, b)
  }

  predicate Le(specs: seq<OrderSpecifier>, a: Member, b: Member)
  {
    CompareBy(specs, a, b) <= 0
  }

  lemma {:induction false} CompareByAntisym(specs: seq<OrderSpecifier>, a: Member, b: Member)
    ensures CompareBy(specs, a, b) == -CompareBy(specs, b, a)
  {
    if specs != [] {
      CompareKeyAntisym(specs[0], a, b);
      CompareByAntisym(specs[1..], a, b);
    }
  }

  /** Any two rows are comparable. */
  lemma CompareByTotal(specs: seq<OrderSpecifier>, a: Member, b: Member)
    ensures Le(specs, a, b) || Le(specs, b, a)
  {
    CompareByAntisym(specs, a, b);
  }

  lemma {:induction false} CompareByTrans(specs: seq<OrderSpecifier>, a: Member, b: Member, c: Member)
    requires Le(specs, a, b) && Le(specs, b, c)
    ensures Le(specs, a, c)
  {
    if specs != [] {
      var o := specs[0];
      var kab, kbc := CompareKey(o, a, b), CompareKey(o, b, c);
      if kab == 0 && kbc == 0 {
        CompareKeyAntisym(o, a, b);
        CompareKeyAntisym(o, b, c);
        CompareKeyTrans(o, a, b, c);
        CompareKeyTrans(o, c, b, a);
        CompareKeyAntisym(o, a, c);
        CompareByTrans(specs[1..], a, b, c);
      } else {
        CompareKeyStrict(o, a, b, c);
      }
    }
  }

  /** Every pair of rows, not only neighbours, is in order. */
  ghost predicate Sorted(specs: seq<OrderSpecifier>, s: seq<Member>)
  {
    forall i, j :: 0 <= i < j < |s| ==> Le(specs, s[i], s[j])
  }

  /** Inserts `x` before the first row it does not sort after. */
  function Insert(specs: seq<OrderSpecifier>, x: Member, s: seq<Member>): (r: seq<Member>)
    ensures multiset(r) == multiset(s) + multiset{x}
  {
    if s == [] then [x]
    else if Le(specs, x, s[0]) then [x] + s
    else
      assert s == [s[0]] + s[1..];
      [s[0]] + Insert(specs, x, s[1..])
  }

  /** A row no greater than every row of a sorted sequence can go in front of it. */
  lemma ConsSorted(specs: seq<OrderSpecifier>, y: Member, t: seq<Member>)
    requires Sorted(specs, t)
    requires forall k :: 0 <= k < |t| ==> Le(specs, y, t[k])
    ensures Sorted(specs, [y] + t)
  {
    var r := [y] + t;
    forall i, j | 0 <= i < j < |r|
      ensures Le(specs, r[i], r[j])
    {
      if i > 0 { assert r[i] == t[i - 1] && r[j] == t[j - 1]; }
    }
  }

  lemma TailSorted(specs: seq<OrderSpecifier>, s: seq<Member>)
    requires s != [] && Sorted(specs, s)
    ensures Sorted(specs, s[1..])
  {
    var t := s[1..];
    forall i, j | 0 <= i < j < |t| ensures Le(specs, t[i], t[j]) {
      assert t[i] == s[i + 1] && t[j] == s[j + 1];
    }
  }

  lemma {:induction false} InsertSorted(specs: seq<OrderSpecifier>, x: Member, s: seq<Member>)
    requires Sorted(specs, s)
    ensures Sorted(specs, Insert(specs, x, s))
  {
    if s == [] {
    } else if Le(specs, x, s[0]) {
      forall j | 0 <= j < |s|
        ensures Le(specs, x, s[j])
      {
        if j > 0 { CompareByTrans(specs, x, s[0], s[j]); }
      }
      ConsSorted(specs, x, s);
    } else {
      CompareByTotal(specs, x, s[0]);
      var t := s[1..];
      TailSorted(specs, s);
      InsertSorted(specs, x, t);
      var it := Insert(specs, x, t);
      forall k | 0 <= k < |it|
        ensures Le(specs, s[0], it[k])
      {
        assert it[k] in multiset(it);
        if it[k] != x {
          assert it[k] in multiset(t);
          var j :| 0 <= j < |t| && t[j] == it[k];
          assert s[j + 1] == it[k];
        }
      }
      ConsSorted(specs, s[0], it);
    }
  }

  /** `orderBy(specs)`: a sorted permutation of the rows, built by insertion. */
  function OrderBy(specs: seq<OrderSpecifier>, rows: seq<Member>): (r: seq<Member>)
    ensures multiset(r) == multiset(rows)
    ensures |r| == |rows|
    ensures Sorted(specs, r)
  {
    if rows == [] then []
    else
      var rest := OrderBy(specs, rows[1..]);
      InsertSorted(specs, rows[0], rest);
      assert rows == [rows[0]] + rows[1..];
      Insert(specs, rows[0], rest)
  }
}
