/** The parts of SQL evaluation the repository queries rely on: `ORDER BY`
    over text and timestamp columns in either direction, and
    `LIMIT ... OFFSET ...`. Text is compared by code point, one fixed total
    order standing in for the database collation. Rows whose sort keys are
    all equal may come out in any order. */
module Sql {

  /** The value of one sort column of a row. */
  datatype Key = Text(s: string) | Time(t: int)

  datatype Direction = Asc | Desc

  /** One `ORDER BY` item: a column and its direction. */
  datatype Directive = Directive(field: string, dir: Direction)

  /** Lexicographic order on strings by code point. */
  predicate StrLt(a: string, b: string)
    decreases |a|
  {
    if |a| == 0 then |b| > 0
    else if |b| == 0 then false
    else if a[0] == b[0] then StrLt(a[1..], b[1..])
    else a[0] < b[0]
  }

  lemma {:induction false} StrLtIrreflexive(a: string)
    ensures !StrLt(a, a)
    decreases |a|
  {
    if |a| > 0 {
      StrLtIrreflexive(a[1..]);
    }
  }

  lemma {:induction false} StrLtTransitive(a: string, b: string, c: string)
    requires StrLt(a, b) && StrLt(b, c)
    ensures StrLt(a, c)
    decreases |a|
  {
    if |a| > 0 && a[0] == b[0] && b[0] == c[0] {
      StrLtTransitive(a[1..], b[1..], c[1..]);
    }
  }

  /** Two different strings are always ordered one way or the other. */
  lemma {:induction false} StrLtTotal(a: string, b: string)
    requires a != b
    ensures StrLt(a, b) || StrLt(b, a)
    decreases |a|
  {
    if |a| > 0 && |b| > 0 && a[0] == b[0] {
      assert a == [a[0]] + a[1..] && b == [b[0]] + b[1..];
      StrLtTotal(a[1..], b[1..]);
    }
  }

  /** Order on column values; text never meets a timestamp in one column,
      the clause between the two kinds only makes the order total. */
  predicate KeyLt(x: Key, y: Key)
  {
    match (x, y)
    case (Text(a), Text(b)) => StrLt(a, b)
    case (Time(a), Time(b)) => a < b
    case (Text(_), Time(_)) => true
    case (Time(_), Text(_)) => false
  }

  lemma KeyLtStrictTotalOrder(x: Key, y: Key, z: Key)
    ensures !KeyLt(x, x)
    ensures KeyLt(x, y) && KeyLt(y, z) ==> KeyLt(x, z)
    ensures x != y ==> KeyLt(x, y) || KeyLt(y, x)
  {
    if x.Text? {
      StrLtIrreflexive(x.s);
      if y.Text? {
        if x != y { StrLtTotal(x.s, y.s); }
        if z.Text? && KeyLt(x, y) && KeyLt(y, z) { StrLtTransitive(x.s, y.s, z.s); }
      }
    }
  }

  predicate DirLt(x: Key, y: Key, dir: Direction)
  {
    if dir == Asc then KeyLt(x, y) else KeyLt(y, x)
  }

  /** Row `a` comes strictly before row `b` under the `ORDER BY` directions
      `dirs`, where `a` and `b` list the rows' values of the sort columns:
      the first column on which they differ decides. */
  predicate RowLt(a: seq<Key>, b: seq<Key>, dirs: seq<Direction>)
    decreases |dirs|
  {
    if |dirs| == 0 || |a| == 0 || |b| == 0 then false
    else if a[0] == b[0] then RowLt(a[1..], b[1..], dirs[1..])
    else DirLt(a[0], b[0], dirs[0])
  }

  lemma {:induction false} RowLtIrreflexive(a: seq<Key>, dirs: seq<Direction>)
    ensures !RowLt(a, a, dirs)
    decreases |dirs|
  {
    if |dirs| > 0 && |a| > 0 {
      RowLtIrreflexive(a[1..], dirs[1..]);
    }
  }

  lemma {:induction false} RowLtTransitive(a: seq<Key>, b: seq<Key>, c: seq<Key>, dirs: seq<Direction>)
    requires RowLt(a, b, dirs) && RowLt(b, c, dirs)
    ensures RowLt(a, c, dirs)
    decreases |dirs|
  {
    if a[0] == b[0] && b[0] == c[0] {
      RowLtTransitive(a[1..], b[1..], c[1..], dirs[1..]);
    } else if a[0] != b[0] && b[0] != c[0] {
      KeyLtStrictTotalOrder(a[0], b[0], c[0]);
      KeyLtStrictTotalOrder(c[0], b[0], a[0]);
      KeyLtStrictTotalOrder(a[0], c[0], b[0]);
    }
  }

  /** No row is followed by a row that sorts strictly before it. */
  ghost predicate Sorted<T>(s: seq<T>, key: T -> seq<Key>, dirs: seq<Direction>)
  {
    forall i, j :: 0 <= i < j < |s| ==> !RowLt(key(s[j]), key(s[i]), dirs)
  }

  /** Puts `x` before the first element of `s` that sorts strictly after it. */
  function Insert<T>(x: T, s: seq<T>, key: T -> seq<Key>, dirs: seq<Direction>): (r: seq<T>)
    ensures multiset(r) == multiset(s) + multiset{x}
  {
    if |s| == 0 || RowLt(key(x), key(s[0]), dirs) then [x] + s
    else
      assert s == [s[0]] + s[1..];
      [s[0]] + Insert(x, s[1..], key, dirs)
  }

  /** Insertion sort: the rows of `s` in `ORDER BY` order. */
  function SortBy<T>(s: seq<T>, key: T -> seq<Key>, dirs: seq<Direction>): (r: seq<T>)
    ensures multiset(r) == multiset(s)
  {
    if |s| == 0 then []
    else
      assert s == [s[0]] + s[1..];
      Insert(s[0], SortBy(s[1..], key, dirs), key, dirs)
  }

  lemma {:induction false} InsertSorted<T>(x: T, s: seq<T>, key: T -> seq<Key>, dirs: seq<Direction>)
    requires Sorted(s, key, dirs)
    ensures Sorted(Insert(x, s, key, dirs), key, dirs)
    decreases |s|
  {
    var r := Insert(x, s, key, dirs);
    if |s| == 0 {
    } else if RowLt(key(x), key(s[0]), dirs) {
      forall i, j | 0 <= i < j < |r|
        ensures !RowLt(key(r[j]), key(r[i]), dirs)
      {
        if i == 0 && RowLt(key(r[j]), key(x), dirs) {
          RowLtTransitive(key(r[j]), key(x), key(s[0]), dirs);
          if j == 1 {
            RowLtIrreflexive(key(s[0]), dirs);
          }
        }
      }
    } else {
      var t := Insert(x, s[1..], key, dirs);
      InsertSorted(x, s[1..], key, dirs);
      assert r == [s[0]] + t;
      forall i, j | 0 <= i < j < |r|
        ensures !RowLt(key(r[j]), key(r[i]), dirs)
      {
        if i == 0 {
          var y := r[j];
          assert y in multiset(t);
          if y != x {
            assert y in multiset(s[1..]);
            var k :| 0 <= k < |s[1..]| && s[1..][k] == y;
            assert s[k + 1] == y;
          }
        }
      }
    }
  }

  /** `SortBy` puts its rows in `ORDER BY` order. */
  lemma {:induction false} SortBySorted<T>(s: seq<T>, key: T -> seq<Key>, dirs: seq<Direction>)
    ensures Sorted(SortBy(s, key, dirs), key, dirs)
    decreases |s|
  {
    if |s| > 0 {
      SortBySorted(s[1..], key, dirs);
      InsertSorted(s[0], SortBy(s[1..], key, dirs), key, dirs);
    }
  }

  function Min(a: int, b: int): int
  {
    if a <= b then a else b
  }

  function Max(a: int, b: int): int
  {
    if a >= b then a else b
  }

  /** `LIMIT limit OFFSET offset` over the ordered rows `all`: skips exactly
      `offset` rows and returns the next ones, at most `limit` of them. */
  function Window<T>(all: seq<T>, offset: int, limit: int): (w: seq<T>)
    requires offset >= 0 && limit >= 0
    ensures |w| == Min(limit, Max(0, |all| - offset))
    ensures forall i :: 0 <= i < |w| ==> w[i] == all[offset + i]
  {
    if offset >= |all| then []
    else if offset + limit >= |all| then all[offset..]
    else all[offset..offset + limit]
  }

  /** Consecutive pages of a listing add up to one larger page: paging
      through with any page sizes visits every row once, in order. */
  lemma WindowsConcatenate<T>(all: seq<T>, offset: int, a: int, b: int)
    requires offset >= 0 && a >= 0 && b >= 0
    ensures Window(all, offset, a) + Window(all, offset + a, b) == Window(all, offset, a + b)
  {
    var left := Window(all, offset, a);
    var right := Window(all, offset + a, b);
    var whole := Window(all, offset, a + b);
    assert |left + right| == |whole|;
    forall i | 0 <= i < |whole| ensures (left + right)[i] == whole[i] {
      if i >= |left| {
        assert |left| == a;
      }
    }
  }

  /** Helper: the directions of a list of `ORDER BY` items, column by column,
      in the shape `Sorted` takes them. */
  function Directions(order: seq<Directive>): seq<Direction>
  {
    seq(|order|, i requires 0 <= i < |order| => order[i].dir)
  }

  /** Fetching the rows a `WHERE` clause selects, in whatever order the
      database yields them: every selected row exactly once. */
  method FetchAll<T>(rows: set<T>) returns (fetched: seq<T>)
    ensures multiset(fetched) == multiset(rows)
  {
    fetched := [];
    var pending := rows;
    while pending != {}
      invariant pending <= rows
      invariant multiset(fetched) + multiset(pending) == multiset(rows)
      decreases pending
    {
      var row :| row in pending;
      assert multiset(pending) == multiset(pending - {row}) + multiset{row};
      fetched := fetched + [row];
      pending := pending - {row};
    }
  }
}
