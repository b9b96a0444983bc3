/** ORDER BY: the rows of a query result, least key first. SQLite leaves the order of equal keys open. */
module Query {
  import opened Prelude

  /** le compares any two values, and consistently. */
  ghost predicate IsOrder<V(!new)>(le: (V, V) -> bool) {
    (forall a, b :: le(a, b) || le(b, a)) && (forall a, b, c | le(a, b) && le(b, c) :: le(a, c))
  }

  ghost predicate ListsInOrder<K, V(!new)>(ids: seq<K>, keys: map<K, V>, le: (V, V) -> bool) {
    && (forall i | 0 <= i < |ids| :: ids[i] in keys)
    && (forall id | id in keys :: id in ids)
    && (forall i, j | 0 <= i < j < |ids| :: ids[i] != ids[j] && le(keys[ids[i]], keys[ids[j]]))
  }

  ghost predicate IsMinimal<K, V(!new)>(keys: map<K, V>, rest: set<K>, le: (V, V) -> bool, k: K)
    requires rest <= keys.Keys
  {
    k in rest && forall j | j in rest :: le(keys[k], keys[j])
  }

  /** The least key comes first, then the next, until none is left. */
  method OrderBy<K(==), V(!new)>(keys: map<K, V>, le: (V, V) -> bool) returns (ids: seq<K>)
    requires IsOrder(le)
    ensures ListsInOrder(ids, keys, le) && |ids| == |keys|
  {
    ids := [];
    var rest := keys.Keys;
    while rest != {}
      invariant rest <= keys.Keys && |ids| + |rest| == |keys.Keys|
      invariant forall id :: id in ids <==> id in keys.Keys - rest
      invariant forall i | 0 <= i < |ids| :: ids[i] in keys.Keys - rest
      invariant forall i, j | 0 <= i < j < |ids| :: ids[i] != ids[j] && le(keys[ids[i]], keys[ids[j]])
      invariant forall i, j | 0 <= i < |ids| && j in rest :: le(keys[ids[i]], keys[j])
      decreases rest
    {
      SomeMember(rest);
      var k := PickMinimal(keys, rest, le);
      ids := ids + [k];
      rest := rest - {k};
    }
  }

  method PickMinimal<K(==), V(!new)>(keys: map<K, V>, rest: set<K>, le: (V, V) -> bool) returns (k: K)
    requires IsOrder(le) && rest <= keys.Keys && exists k :: k in rest
    ensures IsMinimal(keys, rest, le, k)
  {
    k :| k in rest;
    var left := rest - {k};
    while left != {}
      invariant left <= rest && k in rest
      invariant forall j | j in rest - left :: le(keys[k], keys[j])
      decreases left
    {
      SomeMember(left);
      var j :| j in left;
      if !le(keys[k], keys[j]) {
        k := j;
      }
      left := left - {j};
    }
  }

  /** Numbers, least first. */
  predicate AtMostNumber(a: int, b: int) {
    a <= b
  }

  lemma NumbersAreOrdered()
    ensures IsOrder(AtMostNumber)
  {
  }

  /** The row loop of a query: each row is scanned and appended. */
  method Fetch<K(==), T>(ids: seq<K>, table: map<K, T>) returns (rows: seq<T>)
    requires forall i | 0 <= i < |ids| :: ids[i] in table
    ensures |rows| == |ids| && forall i | 0 <= i < |rows| :: rows[i] == table[ids[i]]
  {
    rows := [];
    for i := 0 to |ids|
      invariant |rows| == i && forall j | 0 <= j < i :: rows[j] == table[ids[j]]
    {
      rows := rows + [table[ids[i]]];
    }
  }

  /** Every row that was asked for is listed. */
  lemma KeyIsListed<K, V(!new)>(ids: seq<K>, keys: map<K, V>, le: (V, V) -> bool, id: K)
    requires ListsInOrder(ids, keys, le) && id in keys
    ensures exists i :: 0 <= i < |ids| && ids[i] == id
  {
  }

  function Selected<K, T>(table: map<K, T>, cond: T -> bool): set<K> {
    set k | k in table && cond(table[k])
  }

  /** SUM(CASE WHEN cond THEN 1 ELSE 0 END) */
  method CountWhere<K(==), T>(table: map<K, T>, cond: T -> bool) returns (n: nat)
    ensures n == |Selected(table, cond)|
  {
    n := 0;
    var rest := table.Keys;
    ghost var counted: set<K> := {};
    while rest != {}
      invariant rest <= table.Keys && counted == (set k | k in table.Keys - rest && cond(table[k])) && n == |counted|
      decreases rest
    {
      SomeMember(rest);
      var k :| k in rest;
      if cond(table[k]) {
        n := n + 1;
        counted := counted + {k};
      }
      rest := rest - {k};
    }
    assert counted == Selected(table, cond);
  }
}
