/** The document-store primitives the services rely on, stated over
    in-memory maps: `find(query).sort({ createdAt: -1 })`, `countDocuments`,
    the `$match`/`$group`/`$sum` aggregation, the `reduce` that folds its
    output into a dictionary, `find(...)?.count || 0` lookups, and
    skip/limit pagination. */
module Query {
  import opened Domain

  // ---------------------------------------------------------------------
  // Matching documents, in id order

  predicate Increasing(s: seq<Id>)
  {
    forall i, j :: 0 <= i < j < |s| ==> s[i] < s[j]
  }

  /** The ids below `n` whose document `d` in `m` satisfies `p(q, d)`, ascending.
      The filter is a query value `q` and a named matching function `p`. */
  function IdsWhere<Q, T>(m: map<Id, T>, q: Q, p: (Q, T) -> bool, n: nat): (r: seq<Id>)
    ensures Increasing(r)
    ensures forall i :: 0 <= i < |r| ==> r[i] < n
    ensures forall x :: x in r <==> x in m && x < n && p(q, m[x])
    decreases n
  {
    if n == 0 then []
    else
      var rest := IdsWhere(m, q, p, n - 1);
      if n - 1 in m && p(q, m[n - 1]) then rest + [n - 1] else rest
  }

  /** The ids listed in `s`. */
  function Elems(s: seq<Id>): set<Id>
  {
    set x | x in s
  }

  /** The ids of the documents of `m` that satisfy `p`. */
  function Matching<Q, T>(m: map<Id, T>, q: Q, p: (Q, T) -> bool): set<Id>
  {
    set x | x in m && p(q, m[x])
  }

  /** A strictly increasing sequence lists as many ids as its set holds. */
  lemma {:induction false} IncreasingCard(s: seq<Id>)
    requires Increasing(s)
    ensures |Elems(s)| == |s|
  {
    if s != [] {
      var t := s[..|s| - 1];
      var last := s[|s| - 1];
      assert s == t + [last];
      IncreasingInit(s);
      IncreasingCard(t);
      assert last !in Elems(t);
      assert Elems(s) == Elems(t) + {last};
    }
  }

  // ---------------------------------------------------------------------
  // Sorting by a creation timestamp, newest first

  predicate NewestFirst<T>(r: seq<Id>, m: map<Id, T>, key: T -> int)
  {
    && (forall i :: 0 <= i < |r| ==> r[i] in m)
    && (forall i, j :: 0 <= i < j < |r| ==> key(m[r[i]]) >= key(m[r[j]]))
  }

  lemma NewestFirstCons<T>(h: Id, t: seq<Id>, m: map<Id, T>, key: T -> int)
    requires h in m && NewestFirst(t, m, key)
    requires forall j :: 0 <= j < |t| ==> key(m[t[j]]) <= key(m[h])
    ensures NewestFirst([h] + t, m, key)
  {
    var r := [h] + t;
    forall i, j | 0 <= i < j < |r| ensures key(m[r[i]]) >= key(m[r[j]]) {
      assert r[j] == t[j - 1];
      if i > 0 {
        assert r[i] == t[i - 1];
      }
    }
  }

  lemma NewestFirstHead<T>(s: seq<Id>, m: map<Id, T>, key: T -> int, y: Id)
    requires NewestFirst(s, m, key) && s != [] && y in s[1..]
    ensures key(m[y]) <= key(m[s[0]])
  {
    var i :| 0 <= i < |s[1..]| && s[1..][i] == y;
    assert s[i + 1] == y;
  }

  /** No id is listed twice. */
  predicate Distinct(s: seq<Id>)
  {
    forall i, j :: 0 <= i < j < |s| ==> s[i] != s[j]
  }

  lemma DistinctCons(h: Id, t: seq<Id>)
    requires Distinct(t) && h !in t
    ensures Distinct([h] + t)
  {
    var r := [h] + t;
    forall i, j | 0 <= i < j < |r| ensures r[i] != r[j] {
      assert r[j] == t[j - 1];
      if i > 0 {
        assert r[i] == t[i - 1];
      }
    }
  }

  /** Whatever is inserted behind the head of a newest-first listing, if
      no newer than the head, stays no newer than it. */
  lemma InsertBelowHead<T>(x: Id, s: seq<Id>, m: map<Id, T>, key: T -> int, rest: seq<Id>)
    requires x in m && NewestFirst(s, m, key) && s != []
    requires key(m[x]) < key(m[s[0]])
    requires multiset(rest) == multiset(s[1..]) + multiset{x} && NewestFirst(rest, m, key)
    ensures forall j :: 0 <= j < |rest| ==> key(m[rest[j]]) <= key(m[s[0]])
  {
    forall j | 0 <= j < |rest| ensures key(m[rest[j]]) <= key(m[s[0]]) {
      assert rest[j] in multiset(rest);
      if rest[j] != x {
        assert rest[j] in multiset(s[1..]);
        NewestFirstHead(s, m, key, rest[j]);
      }
    }
  }

  function InsertNewest<T>(x: Id, s: seq<Id>, m: map<Id, T>, key: T -> int): (r: seq<Id>)
    requires x in m && NewestFirst(s, m, key)
    ensures multiset(r) == multiset(s) + multiset{x}
    ensures NewestFirst(r, m, key)
  {
    if s == [] then [x]
    else if key(m[x]) >= key(m[s[0]]) then
      NewestFirstCons(x, s, m, key);
      [x] + s
    else
      var rest := InsertNewest(x, s[1..], m, key);
      assert s == [s[0]] + s[1..];
      InsertBelowHead(x, s, m, key, rest);
      NewestFirstCons(s[0], rest, m, key);
      [s[0]] + rest
  }

  lemma {:induction false} InsertNewestDistinct<T>(x: Id, s: seq<Id>, m: map<Id, T>, key: T -> int)
    requires x in m && NewestFirst(s, m, key)
    requires Distinct(s) && x !in s
    ensures Distinct(InsertNewest(x, s, m, key))
  {
    if s == [] {
    } else if key(m[x]) >= key(m[s[0]]) {
      DistinctCons(x, s);
    } else {
      assert s == [s[0]] + s[1..];
      InsertNewestDistinct(x, s[1..], m, key);
      var rest := InsertNewest(x, s[1..], m, key);
      assert s[0] !in multiset(rest) by {
        assert multiset(rest) == multiset(s[1..]) + multiset{x};
        assert s[0] !in s[1..] by {
          forall j | 1 <= j < |s| ensures s[j] != s[0] {
            assert s[j] == s[1..][j - 1];
          }
        }
      }
      DistinctCons(s[0], rest);
    }
  }

  function SortNewest<T>(s: seq<Id>, m: map<Id, T>, key: T -> int): (r: seq<Id>)
    requires forall i :: 0 <= i < |s| ==> s[i] in m
    ensures multiset(r) == multiset(s)
    ensures NewestFirst(r, m, key)
  {
    if s == [] then []
    else
      assert s == [s[0]] + s[1..];
      InsertNewest(s[0], SortNewest(s[1..], m, key), m, key)
  }

  lemma {:induction false} SortNewestDistinct<T>(s: seq<Id>, m: map<Id, T>, key: T -> int)
    requires forall i :: 0 <= i < |s| ==> s[i] in m
    requires Distinct(s)
    ensures Distinct(SortNewest(s, m, key))
  {
    if s != [] {
      assert s == [s[0]] + s[1..];
      SortNewestDistinct(s[1..], m, key);
      var sorted := SortNewest(s[1..], m, key);
      assert s[0] !in multiset(sorted) by {
        assert s[0] !in s[1..] by {
          forall j | 1 <= j < |s| ensures s[j] != s[0] {
            assert s[j] == s[1..][j - 1];
          }
        }
      }
      InsertNewestDistinct(s[0], sorted, m, key);
    }
  }

  /** `find(p).sort(key: -1)`: every matching document exactly once,
      newest first. */
  function Find<Q, T>(m: map<Id, T>, q: Q, p: (Q, T) -> bool, n: nat, key: T -> int): (r: seq<Id>)
    requires forall k :: k in m ==> k < n
    ensures forall x :: x in r <==> x in m && p(q, m[x])
    ensures Distinct(r) && |r| == |Matching(m, q, p)|
    ensures NewestFirst(r, m, key)
  {
    var ids := IdsWhere(m, q, p, n);
    var r := SortNewest(ids, m, key);
    SortNewestDistinct(ids, m, key);
    assert forall x :: x in r <==> x in ids by {
      forall x ensures x in r <==> x in ids {
        assert x in r <==> x in multiset(r);
        assert x in ids <==> x in multiset(ids);
      }
    }
    IncreasingCard(ids);
    assert Elems(ids) == Matching(m, q, p);
    r
  }

  // ---------------------------------------------------------------------
  // Aggregation: $group by a field with a count

  /** One element of an aggregation result: `{ _id: key, count }`. */
  datatype Bucket = Bucket(key: string, count: nat)

  predicate DistinctKeys(g: seq<Bucket>)
  {
    forall i, j :: 0 <= i < j < |g| ==> g[i].key != g[j].key
  }

  predicate Positive(g: seq<Bucket>)
  {
    forall i :: 0 <= i < |g| ==> g[i].count > 0
  }

  function KeysOf(g: seq<Bucket>): (ks: set<string>)
    ensures forall i :: 0 <= i < |g| ==> g[i].key in ks
    ensures forall k :: k in ks ==> exists i :: 0 <= i < |g| && g[i].key == k
  {
    if g == [] then {} else {g[0].key} + KeysOf(g[1..])
  }

  /** `g.find(s => s._id === k)?.count || 0` */
  function CountOf(g: seq<Bucket>, k: string): (c: nat)
    ensures k !in KeysOf(g) ==> c == 0
    ensures Positive(g) && k in KeysOf(g) ==> c > 0
  {
    if g == [] then 0 else if g[0].key == k then g[0].count else CountOf(g[1..], k)
  }

  /** The lookup finds the first bucket with that key. */
  lemma {:induction false} CountOfFirst(g: seq<Bucket>, k: string, i: nat)
    requires i < |g| && g[i].key == k
    requires forall j :: 0 <= j < i ==> g[j].key != k
    ensures CountOf(g, k) == g[i].count
  {
    if i > 0 {
      CountOfFirst(g[1..], k, i - 1);
    }
  }

  /** The sum of the counts of an aggregation result. */
  function Total(g: seq<Bucket>): nat
  {
    if g == [] then 0 else g[0].count + Total(g[1..])
  }

  lemma DistinctKeysCons(b: Bucket, g: seq<Bucket>)
    ensures DistinctKeys([b] + g) <==> DistinctKeys(g) && b.key !in KeysOf(g)
  {
    var r := [b] + g;
    assert r[1..] == g;
    if DistinctKeys(g) && b.key !in KeysOf(g) {
      forall i, j | 0 <= i < j < |r| ensures r[i].key != r[j].key {
        assert r[j] == g[j - 1];
        if i > 0 {
          assert r[i] == g[i - 1];
        }
      }
    }
    if DistinctKeys(r) {
      forall i, j | 0 <= i < j < |g| ensures g[i].key != g[j].key {
        assert g[i] == r[i + 1] && g[j] == r[j + 1];
      }
      forall i | 0 <= i < |g| ensures g[i].key != b.key {
        assert r[0] == b && g[i] == r[i + 1];
      }
    }
  }

  /** The facts about a bucket list that `AddOne` maintains. */
  lemma ConsFacts(b: Bucket, g: seq<Bucket>)
    ensures KeysOf([b] + g) == {b.key} + KeysOf(g)
    ensures Total([b] + g) == b.count + Total(g)
    ensures Positive([b] + g) <==> b.count > 0 && Positive(g)
  {
    assert ([b] + g)[1..] == g;
    assert forall i :: 0 < i < |[b] + g| ==> ([b] + g)[i] == g[i - 1];
  }

  /** The first step of `AddOne` when the head bucket has key `k`. */
  lemma AddOneHere(g: seq<Bucket>, k: string)
    requires DistinctKeys(g) && g != [] && g[0].key == k
    ensures var r := [g[0].(count := g[0].count + 1)] + g[1..];
            && DistinctKeys(r)
            && (Positive(g) ==> Positive(r))
            && KeysOf(r) == KeysOf(g) + {k}
            && Total(r) == Total(g) + 1
  {
    assert g == [g[0]] + g[1..];
    var b := g[0].(count := g[0].count + 1);
    DistinctKeysCons(g[0], g[1..]);
    DistinctKeysCons(b, g[1..]);
    ConsFacts(g[0], g[1..]);
    ConsFacts(b, g[1..]);
  }

  /** The step of `AddOne` that keeps the head bucket and adds `k` further on. */
  lemma AddOneLater(g: seq<Bucket>, k: string, rest: seq<Bucket>)
    requires DistinctKeys(g) && g != [] && g[0].key != k
    requires DistinctKeys(rest) && KeysOf(rest) == KeysOf(g[1..]) + {k}
    requires Total(rest) == Total(g[1..]) + 1
    requires Positive(g[1..]) ==> Positive(rest)
    ensures var r := [g[0]] + rest;
            && DistinctKeys(r)
            && (Positive(g) ==> Positive(r))
            && KeysOf(r) == KeysOf(g) + {k}
            && Total(r) == Total(g) + 1
  {
    assert g == [g[0]] + g[1..];
    DistinctKeysCons(g[0], g[1..]);
    DistinctKeysCons(g[0], rest);
    ConsFacts(g[0], g[1..]);
    ConsFacts(g[0], rest);
  }

  /** Counts one more document whose grouped field is `k`. */
  function AddOne(g: seq<Bucket>, k: string): (r: seq<Bucket>)
    requires DistinctKeys(g)
    ensures DistinctKeys(r)
    ensures Positive(g) ==> Positive(r)
    ensures KeysOf(r) == KeysOf(g) + {k}
    ensures Total(r) == Total(g) + 1
    decreases |g|
  {
    if g == [] then
      ConsFacts(Bucket(k, 1), []);
      assert [Bucket(k, 1)] == [Bucket(k, 1)] + [];
      [Bucket(k, 1)]
    else if g[0].key == k then
      AddOneHere(g, k);
      [g[0].(count := g[0].count + 1)] + g[1..]
    else
      assert g == [g[0]] + g[1..];
      DistinctKeysCons(g[0], g[1..]);
      var rest := AddOne(g[1..], k);
      AddOneLater(g, k, rest);
      [g[0]] + rest
  }

  /** Adding one `k` raises the count of `k` by one and no other count. */
  lemma {:induction false} AddOneCount(g: seq<Bucket>, k: string, k': string)
    requires DistinctKeys(g)
    ensures CountOf(AddOne(g, k), k') == CountOf(g, k') + (if k' == k then 1 else 0)
  {
    if g != [] {
      assert g == [g[0]] + g[1..];
      DistinctKeysCons(g[0], g[1..]);
      if g[0].key != k {
        AddOneCount(g[1..], k, k');
        assert ([g[0]] + AddOne(g[1..], k))[1..] == AddOne(g[1..], k);
      } else {
        assert ([g[0].(count := g[0].count + 1)] + g[1..])[1..] == g[1..];
      }
    }
  }

  /** The grouping of a list of field values: one bucket per distinct value,
      counting its occurrences. */
  function Group(s: seq<string>): (g: seq<Bucket>)
    ensures DistinctKeys(g) && Positive(g)
    ensures KeysOf(g) == set x | x in s
    ensures forall k :: CountOf(g, k) == multiset(s)[k]
    ensures Total(g) == |s|
  {
    if s == [] then []
    else
      var init := s[..|s| - 1];
      assert s == init + [s[|s| - 1]];
      var g := AddOne(Group(init), s[|s| - 1]);
      forall k ensures CountOf(g, k) == multiset(s)[k] {
        AddOneCount(Group(init), s[|s| - 1], k);
      }
      g
  }

  /** The grouped field of each listed document, in list order. */
  function Project<T>(ids: seq<Id>, m: map<Id, T>, f: T -> string): (r: seq<string>)
    requires forall i :: 0 <= i < |ids| ==> ids[i] in m
    ensures |r| == |ids|
    ensures forall i :: 0 <= i < |ids| ==> r[i] == f(m[ids[i]])
  {
    if ids == [] then [] else Project(ids[..|ids| - 1], m, f) + [f(m[ids[|ids| - 1]])]
  }

  /** The listed ids whose document has field value `k`. */
  function ElemsWith<T>(ids: seq<Id>, m: map<Id, T>, f: T -> string, k: string): set<Id>
  {
    set x | x in ids && x in m && f(m[x]) == k
  }

  /** The ids of the documents that satisfy `p` and have field value `k`. */
  function MatchingWith<Q, T>(m: map<Id, T>, q: Q, p: (Q, T) -> bool, f: T -> string, k: string): set<Id>
  {
    set x | x in m && p(q, m[x]) && f(m[x]) == k
  }

  /** Dropping the last id of an increasing list leaves an increasing list
      of smaller ids. */
  lemma IncreasingInit(s: seq<Id>)
    requires Increasing(s) && s != []
    ensures Increasing(s[..|s| - 1])
    ensures s[|s| - 1] !in s[..|s| - 1]
  {
    var t := s[..|s| - 1];
    forall i | 0 <= i < |t| ensures t[i] < s[|s| - 1] {
      assert t[i] == s[i];
    }
  }

  lemma ElemsWithSnoc<T>(t: seq<Id>, last: Id, m: map<Id, T>, f: T -> string, k: string)
    requires last !in t
    ensures last !in ElemsWith(t, m, f, k)
    ensures ElemsWith(t + [last], m, f, k) ==
            ElemsWith(t, m, f, k) + (if last in m && f(m[last]) == k then {last} else {})
  {
  }

  lemma {:induction false} ProjectCount<T>(ids: seq<Id>, m: map<Id, T>, f: T -> string, k: string)
    requires Increasing(ids)
    requires forall i :: 0 <= i < |ids| ==> ids[i] in m
    ensures multiset(Project(ids, m, f))[k] == |ElemsWith(ids, m, f, k)|
  {
    if ids != [] {
      var t := ids[..|ids| - 1];
      var last := ids[|ids| - 1];
      assert ids == t + [last];
      IncreasingInit(ids);
      ProjectCount(t, m, f, k);
      ElemsWithSnoc(t, last, m, f, k);
      assert Project(ids, m, f) == Project(t, m, f) + [f(m[last])];
    }
  }

  /** `aggregate([{ $match: p }, { $group: { _id: f, count: { $sum: 1 } } }])` */
  function GroupBy<Q, T>(m: map<Id, T>, q: Q, p: (Q, T) -> bool, n: nat, f: T -> string): (g: seq<Bucket>)
    requires forall k :: k in m ==> k < n
    ensures DistinctKeys(g) && Positive(g)
  {
    Group(Project(IdsWhere(m, q, p, n), m, f))
  }

  /** Each bucket of `GroupBy` counts the matching documents whose field
      has that value; a value with no such document has no bucket; the
      counts add up to the number of matching documents. */
  lemma GroupByCounts<Q, T>(m: map<Id, T>, q: Q, p: (Q, T) -> bool, n: nat, f: T -> string, k: string)
    requires forall k :: k in m ==> k < n
    ensures CountOf(GroupBy(m, q, p, n, f), k) == |MatchingWith(m, q, p, f, k)|
    ensures k in KeysOf(GroupBy(m, q, p, n, f)) <==> MatchingWith(m, q, p, f, k) != {}
    ensures Total(GroupBy(m, q, p, n, f)) == |Matching(m, q, p)|
  {
    var ids := IdsWhere(m, q, p, n);
    var s := Project(ids, m, f);
    ProjectCount(ids, m, f, k);
    assert ElemsWith(ids, m, f, k) == MatchingWith(m, q, p, f, k);
    IncreasingCard(ids);
    assert Elems(ids) == Matching(m, q, p);
    if MatchingWith(m, q, p, f, k) != {} {
      var x :| x in MatchingWith(m, q, p, f, k);
      var i :| 0 <= i < |ids| && ids[i] == x;
      assert s[i] == k;
    }
  }

  /** `g.reduce((acc, item) => { acc[item._id] = item.count; return acc }, acc)` */
  function ReduceFrom(acc: map<string, nat>, g: seq<Bucket>): (r: map<string, nat>)
    ensures r.Keys == acc.Keys + KeysOf(g)
    ensures DistinctKeys(g) ==> forall k :: k in KeysOf(g) ==> r[k] == CountOf(g, k)
    ensures forall k :: k in acc && k !in KeysOf(g) ==> r[k] == acc[k]
    decreases |g|
  {
    if g == [] then acc
    else
      var r := ReduceFrom(acc[g[0].key := g[0].count], g[1..]);
      r
  }

  /** The sum of the values of a dictionary. */
  ghost function MapSum(m: map<string, nat>): nat
    decreases |m|
  {
    if m == map[] then 0
    else
      var k :| k in m;
      assert |m - {k}| < |m| by {
        assert (m - {k}).Keys == m.Keys - {k};
      }
      m[k] + MapSum(m - {k})
  }

  /** `MapSum` does not depend on which key it takes first. */
  lemma MapSumRemove(m: map<string, nat>, k: string)
    requires k in m
    ensures MapSum(m) == m[k] + MapSum(m - {k})
    decreases |m|
  {
    var j :| j in m && MapSum(m) == m[j] + MapSum(m - {j});
    if j != k {
      assert (m - {j}).Keys == m.Keys - {j};
      assert (m - {k}).Keys == m.Keys - {k};
      MapSumRemove(m - {j}, k);
      MapSumRemove(m - {k}, j);
      assert m - {j} - {k} == m - {k} - {j};
    }
  }

  lemma {:induction false} ReduceSumFrom(acc: map<string, nat>, g: seq<Bucket>)
    requires DistinctKeys(g) && acc.Keys !! KeysOf(g)
    ensures MapSum(ReduceFrom(acc, g)) == MapSum(acc) + Total(g)
    decreases |g|
  {
    if g != [] {
      var b := g[0];
      assert g == [b] + g[1..];
      DistinctKeysCons(b, g[1..]);
      var acc' := acc[b.key := b.count];
      MapSumRemove(acc', b.key);
      assert acc' - {b.key} == acc;
      ReduceSumFrom(acc', g[1..]);
    }
  }

  /** Folding an aggregation result into a dictionary keeps its total. */
  lemma ReduceSum(g: seq<Bucket>)
    requires DistinctKeys(g)
    ensures MapSum(ReduceFrom(map[], g)) == Total(g)
  {
    ReduceSumFrom(map[], g);
  }

  // ---------------------------------------------------------------------
  // Pagination: .skip((page - 1) * limit).limit(limit), Math.ceil(total / limit)

  function Min(a: int, b: int): int { if a <= b then a else b }

  /** `(page - 1) * limit`: the entries before the `page`-th page. */
  function Skip(page: nat, limit: nat): nat
  {
    if page == 0 then 0 else (page - 1) * limit
  }

  /** The `page`-th window of `limit` entries of `s` (pages count from 1). */
  function Page<X>(s: seq<X>, page: nat, limit: nat): (r: seq<X>)
    requires page >= 1 && limit >= 1
    ensures |r| <= limit
    ensures |r| == if Skip(page, limit) >= |s| then 0 else Min(limit, |s| - Skip(page, limit))
    ensures forall i :: 0 <= i < |r| ==> r[i] == s[Skip(page, limit) + i]
  {
    var skip := Skip(page, limit);
    if skip >= |s| then [] else s[skip..Min(skip + limit, |s|)]
  }

  /** `Math.ceil(total / limit)`: the least number of pages holding `total`. */
  function PageCount(total: nat, limit: nat): (pages: nat)
    requires limit >= 1
    ensures total <= pages * limit
    ensures pages > 0 ==> (pages - 1) * limit < total
  {
    var q := (total + limit - 1) / limit;
    assert q * limit <= total + limit - 1 < q * limit + limit;
    q
  }

  /** Pages 1 to k, one after the other. */
  function Pages<X>(s: seq<X>, limit: nat, k: nat): seq<X>
    requires limit >= 1
  {
    if k == 0 then [] else Pages(s, limit, k - 1) + Page(s, k, limit)
  }

  lemma {:induction false} PagesPrefix<X>(s: seq<X>, limit: nat, k: nat)
    requires limit >= 1
    ensures Pages(s, limit, k) == s[..Min(k * limit, |s|)]
  {
    if k > 0 {
      PagesPrefix(s, limit, k - 1);
      assert Skip(k, limit) == (k - 1) * limit;
      assert k * limit == Skip(k, limit) + limit;
    }
  }

  /** Reading pages 1 to `PageCount(|s|, limit)` in turn yields every entry
      of `s` once, in order: no entry is skipped or repeated. */
  lemma PagesCoverAll<X>(s: seq<X>, limit: nat)
    requires limit >= 1
    ensures Pages(s, limit, PageCount(|s|, limit)) == s
  {
    PagesPrefix(s, limit, PageCount(|s|, limit));
  }

  datatype Pagination = Pagination(page: nat, limit: nat, total: nat, pages: nat)

  datatype Paged = Paged(data: seq<Id>, pagination: Pagination)

  /** What a paginated response over the full listing `all` promises: its
      page and limit echo the request, `total` counts every entry, `pages`
      is the least page count holding them, and the data is the whole
      requested window, in listing order: as many entries as remain after
      the skipped ones, up to `limit`. */
  predicate PageOf(r: Paged, all: seq<Id>, page: nat, limit: nat)
  {
    && r.pagination.page == page && r.pagination.limit == limit
    && r.pagination.total == |all|
    && r.pagination.total <= r.pagination.pages * limit
    && (r.pagination.pages > 0 ==> (r.pagination.pages - 1) * limit < r.pagination.total)
    && |r.data| <= limit
    && |r.data| == (if Skip(page, limit) >= |all| then 0 else Min(limit, |all| - Skip(page, limit)))
    && (forall i :: 0 <= i < |r.data| ==> Skip(page, limit) + i < |all| && r.data[i] == all[Skip(page, limit) + i])
  }

  /** The response of a paginated admin listing over the full sorted
      listing `all`. */
  function Paginate(all: seq<Id>, page: nat, limit: nat): (r: Paged)
    requires page >= 1 && limit >= 1
    ensures PageOf(r, all, page, limit)
  {
    Paged(Page(all, page, limit), Pagination(page, limit, |all|, PageCount(|all|, limit)))
  }
}
