/**
  Counting by key. `Tally` is both Python's `Counter` over a list, whose items come in order of first occurrence, and
  SQL's GROUP BY with count(*). `SortBy` is ORDER BY.
 */
module Grouping {

  type Group<K> = (K, nat)

  function Tally<K(==)>(keys: seq<K>): seq<Group<K>> {
    if keys == [] then [] else Bump(Tally(keys[..|keys| - 1]), keys[|keys| - 1])
  }

  /** One more occurrence of `k`. */
  function Bump<K(==)>(groups: seq<Group<K>>, k: K): seq<Group<K>> {
    if groups == [] then [(k, 1)]
    else if groups[0].0 == k then [(k, groups[0].1 + 1)] + groups[1..]
    else [groups[0]] + Bump(groups[1..], k)
  }

  function Labels<K>(groups: seq<Group<K>>): set<K> {
    if groups == [] then {} else {groups[0].0} + Labels(groups[1..])
  }

  ghost predicate Distinct<K>(groups: seq<Group<K>>) {
    groups == [] || (groups[0].0 !in Labels(groups[1..]) && Distinct(groups[1..]))
  }

  /** The count all groups labelled `k` hold together. */
  function CountOf<K(==)>(groups: seq<Group<K>>, k: K): nat {
    if groups == [] then 0 else (if groups[0].0 == k then groups[0].1 else 0) + CountOf(groups[1..], k)
  }

  function Sum<K>(groups: seq<Group<K>>): nat {
    if groups == [] then 0 else groups[0].1 + Sum(groups[1..])
  }

  lemma {:induction false} BumpGroups<K>(groups: seq<Group<K>>, k: K, j: K)
    requires Distinct(groups)
    ensures Distinct(Bump(groups, k))
    ensures Labels(Bump(groups, k)) == Labels(groups) + {k}
    ensures CountOf(Bump(groups, k), j) == CountOf(groups, j) + if j == k then 1 else 0
    ensures Sum(Bump(groups, k)) == Sum(groups) + 1
  {
    if groups != [] && groups[0].0 != k {
      BumpGroups(groups[1..], k, j);
      var bumped := Bump(groups[1..], k);
      assert ([groups[0]] + bumped)[1..] == bumped;
    } else if groups != [] {
      assert ([(k, groups[0].1 + 1)] + groups[1..])[1..] == groups[1..];
    }
  }

  /** The groups have distinct labels, count every occurrence exactly once and lose none. */
  lemma {:induction false} TallyCounts<K>(keys: seq<K>, k: K)
    ensures Distinct(Tally(keys))
    ensures CountOf(Tally(keys), k) == multiset(keys)[k]
    ensures k in Labels(Tally(keys)) <==> k in keys
    ensures Sum(Tally(keys)) == |keys|
  {
    hide Bump;
    if keys == [] {
    } else {
      var front, last := keys[..|keys| - 1], keys[|keys| - 1];
      assert keys == front + [last];
      TallyCounts(front, k);
      BumpGroups(Tally(front), last, k);
    }
  }

  lemma {:induction false} MemberCount<K>(groups: seq<Group<K>>, i: nat)
    requires i < |groups| && Distinct(groups)
    ensures groups[i].0 in Labels(groups)
    ensures CountOf(groups, groups[i].0) == groups[i].1
  {
    if i == 0 {
      AbsentCount(groups[1..], groups[0].0);
    } else {
      MemberCount(groups[1..], i - 1);
    }
  }

  lemma {:induction false} AbsentCount<K>(groups: seq<Group<K>>, k: K)
    requires k !in Labels(groups)
    ensures CountOf(groups, k) == 0
  {
    if groups == [] {
    } else {
      AbsentCount(groups[1..], k);
    }
  }

  lemma {:induction false} LabelIndex<K>(groups: seq<Group<K>>, k: K) returns (i: nat)
    requires k in Labels(groups)
    ensures i < |groups| && groups[i].0 == k
  {
    if groups[0].0 == k {
      i := 0;
    } else {
      i := LabelIndex(groups[1..], k);
      i := i + 1;
    }
  }

  lemma {:induction false} DistinctLabels<K>(groups: seq<Group<K>>, i: nat, j: nat)
    requires Distinct(groups) && i < j < |groups|
    ensures groups[i].0 != groups[j].0
  {
    if i == 0 {
      assert groups[1..][j - 1] == groups[j];
      MemberCount(groups[1..], j - 1);
    } else {
      DistinctLabels(groups[1..], i - 1, j - 1);
    }
  }

  // ---------------------------------------------------------------------------------------------------------------
  // ORDER BY and LIMIT
  // ---------------------------------------------------------------------------------------------------------------

  function Insert<K>(groups: seq<Group<K>>, g: Group<K>, before: (Group<K>, Group<K>) -> bool): seq<Group<K>> {
    if groups == [] then [g]
    else if before(groups[0], g) then [groups[0]] + Insert(groups[1..], g, before)
    else [g] + groups
  }

  function SortBy<K>(groups: seq<Group<K>>, before: (Group<K>, Group<K>) -> bool): seq<Group<K>> {
    if groups == [] then [] else Insert(SortBy(groups[1..], before), groups[0], before)
  }

  ghost predicate Sorted<K>(groups: seq<Group<K>>, before: (Group<K>, Group<K>) -> bool) {
    forall i, j :: 0 <= i < j < |groups| ==> before(groups[i], groups[j])
  }

  ghost predicate TotalPreorder<K(!new)>(before: (Group<K>, Group<K>) -> bool) {
    && (forall a, b :: before(a, b) || before(b, a))
    && (forall a, b, c :: before(a, b) && before(b, c) ==> before(a, c))
  }

  lemma {:induction false} InsertKeeps<K(!new)>(groups: seq<Group<K>>, g: Group<K>,
                                                before: (Group<K>, Group<K>) -> bool, k: K)
    ensures Labels(Insert(groups, g, before)) == Labels(groups) + {g.0}
    ensures Distinct(groups) && g.0 !in Labels(groups) ==> Distinct(Insert(groups, g, before))
    ensures CountOf(Insert(groups, g, before), k) == CountOf(groups, k) + if g.0 == k then g.1 else 0
    ensures Sum(Insert(groups, g, before)) == Sum(groups) + g.1
    ensures |Insert(groups, g, before)| == |groups| + 1
  {
    if groups == [] {
    } else {
      InsertKeeps(groups[1..], g, before, k);
      assert ([groups[0]] + Insert(groups[1..], g, before))[1..] == Insert(groups[1..], g, before);
      assert ([g] + groups)[1..] == groups;
    }
  }

  lemma {:induction false} InsertMembers<K(!new)>(groups: seq<Group<K>>, g: Group<K>,
                                                  before: (Group<K>, Group<K>) -> bool)
    ensures forall x :: x in Insert(groups, g, before) ==> x == g || x in groups
  {
    if groups == [] {
    } else {
      InsertMembers(groups[1..], g, before);
    }
  }

  lemma {:induction false} InsertSorts<K(!new)>(groups: seq<Group<K>>, g: Group<K>,
                                                before: (Group<K>, Group<K>) -> bool)
    requires Sorted(groups, before) && TotalPreorder(before)
    ensures Sorted(Insert(groups, g, before), before)
  {
    if groups != [] && before(groups[0], g) {
      var rest := Insert(groups[1..], g, before);
      InsertSorts(groups[1..], g, before);
      InsertMembers(groups[1..], g, before);
      forall j | 0 <= j < |rest| ensures before(groups[0], rest[j]) {
        assert rest[j] == g || rest[j] in groups[1..];
      }
    }
  }

  /** Sorting orders the groups and changes neither labels nor counts. */
  lemma {:induction false} SortKeeps<K(!new)>(groups: seq<Group<K>>, before: (Group<K>, Group<K>) -> bool, k: K)
    requires TotalPreorder(before)
    ensures Sorted(SortBy(groups, before), before)
    ensures Labels(SortBy(groups, before)) == Labels(groups)
    ensures Distinct(groups) ==> Distinct(SortBy(groups, before))
    ensures CountOf(SortBy(groups, before), k) == CountOf(groups, k)
    ensures Sum(SortBy(groups, before)) == Sum(groups)
    ensures |SortBy(groups, before)| == |groups|
  {
    if groups == [] {
    } else {
      SortKeeps(groups[1..], before, k);
      InsertKeeps(SortBy(groups[1..], before), groups[0], before, k);
      InsertSorts(SortBy(groups[1..], before), groups[0], before);
    }
  }

  /** ORDER BY count(*) DESC. */
  predicate MoreFrequent<K>(a: Group<K>, b: Group<K>) {
    a.1 >= b.1
  }

  function Top<K(==)>(keys: seq<K>, limit: nat): seq<Group<K>> {
    var sorted := SortBy(Tally(keys), (a, b) => MoreFrequent(a, b));
    if |sorted| <= limit then sorted else sorted[..limit]
  }

  lemma {:induction false} PrefixDistinct<K>(groups: seq<Group<K>>, n: nat)
    requires n <= |groups| && Distinct(groups)
    ensures Distinct(groups[..n]) && Labels(groups[..n]) <= Labels(groups) && Sum(groups[..n]) <= Sum(groups)
  {
    if n == 0 {
    } else {
      PrefixDistinct(groups[1..], n - 1);
      assert groups[..n][1..] == groups[1..][..n - 1];
    }
  }

  /** The kept groups are distinct, exact and in order, as many as the limit lets, and outrank every omitted one. */
  lemma {:induction false} TopRanks<K(!new)>(keys: seq<K>, limit: nat, i: nat, omitted: K)
    requires i < |Top(keys, limit)|
    requires omitted in keys && omitted !in Labels(Top(keys, limit))
    ensures Top(keys, limit)[i].1 >= multiset(keys)[omitted]
    ensures |Top(keys, limit)| == limit
  {
    var before := (a: Group<K>, b: Group<K>) => MoreFrequent(a, b);
    var sorted := SortBy(Tally(keys), before);
    TallyCounts(keys, omitted);
    SortKeeps(Tally(keys), before, omitted);
    var j := LabelIndex(sorted, omitted);
    MemberCount(sorted, j);
    TopShape(keys, limit);
    if j < |Top(keys, limit)| {
      MemberCount(Top(keys, limit), j);
      assert false;
    }
    assert before(sorted[i], sorted[j]);
  }

  lemma {:induction false} TopShape<K(!new)>(keys: seq<K>, limit: nat)
    ensures |Top(keys, limit)| <= limit
    ensures Distinct(Top(keys, limit))
    ensures Sum(Top(keys, limit)) <= |keys|
    ensures forall i :: 0 <= i < |Top(keys, limit)| ==>
              Top(keys, limit)[i].0 in keys && Top(keys, limit)[i].1 == multiset(keys)[Top(keys, limit)[i].0]
    ensures forall i, j :: 0 <= i < j < |Top(keys, limit)| ==> Top(keys, limit)[i].1 >= Top(keys, limit)[j].1
  {
    var before := (a: Group<K>, b: Group<K>) => MoreFrequent(a, b);
    var sorted := SortBy(Tally(keys), before);
    var top := Top(keys, limit);
    if keys == [] {
      assert top == [];
    } else {
      TallyCounts(keys, keys[0]);
      SortKeeps(Tally(keys), before, keys[0]);
      PrefixDistinct(sorted, |top|);
      assert sorted[..|sorted|] == sorted;
      forall i | 0 <= i < |top| ensures top[i].0 in keys && top[i].1 == multiset(keys)[top[i].0] {
        MemberCount(sorted, i);
        TallyCounts(keys, top[i].0);
        SortKeeps(Tally(keys), before, top[i].0);
      }
      forall i, j | 0 <= i < j < |top| ensures top[i].1 >= top[j].1 {
        assert before(sorted[i], sorted[j]);
      }
    }
  }
}
