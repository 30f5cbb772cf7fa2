/** The two index columns, as functions of the column of order keys.

    PrimaryKeyIndex is the running count of "this row's key differs from the
    previous row's" (the first row always counts, since it has no previous
    row), so the first row gets 1. ItemIndex is one more than the number of
    earlier rows, anywhere in the table, that carry the same key. */
module Indexing {
  import opened Tables

  /** Row `i` starts a new run of keys. */
  predicate StartsRun(keys: seq<string>, i: nat)
    requires i < |keys|
  {
    i == 0 || keys[i] != keys[i - 1]
  }

  /** The cumulative count of run starts up to and including row `i`. */
  function RunIndex(keys: seq<string>, i: nat): nat
    requires i < |keys|
  {
    (if i == 0 then 0 else RunIndex(keys, i - 1)) + (if StartsRun(keys, i) then 1 else 0)
  }

  /** One more than the number of earlier rows with the same key. */
  function ItemIndex(keys: seq<string>, i: nat): nat
    requires i < |keys|
  {
    1 + multiset(keys[..i])[keys[i]]
  }

  /** Every key occupies one contiguous run of rows. */
  ghost predicate Grouped(keys: seq<string>) {
    forall i, m, j :: 0 <= i < m < j < |keys| && keys[i] == keys[j] ==> keys[m] == keys[i]
  }

  /** The distinct keys of a sequence. */
  function Distinct(s: seq<string>): set<string> {
    set k | k in s
  }

  /** A prefix one longer is the prefix followed by the next element. */
  lemma PrefixGrows<T>(s: seq<T>, n: nat)
    requires n < |s|
    ensures s[..n + 1] == s[..n] + [s[n]]
    ensures s[..n + 1][..n] == s[..n]
    ensures forall x :: x in s[..n + 1] <==> x in s[..n] || x == s[n]
  {
  }

  lemma RunIndexFirst(keys: seq<string>)
    requires |keys| > 0
    ensures RunIndex(keys, 0) == 1
  {
  }

  /** Between adjacent rows the index stays when the key stays and goes up
      by exactly one when the key changes. */
  lemma RunIndexAdjacent(keys: seq<string>, i: nat)
    requires 0 < i < |keys|
    ensures keys[i] == keys[i - 1] ==> RunIndex(keys, i) == RunIndex(keys, i - 1)
    ensures keys[i] != keys[i - 1] ==> RunIndex(keys, i) == RunIndex(keys, i - 1) + 1
  {
  }

  lemma {:induction false} RunIndexMonotone(keys: seq<string>, i: nat, j: nat)
    requires i <= j < |keys|
    ensures RunIndex(keys, i) <= RunIndex(keys, j)
    decreases j
  {
    if i < j {
      RunIndexMonotone(keys, i, j - 1);
    }
  }

  /** Two rows share an index exactly when no run starts between them. */
  lemma {:induction false} RunIndexSameRun(keys: seq<string>, i: nat, j: nat)
    requires i <= j < |keys|
    ensures RunIndex(keys, i) == RunIndex(keys, j) <==> forall m :: i < m <= j ==> keys[m] == keys[m - 1]
    decreases j
  {
    if i < j {
      RunIndexSameRun(keys, i, j - 1);
      RunIndexMonotone(keys, i, j - 1);
    }
  }

  /** Row `i`'s index is between 1 and `i` + 1. */
  lemma {:induction false} RunIndexBounds(keys: seq<string>, i: nat)
    requires i < |keys|
    ensures 1 <= RunIndex(keys, i) <= i + 1
  {
    if i > 0 {
      RunIndexBounds(keys, i - 1);
    }
  }

  /** On a grouped table two rows share an index exactly when they share a key. */
  lemma RunIndexSameKey(keys: seq<string>, i: nat, j: nat)
    requires Grouped(keys)
    requires i <= j < |keys|
    ensures RunIndex(keys, i) == RunIndex(keys, j) <==> keys[i] == keys[j]
  {
    RunIndexSameRun(keys, i, j);
    if keys[i] == keys[j] {
      GroupedRunIsConstant(keys, i, j);
    } else if forall m :: i < m <= j ==> keys[m] == keys[m - 1] {
      ConstantRun(keys, i, j);
    }
  }

  /** On a grouped table the key does not change between two rows that share it. */
  lemma GroupedRunIsConstant(keys: seq<string>, i: nat, j: nat)
    requires Grouped(keys)
    requires i <= j < |keys| && keys[i] == keys[j]
    ensures forall m :: i < m <= j ==> keys[m] == keys[m - 1]
  {
    forall m | i < m <= j
      ensures keys[m] == keys[m - 1]
    {
      if m < j { assert keys[m] == keys[i]; }
      if i < m - 1 { assert keys[m - 1] == keys[i]; }
    }
  }

  lemma {:induction false} ConstantRun(keys: seq<string>, i: nat, j: nat)
    requires i <= j < |keys|
    requires forall m :: i < m <= j ==> keys[m] == keys[m - 1]
    ensures keys[j] == keys[i]
    decreases j
  {
    if i < j {
      ConstantRun(keys, i, j - 1);
    }
  }

  /** On a grouped table a key that starts a new run has not been seen before. */
  lemma NewRunKeyIsNew(keys: seq<string>, i: nat)
    requires Grouped(keys)
    requires 0 < i < |keys| && keys[i] != keys[i - 1]
    ensures keys[i] !in keys[..i]
  {
    forall m | 0 <= m < i
      ensures keys[m] != keys[i]
    {
    }
  }

  /** On a grouped table the index of a row is the number of distinct keys
      seen so far: orders are numbered 1, 2, 3, ... by first appearance. */
  lemma RunIndexIsRank(keys: seq<string>, i: nat)
    requires Grouped(keys)
    requires i < |keys|
    ensures RunIndex(keys, i) == |Distinct(keys[..i + 1])|
  {
    forall j | 0 < j <= i && keys[j] != keys[j - 1]
      ensures keys[j] !in keys[..j]
    {
      NewRunKeyIsNew(keys, j);
    }
    RankOfFreshRuns(keys, i);
  }

  /** When every key that starts a run up to row `i` is new, the index of
      row `i` counts the distinct keys so far. */
  lemma {:induction false} RankOfFreshRuns(keys: seq<string>, i: nat)
    requires i < |keys|
    requires forall j :: 0 < j <= i && keys[j] != keys[j - 1] ==> keys[j] !in keys[..j]
    ensures RunIndex(keys, i) == |Distinct(keys[..i + 1])|
  {
    DistinctGrows(keys, i);
    if i == 0 {
      assert keys[..0] == [];
    } else {
      RankOfFreshRuns(keys, i - 1);
      if keys[i] == keys[i - 1] {
        assert keys[i - 1] in keys[..i];
      }
    }
  }

  /** The distinct keys of a prefix one longer are those of the prefix and
      the next key; the count grows exactly when the next key is new. */
  lemma DistinctGrows(keys: seq<string>, i: nat)
    requires i < |keys|
    ensures Distinct(keys[..i + 1]) == Distinct(keys[..i]) + {keys[i]}
    ensures |Distinct(keys[..i + 1])| == if keys[i] in keys[..i] then |Distinct(keys[..i])| else |Distinct(keys[..i])| + 1
  {
    PrefixGrows(keys, i);
    var seen := Distinct(keys[..i]);
    if keys[i] !in keys[..i] {
      assert keys[i] !in seen;
    } else {
      assert seen + {keys[i]} == seen;
    }
  }

  /** A row is the first of its key exactly when its item index is 1. */
  lemma ItemIndexIsOne(keys: seq<string>, i: nat)
    requires i < |keys|
    ensures ItemIndex(keys, i) == 1 <==> keys[i] !in keys[..i]
  {
  }

  /** Later rows of the same key get strictly larger item indexes. */
  lemma ItemIndexIncreases(keys: seq<string>, i: nat, j: nat)
    requires i < j < |keys|
    requires keys[i] == keys[j]
    ensures ItemIndex(keys, i) < ItemIndex(keys, j)
  {
    assert keys[..j] == keys[..i] + keys[i..j];
    assert keys[i..j][0] == keys[i];
  }

  /** On a grouped table the item index counts 1, 2, ... along each run and
      goes back to 1 where a new run, and so a new PrimaryKeyIndex, starts. */
  lemma ItemIndexInRun(keys: seq<string>, i: nat)
    requires Grouped(keys)
    requires 0 < i < |keys|
    ensures keys[i] == keys[i - 1] ==> ItemIndex(keys, i) == ItemIndex(keys, i - 1) + 1
    ensures keys[i] != keys[i - 1] ==> ItemIndex(keys, i) == 1
    ensures RunIndex(keys, i) == RunIndex(keys, i - 1) + 1 ==> ItemIndex(keys, i) == 1
  {
    assert keys[..i] == keys[..i - 1] + [keys[i - 1]];
    if keys[i] != keys[i - 1] {
      NewRunKeyIsNew(keys, i);
    }
  }

  /** On a grouped table no two rows carry the same pair of indexes, so the
      final sort by the pair puts the rows in one order only. */
  lemma IndexPairsUnique(keys: seq<string>, i: nat, j: nat)
    requires Grouped(keys)
    requires i < j < |keys|
    ensures RunIndex(keys, i) != RunIndex(keys, j) || ItemIndex(keys, i) != ItemIndex(keys, j)
  {
    RunIndexSameKey(keys, i, j);
    if keys[i] == keys[j] {
      ItemIndexIncreases(keys, i, j);
    }
  }

  /** The PrimaryKeyIndex column of an item-detail table is the run index of its keys. */
  predicate RunIndexed(table: seq<LineItem>) {
    forall i {:trigger table[i]} :: 0 <= i < |table| ==> table[i].primaryKeyIndex == RunIndex(Keys(table), i)
  }

  /** The ItemIndex column of an item-detail table is the item index of its keys. */
  predicate ItemIndexed(table: seq<LineItem>) {
    forall i :: 0 <= i < |table| ==> table[i].itemIndex == ItemIndex(Keys(table), i)
  }
}
