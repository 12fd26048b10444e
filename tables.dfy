/**
 * A repository table as a list of rows keyed by their id, with the write semantics of a
 * Spring Data repository: `save` replaces the row with the same key (or appends a new one),
 * `saveAll` saves each element in turn, `delete` removes the row with the key.
 */
module Tables {
  import opened Wrappers
  import opened Seqs

  /** No two rows share a key (the primary key, or a column declared unique). */
  predicate UniqueKeys<T, K(==)>(rows: seq<T>, key: T -> K) {
    forall i, j :: 0 <= i < |rows| && 0 <= j < |rows| && i != j ==> key(rows[i]) != key(rows[j])
  }

  /** Position of the first row whose key is `k`. */
  function IndexOf<T, K(==)>(rows: seq<T>, key: T -> K, k: K): (r: Option<nat>)
    ensures r.Some? ==> r.value < |rows| && key(rows[r.value]) == k
    ensures r.Some? ==> forall j :: 0 <= j < r.value ==> key(rows[j]) != k
    ensures r.None? <==> forall i :: 0 <= i < |rows| ==> key(rows[i]) != k
  {
    if rows == [] then None
    else if key(rows[0]) == k then Some(0)
    else match IndexOf(rows[1..], key, k)
      case Some(i) => Some(i + 1)
      case None => None
  }

  /** `findById`: the row whose key is `k`, if any. */
  function Find<T, K(==)>(rows: seq<T>, key: T -> K, k: K): (r: Option<T>)
    ensures r.Some? ==> r.value in rows && key(r.value) == k
    ensures r.None? <==> forall i :: 0 <= i < |rows| ==> key(rows[i]) != k
  {
    match IndexOf(rows, key, k)
    case Some(i) => Some(rows[i])
    case None => None
  }

  /** `save`: overwrite the row that has the same key as `x`, or insert `x` when there is none. */
  function Save<T, K(==)>(rows: seq<T>, key: T -> K, x: T): (r: seq<T>)
    ensures x in r
    ensures forall y :: y in r ==> y in rows || y == x
    ensures IndexOf(rows, key, key(x)).Some? ==> |r| == |rows|
    ensures IndexOf(rows, key, key(x)).None? ==> |r| == |rows| + 1
  {
    match IndexOf(rows, key, key(x))
    case Some(i) =>
      assert forall y :: y in rows[i := x] ==> y in rows || y == x by {
        forall y | y in rows[i := x] ensures y in rows || y == x {
          var j :| 0 <= j < |rows| && rows[i := x][j] == y;
          if j != i { assert rows[j] == y; }
        }
      }
      assert rows[i := x][i] == x;
      rows[i := x]
    case None => rows + [x]
  }

  /** `saveAll`: save every element of `batch`, in order. */
  function SaveAll<T, K(==)>(rows: seq<T>, key: T -> K, batch: seq<T>): seq<T>
    decreases |batch|
  {
    if batch == [] then rows else SaveAll(Save(rows, key, batch[0]), key, batch[1..])
  }

  /** `delete`: remove the row whose key is `k`; nothing happens when there is none. */
  function Delete<T, K(==)>(rows: seq<T>, key: T -> K, k: K): (r: seq<T>)
    ensures forall y :: y in r ==> y in rows
    ensures IndexOf(rows, key, k).Some? ==> |r| == |rows| - 1
    ensures IndexOf(rows, key, k).None? ==> r == rows
  {
    match IndexOf(rows, key, k)
    case Some(i) => rows[..i] + rows[i + 1..]
    case None => rows
  }

  /** Saving keeps the keys unique. */
  lemma SaveKeepsKeysUnique<T, K>(rows: seq<T>, key: T -> K, x: T)
    requires UniqueKeys(rows, key)
    ensures UniqueKeys(Save(rows, key, x), key)
  {
    match IndexOf(rows, key, key(x))
    case Some(i) =>
      assert forall j :: 0 <= j < |rows| ==> key(rows[i := x][j]) == key(rows[j]);
    case None =>
  }

  /** Saving a batch keeps the keys unique. */
  lemma {:induction false} SaveAllKeepsKeysUnique<T, K>(rows: seq<T>, key: T -> K, batch: seq<T>)
    requires UniqueKeys(rows, key)
    ensures UniqueKeys(SaveAll(rows, key, batch), key)
    decreases |batch|
  {
    if batch != [] {
      SaveKeepsKeysUnique(rows, key, batch[0]);
      SaveAllKeepsKeysUnique(Save(rows, key, batch[0]), key, batch[1..]);
    }
  }

  /** Every row after saving a batch was a row before, or an element of the batch. */
  lemma {:induction false} SaveAllKeysFrom<T, K>(rows: seq<T>, key: T -> K, batch: seq<T>)
    ensures forall y :: y in SaveAll(rows, key, batch) ==> y in rows || y in batch
    decreases |batch|
  {
    if batch != [] {
      SaveAllKeysFrom(Save(rows, key, batch[0]), key, batch[1..]);
      assert forall y :: y in batch[1..] ==> y in batch;
    }
  }

  /** Deleting keeps the keys unique, and no row with the deleted key is left. */
  lemma {:induction false} DeleteRemovesKey<T, K>(rows: seq<T>, key: T -> K, k: K)
    requires UniqueKeys(rows, key)
    ensures UniqueKeys(Delete(rows, key, k), key)
    ensures forall y :: y in Delete(rows, key, k) ==> key(y) != k
  {
    match IndexOf(rows, key, k)
    case Some(i) =>
      var r := rows[..i] + rows[i + 1..];
      assert forall j :: 0 <= j < |r| ==> r[j] == if j < i then rows[j] else rows[j + 1];
    case None =>
  }

  /**
   * After a save, looking up by a unique column `lookup` (the key itself, or a second column
   * declared unique) finds the saved row under its value, and every other value finds what it
   * found before. This needs the row being replaced, if any, to be the one that has the saved
   * row's `lookup` value.
   */
  lemma FindAfterSave<T, K, L>(rows: seq<T>, key: T -> K, lookup: T -> L, x: T)
    requires UniqueKeys(rows, key) && UniqueKeys(rows, lookup)
    requires forall i :: 0 <= i < |rows| ==> (key(rows[i]) == key(x) <==> lookup(rows[i]) == lookup(x))
    ensures UniqueKeys(Save(rows, key, x), lookup)
    ensures Find(Save(rows, key, x), lookup, lookup(x)) == Some(x)
    ensures forall l :: l != lookup(x) ==> Find(Save(rows, key, x), lookup, l) == Find(rows, lookup, l)
  {
    var r := Save(rows, key, x);
    var n := match IndexOf(rows, key, key(x)) case Some(i) => i case None => |rows|;
    assert r[n] == x;
    assert |r| == |rows| || |r| == |rows| + 1;
    assert forall j :: 0 <= j < |r| && j != n ==> r[j] == rows[j] && lookup(r[j]) != lookup(x);
    assert UniqueKeys(r, lookup);
    FindUnique(r, lookup, n);
    forall l | l != lookup(x) ensures Find(r, lookup, l) == Find(rows, lookup, l) {
      if Find(rows, lookup, l).Some? {
        var m := IndexOf(rows, lookup, l).value;
        assert m != n;
        FindUnique(rows, lookup, m);
        FindUnique(r, lookup, m);
      } else {
        assert forall j :: 0 <= j < |r| ==> lookup(r[j]) != l by {
          forall j | 0 <= j < |r| ensures lookup(r[j]) != l {
            if j != n { assert r[j] == rows[j]; }
          }
        }
      }
    }
  }

  /** After a delete, the deleted key finds nothing and every other key finds what it found before. */
  lemma FindAfterDelete<T, K>(rows: seq<T>, key: T -> K, k: K)
    requires UniqueKeys(rows, key)
    ensures Find(Delete(rows, key, k), key, k).None?
    ensures forall k' :: k' != k ==> Find(Delete(rows, key, k), key, k') == Find(rows, key, k')
  {
    DeleteRemovesKey(rows, key, k);
    var r := Delete(rows, key, k);
    match IndexOf(rows, key, k)
    case Some(i) =>
      assert forall j :: 0 <= j < |r| ==> r[j] == if j < i then rows[j] else rows[j + 1];
      assert forall j :: 0 <= j < |r| ==> key(r[j]) != k by {
        forall j | 0 <= j < |r| ensures key(r[j]) != k {
          assert r[j] in r;
        }
      }
      forall k' | k' != k ensures Find(r, key, k') == Find(rows, key, k') {
        if Find(rows, key, k').Some? {
          var m := IndexOf(rows, key, k').value;
          FindUnique(rows, key, m);
          var m' := if m < i then m else m - 1;
          assert r[m'] == rows[m];
          FindUnique(r, key, m');
        } else {
          assert forall j :: 0 <= j < |r| ==> key(r[j]) != k';
        }
      }
    case None =>
  }

  /** With unique keys, saving a row whose key is that of row `m` overwrites row `m`. */
  lemma SaveAt<T, K>(rows: seq<T>, key: T -> K, x: T, m: nat)
    requires UniqueKeys(rows, key) && m < |rows| && key(rows[m]) == key(x)
    ensures Save(rows, key, x) == rows[m := x]
  {
    assert IndexOf(rows, key, key(x)).Some?;
  }

  /** With unique keys, the row found for the key of the `j`-th row is that row. */
  lemma FindUnique<T, K>(rows: seq<T>, key: T -> K, j: nat)
    requires UniqueKeys(rows, key) && j < |rows|
    ensures Find(rows, key, key(rows[j])) == Some(rows[j])
  {
  }

  /** A filter of a table with unique keys has unique keys. */
  lemma {:induction false} FilterKeepsKeysUnique<T(!new), K>(rows: seq<T>, key: T -> K, p: T -> bool)
    requires UniqueKeys(rows, key)
    ensures UniqueKeys(Filter(rows, p), key)
  {
    if rows != [] {
      var rest := rows[1..];
      assert UniqueKeys(rest, key) by {
        assert forall i :: 0 <= i < |rest| ==> rest[i] == rows[i + 1];
      }
      FilterKeepsKeysUnique(rest, key, p);
      forall y | y in Filter(rest, p) ensures key(y) != key(rows[0]) {
        var m :| 0 <= m < |rest| && rest[m] == y;
        assert rows[m + 1] == y;
      }
    }
  }

  /**
   * Saving a batch whose keys are unique and already present in the table overwrites, in place,
   * exactly the rows whose key occurs in the batch.
   */
  lemma {:induction false} SaveAllOverwrites<T, K>(rows: seq<T>, key: T -> K, batch: seq<T>)
    requires UniqueKeys(rows, key) && UniqueKeys(batch, key)
    requires forall j :: 0 <= j < |batch| ==> IndexOf(rows, key, key(batch[j])).Some?
    ensures |SaveAll(rows, key, batch)| == |rows|
    ensures forall i :: 0 <= i < |rows| ==>
      SaveAll(rows, key, batch)[i] == Find(batch, key, key(rows[i])).GetOr(rows[i])
    decreases |batch|
  {
    if batch != [] {
      var x, rest := batch[0], batch[1..];
      var k := IndexOf(rows, key, key(x)).value;
      var saved := rows[k := x];
      assert Save(rows, key, x) == saved;
      assert forall i :: 0 <= i < |rows| ==> key(saved[i]) == key(rows[i]);
      assert forall j :: 0 <= j < |rest| ==> rest[j] == batch[j + 1];
      forall j | 0 <= j < |rest| ensures IndexOf(saved, key, key(rest[j])).Some? {
        var m := IndexOf(rows, key, key(batch[j + 1])).value;
        assert key(saved[m]) == key(rest[j]);
      }
      SaveAllOverwrites(saved, key, rest);
      forall i | 0 <= i < |rows|
        ensures SaveAll(rows, key, batch)[i] == Find(batch, key, key(rows[i])).GetOr(rows[i])
      {
        if i == k {
          assert Find(rest, key, key(x)).None? by {
            forall j | 0 <= j < |rest| ensures key(rest[j]) != key(x) {
              assert batch[j + 1] == rest[j];
            }
          }
        } else {
          assert key(rows[i]) != key(x);
        }
      }
    }
  }

  /**
   * The batch-pass pattern: query the rows that satisfy `p`, transform each with `f` (which keeps
   * the key), and save the transformed list in one `saveAll`. The result is the table with exactly
   * the matching rows transformed, in place, and every other row untouched.
   */
  lemma SaveAllOfTransformedMatches<T(!new), K>(rows: seq<T>, key: T -> K, p: T -> bool, f: T -> T)
    requires UniqueKeys(rows, key)
    requires forall x :: key(f(x)) == key(x)
    ensures |SaveAll(rows, key, Map(Filter(rows, p), f))| == |rows|
    ensures forall i :: 0 <= i < |rows| ==>
      SaveAll(rows, key, Map(Filter(rows, p), f))[i] == if p(rows[i]) then f(rows[i]) else rows[i]
  {
    var found := Filter(rows, p);
    var batch := Map(found, f);
    FilterKeepsKeysUnique(rows, key, p);
    assert forall j :: 0 <= j < |batch| ==> key(batch[j]) == key(found[j]);
    assert UniqueKeys(batch, key);
    forall j | 0 <= j < |batch| ensures IndexOf(rows, key, key(batch[j])).Some? {
      assert found[j] in rows;
      var m :| 0 <= m < |rows| && rows[m] == found[j];
      assert key(rows[m]) == key(batch[j]);
    }
    SaveAllOverwrites(rows, key, batch);
    forall i | 0 <= i < |rows|
      ensures Find(batch, key, key(rows[i])) == if p(rows[i]) then Some(f(rows[i])) else None
    {
      if p(rows[i]) {
        assert rows[i] in found;
        var j :| 0 <= j < |found| && found[j] == rows[i];
        FindUnique(batch, key, j);
      } else {
        forall j | 0 <= j < |batch| ensures key(batch[j]) != key(rows[i]) {
          assert found[j] in rows;
          var m :| 0 <= m < |rows| && rows[m] == found[j];
          assert p(rows[m]);
        }
      }
    }
  }
}
