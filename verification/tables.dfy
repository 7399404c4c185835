/**
 * A table with a uniqueness key, held as a sequence of rows in storage order: the first-match
 * lookup behind `getFirstAsync`, and the upsert behind `INSERT ... ON CONFLICT(key) DO UPDATE`,
 * which updates the conflicting row in place or appends a new one.
 */
module Tables {
  import opened Common
  import opened Seqs

  /** The first row whose key is `k`. */
  function Lookup<T(!new), K(==)>(s: seq<T>, key: T -> K, k: K): (r: Option<T>)
    ensures r.Some? ==> r.value in s && key(r.value) == k
    ensures r.None? <==> forall x :: x in s ==> key(x) != k
  {
    if |s| == 0 then None
    else if key(s[0]) == k then Some(s[0])
    else
      assert forall x :: x in s <==> x == s[0] || x in s[1..];
      Lookup(s[1..], key, k)
  }

  /** Under the key constraint, the row found is the only row with that key. */
  lemma LookupUnique<T(!new), K>(s: seq<T>, key: T -> K, x: T)
    requires UniqueBy(s, key) && x in s
    ensures Lookup(s, key, key(x)) == Some(x)
  {
    UniqueKeyHolder(s, key, Lookup(s, key, key(x)).value, x);
  }

  /** The row replaces the first row with its key, or is appended when there is none. */
  function Upsert<T(!new), K(==)>(s: seq<T>, key: T -> K, row: T): (r: seq<T>)
    ensures row in r
    ensures forall x :: x in r ==> x in s || x == row
  {
    if |s| == 0 then [row]
    else if key(s[0]) == key(row) then
      assert forall x :: x in s[1..] ==> x in s;
      [row] + s[1..]
    else
      assert forall x :: x in s[1..] ==> x in s;
      [s[0]] + Upsert(s[1..], key, row)
  }

  /** After an upsert the key holds the written row. */
  lemma {:induction false} UpsertHit<T(!new), K>(s: seq<T>, key: T -> K, row: T)
    ensures Lookup(Upsert(s, key, row), key, key(row)) == Some(row)
  {
    if |s| > 0 && key(s[0]) != key(row) {
      UpsertHit(s[1..], key, row);
      assert Upsert(s, key, row)[1..] == Upsert(s[1..], key, row);
    }
  }

  /** An upsert leaves the lookup of every other key unchanged. */
  lemma {:induction false} UpsertFrame<T(!new), K>(s: seq<T>, key: T -> K, row: T, k: K)
    requires k != key(row)
    ensures Lookup(Upsert(s, key, row), key, k) == Lookup(s, key, k)
  {
    if |s| > 0 {
      var r := Upsert(s, key, row);
      if key(s[0]) == key(row) {
        assert r[1..] == s[1..];
      } else {
        UpsertFrame(s[1..], key, row, k);
        assert r[1..] == Upsert(s[1..], key, row);
      }
    }
  }

  /** `UpsertFrame` for every other key at once. */
  lemma UpsertFrameAll<T(!new), K>(s: seq<T>, key: T -> K, row: T)
    ensures forall k :: k != key(row) ==> Lookup(Upsert(s, key, row), key, k) == Lookup(s, key, k)
  {
    forall k | k != key(row) { UpsertFrame(s, key, row, k); }
  }

  /** An upsert keeps the keys unique. */
  lemma {:induction false} UpsertUnique<T(!new), K>(s: seq<T>, key: T -> K, row: T)
    requires UniqueBy(s, key)
    ensures UniqueBy(Upsert(s, key, row), key)
  {
    if |s| > 0 {
      var r := Upsert(s, key, row);
      if key(s[0]) == key(row) {
        forall i, j | 0 <= i < j < |r| ensures key(r[i]) != key(r[j]) {
          assert key(r[i]) == key(s[i]) && r[j] == s[j];
        }
      } else {
        UpsertUnique(s[1..], key, row);
        var rest := Upsert(s[1..], key, row);
        assert r[1..] == rest;
        forall i, j | 0 <= i < j < |r| ensures key(r[i]) != key(r[j]) {
          if i == 0 {
            assert r[j] == rest[j - 1] && rest[j - 1] in rest;
            if r[j] != row {
              var k :| 0 <= k < |s[1..]| && s[1..][k] == r[j];
              assert s[k + 1] == r[j];
            }
          } else {
            assert r[i] == rest[i - 1] && r[j] == rest[j - 1];
          }
        }
      }
    }
  }

  /** Writing one key twice leaves what the second write alone leaves. */
  lemma {:induction false} UpsertTwice<T(!new), K>(s: seq<T>, key: T -> K, row1: T, row2: T)
    requires key(row1) == key(row2)
    ensures Upsert(Upsert(s, key, row1), key, row2) == Upsert(s, key, row2)
  {
    if |s| > 0 {
      var once := Upsert(s, key, row1);
      if key(s[0]) == key(row1) {
        assert once[1..] == s[1..];
      } else {
        UpsertTwice(s[1..], key, row1, row2);
        assert once[0] == s[0] && once[1..] == Upsert(s[1..], key, row1);
      }
    }
  }

  /** A filter that rejects every row with the written key sees no difference after the upsert. */
  lemma {:induction false} UpsertOutsideFilter<T(!new), K>(s: seq<T>, key: T -> K, row: T, p: T -> bool)
    requires forall x :: key(x) == key(row) ==> !p(x)
    ensures Filter(Upsert(s, key, row), p) == Filter(s, p)
  {
    if |s| > 0 {
      var r := Upsert(s, key, row);
      if key(s[0]) == key(row) {
        assert r[1..] == s[1..];
      } else {
        UpsertOutsideFilter(s[1..], key, row, p);
        assert r[1..] == Upsert(s[1..], key, row);
      }
    }
  }

  /** Deleting rows that do not carry key `k` leaves the lookup of `k` unchanged. */
  lemma {:induction false} LookupFilter<T(!new), K>(s: seq<T>, p: T -> bool, key: T -> K, k: K)
    requires forall x :: x in s && key(x) == k ==> p(x)
    ensures Lookup(Filter(s, p), key, k) == Lookup(s, key, k)
  {
    if |s| > 0 {
      assert forall x :: x in s[1..] ==> x in s;
      LookupFilter(s[1..], p, key, k);
      if p(s[0]) {
        assert ([s[0]] + Filter(s[1..], p))[1..] == Filter(s[1..], p);
      }
    }
  }

  /** Two keys that single out the same rows give the same first match. */
  lemma {:induction false} LookupSameRows<T(!new), K, L>(s: seq<T>, key1: T -> K, k1: K, key2: T -> L, k2: L)
    requires forall x :: x in s ==> (key1(x) == k1 <==> key2(x) == k2)
    ensures Lookup(s, key1, k1) == Lookup(s, key2, k2)
  {
    if |s| > 0 {
      assert forall x :: x in s[1..] ==> x in s;
      LookupSameRows(s[1..], key1, k1, key2, k2);
    }
  }
}
