/** The list of selected add-on ids and the toggle the add-on cards perform on it
    (`toggleAddon`). The list is an ordered `string[]` in the source; the model
    keeps it a sequence so that the order `filter` and append produce is visible. */
module AddonList {

  /** An add-on catalogue id. */
  type AddonId = string

  /** No id occurs twice in the list. */
  predicate NoDup(s: seq<AddonId>) {
    forall i, j :: 0 <= i < j < |s| ==> s[i] != s[j]
  }

  /** `s.filter(y => y !== x)`: every occurrence of `x` dropped, the rest kept in order. */
  function Without(s: seq<AddonId>, x: AddonId): (r: seq<AddonId>)
    ensures multiset(r) == multiset(s)[x := 0]
    ensures x !in r
    ensures forall y :: y != x ==> (y in r <==> y in s)
    ensures |r| <= |s|
  {
    if |s| == 0 then []
    else
      var rest := Without(s[1..], x);
      assert s == [s[0]] + s[1..];
      if s[0] == x then rest else [s[0]] + rest
  }

  /** `prev.includes(id) ? prev.filter(i => i !== id) : [...prev, id]`. */
  function Toggle(s: seq<AddonId>, x: AddonId): (r: seq<AddonId>)
    ensures x in r <==> x !in s
    ensures forall y :: y != x ==> (y in r <==> y in s)
    ensures x !in s ==> r == s + [x]
  {
    if x in s then Without(s, x) else s + [x]
  }

  /** Filtering a list that does not hold `x` leaves it exactly as it was. */
  lemma {:induction false} WithoutAbsent(s: seq<AddonId>, x: AddonId)
    requires x !in s
    ensures Without(s, x) == s
  {
    if |s| > 0 {
      assert x !in s[1..];
      WithoutAbsent(s[1..], x);
      assert s == [s[0]] + s[1..];
    }
  }

  /** Filtering distributes over concatenation. */
  lemma {:induction false} WithoutAppend(s: seq<AddonId>, t: seq<AddonId>, x: AddonId)
    ensures Without(s + t, x) == Without(s, x) + Without(t, x)
  {
    if |s| == 0 {
      assert s + t == t;
    } else {
      assert (s + t)[1..] == s[1..] + t;
      assert (s + t)[0] == s[0];
      WithoutAppend(s[1..], t, x);
    }
  }

  /** Filtering keeps a duplicate-free list duplicate-free. */
  lemma {:induction false} WithoutKeepsNoDup(s: seq<AddonId>, x: AddonId)
    requires NoDup(s)
    ensures NoDup(Without(s, x))
  {
    if |s| > 0 {
      assert NoDup(s[1..]) by {
        forall i, j | 0 <= i < j < |s[1..]| ensures s[1..][i] != s[1..][j] {
          assert s[1..][i] == s[i + 1] && s[1..][j] == s[j + 1];
        }
      }
      WithoutKeepsNoDup(s[1..], x);
      var rest := Without(s[1..], x);
      if s[0] != x {
        assert s[0] !in s[1..] by {
          forall k | 0 <= k < |s[1..]| ensures s[1..][k] != s[0] {
            assert s[1..][k] == s[k + 1];
          }
        }
        assert s[0] !in rest;
        var r := [s[0]] + rest;
        forall i, j | 0 <= i < j < |r| ensures r[i] != r[j] {
          if i == 0 {
            assert r[j] == rest[j - 1];
            assert r[j] in rest;
          } else {
            assert r[i] == rest[i - 1] && r[j] == rest[j - 1];
          }
        }
      }
    }
  }

  /** In a duplicate-free list an element that is present occurs exactly once. */
  lemma {:induction false} NoDupCountsOne(s: seq<AddonId>, x: AddonId)
    requires NoDup(s) && x in s
    ensures multiset(s)[x] == 1
  {
    assert s == [s[0]] + s[1..];
    assert NoDup(s[1..]) by {
      forall i, j | 0 <= i < j < |s[1..]| ensures s[1..][i] != s[1..][j] {
        assert s[1..][i] == s[i + 1] && s[1..][j] == s[j + 1];
      }
    }
    if s[0] == x {
      assert x !in s[1..] by {
        forall k | 0 <= k < |s[1..]| ensures s[1..][k] != x {
          assert s[1..][k] == s[k + 1];
        }
      }
    } else {
      NoDupCountsOne(s[1..], x);
    }
  }

  /** Toggling keeps the selection free of duplicates. */
  lemma ToggleKeepsNoDup(s: seq<AddonId>, x: AddonId)
    requires NoDup(s)
    ensures NoDup(Toggle(s, x))
  {
    if x in s {
      WithoutKeepsNoDup(s, x);
    } else {
      var r := s + [x];
      forall i, j | 0 <= i < j < |r| ensures r[i] != r[j] {
        if j == |s| {
          assert r[i] == s[i];
        } else {
          assert r[i] == s[i] && r[j] == s[j];
        }
      }
    }
  }

  /** Toggling an id that is not selected, twice, restores the list exactly. */
  lemma ToggleTwiceAbsent(s: seq<AddonId>, x: AddonId)
    requires x !in s
    ensures Toggle(Toggle(s, x), x) == s
  {
    WithoutAppend(s, [x], x);
    WithoutAbsent(s, x);
    assert Without([x], x) == [];
  }

  /** Toggling a selected id twice in a duplicate-free list gives back the same
      ids (a permutation: the id moves to the end of the list). */
  lemma ToggleTwicePresent(s: seq<AddonId>, x: AddonId)
    requires NoDup(s) && x in s
    ensures multiset(Toggle(Toggle(s, x), x)) == multiset(s)
    ensures Toggle(Toggle(s, x), x) == Without(s, x) + [x]
  {
    NoDupCountsOne(s, x);
    assert multiset(s) == multiset(s)[x := 0] + multiset{x};
  }
}
