/**
 The list of completed habit ids held by the habit screen, and the two list
 operations the screen applies to it: removing every occurrence of an id
 (the screen's `filter` call, which keeps every id different from the given
 one) and toggling an id (remove it if present, append it if absent).
 */
module HabitIds {

  /** Habit ids are opaque strings handed out by the server. */
  type HabitId = string

  /** No id occurs twice. */
  predicate NoDuplicates(xs: seq<HabitId>) {
    forall i, j :: 0 <= i < j < |xs| ==> xs[i] != xs[j]
  }

  /** `r` can be obtained from `xs` by deleting elements, keeping the order of the rest. */
  predicate SubsequenceOf(r: seq<HabitId>, xs: seq<HabitId>)
    decreases |xs|
  {
    if r == [] then true
    else if xs == [] then false
    else if r[0] == xs[0] then SubsequenceOf(r[1..], xs[1..])
    else SubsequenceOf(r, xs[1..])
  }

  /** The set of ids occurring in `xs`. */
  function Elements(xs: seq<HabitId>): set<HabitId> {
    set x | x in xs
  }

  /** The screen's `filter` call: keeps every id different from `id`, in order. */
  function Remove(xs: seq<HabitId>, id: HabitId): (r: seq<HabitId>)
    ensures multiset(r) == multiset(xs)[id := 0]
    ensures forall x :: x in r <==> x in xs && x != id
  {
    if xs == [] then []
    else
      assert xs == [xs[0]] + xs[1..];
      if xs[0] == id then Remove(xs[1..], id) else [xs[0]] + Remove(xs[1..], id)
  }

  /** The completion flip applied once the server has acknowledged a toggle. */
  function Toggle(xs: seq<HabitId>, id: HabitId): (r: seq<HabitId>)
    ensures forall x :: x in r <==> (if x == id then id !in xs else x in xs)
    ensures id in xs ==> SubsequenceOf(r, xs) && multiset(r) == multiset(xs)[id := 0]
    ensures id !in xs ==> |r| == |xs| + 1 && r[..|xs|] == xs && r[|xs|] == id
  {
    if id in xs then
      RemoveIsSubsequence(xs, id);
      Remove(xs, id)
    else
      xs + [id]
  }

  /** Removing keeps the surviving ids in their original relative order. */
  lemma {:induction false} RemoveIsSubsequence(xs: seq<HabitId>, id: HabitId)
    ensures SubsequenceOf(Remove(xs, id), xs)
  {
    if xs != [] {
      RemoveIsSubsequence(xs[1..], id);
      var rest := Remove(xs[1..], id);
      if xs[0] == id {
        if rest != [] {
          assert rest[0] in rest;
        }
      } else {
        assert ([xs[0]] + rest)[1..] == rest;
      }
    }
  }

  /** Filtering distributes over concatenation. */
  lemma {:induction false} RemoveAppend(a: seq<HabitId>, b: seq<HabitId>, id: HabitId)
    ensures Remove(a + b, id) == Remove(a, id) + Remove(b, id)
  {
    if a == [] {
      assert a + b == b;
    } else {
      assert (a + b)[0] == a[0];
      assert (a + b)[1..] == a[1..] + b;
      RemoveAppend(a[1..], b, id);
    }
  }

  /** Filtering out an id that does not occur changes nothing. */
  lemma {:induction false} RemoveAbsent(xs: seq<HabitId>, id: HabitId)
    requires id !in xs
    ensures Remove(xs, id) == xs
  {
    if xs != [] {
      assert id !in xs[1..];
      RemoveAbsent(xs[1..], id);
      assert xs == [xs[0]] + xs[1..];
    }
  }

  /** Filtering keeps a duplicate-free list duplicate-free. */
  lemma {:induction false} RemoveKeepsNoDuplicates(xs: seq<HabitId>, id: HabitId)
    requires NoDuplicates(xs)
    ensures NoDuplicates(Remove(xs, id))
  {
    if xs != [] {
      assert NoDuplicates(xs[1..]) by {
        forall i, j | 0 <= i < j < |xs[1..]|
          ensures xs[1..][i] != xs[1..][j]
        {
          assert xs[1..][i] == xs[i + 1] && xs[1..][j] == xs[j + 1];
        }
      }
      RemoveKeepsNoDuplicates(xs[1..], id);
      var rest := Remove(xs[1..], id);
      if xs[0] != id {
        assert xs[0] !in xs[1..] by {
          forall k | 0 <= k < |xs[1..]|
            ensures xs[1..][k] != xs[0]
          {
            assert xs[1..][k] == xs[k + 1];
          }
        }
        assert xs[0] !in rest;
        var r := [xs[0]] + rest;
        forall i, j | 0 <= i < j < |r|
          ensures r[i] != r[j]
        {
          if i == 0 {
            assert r[j] == rest[j - 1];
          } else {
            assert r[i] == rest[i - 1] && r[j] == rest[j - 1];
          }
        }
      }
    }
  }

  /** Toggling never introduces a duplicate: an id is appended only when absent. */
  lemma ToggleKeepsNoDuplicates(xs: seq<HabitId>, id: HabitId)
    requires NoDuplicates(xs)
    ensures NoDuplicates(Toggle(xs, id))
  {
    if id in xs {
      RemoveKeepsNoDuplicates(xs, id);
    } else {
      var r := xs + [id];
      forall i, j | 0 <= i < j < |r|
        ensures r[i] != r[j]
      {
        if j == |xs| {
          assert r[i] == xs[i];
        } else {
          assert r[i] == xs[i] && r[j] == xs[j];
        }
      }
    }
  }

  /** Toggling an absent id twice gives back exactly the original list. */
  lemma ToggleTwiceFromAbsent(xs: seq<HabitId>, id: HabitId)
    requires id !in xs
    ensures Toggle(Toggle(xs, id), id) == xs
  {
    assert id in xs + [id];
    RemoveAppend(xs, [id], id);
    RemoveAbsent(xs, id);
    assert Remove([id], id) == [];
  }

  /** Toggling any id twice gives back the same members, whatever the starting list. */
  lemma ToggleTwiceSameMembers(xs: seq<HabitId>, id: HabitId)
    ensures forall x :: x in Toggle(Toggle(xs, id), id) <==> x in xs
  {
  }

  /** A list has at least as many entries as distinct ids, exactly as many when duplicate-free. */
  lemma {:induction false} ElementsCount(xs: seq<HabitId>)
    ensures |Elements(xs)| <= |xs|
    ensures NoDuplicates(xs) ==> |Elements(xs)| == |xs|
  {
    if xs != [] {
      ElementsCount(xs[1..]);
      assert xs == [xs[0]] + xs[1..];
      assert Elements(xs) == {xs[0]} + Elements(xs[1..]);
      if NoDuplicates(xs) {
        assert NoDuplicates(xs[1..]) by {
          forall i, j | 0 <= i < j < |xs[1..]|
            ensures xs[1..][i] != xs[1..][j]
          {
            assert xs[1..][i] == xs[i + 1] && xs[1..][j] == xs[j + 1];
          }
        }
        assert xs[0] !in Elements(xs[1..]) by {
          forall k | 0 <= k < |xs[1..]|
            ensures xs[1..][k] != xs[0]
          {
            assert xs[1..][k] == xs[k + 1];
          }
        }
      }
    }
  }

  /** A duplicate-free list drawn from the ids of `ys` is no longer than `ys`. */
  lemma CountBound(xs: seq<HabitId>, ys: seq<HabitId>)
    requires NoDuplicates(xs)
    requires forall x :: x in xs ==> x in ys
    ensures |xs| <= |ys|
  {
    ElementsCount(xs);
    ElementsCount(ys);
    assert Elements(xs) <= Elements(ys);
    SubsetCard(Elements(xs), Elements(ys));
  }

  lemma {:induction false} SubsetCard(a: set<HabitId>, b: set<HabitId>)
    requires a <= b
    ensures |a| <= |b|
    decreases |a|
  {
    if a != {} {
      var x :| x in a;
      SubsetCard(a - {x}, b - {x});
    }
  }
}
