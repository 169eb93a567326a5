/**
 * The prompt selection of the page: a list of prompt ids used as a set,
 * toggled one id at a time (`handlePromptToggle`).
 */
module Selection {

  /** No id occurs twice in the list. */
  predicate NoDuplicates<T(==)>(s: seq<T>) {
    forall i, j :: 0 <= i < j < |s| ==> s[i] != s[j]
  }

  /** `a` is `b` with some elements dropped, the rest kept in their order. */
  predicate IsSubsequence<T(==)>(a: seq<T>, b: seq<T>)
    decreases |b|
  {
    if a == [] then true
    else if b == [] then false
    else if a[0] == b[0] then IsSubsequence(a[1..], b[1..])
    else IsSubsequence(a, b[1..])
  }

  /** A non-empty list has a member. */
  lemma HeadIsMember<T>(s: seq<T>)
    ensures s == [] || s[0] in s
  {
  }

  /** `s.filter(y => y !== x)`: every occurrence of `x` removed. */
  function Without<T(==,!new)>(s: seq<T>, x: T): (r: seq<T>)
    ensures x !in r
    ensures forall y :: y != x ==> (y in r <==> y in s)
    ensures multiset(r) == multiset(s)[x := 0]
    ensures IsSubsequence(r, s)
    ensures |r| + multiset(s)[x] == |s|
    decreases |s|
  {
    if s == [] then []
    else
      assert s == [s[0]] + s[1..];
      if s[0] == x then Without(s[1..], x)
      else [s[0]] + Without(s[1..], x)
  }

  /**
   * `handlePromptToggle`: an id already selected is removed, any other id is
   * appended at the end.
   */
  function Toggle(selected: seq<string>, id: string): (r: seq<string>)
    ensures id in r <==> id !in selected
    ensures id in selected ==> multiset(r) == multiset(selected)[id := 0] && IsSubsequence(r, selected)
    ensures id !in selected ==> r == selected + [id]
    ensures forall other :: other != id ==> (other in r <==> other in selected)
  {
    if id in selected then Without(selected, id) else selected + [id]
  }

  lemma {:induction false} WithoutAbsent<T(!new)>(s: seq<T>, x: T)
    requires x !in s
    ensures Without(s, x) == s
    decreases |s|
  {
    if s != [] {
      WithoutAbsent(s[1..], x);
    }
  }

  lemma {:induction false} WithoutKeepsNoDuplicates<T(!new)>(s: seq<T>, x: T)
    requires NoDuplicates(s)
    ensures NoDuplicates(Without(s, x))
    decreases |s|
  {
    if s != [] {
      WithoutKeepsNoDuplicates(s[1..], x);
      if s[0] != x {
        // s[0] does not occur again in s[1..], so not in its filtered copy either
        assert s[0] !in s[1..];
        assert s[0] !in Without(s[1..], x);
      }
    }
  }

  /** On a duplicate-free list, removing `x` found at index `k` cuts out exactly that slot. */
  lemma {:induction false} WithoutAt<T(!new)>(s: seq<T>, k: nat)
    requires NoDuplicates(s) && k < |s|
    ensures Without(s, s[k]) == s[..k] + s[k+1..]
    decreases |s|
  {
    if k == 0 {
      assert s[0] !in s[1..];
      WithoutAbsent(s[1..], s[0]);
    } else {
      WithoutAt(s[1..], k - 1);
      assert s[1..][k-1] == s[k];
      assert s[1..][..k-1] == s[1..k];
      assert s[1..][k-1+1..] == s[k+1..];
      assert s[..k] == [s[0]] + s[1..k];
    }
  }

  /** Toggling keeps a duplicate-free selection duplicate-free. */
  lemma ToggleKeepsNoDuplicates(selected: seq<string>, id: string)
    requires NoDuplicates(selected)
    ensures NoDuplicates(Toggle(selected, id))
  {
    if id in selected {
      WithoutKeepsNoDuplicates(selected, id);
    }
  }

  /** A present id at index `k` is removed and every other id stays in place. */
  lemma ToggleRemovesSlot(selected: seq<string>, k: nat)
    requires NoDuplicates(selected) && k < |selected|
    ensures Toggle(selected, selected[k]) == selected[..k] + selected[k+1..]
  {
    WithoutAt(selected, k);
  }

  /** Toggling an absent id twice gives back the original selection. */
  lemma ToggleTwiceAbsent(selected: seq<string>, id: string)
    requires id !in selected
    ensures Toggle(Toggle(selected, id), id) == selected
  {
    WithoutAppend(selected, id);
  }

  /** Filtering `s + [x]` for `x` when `x` is absent from `s` drops only the appended copy. */
  lemma {:induction false} WithoutAppend<T(!new)>(s: seq<T>, x: T)
    requires x !in s
    ensures Without(s + [x], x) == s
    decreases |s|
  {
    if s == [] {
      assert [x][1..] == [];
    } else {
      assert (s + [x])[0] == s[0];
      assert (s + [x])[1..] == s[1..] + [x];
      WithoutAppend(s[1..], x);
    }
  }

  /**
   * Toggling a present id twice does NOT restore the selection in general:
   * the id returns at the end of the list.
   */
  lemma ToggleTwicePresent(selected: seq<string>, k: nat)
    requires NoDuplicates(selected) && k < |selected|
    ensures Toggle(Toggle(selected, selected[k]), selected[k]) == selected[..k] + selected[k+1..] + [selected[k]]
  {
    ToggleRemovesSlot(selected, k);
  }
}
