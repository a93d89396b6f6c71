/** The selection list of multiple mode (src/index.ts:69-71, 111-126, 180-181).
    The list holds JavaScript values that are strings or `undefined`: an
    absent `initialSelection` is wrapped into the list `[undefined]`. */
module Selection {
  import opened Wrappers
  import opened Items

  type Selected = seq<Option<string>>

  /** `initialSelection`: absent, one value string, or an array of them. */
  datatype InitialSelection = Unset | OneValue(value: string) | Values(values: seq<string>)

  /** The list the session starts with: an array is taken as it is, anything
      else (including an absent selection) becomes a one-element list. */
  function Seed(init: InitialSelection): (r: Selected)
    ensures init.Values? || |r| == 1
    ensures None in r <==> init.Unset?
    ensures init.OneValue? ==> r == [Some(init.value)]
    ensures init.Values? ==>
      |r| == |init.values| && forall i :: 0 <= i < |r| ==> r[i] == Some(init.values[i])
  {
    match init
    case Unset => [None]
    case OneValue(v) => [Some(v)]
    case Values(vs) => seq(|vs|, i requires 0 <= i < |vs| => Some(vs[i]))
  }

  /** `Array.prototype.indexOf`: the first position holding `x`, or -1. */
  function IndexOf<T(==)>(s: seq<T>, x: T): (i: int)
    ensures -1 <= i < |s|
    ensures i == -1 <==> x !in s
    ensures i >= 0 ==> s[i] == x && x !in s[..i]
  {
    if s == [] then -1
    else if s[0] == x then 0
    else
      var j := IndexOf(s[1..], x);
      assert s[1..][..j + 1] == s[1..j + 2];
      if j == -1 then -1 else j + 1
  }

  /** Space in multiple mode: remove the first occurrence of the value if
      there is one, otherwise append it. The multiplicity of the value goes
      down or up by one and every other entry is kept. */
  function Toggle(sel: Selected, v: string): (r: Selected)
    ensures Some(v) !in sel ==> r == sel + [Some(v)]
    ensures multiset(r) ==
      if Some(v) in sel then multiset(sel) - multiset{Some(v)}
      else multiset(sel) + multiset{Some(v)}
  {
    var i := IndexOf(sel, Some(v));
    if i != -1 then
      assert sel == sel[..i] + [sel[i]] + sel[i + 1..];
      sel[..i] + sel[i + 1..]
    else sel + [Some(v)]
  }

  /** When the value is present, toggling removes exactly its first
      occurrence and keeps the rest in order. */
  lemma ToggleRemovesFirst(sel: Selected, v: string, i: nat)
    requires i < |sel| && sel[i] == Some(v) && Some(v) !in sel[..i]
    ensures Toggle(sel, v) == sel[..i] + sel[i + 1..]
  {
    var j := IndexOf(sel, Some(v));
    forall k | 0 <= k < j ensures sel[k] != Some(v) {
      assert sel[k] == sel[..j][k];
    }
    forall k | 0 <= k < i ensures sel[k] != Some(v) {
      assert sel[k] == sel[..i][k];
    }
    assert j == i;
  }

  /** Toggling an absent value twice restores the list exactly. */
  lemma ToggleTwiceAbsent(sel: Selected, v: string)
    requires Some(v) !in sel
    ensures Toggle(Toggle(sel, v), v) == sel
  {
    var once := sel + [Some(v)];
    assert once[..|sel|] == sel;
    ToggleRemovesFirst(once, v, |sel|);
    assert once[..|sel|] + once[|sel| + 1..] == sel;
  }

  /** Toggling a value held once twice does not restore the list: the value
      moves to the end. */
  lemma ToggleTwicePresent(sel: Selected, v: string, i: nat)
    requires i < |sel| && sel[i] == Some(v)
    requires multiset(sel)[Some(v)] == 1
    ensures Toggle(Toggle(sel, v), v) == sel[..i] + sel[i + 1..] + [Some(v)]
  {
    assert sel == sel[..i] + [sel[i]] + sel[i + 1..];
    assert multiset(sel) == multiset(sel[..i]) + multiset{Some(v)} + multiset(sel[i + 1..]);
    assert multiset(sel[..i])[Some(v)] == 0;
    ToggleRemovesFirst(sel, v, i);
    var once := sel[..i] + sel[i + 1..];
    assert multiset(once)[Some(v)] == 0;
  }

  /** A value held at least twice (possible through `initialSelection`) is
      still in the list after one toggle. */
  lemma DuplicateSurvivesToggle(sel: Selected, v: string)
    requires multiset(sel)[Some(v)] >= 2
    ensures Some(v) in Toggle(sel, v)
  {
    assert Some(v) in multiset(sel);
    assert multiset(Toggle(sel, v))[Some(v)] >= 1;
  }

  /** No entry occurs twice. */
  predicate NoDuplicates(sel: Selected) {
    forall i, j :: 0 <= i < j < |sel| ==> sel[i] != sel[j]
  }

  lemma NoDuplicatesCount(sel: Selected, x: Option<string>)
    requires NoDuplicates(sel)
    ensures multiset(sel)[x] <= 1
  {
    if sel != [] {
      assert NoDuplicates(sel[1..]) by {
        forall i, j | 0 <= i < j < |sel[1..]| ensures sel[1..][i] != sel[1..][j] {
          assert sel[1..][i] == sel[i + 1] && sel[1..][j] == sel[j + 1];
        }
      }
      NoDuplicatesCount(sel[1..], x);
      assert sel == [sel[0]] + sel[1..];
      forall k | 0 <= k < |sel[1..]| ensures sel[1..][k] != sel[0] {
        assert sel[1..][k] == sel[k + 1];
      }
      assert sel[0] !in sel[1..];
    }
  }

  lemma CountNoDuplicates(sel: Selected)
    requires forall x :: multiset(sel)[x] <= 1
    ensures NoDuplicates(sel)
  {
    forall i, j | 0 <= i < j < |sel| ensures sel[i] != sel[j] {
      assert sel == sel[..i] + [sel[i]] + sel[i + 1..j] + [sel[j]] + sel[j + 1..];
      assert multiset(sel)[sel[i]] >= 1 + multiset{sel[j]}[sel[i]];
    }
  }

  /** Toggling keeps a duplicate-free list duplicate-free and flips the
      membership of the toggled value. */
  lemma ToggleKeepsNoDuplicates(sel: Selected, v: string)
    requires NoDuplicates(sel)
    ensures NoDuplicates(Toggle(sel, v))
    ensures Some(v) in Toggle(sel, v) <==> Some(v) !in sel
  {
    var r := Toggle(sel, v);
    forall x ensures multiset(r)[x] <= 1 {
      NoDuplicatesCount(sel, x);
      NoDuplicatesCount(sel, Some(v));
    }
    CountNoDuplicates(r);
    NoDuplicatesCount(sel, Some(v));
  }

  /** Whether a row is shown as selected: it has a value and the list
      includes that value. */
  predicate RowSelected(item: Item, sel: Selected) {
    item.value.Some? && item.value in sel
  }
}
