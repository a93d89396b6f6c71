/** The cursor arithmetic of the key handler (src/index.ts:150-165), on
    JavaScript numbers: the cursor is an integer or NaN. */
module Cursor {
  import opened Wrappers
  import opened Items

  /** A JavaScript number restricted to the values the cursor can take. */
  datatype Num = Finite(n: int) | NaN

  /** The four cursor keys, in the order the handler tests them. */
  datatype Move = Up | Down | PageUp | PageDown

  function Abs(x: int): nat {
    if x < 0 then -x else x
  }

  /** The unclamped new offset: one step for Up/Down, a page for
      PageUp/PageDown. NaN stays NaN. */
  function Raw(move: Move, active: Num, pageSize: int): (r: Num)
    ensures active.NaN? <==> r.NaN?
    ensures active.Finite? && move in {Up, PageUp} ==>
      r.n == active.n - (if move == Up then 1 else pageSize)
    ensures active.Finite? && move in {Down, PageDown} ==>
      r.n == active.n + (if move == Down then 1 else pageSize)
  {
    match active
    case NaN => NaN
    case Finite(a) =>
      match move
      case Up => Finite(a - 1)
      case Down => Finite(a + 1)
      case PageUp => Finite(a - pageSize)
      case PageDown => Finite(a + pageSize)
  }

  /** `Math.min(Math.max(raw, 0), count - 1)`: the nearest index of a list of
      `count` items, or -1 when the list is empty; NaN propagates. */
  function Clamp(raw: Num, count: nat): (r: Num)
    ensures raw.NaN? <==> r.NaN?
    ensures raw.Finite? && count > 0 ==> 0 <= r.n < count
    ensures raw.Finite? && count == 0 ==> r.n == -1
    ensures raw.Finite? && 0 <= raw.n < count ==> r == raw
    ensures raw.Finite? && count > 0 && raw.n < 0 ==> r.n == 0
    ensures raw.Finite? && raw.n >= count ==> r.n == count - 1
  {
    match raw
    case NaN => NaN
    case Finite(x) =>
      var low := if x < 0 then 0 else x;
      Finite(if low < count - 1 then low else count - 1)
  }

  /** JavaScript's `%`: NaN when an operand is NaN or the divisor is zero;
      otherwise the remainder of truncating division, which takes the sign
      of the dividend (unlike Dafny's Euclidean `%`). */
  function JsRem(a: Num, b: Num): (r: Num)
    ensures r.NaN? <==> a.NaN? || b.NaN? || b.n == 0
    ensures r.Finite? ==> Abs(r.n) < Abs(b.n)
    ensures r.Finite? ==> (r.n < 0 ==> a.n < 0) && (r.n > 0 ==> a.n > 0)
    ensures r.Finite? ==> Abs(a.n) == Abs(b.n) * (Abs(a.n) / Abs(b.n)) + Abs(r.n)
  {
    if a.NaN? || b.NaN? || b.n == 0 then NaN
    else
      var m := Abs(a.n) % Abs(b.n);
      Finite(if a.n < 0 then -m else m)
  }

  /** The loop branch exactly as written: `children?.length ?? 0 % newOffset`
      parses as `children?.length ?? (0 % newOffset)`. */
  function LoopAsWritten(children: Option<seq<Item>>, raw: Num): (r: Num)
  {
    match children
    case Some(cs) => Finite(|cs|)
    case None => JsRem(Finite(0), raw)
  }

  /** The wrap-around the `loop` option documents (src/types/config.ts:20):
      `((raw % count) + count) % count` with JavaScript's `%`, and 0 for an
      empty or pending list. The session keeps the branch as written; this
      is the corrected definition beside it. */
  function LoopWrapped(raw: Num, count: nat): (r: Num)
    ensures count == 0 ==> r == Finite(0)
    ensures count > 0 ==> (r.NaN? <==> raw.NaN?)
  {
    if count == 0 then Finite(0)
    else
      match JsRem(raw, Finite(count))
      case NaN => NaN
      case Finite(m) => JsRem(Finite(m + count), Finite(count))
  }

  /** Euclidean division is determined by its remainder's range. */
  lemma {:induction false} ModUnique(x: int, d: nat, q: int, r: int)
    requires d > 0 && 0 <= r < d && x == d * q + r
    ensures x % d == r
  {
    var q' := x / d;
    var r' := x % d;
    assert x == d * q' + r';
    assert d * q - d * q' == r' - r;
    assert d * (q - q') == r' - r;
    MultipleBound(d, q - q');
  }

  /** A non-zero multiple of `d` is at least `d` in magnitude. */
  lemma MultipleBound(d: nat, k: int)
    requires d > 0
    ensures k > 0 ==> d * k >= d
    ensures k < 0 ==> d * k <= -(d as int)
  {
    if k > 0 {
      PositiveMultiple(d, k);
    } else if k < 0 {
      PositiveMultiple(d, -k);
      assert d * k == -(d * (-k));
    }
  }

  lemma {:induction false} PositiveMultiple(d: nat, k: nat)
    requires d > 0 && k > 0
    ensures d * k >= d
    decreases k
  {
    if k > 1 {
      PositiveMultiple(d, k - 1);
      assert d * k == d * (k - 1) + d;
    }
  }

  /** The corrected cursor lies on an item of a non-empty list. */
  lemma LoopWrappedInRange(raw: Num, count: nat)
    requires raw.Finite? && count > 0
    ensures LoopWrapped(raw, count).Finite?
    ensures 0 <= LoopWrapped(raw, count).n < count
  {
  }

  /** The corrected cursor is the Euclidean remainder of the raw offset. */
  lemma LoopWrappedIsEuclidean(raw: Num, count: nat)
    requires raw.Finite? && count > 0
    ensures LoopWrapped(raw, count) == Finite(raw.n % count)
  {
    var m := JsRem(raw, Finite(count)).n;
    var w := JsRem(Finite(m + count), Finite(count)).n;
    var q := Abs(raw.n) / count;
    var q2 := (m + count) / count;
    assert Abs(raw.n) == count * q + Abs(m);
    assert m + count == count * q2 + w;
    if raw.n >= 0 {
      assert raw.n == count * q + count * q2 - count + w;
      assert raw.n == count * (q + q2 - 1) + w;
    } else {
      assert raw.n == -(count * q) + count * q2 - count + w;
      assert raw.n == count * (-q + q2 - 1) + w;
    }
    ModUnique(raw.n, count, if raw.n >= 0 then q + q2 - 1 else -q + q2 - 1, w);
  }

  /** The branch as written never agrees with the wrap-around on a loaded,
      non-empty list, whatever the raw offset. */
  lemma LoopAsWrittenIsNotWrap(cs: seq<Item>, raw: Num)
    requires |cs| > 0
    ensures LoopAsWritten(Some(cs), raw) != LoopWrapped(raw, |cs|)
  {
    if raw.Finite? {
      LoopWrappedInRange(raw, |cs|);
    }
  }

  /** The new cursor after a cursor key. */
  function NextActive(loop: bool, children: Option<seq<Item>>, active: Num,
                      move: Move, pageSize: int): (r: Num)
  {
    var raw := Raw(move, active, pageSize);
    if loop then LoopAsWritten(children, raw)
    else Clamp(raw, |children.GetOr([])|)
  }

  /** The item under the cursor: `children[active]`, undefined while the
      children are pending or when the cursor is outside the list. */
  function ActiveItem(children: Option<seq<Item>>, active: Num): (r: Option<Item>)
    ensures r.Some? <==>
      children.Some? && active.Finite? && 0 <= active.n < |children.value|
    ensures r.Some? ==> r.value == children.value[active.n]
  {
    if children.Some? && active.Finite? && 0 <= active.n < |children.value|
    then Some(children.value[active.n]) else None
  }

  /** Without looping, a cursor key leaves the cursor on an item of a
      non-empty loaded list, and at exactly -1 when the list is empty or
      still pending, whatever the direction and the page size. */
  lemma ClampedMoveInRange(children: Option<seq<Item>>, a: int, move: Move,
                           pageSize: int)
    ensures var r := NextActive(false, children, Finite(a), move, pageSize);
      r.Finite? &&
      (|children.GetOr([])| > 0 ==> 0 <= r.n < |children.GetOr([])|) &&
      (|children.GetOr([])| == 0 ==> r.n == -1)
    ensures |children.GetOr([])| > 0 <==>
      ActiveItem(children, NextActive(false, children, Finite(a), move, pageSize)).Some?
  {
  }

  /** With looping and loaded children, every cursor key puts the cursor one
      past the last item, whatever the direction and starting point, so no
      item is under the cursor afterwards: the branch does not wrap. */
  lemma LoopLandsPastEnd(cs: seq<Item>, active: Num, move: Move, pageSize: int)
    ensures NextActive(true, Some(cs), active, move, pageSize) == Finite(|cs|)
    ensures ActiveItem(Some(cs), NextActive(true, Some(cs), active, move, pageSize)).None?
  {
  }

  /** With looping and pending children, the cursor becomes `0 % raw`: 0,
      or NaN when the raw offset is 0 or NaN. */
  lemma LoopWhilePending(active: Num, move: Move, pageSize: int)
    ensures var raw := Raw(move, active, pageSize);
      var r := NextActive(true, None, active, move, pageSize);
      (r.NaN? <==> raw.NaN? || raw.n == 0) && (r.Finite? ==> r.n == 0)
  {
  }

  /** Applying cursor keys in turn, with a fixed child list. */
  function Navigate(loop: bool, children: Option<seq<Item>>, active: Num,
                    moves: seq<Move>, pageSize: int): (r: Num)
    decreases |moves|
  {
    if moves == [] then active
    else Navigate(loop, children, NextActive(loop, children, active, moves[0], pageSize),
                  moves[1..], pageSize)
  }

  /** Without looping, any non-empty run of cursor keys keeps the cursor on
      an item of a non-empty list, and at -1 on an empty or pending one, for
      every starting integer. */
  lemma {:induction false} NavigateInRange(children: Option<seq<Item>>, a: int,
                                           moves: seq<Move>, pageSize: int)
    requires moves != []
    ensures var r := Navigate(false, children, Finite(a), moves, pageSize);
      r.Finite? &&
      (|children.GetOr([])| > 0 ==> 0 <= r.n < |children.GetOr([])|) &&
      (|children.GetOr([])| == 0 ==> r.n == -1)
    decreases |moves|
  {
    var next := NextActive(false, children, Finite(a), moves[0], pageSize);
    ClampedMoveInRange(children, a, moves[0], pageSize);
    if moves[1..] != [] {
      NavigateInRange(children, next.n, moves[1..], pageSize);
    }
  }
}
