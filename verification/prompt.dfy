/** The prompt session of the tree selector (src/index.ts:50-216) as a pure
    state machine: the state the session keeps, the key handler, the
    child-loading effect and its completion, and the decisions of the
    render. The class Session.Session runs these steps in place. */
module Prompt {
  import opened Wrappers
  import opened Items
  import opened Keys
  import opened Cursor
  import opened Selection
  import opened Summary

  datatype Status = Idle | Done | Canceled

  /** What `done(...)` is called with. */
  datatype Answer = One(value: string) | Many(values: Selected) | Null

  /** The options a caller may leave out. */
  datatype Options = Options(
    pageSize: Option<int>, loop: Option<bool>, allowCancel: Option<bool>,
    cancelText: Option<string>, emptyText: Option<string>, multiple: Option<bool>)

  /** The session's configuration once defaults are applied, with the four
      framework key classifiers. */
  datatype Config = Config(
    pageSize: int, loop: bool, allowCancel: bool, cancelText: string,
    emptyText: string, multiple: bool, keys: CoreKeys)

  const DefaultPageSize := 10
  const DefaultCancelText := "Canceled."
  const DefaultEmptyText := "No items available."

  /** Destructuring with defaults: an option left out takes its default
      (10 rows, no loop, no cancel, single mode and the two texts). */
  function WithDefaults(o: Options, keys: CoreKeys): (c: Config)
    ensures o.pageSize.None? ==> c.pageSize == DefaultPageSize
    ensures o.pageSize.Some? ==> c.pageSize == o.pageSize.value
    ensures c.loop <==> o.loop == Some(true)
    ensures c.allowCancel <==> o.allowCancel == Some(true)
    ensures c.multiple <==> o.multiple == Some(true)
    ensures o.cancelText.None? ==> c.cancelText == DefaultCancelText
    ensures o.cancelText.Some? ==> c.cancelText == o.cancelText.value
    ensures o.emptyText.None? ==> c.emptyText == DefaultEmptyText
    ensures o.emptyText.Some? ==> c.emptyText == o.emptyText.value
    ensures c.keys == keys
  {
    Config(o.pageSize.GetOr(DefaultPageSize), o.loop.GetOr(false),
           o.allowCancel.GetOr(false), o.cancelText.GetOr(DefaultCancelText),
           o.emptyText.GetOr(DefaultEmptyText), o.multiple.GetOr(false), keys)
  }

  /** The session state: the five `useState` cells, and the value `done`
      was called with (none while idle). */
  datatype State = State(
    status: Status,
    result: Option<Answer>,
    stack: seq<Item>,
    children: Option<seq<Item>>,
    active: Num,
    selected: Selected)

  /** The item under the cursor, and its value (`activeItem?.value`). */
  function Active(s: State): Option<Item> {
    ActiveItem(s.children, s.active)
  }

  function ActiveValue(s: State): Option<string> {
    if Active(s).Some? && Selectable(Active(s).value) then Active(s).value.value else None
  }

  /** The invariant of a session over the tree `root`: the root is at the
      bottom of a non-empty stack, every entered item is navigable, and
      `done` has been called exactly when the status is no longer idle,
      with `null` exactly on cancel. */
  ghost predicate Consistent(s: State, root: Item) {
    |s.stack| >= 1 && s.stack[0] == root &&
    (forall i :: 1 <= i < |s.stack| ==> Navigable(s.stack[i])) &&
    (s.status == Idle <==> s.result.None?) &&
    (s.status == Canceled <==> s.result == Some(Null))
  }

  /** The first render: idle, the root alone on the stack, children pending,
      cursor at 0, and the seeded selection. */
  function Init(tree: Item, init: InitialSelection): (s: State)
    ensures Consistent(s, tree)
    ensures s.stack == [tree] && s.active == Finite(0)
    ensures s.status == Idle && s.result.None? && s.children.None? && Active(s).None?
    ensures s.selected == Seed(init)
    ensures init.Unset? ==> s.selected == [None]
  {
    State(Idle, None, [tree], None, Finite(0), Seed(init))
  }

  /** The branch of the key handler a key takes. */
  datatype Action = Confirm | Select | Descend | Ascend | Cancel | MoveCursor(move: Move) | Ignore

  /** No branch before the cursor keys is taken. */
  predicate NoEarlierBranch(c: Config, depth: nat, k: KeyEvent) {
    !c.keys.isEnter(k) && !c.keys.isSpace(k) && !IsRightKey(k) &&
    !(IsLeftKey(k) && depth > 1) && !(IsEscapeKey(k) && c.allowCancel)
  }

  /** The handler's fixed-priority test: Enter, Space, Right, Left when the
      stack is deeper than the root, Escape when cancelling is allowed, then
      the cursor keys Up, Down, PageUp, PageDown. Each branch is taken
      exactly when its own test holds and every earlier one fails. */
  function Dispatch(c: Config, depth: nat, k: KeyEvent): (a: Action)
    ensures a == Confirm <==> c.keys.isEnter(k)
    ensures a == Select <==> !c.keys.isEnter(k) && c.keys.isSpace(k)
    ensures a == Descend <==> !c.keys.isEnter(k) && !c.keys.isSpace(k) && IsRightKey(k)
    ensures a == Ascend <==>
      !c.keys.isEnter(k) && !c.keys.isSpace(k) && !IsRightKey(k) && IsLeftKey(k) && depth > 1
    ensures a == Cancel <==>
      !c.keys.isEnter(k) && !c.keys.isSpace(k) && !IsRightKey(k) &&
      !(IsLeftKey(k) && depth > 1) && IsEscapeKey(k) && c.allowCancel
    ensures a == MoveCursor(Up) <==> NoEarlierBranch(c, depth, k) && c.keys.isUp(k)
    ensures a == MoveCursor(Down) <==>
      NoEarlierBranch(c, depth, k) && !c.keys.isUp(k) && c.keys.isDown(k)
    ensures a == MoveCursor(PageUp) <==>
      NoEarlierBranch(c, depth, k) && !c.keys.isUp(k) && !c.keys.isDown(k) && IsPageUp(k)
    ensures a == MoveCursor(PageDown) <==>
      NoEarlierBranch(c, depth, k) && !c.keys.isUp(k) && !c.keys.isDown(k) &&
      !IsPageUp(k) && IsPageDown(k)
    ensures a == Ignore <==>
      NoEarlierBranch(c, depth, k) && !c.keys.isUp(k) && !c.keys.isDown(k) &&
      !IsPageUp(k) && !IsPageDown(k)
  {
    if c.keys.isEnter(k) then Confirm
    else if c.keys.isSpace(k) then Select
    else if IsRightKey(k) then Descend
    else if IsLeftKey(k) && depth > 1 then Ascend
    else if IsEscapeKey(k) && c.allowCancel then Cancel
    else if c.keys.isUp(k) then MoveCursor(Up)
    else if c.keys.isDown(k) then MoveCursor(Down)
    else if IsPageUp(k) then MoveCursor(PageUp)
    else if IsPageDown(k) then MoveCursor(PageDown)
    else Ignore
  }

  /** Finishing the session: the status and the answer change together. */
  function Finish(s: State, status: Status, answer: Answer): State {
    s.(status := status, result := Some(answer))
  }

  /** The key handler (src/index.ts:96-169). The stack changes in two ways
      only: the active item is pushed when it is navigable, or the top is
      popped when the stack is deeper than the root. */
  function KeyStep(c: Config, s: State, k: KeyEvent): (t: State)
    ensures t.stack == s.stack ||
      (Active(s).Some? && Navigable(Active(s).value) && t.stack == s.stack + [Active(s).value]) ||
      (|s.stack| > 1 && t.stack == s.stack[..|s.stack| - 1])
  {
    match Dispatch(c, |s.stack|, k)
    case Confirm =>
      if c.multiple then Finish(s, Done, Many(s.selected))
      else if ActiveValue(s).None? then s
      else Finish(s, Done, One(ActiveValue(s).value))
    case Select =>
      if ActiveValue(s).None? then s
      else if c.multiple then s.(selected := Toggle(s.selected, ActiveValue(s).value))
      else Finish(s, Done, One(ActiveValue(s).value))
    case Descend =>
      if Active(s).Some? && Navigable(Active(s).value)
      then s.(stack := s.stack + [Active(s).value]) else s
    case Ascend => s.(stack := s.stack[..|s.stack| - 1])
    case Cancel => Finish(s, Canceled, Null)
    case MoveCursor(m) => s.(active := NextActive(c.loop, s.children, s.active, m, c.pageSize))
    case Ignore => s
  }

  /** What the loading effect starts for the current node: a call of its
      resolver, or the delivery of its static list (empty for a leaf) on
      the next tick. The resolver is called without an argument. */
  datatype Load = CallResolver(token: nat) | NextTick(items: seq<Item>)

  function Current(s: State): Item
    requires |s.stack| >= 1
  {
    s.stack[|s.stack| - 1]
  }

  function LoadFor(item: Item): Load {
    match item.children
    case Resolver(t) => CallResolver(t)
    case Static(items) => NextTick(items)
    case NoChildren => NextTick([])
  }

  /** The synchronous part of the effect (src/index.ts:79-90): only the
      resolver path marks the children as pending; for a static list the
      previous node's children stay on screen until the tick. */
  function StartLoad(s: State): State
    requires |s.stack| >= 1
  {
    if Current(s).children.Resolver? then s.(children := None) else s
  }

  /** A load completes: the result, or an empty list for null/undefined,
      becomes the children. Nothing checks which node it was for. */
  function Resolved(s: State, r: Option<seq<Item>>): State {
    s.(children := Some(r.GetOr([])))
  }

  /** The events a session sees. */
  datatype Event = Key(key: KeyEvent) | CurrentChanged | ChildrenResolved(result: Option<seq<Item>>)

  function Apply(c: Config, s: State, e: Event): (t: State)
    requires |s.stack| >= 1
    ensures |t.stack| >= 1 && t.stack[0] == s.stack[0]
  {
    match e
    case Key(k) => KeyStep(c, s, k)
    case CurrentChanged => StartLoad(s)
    case ChildrenResolved(r) => Resolved(s, r)
  }

  /** The state after a sequence of events. */
  function Run(c: Config, s: State, events: seq<Event>): (t: State)
    requires |s.stack| >= 1
    ensures |t.stack| >= 1
    decreases |events|
  {
    if events == [] then s else Run(c, Apply(c, s, events[0]), events[1..])
  }

  /** The prompt framework delivers keys only until `done` has been called:
      every key event of the sequence arrives in an idle state. */
  predicate KeysWhileIdle(c: Config, s: State, events: seq<Event>)
    requires |s.stack| >= 1
    decreases |events|
  {
    events == [] ||
    ((events[0].Key? ==> s.status == Idle) &&
     KeysWhileIdle(c, Apply(c, s, events[0]), events[1..]))
  }

  // ---------------------------------------------------------------------
  // The render's decisions (src/index.ts:171-214)

  datatype Row = Row(item: Item, isActive: bool, isSelected: bool)
  datatype Content = Loading | EmptyList(text: string) | Rows(rows: seq<Row>)
  datatype Screen =
    | CanceledScreen(cancelText: string)
    | AnswerScreen(answer: string)
    | PromptScreen(content: Content)

  /** The rows handed to the pagination: every loaded child with whether
      it is under the cursor and whether its value is selected. */
  function RowsOf(cs: seq<Item>, s: State): seq<Row> {
    seq(|cs|, i requires 0 <= i < |cs| =>
      Row(cs[i], s.active == Finite(i), RowSelected(cs[i], s.selected)))
  }

  /** What is shown. The pagination of an empty list is taken to be empty
      and of a non-empty list non-empty. */
  function View(c: Config, s: State): Screen {
    if s.status == Canceled then CanceledScreen(c.cancelText)
    else if Active(s).Some? && s.status == Done then
      if c.multiple then AnswerScreen(SummaryText(|s.selected|))
      else AnswerScreen(Active(s).value.name)
    else if s.children.None? then PromptScreen(Loading)
    else if s.children.value == [] then PromptScreen(EmptyList(c.emptyText))
    else PromptScreen(Rows(RowsOf(s.children.value, s)))
  }
}
