/** Properties of the prompt session (src/index.ts:66-214). */
module PromptProperties {
  import opened Wrappers
  import opened Items
  import opened Keys
  import opened Cursor
  import opened Selection
  import opened Summary
  import opened Prompt

  /** A key the framework classifies neither as Enter nor as Space. */
  predicate NotConfirmOrSpace(c: Config, k: KeyEvent) {
    !c.keys.isEnter(k) && !c.keys.isSpace(k)
  }

  /** One key event handled while idle keeps the session invariant, keeps
      the root, and moves the status out of Idle only together with a call
      of `done` with the matching answer. */
  lemma KeyStepKeepsConsistent(c: Config, s: State, k: KeyEvent, root: Item)
    requires Consistent(s, root) && s.status == Idle
    ensures var t := KeyStep(c, s, k);
      Consistent(t, root) &&
      (t.status == Done ==> t.result.value.One? || t.result.value.Many?) &&
      (t.status == Idle ==> t.result.None?)
  {
    var t := KeyStep(c, s, k);
    forall i | 1 <= i < |t.stack| ensures Navigable(t.stack[i]) {
      if i < |s.stack| {
        assert t.stack[i] == s.stack[i];
      }
    }
  }

  /** No branch of the handler sets the status back to Idle or takes back
      the answer: a finished session stays finished whatever key arrives. */
  lemma FinishedNeverIdle(c: Config, s: State, k: KeyEvent)
    requires s.status != Idle && s.result.Some?
    ensures KeyStep(c, s, k).status != Idle && KeyStep(c, s, k).result.Some?
  {
  }

  /** The handler itself does not check the status: were a key delivered
      after `done`, Escape with cancelling allowed would turn Done into
      Canceled. That the status changes at most once rests on the framework
      delivering no key after `done`. */
  lemma KeyAfterDoneCancels(c: Config, s: State, k: KeyEvent)
    requires s.status == Done && c.allowCancel && IsEscapeKey(k) && NotConfirmOrSpace(c, k)
    ensures KeyStep(c, s, k).status == Canceled && KeyStep(c, s, k).result == Some(Null)
  {
  }

  /** The answer has the type the overloads at src/index.ts:29-47 declare:
      one value in single mode, a list in multiple mode, and null only when
      cancelling is allowed. */
  ghost predicate AnswerFits(c: Config, s: State) {
    s.result.Some? ==>
      (s.result.value.One? ==> !c.multiple) &&
      (s.result.value.Many? ==> c.multiple) &&
      (s.result.value.Null? ==> c.allowCancel)
  }

  /** The answer a key produces from an idle state fits the configuration. */
  lemma KeyStepAnswerFits(c: Config, s: State, k: KeyEvent)
    requires s.status == Idle && s.result.None?
    ensures AnswerFits(c, KeyStep(c, s, k))
  {
  }

  /** Along any run in which keys arrive only while idle, the answer, once
      given, fits the configuration. */
  lemma {:induction false} RunAnswerFits(c: Config, s: State, events: seq<Event>, root: Item)
    requires Consistent(s, root) && AnswerFits(c, s) && KeysWhileIdle(c, s, events)
    ensures AnswerFits(c, Run(c, s, events))
    decreases |events|
  {
    if events != [] {
      match events[0] {
        case Key(k) =>
          KeyStepKeepsConsistent(c, s, k, root);
          KeyStepAnswerFits(c, s, k);
        case _ => LoadEventsTouchOnlyChildren(c, s, events[0]);
      }
      RunAnswerFits(c, Apply(c, s, events[0]), events[1..], root);
    }
  }

  /** Loading events touch only the loaded children. */
  lemma LoadEventsTouchOnlyChildren(c: Config, s: State, e: Event)
    requires |s.stack| >= 1 && !e.Key?
    ensures Apply(c, s, e) == s.(children := Apply(c, s, e).children)
  {
  }

  /** Along any sequence of events in which keys arrive only while idle,
      the invariant holds throughout, and once the session has finished its
      status and answer never change again: the status leaves Idle at most
      once. */
  lemma {:induction false} RunKeepsConsistent(c: Config, s: State, events: seq<Event>, root: Item)
    requires Consistent(s, root) && KeysWhileIdle(c, s, events)
    ensures Consistent(Run(c, s, events), root)
    ensures s.status != Idle ==>
      Run(c, s, events).status == s.status && Run(c, s, events).result == s.result
    decreases |events|
  {
    if events != [] {
      var next := Apply(c, s, events[0]);
      match events[0] {
        case Key(k) => KeyStepKeepsConsistent(c, s, k, root);
        case _ => LoadEventsTouchOnlyChildren(c, s, events[0]);
      }
      RunKeepsConsistent(c, next, events[1..], root);
    }
  }

  /** Right on an item with children pushes it and changes nothing else;
      Left then pops it, restoring the state exactly. Neither resets the
      cursor, the selection or the status. */
  lemma RightThenLeft(c: Config, s: State, right: KeyEvent, left: KeyEvent)
    requires |s.stack| >= 1
    requires NotConfirmOrSpace(c, right) && IsRightKey(right)
    requires NotConfirmOrSpace(c, left) && IsLeftKey(left)
    requires Active(s).Some? && Navigable(Active(s).value)
    ensures KeyStep(c, s, right) == s.(stack := s.stack + [Active(s).value])
    ensures KeyStep(c, KeyStep(c, s, right), left) == s
  {
    var t := KeyStep(c, s, right);
    assert t.stack[..|t.stack| - 1] == s.stack;
  }

  /** Loading events between Right and Left do not disturb the round trip:
      everything but the loaded children is as before. */
  lemma {:induction false} RightLoadsLeft(c: Config, s: State, right: KeyEvent,
                                          loads: seq<Event>, left: KeyEvent)
    requires |s.stack| >= 1
    requires NotConfirmOrSpace(c, right) && IsRightKey(right)
    requires NotConfirmOrSpace(c, left) && IsLeftKey(left)
    requires Active(s).Some? && Navigable(Active(s).value)
    requires forall i :: 0 <= i < |loads| ==> !loads[i].Key?
    ensures var t := Run(c, s, [Key(right)] + loads + [Key(left)]);
      t == s.(children := t.children)
  {
    var pushed := KeyStep(c, s, right);
    RightThenLeft(c, s, right, left);
    var mid := Run(c, pushed, loads);
    LoadsTouchOnlyChildren(c, pushed, loads);
    assert ([Key(right)] + loads + [Key(left)])[1..] == loads + [Key(left)];
    RunAppend(c, pushed, loads, [Key(left)]);
    assert mid.stack == pushed.stack;
    assert mid.stack[..|mid.stack| - 1] == s.stack;
  }

  lemma {:induction false} LoadsTouchOnlyChildren(c: Config, s: State, loads: seq<Event>)
    requires |s.stack| >= 1
    requires forall i :: 0 <= i < |loads| ==> !loads[i].Key?
    ensures Run(c, s, loads) == s.(children := Run(c, s, loads).children)
    decreases |loads|
  {
    if loads != [] {
      LoadEventsTouchOnlyChildren(c, s, loads[0]);
      LoadsTouchOnlyChildren(c, Apply(c, s, loads[0]), loads[1..]);
    }
  }

  lemma {:induction false} RunAppend(c: Config, s: State, a: seq<Event>, b: seq<Event>)
    requires |s.stack| >= 1
    ensures Run(c, s, a + b) == Run(c, Run(c, s, a), b)
    decreases |a|
  {
    if a != [] {
      assert (a + b)[1..] == a[1..] + b;
      RunAppend(c, Apply(c, s, a[0]), a[1..], b);
    } else {
      assert a + b == b;
    }
  }

  /** Left above the root pops the top of the stack from any state and
      changes nothing else; in particular the cursor is not reset. */
  lemma LeftPops(c: Config, s: State, k: KeyEvent)
    requires NotConfirmOrSpace(c, k) && IsLeftKey(k) && |s.stack| > 1
    ensures KeyStep(c, s, k) == s.(stack := s.stack[..|s.stack| - 1])
  {
  }

  /** A key that is none of the nine the handler knows changes nothing. */
  lemma OtherKeyIgnored(c: Config, s: State, k: KeyEvent)
    requires NotConfirmOrSpace(c, k) && !c.keys.isUp(k) && !c.keys.isDown(k)
    requires k.name !in KeyNames
    ensures KeyStep(c, s, k) == s
  {
    ClassifiersMatchTable(k);
  }

  /** Right when no item is active, or on a leaf, changes nothing. */
  lemma RightOnLeafIgnored(c: Config, s: State, k: KeyEvent)
    requires NotConfirmOrSpace(c, k) && IsRightKey(k)
    requires Active(s).None? || Active(s).value.children.NoChildren?
    ensures KeyStep(c, s, k) == s
  {
  }

  /** Left at the root is not a navigation: it falls through to the cursor
      keys and, when the framework does not call it Up or Down, changes
      nothing. */
  lemma LeftAtRootIgnored(c: Config, s: State, k: KeyEvent)
    requires NotConfirmOrSpace(c, k) && IsLeftKey(k) && |s.stack| == 1
    requires !c.keys.isUp(k) && !c.keys.isDown(k)
    ensures KeyStep(c, s, k) == s
  {
  }

  /** Space in multiple mode toggles the active value and changes nothing
      else; with no active item or no value it changes nothing. */
  lemma SpaceTogglesInMultipleMode(c: Config, s: State, k: KeyEvent)
    requires c.multiple && !c.keys.isEnter(k) && c.keys.isSpace(k)
    ensures ActiveValue(s).None? ==> KeyStep(c, s, k) == s
    ensures ActiveValue(s).Some? ==>
      KeyStep(c, s, k) == s.(selected := Toggle(s.selected, ActiveValue(s).value))
  {
  }

  /** Pressing Space twice on an active value that is not selected leaves
      the session exactly as it was. */
  lemma SpaceTwiceRestores(c: Config, s: State, k: KeyEvent)
    requires c.multiple && !c.keys.isEnter(k) && c.keys.isSpace(k)
    requires ActiveValue(s).Some? && Some(ActiveValue(s).value) !in s.selected
    ensures KeyStep(c, KeyStep(c, s, k), k) == s
  {
    ToggleTwiceAbsent(s.selected, ActiveValue(s).value);
  }

  /** In single mode, Enter or Space finishes with the active item's value
      exactly when there is an active item with a value; otherwise nothing
      changes. */
  lemma ConfirmInSingleMode(c: Config, s: State, k: KeyEvent)
    requires !c.multiple && (c.keys.isEnter(k) || c.keys.isSpace(k))
    ensures KeyStep(c, s, k).status == Done <==> s.status == Done || ActiveValue(s).Some?
    ensures ActiveValue(s).Some? ==>
      KeyStep(c, s, k) == s.(status := Done, result := Some(One(ActiveValue(s).value)))
    ensures ActiveValue(s).None? ==> KeyStep(c, s, k) == s
  {
  }

  /** In multiple mode Enter always finishes with the current selection,
      even an empty one, whatever the cursor is on. */
  lemma EnterInMultipleMode(c: Config, s: State, k: KeyEvent)
    requires c.multiple && c.keys.isEnter(k)
    ensures KeyStep(c, s, k) == s.(status := Done, result := Some(Many(s.selected)))
  {
  }

  /** Enter in multiple mode right at the start answers with the seeded
      list; with no initial selection that list is `[undefined]`. */
  lemma EnterAtStart(c: Config, tree: Item, init: InitialSelection, k: KeyEvent)
    requires c.multiple && c.keys.isEnter(k)
    ensures KeyStep(c, Init(tree, init), k).result == Some(Many(Seed(init)))
    ensures init.Unset? ==> KeyStep(c, Init(tree, init), k).result == Some(Many([None]))
  {
  }

  /** Cancel happens only for Escape or "q" with cancelling allowed, and
      then answers null; with cancelling allowed such a key always cancels
      unless the framework calls it Enter or Space. */
  lemma CancelOnlyWhenAllowed(c: Config, s: State, k: KeyEvent)
    requires s.status == Idle
    ensures KeyStep(c, s, k).status == Canceled ==>
      c.allowCancel && IsEscapeKey(k) && KeyStep(c, s, k).result == Some(Null)
    ensures c.allowCancel && IsEscapeKey(k) && NotConfirmOrSpace(c, k) ==>
      KeyStep(c, s, k) == s.(status := Canceled, result := Some(Null))
  {
  }

  /** Without cancelling, Escape or "q" changes nothing unless the framework
      calls it a cursor key. */
  lemma EscapeIgnoredWhenDisallowed(c: Config, s: State, k: KeyEvent)
    requires !c.allowCancel && IsEscapeKey(k) && NotConfirmOrSpace(c, k)
    requires !c.keys.isUp(k) && !c.keys.isDown(k)
    ensures KeyStep(c, s, k) == s
  {
  }

  /** A cursor key changes the cursor and nothing else. Without looping the
      cursor lands on an item of a non-empty list, or at -1. */
  lemma CursorKeysMoveOnlyCursor(c: Config, s: State, k: KeyEvent, m: Move)
    requires Dispatch(c, |s.stack|, k) == MoveCursor(m)
    ensures KeyStep(c, s, k) == s.(active := NextActive(c.loop, s.children, s.active, m, c.pageSize))
    ensures !c.loop && s.active.Finite? ==>
      var n := |s.children.GetOr([])|;
      var a := KeyStep(c, s, k).active;
      (n > 0 ==> 0 <= a.n < n) && (n == 0 ==> a == Finite(-1))
  {
    if !c.loop && s.active.Finite? {
      ClampedMoveInRange(s.children, s.active.n, m, c.pageSize);
    }
  }

  /** With looping on and children loaded, a cursor key leaves no item
      under the cursor, so in single mode a following Enter does nothing. */
  lemma LoopingLosesActiveItem(c: Config, s: State, k: KeyEvent, m: Move, enter: KeyEvent)
    requires c.loop && s.children.Some?
    requires Dispatch(c, |s.stack|, k) == MoveCursor(m)
    requires !c.multiple && c.keys.isEnter(enter)
    ensures Active(KeyStep(c, s, k)).None?
    ensures KeyStep(c, KeyStep(c, s, k), enter) == KeyStep(c, s, k)
  {
    LoopLandsPastEnd(s.children.value, s.active, m, c.pageSize);
  }

  /** The effect then the tick of a node without a resolver shows that
      node's static children, or nothing for a leaf. */
  lemma StaticLoadShowsCurrentChildren(s: State)
    requires |s.stack| >= 1 && !Current(s).children.Resolver?
    ensures LoadFor(Current(s)).NextTick?
    ensures var t := Resolved(StartLoad(s), Some(LoadFor(Current(s)).items));
      t.children == Some(if Current(s).children.Static? then Current(s).children.items else [])
  {
  }

  /** A resolver's node shows as pending until a result arrives; a null or
      undefined result shows as an empty list. */
  lemma ResolverLoadPending(s: State)
    requires |s.stack| >= 1 && Current(s).children.Resolver?
    ensures StartLoad(s).children.None? && Active(StartLoad(s)).None?
    ensures Resolved(StartLoad(s), None).children == Some([])
  {
  }

  /** Results are applied without checking which node they were for: after
      Left, a result arriving from the child's resolver is shown under the
      parent. */
  lemma StaleResultShownUnderParent(c: Config, s: State, left: KeyEvent, xs: seq<Item>)
    requires NotConfirmOrSpace(c, left) && IsLeftKey(left) && |s.stack| > 1
    requires Current(s).children.Resolver?
    ensures var t := Resolved(KeyStep(c, s, left), Some(xs));
      t.stack == s.stack[..|s.stack| - 1] && t.children == Some(xs)
  {
  }

  /** A finished single-mode session shows the name of the item whose
      value it answered with. */
  lemma SingleDoneShowsName(c: Config, s: State, k: KeyEvent)
    requires !c.multiple && s.status == Idle && (c.keys.isEnter(k) || c.keys.isSpace(k))
    requires ActiveValue(s).Some?
    ensures KeyStep(c, s, k).result == Some(One(Active(s).value.value.value))
    ensures View(c, KeyStep(c, s, k)) == AnswerScreen(Active(s).value.name)
  {
  }

  /** A finished multiple-mode session shows the count summary only when an
      item is under the cursor; otherwise the prompt is drawn as if idle. */
  lemma MultipleDoneView(c: Config, s: State, k: KeyEvent)
    requires c.multiple && s.status == Idle && c.keys.isEnter(k)
    ensures Active(s).Some? ==>
      View(c, KeyStep(c, s, k)) == AnswerScreen(SummaryText(|s.selected|))
    ensures Active(s).None? ==> View(c, KeyStep(c, s, k)).PromptScreen?
  {
  }

  /** A cancelled session shows the cancel text. */
  lemma CanceledView(c: Config, s: State)
    requires s.status == Canceled
    ensures View(c, s) == CanceledScreen(c.cancelText)
  {
  }

  /** While idle the prompt shows a loading text while the children are
      pending, the empty text for an empty list, and otherwise one row per
      child, marked active exactly at the cursor and selected exactly when
      its value is in the selection. */
  lemma IdleView(c: Config, s: State)
    requires s.status == Idle
    ensures View(c, s).PromptScreen?
    ensures View(c, s).content == Loading <==> s.children.None?
    ensures View(c, s).content.EmptyList? <==> s.children == Some([])
    ensures s.children == Some([]) ==> View(c, s) == PromptScreen(EmptyList(c.emptyText))
    ensures View(c, s).content.Rows? ==>
      var rows := View(c, s).content.rows;
      |rows| == |s.children.value| &&
      forall i :: 0 <= i < |rows| ==>
        rows[i].item == s.children.value[i] &&
        (rows[i].isActive <==> s.active == Finite(i)) &&
        (rows[i].isSelected <==> s.children.value[i].value.Some? &&
                                 s.children.value[i].value in s.selected)
  {
  }

  /** Key events for a sequence of keys. */
  function Keyed(ks: seq<KeyEvent>): (es: seq<Event>)
    ensures |es| == |ks| && forall i :: 0 <= i < |ks| ==> es[i] == Key(ks[i])
  {
    seq(|ks|, i requires 0 <= i < |ks| => Key(ks[i]))
  }

  /** A run of keys that all take the cursor branch moves the cursor as
      `Navigate` does and changes nothing else. */
  lemma {:induction false} CursorRunIsNavigate(c: Config, s: State, ks: seq<KeyEvent>, ms: seq<Move>)
    requires |s.stack| >= 1 && |ms| == |ks|
    requires forall i :: 0 <= i < |ks| ==> Dispatch(c, |s.stack|, ks[i]) == MoveCursor(ms[i])
    ensures Run(c, s, Keyed(ks)) ==
      s.(active := Navigate(c.loop, s.children, s.active, ms, c.pageSize))
    decreases |ks|
  {
    if ks != [] {
      var next := KeyStep(c, s, ks[0]);
      assert next == s.(active := NextActive(c.loop, s.children, s.active, ms[0], c.pageSize));
      assert Keyed(ks)[1..] == Keyed(ks[1..]);
      CursorRunIsNavigate(c, next, ks[1..], ms[1..]);
    }
  }

  /** Without looping, the cursor stays an integer whatever events arrive:
      it never becomes NaN. */
  lemma {:induction false} LoopOffCursorFinite(c: Config, s: State, events: seq<Event>)
    requires |s.stack| >= 1 && !c.loop && s.active.Finite?
    ensures Run(c, s, events).active.Finite?
    decreases |events|
  {
    if events != [] {
      if events[0].Key? && Dispatch(c, |s.stack|, events[0].key).MoveCursor? {
        ClampedMoveInRange(s.children, s.active.n, Dispatch(c, |s.stack|, events[0].key).move, c.pageSize);
      }
      LoopOffCursorFinite(c, Apply(c, s, events[0]), events[1..]);
    }
  }
}
