/** The prompt session as an object whose fields the key handler and the
    loading effect update in place (src/index.ts:66-169). Each method is
    proved to perform the corresponding step of module Prompt. */
module Session {
  import opened Wrappers
  import opened Items
  import opened Keys
  import opened Cursor
  import opened Selection
  import opened Prompt
  import PromptProperties

  class Session {
    const config: Config
    const root: Item

    var status: Status
    var result: Option<Answer>     // the argument of `done`, once called
    var itemStack: seq<Item>
    var children: Option<seq<Item>>
    var active: Num
    var selectedItems: Selected

    function Snapshot(): State
      reads this
    {
      State(status, result, itemStack, children, active, selectedItems)
    }

    ghost predicate Valid()
      reads this
    {
      Consistent(Snapshot(), root)
    }

    /** The first render of `treeSelector(config)`. */
    constructor (tree: Item, options: Options, keys: CoreKeys, init: InitialSelection)
      ensures Valid() && root == tree
      ensures config == WithDefaults(options, keys)
      ensures Snapshot() == Init(tree, init)
    {
      config := WithDefaults(options, keys);
      root := tree;
      status := Idle;
      result := None;
      itemStack := [tree];
      children := None;
      active := Finite(0);
      selectedItems := Seed(init);
    }

    /** The key handler. The framework stops delivering keys once `done`
        has been called, so the session is idle on entry. */
    method HandleKey(k: KeyEvent)
      requires Valid() && status == Idle
      modifies this
      ensures Valid()
      ensures Snapshot() == KeyStep(config, old(Snapshot()), k)
    {
      ghost var s := Snapshot();
      var activeItem := ActiveItem(children, active);
      var activeValue := if activeItem.Some? then activeItem.value.value else None;
      if config.keys.isEnter(k) {
        if config.multiple {
          status, result := Done, Some(Many(selectedItems));
        } else if activeValue.Some? {
          status, result := Done, Some(One(activeValue.value));
        }
      } else if config.keys.isSpace(k) {
        if activeValue.Some? {
          if config.multiple {
            selectedItems := Toggle(selectedItems, activeValue.value);
          } else {
            status, result := Done, Some(One(activeValue.value));
          }
        }
      } else if IsRightKey(k) {
        if activeItem.Some? && Navigable(activeItem.value) {
          itemStack := itemStack + [activeItem.value];
        }
      } else if IsLeftKey(k) && |itemStack| > 1 {
        itemStack := itemStack[..|itemStack| - 1];
      } else if IsEscapeKey(k) && config.allowCancel {
        status, result := Canceled, Some(Null);
      } else if config.keys.isUp(k) || config.keys.isDown(k) || IsPageUp(k) || IsPageDown(k) {
        var move :=
          if config.keys.isUp(k) then Up
          else if config.keys.isDown(k) then Down
          else if IsPageUp(k) then PageUp
          else PageDown;
        active := NextActive(config.loop, children, active, move, config.pageSize);
      }
      PromptProperties.KeyStepKeepsConsistent(config, s, k, root);
    }

    /** The loading effect, run when the current node changes: it returns
        the load it starts and marks the children pending for a resolver. */
    method CurrentChanged() returns (load: Load)
      requires Valid()
      modifies this`children
      ensures Valid()
      ensures load == LoadFor(Current(old(Snapshot())))
      ensures Snapshot() == StartLoad(old(Snapshot()))
    {
      var current := itemStack[|itemStack| - 1];
      match current.children {
        case Resolver(t) =>
          children := None;
          load := CallResolver(t);
        case Static(items) =>
          load := NextTick(items);
        case NoChildren =>
          load := NextTick([]);
      }
    }

    /** A started load completes with `r`; it is applied whichever node is
        current by then. */
    method ChildrenResolved(r: Option<seq<Item>>)
      requires Valid()
      modifies this`children
      ensures Valid()
      ensures Snapshot() == Resolved(old(Snapshot()), r)
    {
      children := Some(r.GetOr([]));
    }
  }
}
