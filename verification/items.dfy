/** The tree node of the selector (src/types/item.ts). */
module Items {
  import opened Wrappers

  /** Where an item's children come from. A resolver is a function supplied
      by the caller; it is not visible to the model, so it is identified by
      an opaque token, and what it eventually produces arrives as a separate
      event (see Prompt.Resolved). */
  datatype Children =
    | NoChildren                 // `children` absent: the item is a leaf
    | Static(items: seq<Item>)   // a fixed, ordered list (possibly empty)
    | Resolver(token: nat)       // a (possibly asynchronous) resolver

  /** `name` is always present; `value` is optional. */
  datatype Item = Item(name: string, value: Option<string>, children: Children)

  /** An item can be chosen exactly when it has a value (`value == null` is
      the test in the source). */
  predicate Selectable(item: Item) {
    item.value.Some?
  }

  /** An item can be entered exactly when `children` is truthy: a resolver,
      or a static list, even an empty one. */
  predicate Navigable(item: Item) {
    !item.children.NoChildren?
  }
}
