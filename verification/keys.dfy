/** Key classification (src/utils/key.ts). */
module Keys {

  /** A key event as delivered by the terminal layer. Only `name` is read by
      the classifiers of this file; `ctrl` stands for the other fields. */
  datatype KeyEvent = KeyEvent(name: string, ctrl: bool)

  /** The four classifiers re-exported from the prompt framework. Their
      definitions are not part of this model, so a session is given them. */
  datatype CoreKeys = CoreKeys(
    isUp: KeyEvent -> bool,
    isDown: KeyEvent -> bool,
    isEnter: KeyEvent -> bool,
    isSpace: KeyEvent -> bool)

  predicate IsEscapeKey(key: KeyEvent) {
    key.name == "escape" || key.name == "q"
  }

  predicate IsLeftKey(key: KeyEvent) {
    key.name == "left"
  }

  predicate IsRightKey(key: KeyEvent) {
    key.name == "right"
  }

  predicate IsPageUp(key: KeyEvent) {
    key.name == "pageup"
  }

  predicate IsPageDown(key: KeyEvent) {
    key.name == "pagedown"
  }

  /** The keys this file recognises by name. */
  datatype NamedKey = EscapeKey | LeftKey | RightKey | PageUpKey | PageDownKey

  /** Reference table: every recognised name and the one key it denotes. */
  const KeyNames: map<string, NamedKey> :=
    map["escape" := EscapeKey, "q" := EscapeKey, "left" := LeftKey, "right" := RightKey,
        "pageup" := PageUpKey, "pagedown" := PageDownKey]

  /** The classification of a key according to the reference table. */
  function Named(key: KeyEvent): (r: NamedKey)
    requires key.name in KeyNames
  {
    KeyNames[key.name]
  }

  /** Each classifier holds exactly for the names the table maps to its key. */
  lemma ClassifiersMatchTable(key: KeyEvent)
    ensures IsEscapeKey(key) <==> key.name in KeyNames && Named(key) == EscapeKey
    ensures IsLeftKey(key) <==> key.name in KeyNames && Named(key) == LeftKey
    ensures IsRightKey(key) <==> key.name in KeyNames && Named(key) == RightKey
    ensures IsPageUp(key) <==> key.name in KeyNames && Named(key) == PageUpKey
    ensures IsPageDown(key) <==> key.name in KeyNames && Named(key) == PageDownKey
  {
  }

  /** How many of the five classifiers hold for a key. */
  function Matches(key: KeyEvent): nat {
    (if IsEscapeKey(key) then 1 else 0) + (if IsLeftKey(key) then 1 else 0) +
    (if IsRightKey(key) then 1 else 0) + (if IsPageUp(key) then 1 else 0) +
    (if IsPageDown(key) then 1 else 0)
  }

  /** No key name satisfies two of the classifiers: at most one holds, and
      one holds exactly for the names in the table. */
  lemma ClassifiersDisjoint(key: KeyEvent)
    ensures Matches(key) <= 1
    ensures Matches(key) == 1 <==> key.name in KeyNames
  {
    ClassifiersMatchTable(key);
  }

  /** The classifiers read the key's name and nothing else. */
  lemma ClassifiersReadOnlyName(a: KeyEvent, b: KeyEvent)
    requires a.name == b.name
    ensures IsEscapeKey(a) == IsEscapeKey(b) && IsLeftKey(a) == IsLeftKey(b)
    ensures IsRightKey(a) == IsRightKey(b)
    ensures IsPageUp(a) == IsPageUp(b) && IsPageDown(a) == IsPageDown(b)
  {
  }
}
