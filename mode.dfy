/**
 * Name patterns: an item tests a string (prefix, suffix, contain, equal or
 * regexp, optionally negated); a mode combines items with OR or AND; a set
 * matches when any of its modes does.
 */
module Modes {
  import Strs

  const MatchTypePrefix: string := "prefix"
  const MatchTypeSuffix: string := "suffix"
  const MatchTypeContain: string := "contain"
  const MatchTypeEqual: string := "equal"
  const MatchTypeRegexp: string := "regexp"

  /** One test. `typ` is the configured match type, `""` meaning `equal`. */
  datatype Item = Item(exclude: bool, typ: string, content: string)

  /** Items combined by `or` or by `and` (exactly one of the two flags must be set). */
  datatype Mode = Mode(or: bool, and: bool, items: seq<Item>)

  /**
   * Go's regular-expression engine stays outside the model: `Regex(pattern, s)`
   * says whether `pattern` compiles and matches `s`.
   */
  type Regex = (string, string) -> bool

  /** The match type an item uses: the configured one, `equal` when none is set. */
  function EffectiveType(it: Item): string {
    if it.typ == "" then MatchTypeEqual else it.typ
  }

  /** The test itself, before `exclude` is applied. */
  predicate RawMatch(it: Item, s: string, rx: Regex) {
    if it.content == "" then false
    else
      var t := EffectiveType(it);
      if t == MatchTypePrefix then Strs.HasPrefix(s, it.content)
      else if t == MatchTypeSuffix then Strs.HasSuffix(s, it.content)
      else if t == MatchTypeContain then Strs.Contains(s, it.content)
      else if t == MatchTypeEqual then s == it.content
      else if t == MatchTypeRegexp then rx(it.content, s)
      else false
  }

  /** `Item.Match`: the test, negated by the deferred `exclude` flip. */
  predicate ItemMatch(it: Item, s: string, rx: Regex) {
    if it.exclude then !RawMatch(it, s, rx) else RawMatch(it, s, rx)
  }

  /** `exclude` negates the result whatever the content and type. */
  lemma ExcludeNegates(it: Item, s: string, rx: Regex)
    ensures ItemMatch(it.(exclude := true), s, rx) == !ItemMatch(it.(exclude := false), s, rx)
  {
  }

  /**
   * An item with empty content, or with a type that is none of the five known
   * ones, matches exactly when it is excluded.
   */
  lemma DegenerateItem(it: Item, s: string, rx: Regex)
    requires it.content == "" || it.typ !in {"", MatchTypePrefix, MatchTypeSuffix, MatchTypeContain, MatchTypeEqual, MatchTypeRegexp}
    ensures ItemMatch(it, s, rx) == it.exclude
  {
  }

  /** An empty type behaves as `equal`; `prefix`, `suffix`, `contain` are the string tests. */
  lemma ItemTypes(it: Item, s: string, rx: Regex)
    requires it.content != "" && !it.exclude
    ensures it.typ == "" ==> (ItemMatch(it, s, rx) <==> s == it.content)
    ensures ItemMatch(it.(typ := ""), s, rx) == ItemMatch(it.(typ := MatchTypeEqual), s, rx)
    ensures it.typ == MatchTypePrefix ==> (ItemMatch(it, s, rx) <==> |it.content| <= |s| && s[..|it.content|] == it.content)
    ensures it.typ == MatchTypeSuffix ==> (ItemMatch(it, s, rx) <==> |it.content| <= |s| && s[|s| - |it.content|..] == it.content)
    ensures it.typ == MatchTypeContain ==> (ItemMatch(it, s, rx) <==> Strs.Contains(s, it.content))
    ensures it.typ == MatchTypeRegexp ==> ItemMatch(it, s, rx) == rx(it.content, s)
  {
  }

  /** The early-exit OR loop: some item of `items` matches. */
  predicate AnyItem(items: seq<Item>, s: string, rx: Regex)
    decreases |items|
  {
    if items == [] then false else ItemMatch(items[0], s, rx) || AnyItem(items[1..], s, rx)
  }

  /** The early-exit AND loop: no item of `items` fails. */
  predicate AllItems(items: seq<Item>, s: string, rx: Regex)
    decreases |items|
  {
    if items == [] then true else ItemMatch(items[0], s, rx) && AllItems(items[1..], s, rx)
  }

  lemma {:induction false} AnyItemSpec(items: seq<Item>, s: string, rx: Regex)
    ensures AnyItem(items, s, rx) <==> exists i | 0 <= i < |items| :: ItemMatch(items[i], s, rx)
    decreases |items|
  {
    if items != [] {
      AnyItemSpec(items[1..], s, rx);
      if exists i | 0 <= i < |items| :: ItemMatch(items[i], s, rx) {
        var i :| 0 <= i < |items| && ItemMatch(items[i], s, rx);
        if i > 0 {
          assert items[1..][i - 1] == items[i];
        }
      }
      if AnyItem(items[1..], s, rx) {
        var i :| 0 <= i < |items| - 1 && ItemMatch(items[1..][i], s, rx);
        assert items[i + 1] == items[1..][i];
      }
    }
  }

  lemma {:induction false} AllItemsSpec(items: seq<Item>, s: string, rx: Regex)
    ensures AllItems(items, s, rx) <==> forall i | 0 <= i < |items| :: ItemMatch(items[i], s, rx)
    decreases |items|
  {
    if items != [] {
      AllItemsSpec(items[1..], s, rx);
      if forall i | 0 <= i < |items| :: ItemMatch(items[i], s, rx) {
        forall i | 0 <= i < |items| - 1 ensures ItemMatch(items[1..][i], s, rx) {
          assert items[1..][i] == items[i + 1];
        }
      }
      if AllItems(items, s, rx) {
        forall i | 0 <= i < |items| ensures ItemMatch(items[i], s, rx) {
          if i > 0 {
            assert items[i] == items[1..][i - 1];
          }
        }
      }
    }
  }

  /**
   * `Mode.Match`: false without items; the item's own result with one item
   * (whatever the flags); with several, false unless exactly one of `or`/`and`
   * is set, and then some item (OR) or every item (AND) must match.
   */
  predicate ModeMatch(m: Mode, s: string, rx: Regex)
    ensures |m.items| == 0 ==> !ModeMatch(m, s, rx)
    ensures |m.items| == 1 ==> ModeMatch(m, s, rx) == ItemMatch(m.items[0], s, rx)
    ensures |m.items| >= 2 && m.or == m.and ==> !ModeMatch(m, s, rx)
    ensures |m.items| >= 2 && m.or && !m.and ==>
              (ModeMatch(m, s, rx) <==> exists i | 0 <= i < |m.items| :: ItemMatch(m.items[i], s, rx))
    ensures |m.items| >= 2 && m.and && !m.or ==>
              (ModeMatch(m, s, rx) <==> forall i | 0 <= i < |m.items| :: ItemMatch(m.items[i], s, rx))
  {
    AnyItemSpec(m.items, s, rx);
    AllItemsSpec(m.items, s, rx);
    if |m.items| == 0 then false
    else if |m.items| == 1 then ItemMatch(m.items[0], s, rx)
    else if m.or == m.and then false
    else if m.or then AnyItem(m.items, s, rx)
    else AllItems(m.items, s, rx)
  }

  /** `Set.Match`: some mode of the set matches; the empty set matches nothing. */
  predicate SetMatch(ms: seq<Mode>, s: string, rx: Regex)
    ensures SetMatch(ms, s, rx) <==> exists i | 0 <= i < |ms| :: ModeMatch(ms[i], s, rx)
    ensures ms == [] ==> !SetMatch(ms, s, rx)
    decreases |ms|
  {
    if ms == [] then false
    else if ModeMatch(ms[0], s, rx) then true
    else
      var r := SetMatch(ms[1..], s, rx);
      assert forall i | 1 <= i < |ms| :: ms[i] == ms[1..][i - 1];
      r
  }
}
