/**
 * The `textDocument/completion` handler of the Cylc language server
 * (`completions`): setting names taken from the workflow specification tree,
 * behind three structural labels.
 */
module CylcCompletions {
  import opened Strings
  import opened Lsp

  /** The characters `strip(' []')` removes from both ends of a tree line. */
  const Decoration: set<char> := {' ', '[', ']'}

  /** The labels every completion list starts with. */
  const StructuralLabels: seq<string> := ["\"", "[", "]"]

  /** A tree line holding a `<...>` placeholder is never offered. */
  predicate IsPlaceholder(line: string)
  {
    '<' in line || '>' in line
  }

  /**
   * The set built from the specification tree: each line without an angle
   * bracket, with its decoration stripped.
   */
  function SettingNames(tree: string): (names: set<string>)
    ensures forall name :: name in names ==> IsStripped(name, Decoration)
  {
    set line | line in Split(tree, '\n') && !IsPlaceholder(line) :: Strip(line, Decoration)
  }

  predicate Distinct(xs: seq<string>)
  {
    forall i, j :: 0 <= i < j < |xs| ==> xs[i] != xs[j]
  }

  /** `xs` lists every element of `s` once, as `list(s)` does in some order. */
  predicate IsEnumeration(xs: seq<string>, s: set<string>)
  {
    Distinct(xs) && (forall x :: x in xs ==> x in s) && (forall x :: x in s ==> x in xs)
  }

  /** Every finite set has an enumeration, so `list(set(...))` is always defined. */
  ghost function AnEnumeration(s: set<string>): (xs: seq<string>)
    ensures IsEnumeration(xs, s)
    decreases s
  {
    if s == {} then []
    else
      var x :| x in s;
      [x] + AnEnumeration(s - {x})
  }

  /** An enumeration is as long as the set it enumerates. */
  lemma {:induction false} EnumerationLength(xs: seq<string>, s: set<string>)
    requires IsEnumeration(xs, s)
    ensures |xs| == |s|
    decreases |xs|
  {
    if xs != [] {
      var rest := s - {xs[0]};
      assert forall x :: x in xs[1..] <==> x in rest by {
        forall x
          ensures x in xs[1..] <==> x in rest
        {
          if x in xs[1..] {
            var k :| 1 <= k < |xs| && xs[k] == x;
            assert xs[0] != xs[k];
          }
          if x in rest {
            var k :| 0 <= k < |xs| && xs[k] == x;
            assert k != 0;
            assert xs[1..][k - 1] == x;
          }
        }
      }
      EnumerationLength(xs[1..], rest);
    } else {
      assert forall x :: x !in s;
      assert s == {};
    }
  }

  /**
   * The completion list. `order` is the order in which Python happens to
   * list the set of setting names; the first name in it is dropped.
   */
  function Completions(tree: string, order: seq<string>): (list: CompletionList)
    requires IsEnumeration(order, SettingNames(tree))
    ensures !list.isIncomplete
    ensures |list.items| >= 3
    ensures forall k :: 0 <= k < 3 ==> list.items[k].text == StructuralLabels[k]
    // how many setting names survive: all but one, or none
    ensures var n := |SettingNames(tree)|;
            |list.items| - 3 == if n == 0 then 0 else n - 1
    // each one is a setting name (see SettingNameOrigin for where those come from)
    ensures forall k :: 3 <= k < |list.items| ==>
              list.items[k].text in SettingNames(tree) &&
              IsStripped(list.items[k].text, Decoration)
    // no setting name is offered twice
    ensures forall i, j :: 3 <= i < j < |list.items| ==> list.items[i].text != list.items[j].text
    // they keep the order Python lists them in
    ensures |list.items| == if order == [] then 3 else |order| + 2
    ensures forall k :: 3 <= k < |list.items| ==> list.items[k].text == order[k - 2]
    // exactly the first name of `order` is missing
    ensures order != [] ==>
              forall name :: name in SettingNames(tree) ==>
                (name != order[0] <==> exists k :: 3 <= k < |list.items| && list.items[k].text == name)
  {
    ListAllButFirst(order, SettingNames(tree))
  }

  /** The structural labels, then every name of `order` but the first. */
  function ListAllButFirst(order: seq<string>, names: set<string>): (list: CompletionList)
    requires IsEnumeration(order, names)
    ensures !list.isIncomplete
    ensures |list.items| >= 3
    ensures forall k :: 0 <= k < 3 ==> list.items[k].text == StructuralLabels[k]
    ensures |list.items| - 3 == if |names| == 0 then 0 else |names| - 1
    ensures forall k :: 3 <= k < |list.items| ==> list.items[k].text in names
    ensures forall i, j :: 3 <= i < j < |list.items| ==> list.items[i].text != list.items[j].text
    ensures |list.items| == if order == [] then 3 else |order| + 2
    ensures forall k :: 3 <= k < |list.items| ==> list.items[k].text == order[k - 2]
    ensures order != [] ==>
              forall name :: name in names ==>
                (name != order[0] <==> exists k :: 3 <= k < |list.items| && list.items[k].text == name)
  {
    var kept := if order == [] then [] else order[1..];
    EnumerationTail(order, names);
    var items := [CompletionItem("\""), CompletionItem("["), CompletionItem("]")] + Items(kept);
    ItemsAfterLabels(kept, items);
    CompletionList(false, items)
  }

  /** After the three structural items, item `k` carries name `k - 3`, and every name has an item. */
  lemma ItemsAfterLabels(kept: seq<string>, items: seq<CompletionItem>)
    requires items == [CompletionItem("\""), CompletionItem("["), CompletionItem("]")] + Items(kept)
    ensures |items| == |kept| + 3
    ensures forall k :: 0 <= k < 3 ==> items[k].text == StructuralLabels[k]
    ensures forall k :: 3 <= k < |items| ==> items[k].text == kept[k - 3]
    ensures forall name :: name in kept ==> exists k :: 3 <= k < |items| && items[k].text == name
  {
    forall name | name in kept
      ensures exists k :: 3 <= k < |items| && items[k].text == name
    {
      var k :| 0 <= k < |kept| && kept[k] == name;
      assert items[k + 3].text == name;
    }
  }

  /** One completion item per name, in the same order. */
  function Items(names: seq<string>): (items: seq<CompletionItem>)
    ensures |items| == |names|
    ensures forall k :: 0 <= k < |names| ==> items[k].text == names[k]
  {
    seq(|names|, k requires 0 <= k < |names| => CompletionItem(names[k]))
  }

  /** What is left of an enumeration once its head is dropped. */
  lemma EnumerationTail(order: seq<string>, s: set<string>)
    requires IsEnumeration(order, s)
    ensures var names := if order == [] then [] else order[1..];
            Distinct(names) &&
            |names| == (if |s| == 0 then 0 else |s| - 1) &&
            (forall x :: x in names ==> x in s) &&
            (order != [] ==> forall x :: x in s ==> (x != order[0] <==> x in names))
  {
    EnumerationLength(order, s);
    if order != [] {
      var names := order[1..];
      forall x | x in s
        ensures x != order[0] <==> x in names
      {
        var k :| 0 <= k < |order| && order[k] == x;
        if k > 0 {
          assert names[k - 1] == x;
        }
        if x in names {
          var j :| 0 <= j < |names| && names[j] == x;
          assert order[j + 1] == x;
        }
      }
    }
  }

  /**
   * A setting name is a tree line without a placeholder, stripped of its
   * decoration, and every such line gives one.
   */
  lemma SettingNameOrigin(tree: string, name: string)
    ensures name in SettingNames(tree) <==>
            exists line :: line in Split(tree, '\n') && !IsPlaceholder(line) &&
                           Strip(line, Decoration) == name
  {
  }

  /** Neither bracket label can also appear as a setting name. */
  lemma NoSettingNameIsABracket(tree: string)
    ensures "[" !in SettingNames(tree) && "]" !in SettingNames(tree)
  {
  }
}
