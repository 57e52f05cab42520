/**
 The walk over a model's JSON by an explicit stack, proved to answer with the first object of the document
 that is not accepted.
 */
module CustomCodeWalk {
  import opened Options
  import opened CustomCode
  import opened AllowList

  // ---------- the walk ----------

  /** An entry of the stack: any JSON value, in the context of a `Visit`. */
  datatype Item = Item(node: Json, layer: Option<string>, trainingOnly: bool)

  /** What the stack still has to say, its top, the last item, first. */
  function StackAnswer(stack: seq<Item>, rules: Rules): Answer {
    if stack == [] then Clean
    else
      var top := stack[|stack| - 1];
      Then(FirstOf(Objects(top.node, top.layer, top.trainingOnly, rules), rules), StackAnswer(stack[..|stack| - 1], rules))
  }

  function Size(node: Json): nat
    decreases node, 1
  {
    match node
    case Arr(items) => 1 + SizeOfItems(items)
    case Obj(entries) => 1 + SizeOfEntries(entries)
    case _ => 1
  }

  function SizeOfItems(items: seq<Json>): nat
    decreases items, 0
  {
    if items == [] then 0 else Size(items[0]) + SizeOfItems(items[1..])
  }

  function SizeOfEntries(entries: seq<Entry>): nat
    decreases entries, 0
  {
    if entries == [] then 0 else Size(entries[0].value) + SizeOfEntries(entries[1..])
  }

  /** The size of the trees on the stack. */
  function StackSize(stack: seq<Item>): nat {
    if stack == [] then 0 else Size(stack[|stack| - 1].node) + StackSize(stack[..|stack| - 1])
  }

  lemma {:induction false} Pushed(stack: seq<Item>, item: Item, rules: Rules)
    ensures StackAnswer(stack + [item], rules) ==
            Then(FirstOf(Objects(item.node, item.layer, item.trainingOnly, rules), rules), StackAnswer(stack, rules))
    ensures StackSize(stack + [item]) == Size(item.node) + StackSize(stack)
  {
    assert (stack + [item])[..|stack|] == stack;
  }

  /** The objects of a list, each in the context of its own name under `layers`. */
  function ObjectsOfList(items: seq<Json>, layer: Option<string>, trainingOnly: bool, asLayers: bool, rules: Rules): seq<Visit> {
    if asLayers then ObjectsOfLayers(items, layer, trainingOnly, rules) else ObjectsOfItems(items, layer, trainingOnly, rules)
  }

  lemma {:induction false} NoItems(layer: Option<string>, trainingOnly: bool, asLayers: bool, rules: Rules)
    ensures FirstOf(ObjectsOfList([], layer, trainingOnly, asLayers, rules), rules) == Clean && SizeOfItems([]) == 0
  {
  }

  lemma {:induction false} FirstItem(items: seq<Json>, layer: Option<string>, trainingOnly: bool, asLayers: bool, rules: Rules)
    requires items != []
    ensures FirstOf(ObjectsOfList(items, layer, trainingOnly, asLayers, rules), rules) ==
            Then(FirstOf(Objects(items[0], if asLayers then InLayer(items[0], layer, rules) else layer, trainingOnly, rules), rules),
                 FirstOf(ObjectsOfList(items[1..], layer, trainingOnly, asLayers, rules), rules))
    ensures SizeOfItems(items) == Size(items[0]) + SizeOfItems(items[1..])
  {
    hide FirstOf, Objects, Size, InLayer;
    FirstOfAppend(Objects(items[0], if asLayers then InLayer(items[0], layer, rules) else layer, trainingOnly, rules),
                  ObjectsOfList(items[1..], layer, trainingOnly, asLayers, rules), rules);
  }

  /** Pushes a list's items last first, so that the first comes off first. */
  method PushItems(stack: seq<Item>, items: seq<Json>, layer: Option<string>, trainingOnly: bool, asLayers: bool, rules: Rules)
    returns (r: seq<Item>)
    ensures StackAnswer(r, rules) ==
            Then(FirstOf(ObjectsOfList(items, layer, trainingOnly, asLayers, rules), rules), StackAnswer(stack, rules))
    ensures StackSize(r) == SizeOfItems(items) + StackSize(stack)
  {
    hide FirstOf, StackAnswer, StackSize, Objects, ObjectsOfList, SizeOfItems, Size, InLayer;
    r := stack;
    var k := |items|;
    NoItems(layer, trainingOnly, asLayers, rules);
    assert items[k..] == [];
    while k > 0
      invariant 0 <= k <= |items|
      invariant StackAnswer(r, rules) ==
                Then(FirstOf(ObjectsOfList(items[k..], layer, trainingOnly, asLayers, rules), rules), StackAnswer(stack, rules))
      invariant StackSize(r) == SizeOfItems(items[k..]) + StackSize(stack)
    {
      k := k - 1;
      var item := Item(items[k], if asLayers then InLayer(items[k], layer, rules) else layer, trainingOnly);
      Pushed(r, item, rules);
      assert items[k..][1..] == items[k + 1..];
      FirstItem(items[k..], layer, trainingOnly, asLayers, rules);
      r := r + [item];
    }
    assert items[0..] == items;
  }

  /** Pushes what a dictionary holds, its last entry first; a list under `layers` item by item. */
  method PushEntries(stack: seq<Item>, entries: seq<Entry>, layer: Option<string>, trainingOnly: bool, rules: Rules)
    returns (r: seq<Item>)
    ensures StackAnswer(r, rules) ==
            Then(FirstOf(ObjectsOfEntries(entries, layer, trainingOnly, rules), rules), StackAnswer(stack, rules))
    ensures StackSize(r) < SizeOfEntries(entries) + StackSize(stack) + 1
  {
    hide FirstOf, StackAnswer, Objects, ObjectsOfItems, ObjectsOfLayers, Size, SizeOfItems, StackSize, TrainingKey;
    r := stack;
    var k := |entries|;
    NoEntries(layer, trainingOnly, rules);
    while k > 0
      invariant 0 <= k <= |entries|
      invariant StackAnswer(r, rules) ==
                Then(FirstOf(ObjectsOfEntries(entries[k..], layer, trainingOnly, rules), rules), StackAnswer(stack, rules))
      invariant StackSize(r) <= SizeOfEntries(entries[k..]) + StackSize(stack)
    {
      k := k - 1;
      var entry := entries[k];
      var skipped := trainingOnly || TrainingKey(entry.key);
      assert entries[k..][1..] == entries[k + 1..];
      FirstOfAppend(ObjectsOfEntry(entry, layer, trainingOnly, rules),
                    ObjectsOfEntries(entries[k + 1..], layer, trainingOnly, rules), rules);
      SizeOfList(entry.value);
      if entry.key == "layers" && entry.value.Arr? {
        r := PushItems(r, entry.value.items, layer, skipped, true, rules);
      } else {
        Pushed(r, Item(entry.value, layer, skipped), rules);
        r := r + [Item(entry.value, layer, skipped)];
      }
    }
    assert entries[0..] == entries;
  }

  lemma {:induction false} NoEntries(layer: Option<string>, trainingOnly: bool, rules: Rules)
    ensures FirstOf(ObjectsOfEntries([], layer, trainingOnly, rules), rules) == Clean
  {
  }

  lemma {:induction false} SizeOfList(node: Json)
    ensures node.Arr? ==> Size(node) == 1 + SizeOfItems(node.items)
  {
  }

  /**
   The walk with its own stack ends, and answers with the first object of the document that is not
   accepted, its innermost named layer with it. In terms of the document: the answer is clean exactly when no
   checked place is refused, and otherwise it is about the first refused place.
   */
  method Walk(config: Json, rules: Rules) returns (answer: Answer)
    ensures answer == FirstOf(Objects(config, None, false, rules), rules)
    ensures WellFormed(config) && Qualified(rules) ==> (answer == Clean <==> forall p: Path :: !RefusedAt(config, p, rules))
    ensures WellFormed(config) && Qualified(rules) && answer != Clean ==> exists p: Path :: FirstRefusal(config, rules, p, answer)
  {
    answer := WalkStack(config, rules);
    if WellFormed(config) && Qualified(rules) {
      CleanExactly(config, rules);
      if answer != Clean {
        var p := FirstRefused(config, rules);
        assert FirstRefusal(config, rules, p, answer);
      }
    }
  }

  /** The refused place `p` is the first, and the answer is about it. */
  ghost predicate FirstRefusal(config: Json, rules: Rules, p: Path, answer: Answer) {
    && RefusedAt(config, p, rules)
    && (forall q: Path | RefusedAt(config, q, rules) && q != p :: Before(p, q))
    && answer == if NoName(At(config, p).value.entries) then TypeError
                 else Custom(LayerAt(config, p, rules), Called(At(config, p).value.entries, rules))
  }

  method WalkStack(config: Json, rules: Rules) returns (answer: Answer)
    ensures answer == FirstOf(Objects(config, None, false, rules), rules)
  {
    hide VerdictOn, InLayer, ObjectsOfItems, ObjectsOfEntries, ObjectsOfLayers, SizeOfItems, SizeOfEntries;
    var stack := [Item(config, None, false)];
    Pushed([], stack[0], rules);
    assert [] + [stack[0]] == stack;
    while stack != []
      invariant StackAnswer(stack, rules) == FirstOf(Objects(config, None, false, rules), rules)
      decreases StackSize(stack)
    {
      var top := stack[|stack| - 1];
      stack := stack[..|stack| - 1];
      match top.node {
        case Arr(items) =>
          stack := PushItems(stack, items, top.layer, top.trainingOnly, false, rules);
        case Obj(entries) =>
          var visit := Visit(entries, top.layer, top.trainingOnly);
          FirstOfAppend([visit], ObjectsOfEntries(entries, top.layer, top.trainingOnly, rules), rules);
          FirstOfOne(visit, rules);
          match VerdictOn(entries, top.trainingOnly, rules) {
            case Stub =>
            case Refused(name) => return Custom(top.layer, name);
            case Unhashable => return TypeError;
            case Fine =>
              stack := PushEntries(stack, entries, top.layer, top.trainingOnly, rules);
          }
        case _ =>
      }
    }
    return Clean;
  }

  lemma {:induction false} FirstOfOne(v: Visit, rules: Rules)
    ensures FirstOf([v], rules) == AnswerOn(v, rules)
  {
  }
}
