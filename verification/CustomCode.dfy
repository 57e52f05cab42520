/**
 The allowlist check of a model's JSON. `Objects` lists what has to be checked by plain recursion.
 `AllowList` says what that means; `CustomCodeWalk` has the walk, which keeps an explicit stack instead.
 */
module CustomCode {
  import opened Options
  import opened Text

  /** A dictionary is its entries in order, with distinct keys. */
  datatype Json = Null | Bool(b: bool) | Number(n: real) | Str(s: string) | Arr(items: seq<Json>) | Obj(entries: seq<Entry>)

  datatype Entry = Entry(key: string, value: Json)

  /** What an upload may name; `invisible` are the control and format characters. */
  datatype Rules = Rules(classes: set<string>, functions: set<string>, invisible: set<char>, space: set<char>)

  /** What an object's check says; `Unhashable` is Python's TypeError for a class name that is a list or a dictionary. */
  datatype Verdict = Fine | Stub | Refused(name: string) | Unhashable

  const SHOWN_MAX: nat := 60

  const INTERNAL: set<string> :=
    {"__keras_tensor__", "__tensor__", "__numpy__", "__bytes__", "__ellipsis__", "__slice__"}

  // ---------- text ----------

  /** A string as a message may show it, `None` for anything else or when nothing of it is left. */
  function Shown(value: Option<Json>, rules: Rules): Option<string> {
    if value.None? || !value.value.Str? then None
    else
      var stripped := Strip(Visible(value.value.s, rules.invisible), rules.space);
      var cut := if |stripped| <= SHOWN_MAX then stripped else stripped[..SHOWN_MAX];
      if cut == "" then None else Some(cut)
  }

  function OrElse(a: Option<string>, b: Option<string>): Option<string> {
    if a.Some? then a else b
  }

  function AfterLastDot(s: string): string {
    if s == "" then ""
    else if '.' in s[1..] then AfterLastDot(s[1..])
    else if s[0] == '.' then s[1..]
    else s
  }

  // ---------- the check of one object ----------

  /** `node.get(key)`: `None` for a missing key and for a null. */
  function Get(entries: seq<Entry>, key: string): Option<Json> {
    if entries == [] then None
    else if entries[0].key == key then (if entries[0].value.Null? then None else Some(entries[0].value))
    else Get(entries[1..], key)
  }

  function HasKey(entries: seq<Entry>, key: string): bool {
    exists i :: 0 <= i < |entries| && entries[i].key == key
  }

  /** Whether `module.name` is listed; only strings can be. */
  function Listed(module': Option<Json>, name: Json, list: set<string>): bool {
    module'.Some? && module'.value.Str? && name.Str? && module'.value.s + "." + name.s in list
  }

  function IsKerasModule(module': Option<Json>): bool {
    module'.Some? && module'.value.Str? && (module'.value.s == "keras" || "keras." <= module'.value.s)
  }

  function VerdictOn(entries: seq<Entry>, trainingOnly: bool, rules: Rules): Verdict {
    var className := Get(entries, "class_name");
    if className.None? then Fine
    else
      var module', registered := Get(entries, "module"), Get(entries, "registered_name");
      var shown := OrElse(Shown(className, rules), Some("an object without a name")).value;
      if className.value == Str("function") then
        var name := Get(entries, "config");
        var allowed :=
          && name.Some? && name.value.Str?
          && (registered.None? || registered.value == Str("function"))
          && ((module' == Some(Str("builtins")) && (exists f :: f in rules.functions && AfterLastDot(f) == name.value.s))
              || Listed(module', name.value, rules.functions));
        if allowed then Fine else Refused(OrElse(Shown(name, rules), Some("a function")).value)
      else if module'.None? && registered.None? && (className.value.Arr? || className.value.Obj?) then Unhashable
      else if module'.None? && registered.None? && className.value.Str? && className.value.s in INTERNAL then Fine
      else if IsKerasModule(module') then
        if Listed(module', className.value, rules.classes) && (registered.None? || registered == className) then Fine
        else Refused(shown)
      else if trainingOnly && registered.Some? && registered.value.Str? && '>' in registered.value.s then Stub
      else Refused(shown)
  }

  /** Keras 3 puts the name on the layer; when it is not there, the `config` may have it. */
  function LayerName(layer: Json): Option<Json> {
    if !layer.Obj? then None
    else if HasKey(layer.entries, "name") then Get(layer.entries, "name")
    else
      var config := Get(layer.entries, "config");
      if config.Some? && config.value.Obj? then Get(config.value.entries, "name") else None
  }

  // ---------- the objects of a document ----------

  /** A dictionary in its context: the innermost named layer around it, and whether a training-only key is above it. */
  datatype Visit = Visit(entries: seq<Entry>, layer: Option<string>, trainingOnly: bool)

  function InLayer(item: Json, layer: Option<string>, rules: Rules): Option<string> {
    OrElse(Shown(LayerName(item), rules), layer)
  }

  function TrainingKey(key: string): bool {
    EndsWith(key, "_regularizer") || EndsWith(key, "_constraint")
  }

  /** The objects of a document in its order, those under a stubbed object left out. */
  function Objects(node: Json, layer: Option<string>, trainingOnly: bool, rules: Rules): seq<Visit>
    decreases node, 1
  {
    match node
    case Arr(items) => ObjectsOfItems(items, layer, trainingOnly, rules)
    case Obj(entries) =>
      [Visit(entries, layer, trainingOnly)]
      + (if VerdictOn(entries, trainingOnly, rules).Stub? then [] else ObjectsOfEntries(entries, layer, trainingOnly, rules))
    case _ => []
  }

  function ObjectsOfItems(items: seq<Json>, layer: Option<string>, trainingOnly: bool, rules: Rules): seq<Visit>
    decreases items, 0
  {
    if items == [] then []
    else Objects(items[0], layer, trainingOnly, rules) + ObjectsOfItems(items[1..], layer, trainingOnly, rules)
  }

  function ObjectsOfLayers(items: seq<Json>, layer: Option<string>, trainingOnly: bool, rules: Rules): seq<Visit>
    decreases items, 0
  {
    if items == [] then []
    else Objects(items[0], InLayer(items[0], layer, rules), trainingOnly, rules) + ObjectsOfLayers(items[1..], layer, trainingOnly, rules)
  }

  function ObjectsOfEntries(entries: seq<Entry>, layer: Option<string>, trainingOnly: bool, rules: Rules): seq<Visit>
    decreases entries, 0
  {
    if entries == [] then []
    else ObjectsOfEntry(entries[0], layer, trainingOnly, rules) + ObjectsOfEntries(entries[1..], layer, trainingOnly, rules)
  }

  function ObjectsOfEntry(entry: Entry, layer: Option<string>, trainingOnly: bool, rules: Rules): seq<Visit>
    decreases entry, 2
  {
    var skipped := trainingOnly || TrainingKey(entry.key);
    if entry.key == "layers" && entry.value.Arr? then ObjectsOfLayers(entry.value.items, layer, skipped, rules)
    else Objects(entry.value, layer, skipped, rules)
  }

  // ---------- the answer ----------

  /** No custom code, the object to tell the user about and its layer, or Python's TypeError. */
  datatype Answer = Clean | Custom(layer: Option<string>, name: string) | TypeError

  function AnswerOn(v: Visit, rules: Rules): Answer {
    match VerdictOn(v.entries, v.trainingOnly, rules)
    case Refused(name) => Custom(v.layer, name)
    case Unhashable => TypeError
    case _ => Clean
  }

  /** The first object that is not accepted. */
  function FirstOf(visits: seq<Visit>, rules: Rules): Answer {
    if visits == [] then Clean
    else if AnswerOn(visits[0], rules) != Clean then AnswerOn(visits[0], rules)
    else FirstOf(visits[1..], rules)
  }

  function Then(a: Answer, b: Answer): Answer {
    if a.Clean? then b else a
  }

  lemma {:induction false} FirstOfAppend(a: seq<Visit>, b: seq<Visit>, rules: Rules)
    ensures FirstOf(a + b, rules) == Then(FirstOf(a, rules), FirstOf(b, rules))
  {
    if a == [] {
      assert a + b == b;
    } else {
      assert (a + b)[1..] == a[1..] + b;
      FirstOfAppend(a[1..], b, rules);
    }
  }

  /** Clean if and only if every object outside the stubbed ones' subtrees is accepted. */
  lemma {:induction false} CleanMeansAccepted(visits: seq<Visit>, rules: Rules)
    ensures FirstOf(visits, rules) == Clean <==>
            forall v | v in visits :: VerdictOn(v.entries, v.trainingOnly, rules) in {Fine, Stub}
  {
    if visits != [] {
      CleanMeansAccepted(visits[1..], rules);
      assert visits == [visits[0]] + visits[1..];
    }
  }

  /** Otherwise the answer is that of an object before which every other is accepted. */
  lemma {:induction false} AnswerIsFirst(visits: seq<Visit>, rules: Rules) returns (k: nat)
    requires FirstOf(visits, rules) != Clean
    ensures k < |visits| && FirstOf(visits, rules) == AnswerOn(visits[k], rules)
    ensures forall j | 0 <= j < k :: AnswerOn(visits[j], rules) == Clean
  {
    if AnswerOn(visits[0], rules) != Clean {
      k := 0;
    } else {
      var m := AnswerIsFirst(visits[1..], rules);
      k := m + 1;
    }
  }
}
