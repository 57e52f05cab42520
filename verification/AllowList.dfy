/**
 What the allowlist check means, told without its functions: which objects are accepted, which are stubs,
 and which places of a document are checked, in which order and as part of which layer.
 */
module AllowList {
  import opened Options
  import opened CustomCode
  import opened Text

  // ---------- the fields of an object ----------

  ghost predicate Has(entries: seq<Entry>, key: string, value: Json) {
    exists i :: 0 <= i < |entries| && entries[i] == Entry(key, value)
  }

  /** No such key, or a null. */
  ghost predicate Lacks(entries: seq<Entry>, key: string) {
    forall i | 0 <= i < |entries| && entries[i].key == key :: entries[i].value == Null
  }

  ghost predicate DistinctKeys(entries: seq<Entry>) {
    forall i, j | 0 <= i < j < |entries| :: entries[i].key != entries[j].key
  }

  lemma {:induction false} GetIs(entries: seq<Entry>, key: string)
    requires DistinctKeys(entries)
    ensures Get(entries, key).None? <==> Lacks(entries, key)
    ensures forall v :: v != Null ==> (Get(entries, key) == Some(v) <==> Has(entries, key, v))
    ensures Get(entries, key).Some? ==> Get(entries, key).value != Null
  {
    if entries != [] {
      var rest := entries[1..];
      GetIs(rest, key);
      assert forall i | 0 <= i < |rest| :: rest[i] == entries[i + 1];
      forall v | v != Null ensures Get(entries, key) == Some(v) <==> Has(entries, key, v) {
        if Has(rest, key, v) {
          var i :| 0 <= i < |rest| && rest[i] == Entry(key, v);
          assert entries[i + 1] == Entry(key, v);
        }
        if Has(entries, key, v) && entries[0].key != key {
          var i :| 0 <= i < |entries| && entries[i] == Entry(key, v);
          assert rest[i - 1] == Entry(key, v);
        }
        if Has(entries, key, v) && entries[0].key == key {
          var i :| 0 <= i < |entries| && entries[i] == Entry(key, v);
          assert i == 0;
        }
        if entries[0].key == key && entries[0].value == v { assert entries[0] == Entry(key, v); }
      }
    }
  }

  // ---------- what is accepted ----------

  /** A module of Keras itself. */
  ghost predicate OfKeras(module': string) {
    module' == "keras" || exists rest :: module' == "keras." + rest
  }

  /** `name` is what a listed function is called after its module. */
  ghost predicate BuiltIn(name: string, rules: Rules) {
    '.' !in name && exists module' :: module' + "." + name in rules.functions
  }

  /** A function that is listed, by its module or among the built-ins, and registered as nothing else. */
  ghost predicate AllowedFunction(entries: seq<Entry>, rules: Rules) {
    && Has(entries, "class_name", Str("function"))
    && (Lacks(entries, "registered_name") || Has(entries, "registered_name", Str("function")))
    && exists name ::
         && Has(entries, "config", Str(name))
         && ((Has(entries, "module", Str("builtins")) && BuiltIn(name, rules))
             || exists module' :: Has(entries, "module", Str(module')) && module' + "." + name in rules.functions)
  }

  /** One of the six kinds of values that Keras serializes without a module. */
  ghost predicate InternalValue(entries: seq<Entry>) {
    && Lacks(entries, "module") && Lacks(entries, "registered_name")
    && (|| Has(entries, "class_name", Str("__keras_tensor__")) || Has(entries, "class_name", Str("__tensor__"))
        || Has(entries, "class_name", Str("__numpy__")) || Has(entries, "class_name", Str("__bytes__"))
        || Has(entries, "class_name", Str("__ellipsis__")) || Has(entries, "class_name", Str("__slice__")))
  }

  /** A listed class of Keras, registered as nothing else. */
  ghost predicate AllowedClass(entries: seq<Entry>, rules: Rules) {
    exists module', name ::
      && Has(entries, "module", Str(module')) && Has(entries, "class_name", Str(name)) && name != "function"
      && OfKeras(module') && module' + "." + name in rules.classes
      && (Lacks(entries, "registered_name") || Has(entries, "registered_name", Str(name)))
  }

  /** No serialized object at all, or one that may be loaded. */
  ghost predicate Accepted(entries: seq<Entry>, rules: Rules) {
    Lacks(entries, "class_name") || AllowedFunction(entries, rules) || InternalValue(entries) || AllowedClass(entries, rules)
  }

  /** An object of the user's own, registered with a package, where only training uses it. */
  ghost predicate UsersOwn(entries: seq<Entry>, trainingOnly: bool) {
    && trainingOnly
    && !Lacks(entries, "class_name") && !Has(entries, "class_name", Str("function"))
    && (forall module' | Has(entries, "module", Str(module')) :: !OfKeras(module'))
    && (exists registered :: Has(entries, "registered_name", Str(registered)) && '>' in registered)
  }

  /** A class name that is no string, where it would be looked up among the six. */
  ghost predicate NoName(entries: seq<Entry>) {
    && Lacks(entries, "module") && Lacks(entries, "registered_name")
    && exists value: Json :: Has(entries, "class_name", value) && (value.Arr? || value.Obj?)
  }

  /** Every listed function has a module. */
  predicate Qualified(rules: Rules) {
    forall f | f in rules.functions :: '.' in f
  }

  lemma {:induction false} AfterLastDotIs(f: string)
    requires '.' in f
    ensures '.' !in AfterLastDot(f)
    ensures exists module' :: f == module' + "." + AfterLastDot(f)
  {
    if '.' in f[1..] {
      AfterLastDotIs(f[1..]);
      var m :| f[1..] == m + "." + AfterLastDot(f[1..]);
      assert f == ([f[0]] + m) + "." + AfterLastDot(f);
    } else {
      assert f == "" + "." + f[1..];
    }
  }

  lemma {:induction false} AfterDot(m: string, name: string)
    requires '.' !in name
    ensures AfterLastDot(m + "." + name) == name
  {
    var f := m + "." + name;
    if m == "" {
      assert f[1..] == name;
    } else {
      assert f[1..] == m[1..] + "." + name;
      assert f[1..][|m| - 1] == '.';
      AfterDot(m[1..], name);
    }
  }

  lemma {:induction false} BuiltInIs(name: string, rules: Rules)
    requires Qualified(rules)
    ensures (exists f :: f in rules.functions && AfterLastDot(f) == name) <==> BuiltIn(name, rules)
  {
    if f :| f in rules.functions && AfterLastDot(f) == name {
      AfterLastDotIs(f);
      var m :| f == m + "." + name;
    }
    if BuiltIn(name, rules) {
      var m :| m + "." + name in rules.functions;
      AfterDot(m, name);
    }
  }

  lemma {:induction false} OfKerasIs(module': string)
    ensures module' == "keras" || "keras." <= module' <==> OfKeras(module')
  {
    if "keras." <= module' { assert module' == "keras." + module'[6..]; }
  }

  /** What the check of a function says: fine exactly for an allowed one, otherwise its name. */
  lemma {:induction false} FunctionVerdict(entries: seq<Entry>, trainingOnly: bool, rules: Rules)
    requires DistinctKeys(entries) && Qualified(rules) && Get(entries, "class_name") == Some(Str("function"))
    ensures VerdictOn(entries, trainingOnly, rules) ==
            if AllowedFunction(entries, rules) then Fine
            else Refused(OrElse(Shown(Get(entries, "config"), rules), Some("a function")).value)
  {
    hide Get, Shown, AfterLastDot, BuiltIn, Has, Lacks;
    GetIs(entries, "class_name");
    GetIs(entries, "config");
    GetIs(entries, "module");
    GetIs(entries, "registered_name");
    var name := Get(entries, "config");
    if name.Some? && name.value.Str? { BuiltInIs(name.value.s, rules); }
  }

  /** The kinds of anything else, by what its keys hold. */
  lemma {:induction false} KindsByKeys(entries: seq<Entry>, trainingOnly: bool, rules: Rules)
    requires DistinctKeys(entries) && Get(entries, "class_name").Some? && Get(entries, "class_name") != Some(Str("function"))
    ensures var name, m, r := Get(entries, "class_name"), Get(entries, "module"), Get(entries, "registered_name");
            && (InternalValue(entries) <==> m.None? && r.None? && name.value.Str? && name.value.s in INTERNAL)
            && (NoName(entries) <==> m.None? && r.None? && (name.value.Arr? || name.value.Obj?))
            && (AllowedClass(entries, rules) <==>
                IsKerasModule(m) && Listed(m, name.value, rules.classes) && (r.None? || r == name))
            && (UsersOwn(entries, trainingOnly) <==>
                trainingOnly && !IsKerasModule(m) && r.Some? && r.value.Str? && '>' in r.value.s)
  {
    hide Get, Has, Lacks, OfKeras;
    GetIs(entries, "class_name");
    GetIs(entries, "module");
    GetIs(entries, "registered_name");
    forall m ensures m == "keras" || "keras." <= m <==> OfKeras(m) {
      OfKerasIs(m);
    }
  }

  /** Everything else with a class name. */
  lemma {:induction false} ClassVerdict(entries: seq<Entry>, trainingOnly: bool, rules: Rules)
    requires DistinctKeys(entries) && Get(entries, "class_name").Some? && Get(entries, "class_name") != Some(Str("function"))
    ensures var verdict := VerdictOn(entries, trainingOnly, rules);
            && (verdict.Fine? <==> InternalValue(entries) || AllowedClass(entries, rules))
            && (verdict.Stub? <==> UsersOwn(entries, trainingOnly))
            && (verdict.Unhashable? <==> NoName(entries))
            && (verdict.Refused? ==> verdict.name == OrElse(Shown(Get(entries, "class_name"), rules), Some("an object without a name")).value)
  {
    hide Get, Shown, AfterLastDot, InternalValue, NoName, AllowedClass, UsersOwn, INTERNAL;
    KindsByKeys(entries, trainingOnly, rules);
    var m := Get(entries, "module");
    assert IsKerasModule(m) ==> m.Some?;
  }

  /** The check of one object, in those terms. */
  lemma {:induction false} VerdictMeans(entries: seq<Entry>, trainingOnly: bool, rules: Rules)
    requires DistinctKeys(entries) && Qualified(rules)
    ensures VerdictOn(entries, trainingOnly, rules).Fine? <==> Accepted(entries, rules)
    ensures VerdictOn(entries, trainingOnly, rules).Stub? <==> UsersOwn(entries, trainingOnly)
    ensures VerdictOn(entries, trainingOnly, rules).Unhashable? <==> NoName(entries)
  {
    hide Shown, AllowedFunction, InternalValue, AllowedClass, UsersOwn, NoName, Get, Lacks, Has;
    GetIs(entries, "class_name");
    OnlyOne(entries, trainingOnly, rules);
    if Get(entries, "class_name").None? {
      Nameless(entries, trainingOnly, rules);
    } else if Get(entries, "class_name") == Some(Str("function")) {
      FunctionVerdict(entries, trainingOnly, rules);
    } else {
      ClassVerdict(entries, trainingOnly, rules);
    }
  }

  /** The kinds of a function and of anything else do not overlap. */
  lemma {:induction false} OnlyOne(entries: seq<Entry>, trainingOnly: bool, rules: Rules)
    requires DistinctKeys(entries)
    ensures AllowedFunction(entries, rules) ==> Get(entries, "class_name") == Some(Str("function"))
    ensures Get(entries, "class_name") == Some(Str("function")) ==>
              !InternalValue(entries) && !AllowedClass(entries, rules) && !UsersOwn(entries, trainingOnly) && !NoName(entries)
  {
    hide Get, Lacks, Has, OfKeras, BuiltIn;
    GetIs(entries, "class_name");
  }

  lemma {:induction false} Nameless(entries: seq<Entry>, trainingOnly: bool, rules: Rules)
    requires DistinctKeys(entries) && Get(entries, "class_name").None?
    ensures VerdictOn(entries, trainingOnly, rules) == Fine && Lacks(entries, "class_name")
    ensures !UsersOwn(entries, trainingOnly) && !NoName(entries)
  {
    hide Get, Lacks, Has, OfKeras, Shown;
    GetIs(entries, "class_name");
  }

  // ---------- what is shown of a name ----------

  /** Only a string with something visible besides white space is shown: its first 60 characters, invisible ones left out. */
  lemma {:induction false} ShownIs(value: Option<Json>, rules: Rules)
    ensures value.None? || !value.value.Str? ==> Shown(value, rules).None?
    ensures value.Some? && value.value.Str? ==>
              var text := Strip(Visible(value.value.s, rules.invisible), rules.space);
              Shown(value, rules) == if text == "" then None else Some(if |text| <= 60 then text else text[..60])
  {
    hide Visible, Strip;
  }

  /** A layer's name is its own, be it null, and only without one that of its config. */
  lemma {:induction false} LayerNameIs(entries: seq<Entry>, name: Json)
    requires DistinctKeys(entries) && name != Null
    ensures Has(entries, "name", name) ==> LayerName(Obj(entries)) == Some(name)
    ensures Has(entries, "name", Null) ==> LayerName(Obj(entries)) == None
    ensures (forall i | 0 <= i < |entries| :: entries[i].key != "name") ==>
              forall config: seq<Entry> | Has(entries, "config", Obj(config)) && DistinctKeys(config) ::
                LayerName(Obj(entries)) == Some(name) <==> Has(config, "name", name)
  {
    hide Get, DistinctKeys, Has, Lacks;
    GetIs(entries, "name");
    GetIs(entries, "config");
    HasKeyIs(entries, "name", name);
    forall config: seq<Entry> | DistinctKeys(config) ensures Get(config, "name") == Some(name) <==> Has(config, "name", name) {
      GetIs(config, "name");
    }
  }

  lemma {:induction false} HasKeyIs(entries: seq<Entry>, key: string, value: Json)
    requires DistinctKeys(entries)
    ensures Has(entries, key, value) ==> HasKey(entries, key)
    ensures Has(entries, key, Null) ==> Lacks(entries, key) && HasKey(entries, key)
  {
  }

  // ---------- places of a document ----------

  /** A place: which item or entry to go down to, from the top. */
  type Path = seq<nat>

  function Child(node: Json, k: nat): Option<Json> {
    if node.Arr? && k < |node.items| then Some(node.items[k])
    else if node.Obj? && k < |node.entries| then Some(node.entries[k].value)
    else None
  }

  function At(node: Json, path: Path): Option<Json> {
    if path == [] then Some(node)
    else
      var below := Child(node, path[0]);
      if below.None? then None else At(below.value, path[1..])
  }

  /** The key of the entry that the last step goes down to. */
  function KeyAt(node: Json, path: Path): Option<string>
    requires path != []
  {
    var above := At(node, path[..|path| - 1]);
    if above.Some? && above.value.Obj? && path[|path| - 1] < |above.value.entries|
    then Some(above.value.entries[path[|path| - 1]].key) else None
  }

  ghost predicate ForTraining(key: string) {
    exists part :: key == part + "_regularizer" || key == part + "_constraint"
  }

  /** A key on the way says that only training uses what is below it. */
  ghost predicate TrainingAt(node: Json, path: Path) {
    exists j :: 0 < j <= |path| && KeyAt(node, path[..j]).Some? && ForTraining(KeyAt(node, path[..j]).value)
  }

  /** An item of a list that is under the key `layers`. */
  predicate IsLayer(node: Json, path: Path) {
    && 2 <= |path|
    && KeyAt(node, path[..|path| - 1]) == Some("layers")
    && At(node, path[..|path| - 1]).Some? && At(node, path[..|path| - 1]).value.Arr?
    && At(node, path).Some?
  }

  /** The name of the innermost layer on the way that has one. */
  function LayerAt(node: Json, path: Path, rules: Rules): Option<string> {
    if path == [] then None
    else
      var name := if IsLayer(node, path) then Shown(LayerName(At(node, path).value), rules) else None;
      if name.Some? then name else LayerAt(node, path[..|path| - 1], rules)
  }

  /** An object that is checked: none above it is the user's own. */
  ghost predicate CheckedAt(node: Json, path: Path) {
    && At(node, path).Some? && At(node, path).value.Obj?
    && forall j | 0 <= j < |path| && At(node, path[..j]).Some? && At(node, path[..j]).value.Obj? ::
         !UsersOwn(At(node, path[..j]).value.entries, TrainingAt(node, path[..j]))
  }

  /** Document order: an object before what it holds, and before what comes after it. */
  predicate Before(p: Path, q: Path) {
    q != [] && (p == [] || p[0] < q[0] || (p[0] == q[0] && Before(p[1..], q[1..])))
  }

  /** In every dictionary a key comes once, as it does in what is read from JSON. */
  ghost predicate WellFormed(node: Json) {
    forall path | At(node, path).Some? && At(node, path).value.Obj? :: DistinctKeys(At(node, path).value.entries)
  }

  // ---------- one step down ----------

  lemma {:induction false} TrainingKeyIs(key: string)
    ensures TrainingKey(key) <==> ForTraining(key)
  {
    EndsWithIs(key, "_regularizer");
    EndsWithIs(key, "_constraint");
  }

  /** The key of an entry, none for an item. */
  function KeyOf(node: Json, k: nat): Option<string> {
    if node.Obj? && k < |node.entries| then Some(node.entries[k].key) else None
  }

  lemma {:induction false} AtBelow(node: Json, k: nat, p: Path)
    requires Child(node, k).Some?
    ensures At(node, [k] + p) == At(Child(node, k).value, p)
  {
    assert ([k] + p)[1..] == p;
  }

  lemma {:induction false} KeyBelow(node: Json, k: nat, p: Path)
    requires Child(node, k).Some?
    ensures KeyAt(node, [k] + p) == if p == [] then KeyOf(node, k) else KeyAt(Child(node, k).value, p)
  {
    if p == [] {
      assert [k] + p == [k] && [k][..0] == [];
    } else {
      assert ([k] + p)[..|[k] + p| - 1] == [k] + p[..|p| - 1];
      AtBelow(node, k, p[..|p| - 1]);
    }
  }

  lemma {:induction false} TrainingBelow(node: Json, k: nat, p: Path)
    requires Child(node, k).Some?
    ensures TrainingAt(node, [k] + p) <==>
            (KeyOf(node, k).Some? && ForTraining(KeyOf(node, k).value)) || TrainingAt(Child(node, k).value, p)
  {
    hide KeyAt, KeyOf, ForTraining;
    var path, c := [k] + p, Child(node, k).value;
    forall j | 0 < j <= |path| ensures KeyAt(node, path[..j]) == if j == 1 then KeyOf(node, k) else KeyAt(c, p[..j - 1]) {
      assert path[..j] == [k] + p[..j - 1];
      KeyBelow(node, k, p[..j - 1]);
    }
    if TrainingAt(c, p) {
      var j :| 0 < j <= |p| && KeyAt(c, p[..j]).Some? && ForTraining(KeyAt(c, p[..j]).value);
      assert KeyAt(node, path[..j + 1]) == KeyAt(c, p[..j]);
    }
    if KeyOf(node, k).Some? && ForTraining(KeyOf(node, k).value) {
      assert KeyAt(node, path[..1]) == KeyOf(node, k);
    }
  }

  /** The name of the item a path goes through first, when the list is under the key `layers`. */
  function FirstName(list: Json, asLayers: bool, p: Path, rules: Rules): Option<string> {
    if asLayers && list.Arr? && p != [] && p[0] < |list.items| then Shown(LayerName(list.items[p[0]]), rules) else None
  }

  lemma {:induction false} IsLayerBelow(node: Json, k: nat, p: Path)
    requires Child(node, k).Some? && At(Child(node, k).value, p).Some?
    ensures IsLayer(node, [k] + p) <==>
            if |p| == 1 then KeyOf(node, k) == Some("layers") && Child(node, k).value.Arr? else IsLayer(Child(node, k).value, p)
  {
    hide KeyAt, KeyOf;
    AtBelow(node, k, p);
    if p != [] {
      var short := p[..|p| - 1];
      assert ([k] + p)[..|[k] + p| - 1] == [k] + short;
      AtBelow(node, k, short);
      KeyBelow(node, k, short);
    }
  }

  lemma {:induction false} AtPrefix(node: Json, p: Path, j: nat)
    requires j <= |p| && At(node, p).Some?
    ensures At(node, p[..j]).Some?
    decreases |p|
  {
    if j > 0 {
      assert p[..j][1..] == p[1..][..j - 1];
      AtPrefix(Child(node, p[0]).value, p[1..], j - 1);
    }
  }

  lemma {:induction false} LayerBelow(node: Json, k: nat, p: Path, rules: Rules)
    requires Child(node, k).Some? && At(Child(node, k).value, p).Some?
    ensures LayerAt(node, [k] + p, rules) ==
            OrElse(LayerAt(Child(node, k).value, p, rules), FirstName(Child(node, k).value, KeyOf(node, k) == Some("layers"), p, rules))
    decreases |p|
  {
    hide IsLayer, KeyOf, LayerName, Shown;
    var c, path := Child(node, k).value, [k] + p;
    IsLayerBelow(node, k, p);
    AtBelow(node, k, p);
    if p == [] {
      assert path == [k] && [k][..0] == [];
      ShortIsNoLayer(node, [k]);
    } else {
      var short := p[..|p| - 1];
      assert path[..|path| - 1] == [k] + short;
      AtPrefix(c, p, |p| - 1);
      LayerBelow(node, k, short, rules);
      if |p| == 1 { ShortIsNoLayer(c, p); FirstItemAt(c, p); } else { assert short[0] == p[0]; }
    }
  }

  lemma {:induction false} ShortIsNoLayer(node: Json, path: Path)
    requires |path| == 1
    ensures !IsLayer(node, path)
  {
  }

  lemma {:induction false} FirstItemAt(list: Json, p: Path)
    requires |p| == 1 && At(list, p).Some?
    ensures list.Arr? ==> p[0] < |list.items| && At(list, p) == Some(list.items[p[0]])
  {
    assert p[1..] == [];
  }

  // ---------- all the places, in order ----------

  /** `CheckedAt` below a node that only training may use already. */
  ghost predicate CheckedFrom(node: Json, trainingOnly: bool, path: Path) {
    && At(node, path).Some? && At(node, path).value.Obj?
    && forall j | 0 <= j < |path| && At(node, path[..j]).Some? && At(node, path[..j]).value.Obj? ::
         !UsersOwn(At(node, path[..j]).value.entries, trainingOnly || TrainingAt(node, path[..j]))
  }

  /** What is checked at a place below a node that is in a context, as a list of layers or not. */
  ghost function VisitAt(node: Json, layer: Option<string>, trainingOnly: bool, asLayers: bool, path: Path, rules: Rules): Visit
    requires At(node, path).Some? && At(node, path).value.Obj?
  {
    Visit(At(node, path).value.entries,
          OrElse(OrElse(LayerAt(node, path, rules), FirstName(node, asLayers, path, rules)), layer),
          trainingOnly || TrainingAt(node, path))
  }

  ghost predicate InOrder(places: seq<Path>) {
    forall i, j | 0 <= i < j < |places| :: Before(places[i], places[j])
  }

  /** The context a node is in: the layer around it, whether only training uses it, whether it lists layers. */
  datatype Context = Context(layer: Option<string>, trainingOnly: bool, asLayers: bool)

  ghost predicate IsVisit(node: Json, c: Context, path: Path, v: Visit, rules: Rules) {
    CheckedFrom(node, c.trainingOnly, path) && v == VisitAt(node, c.layer, c.trainingOnly, c.asLayers, path, rules)
  }

  /** `visits` are what is checked below a node by steps to the children from `lo` on and before `hi`, in order. */
  ghost predicate Lists(node: Json, c: Context, rules: Rules, visits: seq<Visit>, places: seq<Path>, lo: nat, hi: nat) {
    && |places| == |visits| && InOrder(places)
    && (forall i | 0 <= i < |places| ::
          places[i] != [] && lo <= places[i][0] < hi && IsVisit(node, c, places[i], visits[i], rules))
    && (forall p: Path | p != [] && lo <= p[0] < hi && CheckedFrom(node, c.trainingOnly, p) :: p in places)
  }

  /** The same for the node and everything below it. */
  ghost predicate ListsAll(node: Json, c: Context, rules: Rules, visits: seq<Visit>, places: seq<Path>) {
    && |places| == |visits| && InOrder(places)
    && (forall i | 0 <= i < |places| :: IsVisit(node, c, places[i], visits[i], rules))
    && (forall p: Path | CheckedFrom(node, c.trainingOnly, p) :: p in places)
  }

  lemma {:induction false} ListsAppend(node: Json, c: Context, rules: Rules, v: seq<Visit>, p: seq<Path>, w: seq<Visit>, q: seq<Path>, lo: nat, mid: nat, hi: nat)
    requires lo <= mid <= hi && Lists(node, c, rules, v, p, lo, mid) && Lists(node, c, rules, w, q, mid, hi)
    ensures Lists(node, c, rules, v + w, p + q, lo, hi)
  {
    hide IsVisit, CheckedFrom;
    forall i, j | 0 <= i < j < |p + q| ensures Before((p + q)[i], (p + q)[j]) {
      if i < |p| <= j { assert p[i][0] < q[j - |p|][0]; }
    }
  }

  /** The context of a child. */
  ghost function Below(node: Json, c: Context, k: nat, rules: Rules): Context
    requires Child(node, k).Some?
  {
    Context(OrElse(FirstName(node, c.asLayers, [k], rules), c.layer),
            c.trainingOnly || (KeyOf(node, k).Some? && ForTraining(KeyOf(node, k).value)),
            KeyOf(node, k) == Some("layers"))
  }

  lemma {:induction false} CheckedBelow(node: Json, trainingOnly: bool, k: nat, p: Path)
    requires Child(node, k).Some? && (node.Obj? ==> !UsersOwn(node.entries, trainingOnly))
    ensures CheckedFrom(node, trainingOnly, [k] + p) <==>
            CheckedFrom(Child(node, k).value, trainingOnly || (KeyOf(node, k).Some? && ForTraining(KeyOf(node, k).value)), p)
  {
    hide UsersOwn, TrainingAt, KeyOf, ForTraining, At;
    var c, path := Child(node, k).value, [k] + p;
    AtBelow(node, k, p);
    AtTop(node);
    TrainingAtTop(node);
    assert path[..0] == [];
    forall j | 0 < j <= |path|
      ensures At(node, path[..j]) == At(c, p[..j - 1])
      ensures TrainingAt(node, path[..j]) <==> (KeyOf(node, k).Some? && ForTraining(KeyOf(node, k).value)) || TrainingAt(c, p[..j - 1])
    {
      assert path[..j] == [k] + p[..j - 1];
      AtBelow(node, k, p[..j - 1]);
      TrainingBelow(node, k, p[..j - 1]);
    }
    forall j | 0 <= j < |p|
      ensures At(node, path[..j + 1]) == At(c, p[..j])
      ensures TrainingAt(node, path[..j + 1]) <==> (KeyOf(node, k).Some? && ForTraining(KeyOf(node, k).value)) || TrainingAt(c, p[..j])
    {
    }
  }

  lemma {:induction false} AtTop(node: Json)
    ensures At(node, []) == Some(node)
  {
  }

  lemma {:induction false} TrainingAtTop(node: Json)
    ensures !TrainingAt(node, [])
  {
  }

  lemma {:induction false} VisitBelow(node: Json, c: Context, k: nat, p: Path, rules: Rules)
    requires Child(node, k).Some? && At(Child(node, k).value, p).Some? && At(Child(node, k).value, p).value.Obj?
    ensures At(node, [k] + p) == At(Child(node, k).value, p)
    ensures var b := Below(node, c, k, rules);
            VisitAt(node, c.layer, c.trainingOnly, c.asLayers, [k] + p, rules) ==
            VisitAt(Child(node, k).value, b.layer, b.trainingOnly, b.asLayers, p, rules)
  {
    hide KeyOf, ForTraining, TrainingAt, LayerAt, At, LayerName, Shown;
    AtBelow(node, k, p);
    TrainingBelow(node, k, p);
    LayerBelow(node, k, p, rules);
  }

  lemma {:induction false} IsVisitBelow(node: Json, c: Context, k: nat, p: Path, v: Visit, rules: Rules)
    requires Child(node, k).Some? && (node.Obj? ==> !UsersOwn(node.entries, c.trainingOnly))
    ensures IsVisit(node, c, [k] + p, v, rules) <==> IsVisit(Child(node, k).value, Below(node, c, k, rules), p, v, rules)
    ensures CheckedFrom(node, c.trainingOnly, [k] + p) <==> CheckedFrom(Child(node, k).value, Below(node, c, k, rules).trainingOnly, p)
  {
    hide VisitAt, UsersOwn, KeyOf, ForTraining, FirstName, TrainingAt;
    CheckedBelow(node, c.trainingOnly, k, p);
    if CheckedFrom(node, c.trainingOnly, [k] + p) { VisitBelow(node, c, k, p, rules); }
  }

  /** The places below a child, seen from its parent. */
  lemma {:induction false} ListsBelow(node: Json, c: Context, k: nat, rules: Rules, visits: seq<Visit>, places: seq<Path>) returns (lifted: seq<Path>)
    requires Child(node, k).Some? && (node.Obj? ==> !UsersOwn(node.entries, c.trainingOnly))
    requires ListsAll(Child(node, k).value, Below(node, c, k, rules), rules, visits, places)
    ensures Lists(node, c, rules, visits, lifted, k, k + 1)
  {
    hide IsVisit, CheckedFrom, Below, UsersOwn;
    lifted := seq(|places|, i requires 0 <= i < |places| => [k] + places[i]);
    forall i | 0 <= i < |lifted| ensures lifted[i][0] == k && IsVisit(node, c, lifted[i], visits[i], rules) {
      IsVisitBelow(node, c, k, places[i], visits[i], rules);
    }
    forall i, j | 0 <= i < j < |lifted| ensures Before(lifted[i], lifted[j]) {
      assert lifted[i][1..] == places[i] && lifted[j][1..] == places[j];
    }
    forall p: Path | p != [] && k <= p[0] < k + 1 && CheckedFrom(node, c.trainingOnly, p) ensures p in lifted {
      assert p == [k] + p[1..];
      IsVisitBelow(node, c, k, p[1..], Visit([], None, false), rules);
      var i :| 0 <= i < |places| && places[i] == p[1..];
      assert lifted[i] == p;
    }
  }

  // ---------- the recursive list ----------

  function Children(node: Json): nat {
    match node
    case Arr(items) => |items|
    case Obj(entries) => |entries|
    case _ => 0
  }

  /** What the recursion lists below a node by its children from `k` on. */
  function ListedFrom(node: Json, c: Context, k: nat, rules: Rules): seq<Visit>
    requires k <= Children(node)
  {
    match node
    case Arr(items) =>
      if c.asLayers then ObjectsOfLayers(items[k..], c.layer, c.trainingOnly, rules)
      else ObjectsOfItems(items[k..], c.layer, c.trainingOnly, rules)
    case Obj(entries) => ObjectsOfEntries(entries[k..], c.layer, c.trainingOnly, rules)
    case _ => []
  }

  /** What it lists of a node and below it. */
  function ListedAll(node: Json, c: Context, rules: Rules): seq<Visit> {
    if c.asLayers && node.Arr? then ObjectsOfLayers(node.items, c.layer, c.trainingOnly, rules)
    else Objects(node, c.layer, c.trainingOnly, rules)
  }

  lemma {:induction false} ListedNext(node: Json, c: Context, k: nat, rules: Rules)
    requires k < Children(node)
    ensures Child(node, k).Some?
    ensures ListedFrom(node, c, k, rules) == ListedAll(Child(node, k).value, Below(node, c, k, rules), rules) + ListedFrom(node, c, k + 1, rules)
  {
    hide LayerName, Shown, ForTraining, TrainingKey, ObjectsOfEntry, VerdictOn;
    match node {
      case Arr(items) => assert items[k..][1..] == items[k + 1..];
      case Obj(entries) =>
        assert entries[k..][0] == entries[k] && entries[k..][1..] == entries[k + 1..];
        EntryListed(node, c, k, rules);
    }
  }

  lemma {:induction false} EntryListed(node: Json, c: Context, k: nat, rules: Rules)
    requires node.Obj? && k < |node.entries|
    ensures Child(node, k).Some?
    ensures ObjectsOfEntry(node.entries[k], c.layer, c.trainingOnly, rules) == ListedAll(Child(node, k).value, Below(node, c, k, rules), rules)
  {
    hide LayerName, Shown, ForTraining, TrainingKey, Objects, ObjectsOfLayers;
    TrainingKeyIs(node.entries[k].key);
  }

  lemma {:induction false} WellFormedBelow(node: Json, k: nat)
    requires WellFormed(node) && Child(node, k).Some?
    ensures WellFormed(Child(node, k).value)
  {
    hide DistinctKeys;
    forall p | At(Child(node, k).value, p).Some? && At(Child(node, k).value, p).value.Obj?
      ensures DistinctKeys(At(Child(node, k).value, p).value.entries)
    {
      AtBelow(node, k, p);
    }
  }

  lemma {:induction false} ListsOfChildren(node: Json, c: Context, k: nat, rules: Rules) returns (places: seq<Path>)
    requires WellFormed(node) && Qualified(rules) && k <= Children(node)
    requires node.Obj? ==> !UsersOwn(node.entries, c.trainingOnly)
    ensures Lists(node, c, rules, ListedFrom(node, c, k, rules), places, k, Children(node))
    decreases node, 0, Children(node) - k
  {
    hide Lists, ListedFrom, ListedAll, Below, UsersOwn, WellFormed, Qualified;
    if k == Children(node) {
      NothingListed(node, c, rules);
      places := [];
    } else {
      ListedNext(node, c, k, rules);
      WellFormedBelow(node, k);
      var b := Below(node, c, k, rules);
      var below := ListsOfNode(Child(node, k).value, b, rules);
      var first := ListsBelow(node, c, k, rules, ListedAll(Child(node, k).value, b, rules), below);
      var rest := ListsOfChildren(node, c, k + 1, rules);
      ListsAppend(node, c, rules, ListedAll(Child(node, k).value, b, rules), first, ListedFrom(node, c, k + 1, rules), rest, k, k + 1, Children(node));
      places := first + rest;
    }
  }

  lemma {:induction false} NothingListed(node: Json, c: Context, rules: Rules)
    ensures ListedFrom(node, c, Children(node), rules) == []
    ensures Lists(node, c, rules, [], [], Children(node), Children(node))
  {
    hide IsVisit, CheckedFrom;
  }

  lemma {:induction false} ListsOfNode(node: Json, c: Context, rules: Rules) returns (places: seq<Path>)
    requires WellFormed(node) && Qualified(rules)
    ensures ListsAll(node, c, rules, ListedAll(node, c, rules), places)
    decreases node, 1, 0
  {
    hide ListsAll, Lists, ListedFrom, ListedAll, UsersOwn, WellFormed, Qualified;
    if node.Obj? && UsersOwn(node.entries, c.trainingOnly) {
      places := StubListed(node, c, rules);
    } else {
      var below := ListsOfChildren(node, c, 0, rules);
      places := NodeListed(node, c, rules, below);
    }
  }

  lemma {:induction false} TopIsDistinct(node: Json)
    requires WellFormed(node) && node.Obj?
    ensures DistinctKeys(node.entries)
  {
    AtTop(node);
  }

  lemma {:induction false} TopVisit(node: Json, c: Context, rules: Rules)
    requires node.Obj?
    ensures IsVisit(node, c, [], Visit(node.entries, c.layer, c.trainingOnly), rules)
  {
    TrainingAtTop(node);
  }

  /** Nothing below a stubbed object is checked, and nothing is listed. */
  lemma {:induction false} StubListed(node: Json, c: Context, rules: Rules) returns (places: seq<Path>)
    requires WellFormed(node) && Qualified(rules) && node.Obj? && UsersOwn(node.entries, c.trainingOnly)
    ensures ListsAll(node, c, rules, ListedAll(node, c, rules), places)
  {
    hide IsVisit, UsersOwn, WellFormed, VerdictOn, TrainingAt;
    TopIsDistinct(node);
    VerdictMeans(node.entries, c.trainingOnly, rules);
    TopVisit(node, c, rules);
    AtTop(node);
    TrainingAtTop(node);
    places := [[]];
    forall p: Path | CheckedFrom(node, c.trainingOnly, p) ensures p in places {
      assert p[..0] == [];
    }
  }

  lemma {:induction false} NodeListed(node: Json, c: Context, rules: Rules, below: seq<Path>) returns (places: seq<Path>)
    requires WellFormed(node) && Qualified(rules) && (node.Obj? ==> !UsersOwn(node.entries, c.trainingOnly))
    requires Lists(node, c, rules, ListedFrom(node, c, 0, rules), below, 0, Children(node))
    ensures ListsAll(node, c, rules, ListedAll(node, c, rules), places)
  {
    hide *;
    ListedIs(node, c, rules);
    if node.Obj? {
      TopVisit(node, c, rules);
      ListsWithTop(node, c, rules, Visit(node.entries, c.layer, c.trainingOnly), ListedFrom(node, c, 0, rules), below);
      places := [[]] + below;
    } else {
      assert [] + ListedFrom(node, c, 0, rules) == ListedFrom(node, c, 0, rules);
      ListsWithoutTop(node, c, rules, ListedFrom(node, c, 0, rules), below);
      places := below;
    }
  }

  lemma {:induction false} ListsWithTop(node: Json, c: Context, rules: Rules, top: Visit, visits: seq<Visit>, below: seq<Path>)
    requires Lists(node, c, rules, visits, below, 0, Children(node)) && IsVisit(node, c, [], top, rules)
    ensures ListsAll(node, c, rules, [top] + visits, [[]] + below)
  {
    hide IsVisit, CheckedFrom, Children;
    forall i | 0 <= i < |[[]] + below| ensures IsVisit(node, c, ([[]] + below)[i], ([top] + visits)[i], rules) {
      if i > 0 { assert IsVisit(node, c, below[i - 1], visits[i - 1], rules); }
    }
    forall p: Path | CheckedFrom(node, c.trainingOnly, p) ensures p in [[]] + below {
      if p != [] { StepsToChild(node, c.trainingOnly, p); } else { assert ([[]] + below)[0] == p; }
    }
    forall i, j | 0 <= i < j < |[[]] + below| ensures Before(([[]] + below)[i], ([[]] + below)[j]) {
      if i > 0 { assert Before(below[i - 1], below[j - 1]); } else { assert below[j - 1] != []; }
    }
  }

  lemma {:induction false} ListsWithoutTop(node: Json, c: Context, rules: Rules, visits: seq<Visit>, below: seq<Path>)
    requires Lists(node, c, rules, visits, below, 0, Children(node)) && !node.Obj?
    ensures ListsAll(node, c, rules, visits, below)
  {
    hide IsVisit, CheckedFrom, Children, Before;
    NotChecked(node, c.trainingOnly);
    forall p: Path | CheckedFrom(node, c.trainingOnly, p) ensures p in below {
      StepsToChild(node, c.trainingOnly, p);
    }
  }

  lemma {:induction false} ListedIs(node: Json, c: Context, rules: Rules)
    requires WellFormed(node) && Qualified(rules) && (node.Obj? ==> !UsersOwn(node.entries, c.trainingOnly))
    ensures ListedAll(node, c, rules) ==
            (if node.Obj? then [Visit(node.entries, c.layer, c.trainingOnly)] else []) + ListedFrom(node, c, 0, rules)
  {
    hide UsersOwn, WellFormed, VerdictOn;
    match node {
      case Arr(items) => assert items[0..] == items;
      case Obj(entries) =>
        assert entries[0..] == entries;
        TopIsDistinct(node);
        VerdictMeans(entries, c.trainingOnly, rules);
      case _ =>
    }
  }

  lemma {:induction false} StepsToChild(node: Json, trainingOnly: bool, p: Path)
    requires CheckedFrom(node, trainingOnly, p)
    ensures p != [] ==> p[0] < Children(node)
  {
  }

  lemma {:induction false} NotChecked(node: Json, trainingOnly: bool)
    requires !node.Obj?
    ensures !CheckedFrom(node, trainingOnly, [])
  {
    AtTop(node);
  }

  // ---------- what it says about a document ----------

  /**
   The objects that the recursion lists are those at the checked places of the document, every place once and in
   document order, each with the innermost named layer and with whether only training uses it.
   */
  lemma {:induction false} ObjectsArePlaces(config: Json, rules: Rules) returns (places: seq<Path>)
    requires WellFormed(config) && Qualified(rules)
    ensures var visits := Objects(config, None, false, rules);
            && |places| == |visits| && InOrder(places)
            && (forall i | 0 <= i < |places| ::
                  && CheckedAt(config, places[i])
                  && visits[i] == Visit(At(config, places[i]).value.entries, LayerAt(config, places[i], rules), TrainingAt(config, places[i])))
            && (forall p: Path | CheckedAt(config, p) :: p in places)
  {
    hide WellFormed, Qualified, TrainingAt, UsersOwn, Objects, At, LayerAt;
    places := ListsOfNode(config, Context(None, false, false), rules);
  }

  /** A checked place whose object is neither accepted nor the user's own where only training uses it. */
  ghost predicate RefusedAt(config: Json, path: Path, rules: Rules) {
    && CheckedAt(config, path)
    && !Accepted(At(config, path).value.entries, rules)
    && !UsersOwn(At(config, path).value.entries, TrainingAt(config, path))
  }

  /** What a detail calls the object: the function's own name, or the class's. */
  function Called(entries: seq<Entry>, rules: Rules): string {
    if Get(entries, "class_name") == Some(Str("function")) then OrElse(Shown(Get(entries, "config"), rules), Some("a function")).value
    else OrElse(Shown(Get(entries, "class_name"), rules), Some("an object without a name")).value
  }

  lemma {:induction false} AnswerMeans(v: Visit, rules: Rules)
    requires DistinctKeys(v.entries) && Qualified(rules)
    ensures AnswerOn(v, rules) == Clean <==> Accepted(v.entries, rules) || UsersOwn(v.entries, v.trainingOnly)
    ensures AnswerOn(v, rules) != Clean ==>
              AnswerOn(v, rules) == if NoName(v.entries) then TypeError else Custom(v.layer, Called(v.entries, rules))
  {
    hide Get, Shown, Accepted, UsersOwn, NoName, AllowedFunction, InternalValue, AllowedClass, DistinctKeys;
    VerdictMeans(v.entries, v.trainingOnly, rules);
    if Get(v.entries, "class_name").None? {
      Nameless(v.entries, v.trainingOnly, rules);
    } else if Get(v.entries, "class_name") == Some(Str("function")) {
      FunctionVerdict(v.entries, v.trainingOnly, rules);
    } else {
      ClassVerdict(v.entries, v.trainingOnly, rules);
    }
  }

  lemma {:induction false} CheckedIsDistinct(config: Json, path: Path)
    requires WellFormed(config) && CheckedAt(config, path)
    ensures DistinctKeys(At(config, path).value.entries)
  {
    hide DistinctKeys;
  }

  /** The answer is clean exactly when no checked place is refused. */
  lemma {:induction false} CleanExactly(config: Json, rules: Rules)
    requires WellFormed(config) && Qualified(rules)
    ensures FirstOf(Objects(config, None, false, rules), rules) == Clean <==> forall p: Path :: !RefusedAt(config, p, rules)
  {
    hide WellFormed, Qualified, DistinctKeys, TrainingAt, UsersOwn, Objects, At, LayerAt, FirstOf, VerdictOn, Accepted, AnswerOn;
    var visits := Objects(config, None, false, rules);
    var places := ObjectsArePlaces(config, rules);
    forall i | 0 <= i < |places| ensures RefusedAt(config, places[i], rules) <==> AnswerOn(visits[i], rules) != Clean {
      CheckedIsDistinct(config, places[i]);
      AnswerMeans(visits[i], rules);
    }
    FirstIsClean(visits, rules);
    if FirstOf(visits, rules) == Clean {
      forall p: Path ensures !RefusedAt(config, p, rules) {
        if CheckedAt(config, p) {
          var i :| 0 <= i < |places| && places[i] == p;
        }
      }
    }
  }

  lemma {:induction false} FirstIsClean(visits: seq<Visit>, rules: Rules)
    ensures FirstOf(visits, rules) == Clean <==> forall i | 0 <= i < |visits| :: AnswerOn(visits[i], rules) == Clean
  {
    hide AnswerOn;
    if visits != [] {
      FirstIsClean(visits[1..], rules);
      assert forall i | 0 < i < |visits| :: visits[i] == visits[1..][i - 1];
    }
  }

  /** Otherwise the answer is about the first refused place in document order, and calls its object and its layer. */
  lemma {:induction false} FirstRefused(config: Json, rules: Rules) returns (path: Path)
    requires WellFormed(config) && Qualified(rules) && FirstOf(Objects(config, None, false, rules), rules) != Clean
    ensures RefusedAt(config, path, rules)
    ensures forall q: Path | RefusedAt(config, q, rules) && q != path :: Before(path, q)
    ensures FirstOf(Objects(config, None, false, rules), rules) ==
            if NoName(At(config, path).value.entries) then TypeError
            else Custom(LayerAt(config, path, rules), Called(At(config, path).value.entries, rules))
  {
    hide WellFormed, Qualified, DistinctKeys, TrainingAt, UsersOwn, Objects, At, LayerAt, FirstOf, VerdictOn, Accepted, AnswerOn, NoName, Called, Before;
    var visits := Objects(config, None, false, rules);
    var places := ObjectsArePlaces(config, rules);
    forall i | 0 <= i < |places| ensures RefusedAt(config, places[i], rules) <==> AnswerOn(visits[i], rules) != Clean {
      CheckedIsDistinct(config, places[i]);
      AnswerMeans(visits[i], rules);
    }
    var k := AnswerIsFirst(visits, rules);
    path := places[k];
    CheckedIsDistinct(config, path);
    AnswerMeans(visits[k], rules);
    forall q: Path | RefusedAt(config, q, rules) && q != path ensures Before(path, q) {
      var i :| 0 <= i < |places| && places[i] == q;
      assert k < i;
    }
  }
}
