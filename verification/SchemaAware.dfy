/** Field-name redaction of a whole payload tree, and the sweep that replaces it when the pipeline fails. */
module SchemaAware {
  import opened Wrappers
  import opened Json
  import opened Redaction

  /** Lower-casing and the text of a scalar, as arbitrary functions. */
  datatype Env = Env(lower: string -> string, text: Json -> string)

  /** Case-insensitive lookup of the first rule for a field; rules refer only to declared strategies. */
  function RuleFor(env: Env, p: Policy, key: string): Option<Strategy> {
    FirstMatch(env, p, p.fieldRules, env.lower(key))
  }

  function FirstMatch(env: Env, p: Policy, rules: seq<Rule>, lower: string): Option<Strategy> {
    if rules == [] then None
    else if env.lower(rules[0].target) == lower then Resolve(p, rules[0].strategy)
    else FirstMatch(env, p, rules[1..], lower)
  }

  /** Loading a policy refuses rules that name an undeclared strategy. */
  predicate Declared(p: Policy) {
    forall r :: r in p.fieldRules ==> r.strategy in p.strategies
  }

  /** One scalar under a strategy and label, if any; None is a raised error. */
  function RedactLeaf(env: Env, v: Json, inherited: Option<Strategy>, tag: Option<string>): Option<Json> {
    if inherited.None? || v.Null? then Some(v)
    else
      var r := Replace(inherited.value, env.text(v), if tag.Some? && tag.value != "" then tag.value else "field");
      if r.None? then None else Some(Str(r.value))
  }

  function Walk(env: Env, p: Policy, v: Json, inherited: Option<Strategy>, tag: Option<string>): Option<Json>
    decreases v, 0
  {
    match v
    case Obj(fields) =>
      var r := WalkFields(env, p, fields, inherited);
      if r.None? then None else Some(Obj(r.value))
    case Arr(items) =>
      var r := WalkItems(env, p, items, inherited, tag);
      if r.None? then None else Some(Arr(r.value))
    case _ => RedactLeaf(env, v, inherited, tag)
  }

  function WalkItems(env: Env, p: Policy, items: seq<Json>, inherited: Option<Strategy>, tag: Option<string>): Option<seq<Json>>
    decreases items, 1
  {
    if items == [] then Some([])
    else
      var head, tail := Walk(env, p, items[0], inherited, tag), WalkItems(env, p, items[1..], inherited, tag);
      if head.None? || tail.None? then None else Some([head.value] + tail.value)
  }

  /** A field with a rule restarts the subtree under that rule; one without hands down the strategy but no label. */
  function WalkField(env: Env, p: Policy, f: Field, inherited: Option<Strategy>): Option<Json>
    decreases f, 0
  {
    var rule := RuleFor(env, p, f.key);
    if rule.None? then Walk(env, p, f.value, inherited, None)
    else Walk(env, p, f.value, rule, Some(env.lower(f.key)))
  }

  function WalkFields(env: Env, p: Policy, fields: seq<Field>, inherited: Option<Strategy>): Option<seq<Field>>
    decreases fields, 1
  {
    if fields == [] then Some([])
    else
      var head, tail := WalkField(env, p, fields[0], inherited), WalkFields(env, p, fields[1..], inherited);
      if head.None? || tail.None? then None else Some([Field(fields[0].key, head.value)] + tail.value)
  }

  // ---- places in a tree ----

  predicate Scalar(v: Json) {
    !v.Arr? && !v.Obj?
  }

  function Child(v: Json, i: nat): Option<Json> {
    match v
    case Arr(items) => if i < |items| then Some(items[i]) else None
    case Obj(fields) => if i < |fields| then Some(fields[i].value) else None
    case _ => None
  }

  /** The keys a step to child i adds: one in an object, none in an array. */
  function KeyOf(v: Json, i: nat): seq<string> {
    if v.Obj? && i < |v.fields| then [v.fields[i].key] else []
  }

  function At(v: Json, path: seq<nat>): Option<Json>
    decreases |path|
  {
    if path == [] then Some(v)
    else
      var c := Child(v, path[0]);
      if c.None? then None else At(c.value, path[1..])
  }

  /** The object keys from the root down to a place. */
  function KeysTo(v: Json, path: seq<nat>): seq<string>
    decreases |path|
  {
    if path == [] || Child(v, path[0]).None? then []
    else KeyOf(v, path[0]) + KeysTo(Child(v, path[0]).value, path[1..])
  }

  // ---- what a place should become ----

  /** The strategy of the deepest key that has a rule. */
  function Governing(env: Env, p: Policy, keys: seq<string>): Option<Strategy> {
    if keys == [] then None
    else if RuleFor(env, p, keys[|keys| - 1]).Some? then RuleFor(env, p, keys[|keys| - 1])
    else Governing(env, p, keys[..|keys| - 1])
  }

  /** The label is the last key of all, and only if that key has the rule. */
  function LabelOf(env: Env, p: Policy, keys: seq<string>): Option<string> {
    if keys != [] && RuleFor(env, p, keys[|keys| - 1]).Some? then Some(env.lower(keys[|keys| - 1])) else None
  }

  function Expected(env: Env, p: Policy, v: Json, keys: seq<string>): Option<Json> {
    RedactLeaf(env, v, Governing(env, p, keys), LabelOf(env, p, keys))
  }

  /** Scalars stay scalars; arrays keep their length, objects their keys in order. */
  predicate SameShape(v: Json, w: Json) {
    match v
    case Arr(items) => w.Arr? && |w.items| == |items|
    case Obj(fields) => w.Obj? && |w.fields| == |fields| && forall i :: 0 <= i < |fields| ==> w.fields[i].key == fields[i].key
    case _ => Scalar(w)
  }

  lemma {:induction false} WalkItemsAt(env: Env, p: Policy, items: seq<Json>, s: Option<Strategy>, tag: Option<string>, i: nat)
    requires i < |items|
    ensures var r := WalkItems(env, p, items, s, tag);
            r.Some? ==> |r.value| == |items| && Walk(env, p, items[i], s, tag) == Some(r.value[i])
  {
    if i > 0 {
      WalkItemsAt(env, p, items[1..], s, tag, i - 1);
    } else if |items| > 1 {
      WalkItemsAt(env, p, items[1..], s, tag, 0);
    }
  }

  lemma {:induction false} WalkFieldsAt(env: Env, p: Policy, fields: seq<Field>, s: Option<Strategy>, i: nat)
    requires i < |fields|
    ensures var r := WalkFields(env, p, fields, s);
            r.Some? ==> |r.value| == |fields| && r.value[i].key == fields[i].key
                        && WalkField(env, p, fields[i], s) == Some(r.value[i].value)
  {
    if i > 0 {
      WalkFieldsAt(env, p, fields[1..], s, i - 1);
    } else if |fields| > 1 {
      WalkFieldsAt(env, p, fields[1..], s, 0);
    }
  }

  lemma {:induction false} WalkChild(env: Env, p: Policy, v: Json, keys: seq<string>, i: nat)
    requires Child(v, i).Some?
    ensures var r := Walk(env, p, v, Governing(env, p, keys), LabelOf(env, p, keys));
            var below := keys + KeyOf(v, i);
            r.Some? ==>
              && SameShape(v, r.value) && Child(r.value, i).Some?
              && Walk(env, p, Child(v, i).value, Governing(env, p, below), LabelOf(env, p, below)) == Some(Child(r.value, i).value)
  {
    var s, tag := Governing(env, p, keys), LabelOf(env, p, keys);
    match v
    case Arr(items) =>
      assert keys + [] == keys;
      WalkItemsAt(env, p, items, s, tag, i);
    case Obj(fields) =>
      var below := keys + [fields[i].key];
      assert below[..|below| - 1] == keys;
      WalkFieldsAt(env, p, fields, s, i);
      forall j | 0 <= j < |fields| && WalkFields(env, p, fields, s).Some?
        ensures WalkFields(env, p, fields, s).value[j].key == fields[j].key
      {
        WalkFieldsAt(env, p, fields, s, j);
      }
  }

  /** The walk does at every place what its keys alone prescribe, and keeps the tree's shape. */
  lemma {:induction false} WalkFollowsKeys(env: Env, p: Policy, v: Json, keys: seq<string>, path: seq<nat>)
    requires Walk(env, p, v, Governing(env, p, keys), LabelOf(env, p, keys)).Some? && At(v, path).Some?
    ensures var w := Walk(env, p, v, Governing(env, p, keys), LabelOf(env, p, keys)).value;
            var x := At(v, path).value;
            && At(w, path).Some? && SameShape(x, At(w, path).value)
            && (Scalar(x) ==> Expected(env, p, x, keys + KeysTo(v, path)) == Some(At(w, path).value))
    decreases |path|
  {
    hide Governing, LabelOf, Walk, SameShape, RedactLeaf;
    if path == [] {
      assert keys + [] == keys;
      WalkRoot(env, p, v, keys);
    } else {
      WalkChild(env, p, v, keys, path[0]);
      WalkFollowsKeys(env, p, Child(v, path[0]).value, keys + KeyOf(v, path[0]), path[1..]);
      assert keys + (KeyOf(v, path[0]) + KeysTo(Child(v, path[0]).value, path[1..]))
          == (keys + KeyOf(v, path[0])) + KeysTo(Child(v, path[0]).value, path[1..]);
    }
  }

  lemma {:induction false} WalkRoot(env: Env, p: Policy, v: Json, keys: seq<string>)
    ensures var r := Walk(env, p, v, Governing(env, p, keys), LabelOf(env, p, keys));
            (r.Some? ==> SameShape(v, r.value)) && (Scalar(v) ==> Expected(env, p, v, keys) == r)
  {
    var s, tag := Governing(env, p, keys), LabelOf(env, p, keys);
    match v
    case Arr(items) =>
      if items != [] {
        WalkItemsAt(env, p, items, s, tag, 0);
      }
    case Obj(fields) =>
      if fields != [] {
        WalkChild(env, p, v, keys, 0);
      }
    case _ =>
  }

  /** The walk of a whole payload. */
  function RedactFields(env: Env, p: Policy, v: Json): Option<Json> {
    Walk(env, p, v, None, None)
  }

  /** The first rule whose target reads like the key, letter case aside, names this strategy. */
  ghost predicate Ruled(env: Env, p: Policy, key: string, name: string) {
    exists i :: 0 <= i < |p.fieldRules| && env.lower(p.fieldRules[i].target) == env.lower(key) && p.fieldRules[i].strategy == name
                && forall j :: 0 <= j < i ==> env.lower(p.fieldRules[j].target) != env.lower(key)
  }

  predicate Unruled(env: Env, p: Policy, key: string) {
    forall rule :: rule in p.fieldRules ==> env.lower(rule.target) != env.lower(key)
  }

  /** Key i has a rule, for this strategy, and no key below it does. */
  ghost predicate IsDeepest(env: Env, p: Policy, keys: seq<string>, i: int, name: string) {
    0 <= i < |keys| && Ruled(env, p, keys[i], name) && forall j :: i < j < |keys| ==> Unruled(env, p, keys[j])
  }

  predicate NoRules(env: Env, p: Policy, keys: seq<string>) {
    forall k :: k in keys ==> Unruled(env, p, k)
  }

  lemma {:induction false} FirstMatchTells(env: Env, p: Policy, rules: seq<Rule>, lower: string)
    requires forall r :: r in rules ==> r.strategy in p.strategies
    ensures FirstMatch(env, p, rules, lower).None? <==> forall rule :: rule in rules ==> env.lower(rule.target) != lower
    ensures forall i :: 0 <= i < |rules| && env.lower(rules[i].target) == lower
                        && (forall j :: 0 <= j < i ==> env.lower(rules[j].target) != lower) ==>
              FirstMatch(env, p, rules, lower) == Some(p.strategies[rules[i].strategy])
  {
    if rules != [] {
      var rest := rules[1..];
      assert rules == [rules[0]] + rest;
      FirstMatchTells(env, p, rest, lower);
      assert forall i :: 0 < i < |rules| ==> rules[i] == rest[i - 1];
      forall i | 0 <= i < |rules| && env.lower(rules[i].target) == lower
                 && (forall j :: 0 <= j < i ==> env.lower(rules[j].target) != lower)
        ensures FirstMatch(env, p, rules, lower) == Some(p.strategies[rules[i].strategy])
      {
        if i > 0 {
          assert forall j :: 0 <= j < i - 1 ==> rest[j] == rules[j + 1];
        }
      }
    }
  }

  lemma {:induction false} RuleForTells(env: Env, p: Policy, key: string)
    requires Declared(p)
    ensures RuleFor(env, p, key).None? <==> Unruled(env, p, key)
    ensures forall name :: Ruled(env, p, key, name) ==> name in p.strategies && RuleFor(env, p, key) == Some(p.strategies[name])
  {
    FirstMatchTells(env, p, p.fieldRules, env.lower(key));
    forall name | Ruled(env, p, key, name) ensures name in p.strategies {
      var i :| 0 <= i < |p.fieldRules| && p.fieldRules[i].strategy == name && env.lower(p.fieldRules[i].target) == env.lower(key)
               && forall j :: 0 <= j < i ==> env.lower(p.fieldRules[j].target) != env.lower(key);
      assert p.fieldRules[i] in p.fieldRules;
    }
  }

  /** What the strategy makes of a scalar whose deepest rule is at key i: the marker or fingerprint carries that key only if
      it is the last one; None if there is no key to fingerprint with. */
  predicate Ships(env: Env, s: Strategy, x: Json, keys: seq<string>, i: nat, out: Option<Json>)
    requires i < |keys|
  {
    var tag := if i + 1 == |keys| && |env.lower(keys[i])| > 0 then env.lower(keys[i]) else "field";
    match s
    case Full => out == Some(Str("[REDACTED:" + tag + "]"))
    case PassThrough => out == Some(Str(env.text(x)))
    case Hmac(f) =>
      match f(env.text(x))
      case None => out.None?
      case Some(text) => out == Some(Str("[FP:" + text + ":" + tag + "]"))
  }

  /** The path specification: a scalar takes the strategy of the deepest key on its path that has a rule, labelled
      with that key only if no key lies between; null and scalars without such a key are left alone. */
  lemma {:induction false} PathSpecification(env: Env, p: Policy, v: Json, path: seq<nat>)
    requires Declared(p) && RedactFields(env, p, v).Some? && At(v, path).Some?
    ensures var w, x, keys := RedactFields(env, p, v).value, At(v, path).value, KeysTo(v, path);
            && At(w, path).Some? && SameShape(x, At(w, path).value)
            && (x.Null? || (Scalar(x) && NoRules(env, p, keys)) ==> At(w, path).value == x)
            && (forall i: nat, name :: IsDeepest(env, p, keys, i, name) && Scalar(x) && !x.Null? ==>
                  name in p.strategies && Ships(env, p.strategies[name], x, keys, i, Some(At(w, path).value)))
  {
    hide Walk, SameShape, RuleFor, IsDeepest, Governing, LabelOf, RedactLeaf, Ships, NoRules;
    var x, keys := At(v, path).value, KeysTo(v, path);
    RootContext(env, p);
    WalkFollowsKeys(env, p, v, [], path);
    assert [] + keys == keys;
    if NoRules(env, p, keys) {
      NoRuleNoStrategy(env, p, keys);
    }
    LeafWithoutRule(env, p, x, keys);
    forall i: nat, name | IsDeepest(env, p, keys, i, name) && !x.Null?
      ensures i < |keys| && name in p.strategies && Ships(env, p.strategies[name], x, keys, i, Expected(env, p, x, keys))
    {
      LeafWithRule(env, p, x, keys, i, name);
    }
  }

  /** It raises exactly if some scalar's deepest rule is for a fingerprint and there is no key to make it with. */
  lemma {:induction false} RedactRaisesExactlyWhen(env: Env, p: Policy, v: Json)
    requires Declared(p)
    ensures RedactFields(env, p, v).None? <==> exists path, i, name :: Unprintable(env, p, v, path, i, name)
  {
    hide Walk, RuleFor, IsDeepest, Governing, LabelOf, RedactLeaf, Ships, NoRules, Expected;
    RootContext(env, p);
    WalkRaisesExactlyWhen(env, p, v, []);
    if path :| At(v, path).Some? && Scalar(At(v, path).value) && Expected(env, p, At(v, path).value, [] + KeysTo(v, path)).None? {
      assert [] + KeysTo(v, path) == KeysTo(v, path);
      var i, name := UnprintableIf(env, p, v, path);
    }
    if path, i: nat, name :| Unprintable(env, p, v, path, i, name) {
      assert [] + KeysTo(v, path) == KeysTo(v, path);
      LeafWithRule(env, p, At(v, path).value, KeysTo(v, path), i, name);
      ShipsNothing(env, p.strategies[name], At(v, path).value, KeysTo(v, path), i);
      assert Expected(env, p, At(v, path).value, [] + KeysTo(v, path)).None?;
    }
  }

  lemma {:induction false} UnprintableIf(env: Env, p: Policy, v: Json, path: seq<nat>) returns (i: nat, name: string)
    requires Declared(p) && At(v, path).Some? && Scalar(At(v, path).value)
    requires Expected(env, p, At(v, path).value, KeysTo(v, path)).None?
    ensures Unprintable(env, p, v, path, i, name)
  {
    hide RuleFor, IsDeepest, Governing, LabelOf, RedactLeaf, Ships, NoRules, Expected;
    var x, keys := At(v, path).value, KeysTo(v, path);
    LeafWithoutRule(env, p, x, keys);
    if NoRules(env, p, keys) {
      NoRuleNoStrategy(env, p, keys);
    }
    i, name := DeepestKey(env, p, keys);
    LeafWithRule(env, p, x, keys, i, name);
    ShipsNothing(env, p.strategies[name], x, keys, i);
  }

  ghost predicate Unprintable(env: Env, p: Policy, v: Json, path: seq<nat>, i: nat, name: string) {
    && At(v, path).Some? && Scalar(At(v, path).value) && !At(v, path).value.Null?
    && IsDeepest(env, p, KeysTo(v, path), i, name)
    && name in p.strategies && p.strategies[name].Hmac? && p.strategies[name].fingerprint(env.text(At(v, path).value)).None?
  }

  lemma {:induction false} ShipsNothing(env: Env, s: Strategy, x: Json, keys: seq<string>, i: nat)
    requires i < |keys|
    ensures forall out :: Ships(env, s, x, keys, i, out) ==> (out.None? <==> s.Hmac? && s.fingerprint(env.text(x)).None?)
  {
  }

  lemma {:induction false} DeepestKey(env: Env, p: Policy, keys: seq<string>) returns (i: nat, name: string)
    requires !NoRules(env, p, keys)
    ensures IsDeepest(env, p, keys, i, name)
  {
    var init, last := keys[..|keys| - 1], keys[|keys| - 1];
    if Unruled(env, p, last) {
      assert keys == init + [last];
      i, name := DeepestKey(env, p, init);
      assert forall j :: 0 <= j < |init| ==> keys[j] == init[j];
    } else {
      i := |keys| - 1;
      name := FirstRuleFor(env, p, p.fieldRules, last);
    }
  }

  lemma {:induction false} FirstRuleFor(env: Env, p: Policy, rules: seq<Rule>, key: string) returns (name: string)
    requires exists rule :: rule in rules && env.lower(rule.target) == env.lower(key)
    ensures exists i :: 0 <= i < |rules| && env.lower(rules[i].target) == env.lower(key) && rules[i].strategy == name
                        && forall j :: 0 <= j < i ==> env.lower(rules[j].target) != env.lower(key)
  {
    var init, last := rules[..|rules| - 1], rules[|rules| - 1];
    assert rules == init + [last];
    if exists rule :: rule in init && env.lower(rule.target) == env.lower(key) {
      name := FirstRuleFor(env, p, init, key);
      var i :| 0 <= i < |init| && env.lower(init[i].target) == env.lower(key) && init[i].strategy == name
               && forall j :: 0 <= j < i ==> env.lower(init[j].target) != env.lower(key);
      assert rules[i] == init[i] && forall j :: 0 <= j < i ==> rules[j] == init[j];
    } else {
      name := last.strategy;
      forall j | 0 <= j < |init| ensures env.lower(rules[j].target) != env.lower(key) {
        assert rules[j] in init;
      }
    }
  }

  lemma {:induction false} RootContext(env: Env, p: Policy)
    ensures Governing(env, p, []) == None && LabelOf(env, p, []) == None
  {
  }

  lemma {:induction false} LeafWithoutRule(env: Env, p: Policy, x: Json, keys: seq<string>)
    ensures x.Null? || Governing(env, p, keys).None? ==> Expected(env, p, x, keys) == Some(x)
  {
  }

  lemma {:induction false} LeafWithRule(env: Env, p: Policy, x: Json, keys: seq<string>, i: nat, name: string)
    requires Declared(p) && IsDeepest(env, p, keys, i, name) && !x.Null?
    ensures i < |keys| && name in p.strategies && Ships(env, p.strategies[name], x, keys, i, Expected(env, p, x, keys))
  {
    hide RuleFor, Ruled, Unruled;
    DeepestRule(env, p, keys, i, name);
    RuleForTells(env, p, keys[|keys| - 1]);
    assert i < |keys| - 1 ==> Unruled(env, p, keys[|keys| - 1]);
  }

  lemma {:induction false} NoRuleNoStrategy(env: Env, p: Policy, keys: seq<string>)
    requires Declared(p) && NoRules(env, p, keys)
    ensures Governing(env, p, keys).None?
  {
    hide RuleFor, Unruled;
    if keys != [] {
      RuleForTells(env, p, keys[|keys| - 1]);
      NoRuleNoStrategy(env, p, keys[..|keys| - 1]);
    }
  }

  lemma {:induction false} DeepestRule(env: Env, p: Policy, keys: seq<string>, i: nat, name: string)
    requires Declared(p) && IsDeepest(env, p, keys, i, name)
    ensures name in p.strategies && Governing(env, p, keys) == Some(p.strategies[name])
  {
    hide RuleFor, Ruled, Unruled;
    RuleForTells(env, p, keys[|keys| - 1]);
    if i < |keys| - 1 {
      DeepestRule(env, p, keys[..|keys| - 1], i, name);
    }
  }

  /** The walk raises exactly if some scalar's own strategy does. */
  lemma {:induction false} WalkRaisesExactlyWhen(env: Env, p: Policy, v: Json, keys: seq<string>)
    requires Declared(p)
    ensures Walk(env, p, v, Governing(env, p, keys), LabelOf(env, p, keys)).None? <==>
              exists path :: At(v, path).Some? && Scalar(At(v, path).value)
                             && Expected(env, p, At(v, path).value, keys + KeysTo(v, path)).None?
  {
    hide Expected;
    if Walk(env, p, v, Governing(env, p, keys), LabelOf(env, p, keys)).None? {
      var path := RaisingPath(env, p, v, keys);
    } else {
      forall path | At(v, path).Some? && Scalar(At(v, path).value)
        ensures Expected(env, p, At(v, path).value, keys + KeysTo(v, path)).Some?
      {
        WalkFollowsKeys(env, p, v, keys, path);
      }
    }
  }

  lemma {:induction false} RaisingPath(env: Env, p: Policy, v: Json, keys: seq<string>) returns (path: seq<nat>)
    requires Walk(env, p, v, Governing(env, p, keys), LabelOf(env, p, keys)).None?
    ensures At(v, path).Some? && Scalar(At(v, path).value)
    ensures Expected(env, p, At(v, path).value, keys + KeysTo(v, path)).None?
    decreases v, 0
  {
    var s, tag := Governing(env, p, keys), LabelOf(env, p, keys);
    assert keys + [] == keys;
    match v
    case Arr(items) =>
      var i := RaisingItem(env, p, items, s, tag);
      assert items[i] in v.items;
      var rest := RaisingPath(env, p, items[i], keys);
      path := [i] + rest;
      assert path[1..] == rest && KeysTo(v, path) == [] + KeysTo(items[i], rest);
      assert keys + KeysTo(v, path) == keys + KeysTo(items[i], rest);
    case Obj(fields) =>
      var i := RaisingField(env, p, fields, s);
      var below := keys + [fields[i].key];
      assert below[..|below| - 1] == keys && fields[i] in v.fields;
      var rest := RaisingPath(env, p, fields[i].value, below);
      path := [i] + rest;
      assert path[1..] == rest;
      assert keys + KeysTo(v, path) == below + KeysTo(fields[i].value, rest);
    case _ =>
      path := [];
  }

  lemma {:induction false} RaisingItem(env: Env, p: Policy, items: seq<Json>, s: Option<Strategy>, tag: Option<string>) returns (i: nat)
    requires WalkItems(env, p, items, s, tag).None?
    ensures i < |items| && Walk(env, p, items[i], s, tag).None?
  {
    if Walk(env, p, items[0], s, tag).None? {
      i := 0;
    } else {
      var k := RaisingItem(env, p, items[1..], s, tag);
      i := k + 1;
    }
  }

  lemma {:induction false} RaisingField(env: Env, p: Policy, fields: seq<Field>, s: Option<Strategy>) returns (i: nat)
    requires WalkFields(env, p, fields, s).None?
    ensures i < |fields| && WalkField(env, p, fields[i], s).None?
  {
    if WalkField(env, p, fields[0], s).None? {
      i := 0;
    } else {
      var k := RaisingField(env, p, fields[1..], s);
      i := k + 1;
    }
  }

  // ---- the fallback sweep ----

  /** Keys whose values a sweep leaves alone. */
  const STRUCTURAL := {"kind"}

  const SWEPT := Str("[REDACTED:fallback]")

  method SweepTree(v: Json) returns (r: Json)
    ensures SweptFrom(v, r)
    decreases v
  {
    match v
    case Obj(fields) =>
      var out: seq<Field> := [];
      for i := 0 to |fields|
        invariant |out| == i
        invariant forall j :: 0 <= j < i ==> FieldSwept(fields[j], out[j])
      {
        assert fields[i] in v.fields;
        var value := fields[i].value;
        if fields[i].key !in STRUCTURAL {
          value := SweepTree(fields[i].value);
        }
        out := out + [Field(fields[i].key, value)];
      }
      r := Obj(out);
    case Arr(items) =>
      var out: seq<Json> := [];
      for i := 0 to |items|
        invariant |out| == i
        invariant forall j :: 0 <= j < i ==> SweptFrom(items[j], out[j])
      {
        assert items[i] in v.items;
        var value := SweepTree(items[i]);
        out := out + [value];
      }
      r := Arr(out);
    case Null => r := v;
    case Bool(_) => r := v;
    case _ => r := SWEPT;
  }

  ghost predicate FieldSwept(f: Field, g: Field)
    decreases f, 1
  {
    g.key == f.key && if f.key in STRUCTURAL then g.value == f.value else SweptFrom(f.value, g.value)
  }

  /** Same shape; every number and string off a structural key is the sentinel. */
  ghost predicate SweptFrom(v: Json, r: Json)
    decreases v, 0
  {
    match v
    case Obj(fields) =>
      r.Obj? && |r.fields| == |fields| && forall i :: 0 <= i < |fields| ==> fields[i] in fields && FieldSwept(fields[i], r.fields[i])
    case Arr(items) =>
      r.Arr? && |r.items| == |items| && forall i :: 0 <= i < |items| ==> items[i] in items && SweptFrom(items[i], r.items[i])
    case Null => r == v
    case Bool(_) => r == v
    case _ => r == SWEPT
  }

  /** No string or number survives the sweep unless a structural key lies on its path. */
  lemma {:induction false} SweepLeavesNothing(v: Json, r: Json, path: seq<nat>)
    requires SweptFrom(v, r) && At(r, path).Some? && Scalar(At(r, path).value)
    ensures At(v, path).Some? && KeysTo(v, path) == KeysTo(r, path)
    ensures var x, y, keys := At(v, path).value, At(r, path).value, KeysTo(v, path);
            && ("kind" in keys ==> y == x)
            && ("kind" !in keys ==> if x.Null? || x.Bool? then y == x else y == Str("[REDACTED:fallback]"))
    decreases |path|
  {
    if path != [] {
      var i := path[0];
      if v.Obj? {
        var f, g := v.fields[i], r.fields[i];
        assert FieldSwept(f, g);
        if f.key in STRUCTURAL {
          assert g.value == f.value;
        } else {
          SweepLeavesNothing(f.value, g.value, path[1..]);
        }
      } else {
        assert v.items[i] in v.items && SweptFrom(v.items[i], r.items[i]);
        SweepLeavesNothing(v.items[i], r.items[i], path[1..]);
      }
    }
  }

  // ---- the subject id ----

  predicate StartsWith(s: string, prefix: string) {
    |prefix| <= |s| && s[..|prefix|] == prefix
  }

  /** The test the filter uses for "already redacted": the text begins with a marker. */
  predicate Marked(s: string) {
    StartsWith(s, "[FP:") || StartsWith(s, "[REDACTED:")
  }

  /** Fingerprinted, or fully redacted when there is no key; what already carries a marker stays. */
  function FingerprintSubject(fingerprint: string -> Option<string>, subject: string): string {
    if Marked(subject) then subject
    else
      var r := Replace(Hmac(fingerprint), subject, "subject_id");
      if r.Some? then r.value else Replace(Full, subject, "subject_id").value
  }

  /** A subject id leaves as it came exactly if it begins with a marker, whatever follows the marker; any other leaves
      as its fingerprint, or as the sentinel when there is no key. */
  lemma {:induction false} SubjectKeptExactlyWhen(f: string -> Option<string>, subject: string)
    ensures FingerprintSubject(f, subject) == subject <==> Marked(subject)
    ensures !Marked(subject) ==>
              FingerprintSubject(f, subject) ==
              if f(subject).Some? then "[FP:" + f(subject).value + ":subject_id]" else "[REDACTED:subject_id]"
  {
    if !Marked(subject) {
      OutputIsMarked(f, subject);
    }
  }

  lemma {:induction false} OutputIsMarked(f: string -> Option<string>, subject: string)
    ensures Marked(FingerprintSubject(f, subject))
    ensures !Marked(subject) ==>
              FingerprintSubject(f, subject) ==
              if f(subject).Some? then "[FP:" + f(subject).value + ":subject_id]" else "[REDACTED:subject_id]"
  {
    var out := FingerprintSubject(f, subject);
    if !Marked(subject) {
      if f(subject).Some? {
        assert out == "[FP:" + (f(subject).value + ":subject_id]");
      } else {
        assert out == "[REDACTED:" + "subject_id]";
      }
    }
  }

  /** Redacting again, even with another key, changes nothing. */
  lemma {:induction false} SubjectRedactedOnce(f: string -> Option<string>, g: string -> Option<string>, subject: string)
    ensures FingerprintSubject(g, FingerprintSubject(f, subject)) == FingerprintSubject(f, subject)
  {
    OutputIsMarked(f, subject);
  }
}
