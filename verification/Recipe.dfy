/**
 Layout recipes: a nested plan is checked when it is defined and later compiled onto a
 workspace as a sequence of split-leaf, set-ratio and set-leaf-app ops.  A plan is a Shape.
 */
module Recipe {
  import opened Wrappers
  import opened Tree
  import opened TreeLaws

  // ----- definition time ----------------------------------------------------

  /** An exported script value; objects keep their fields, the first binding of a key counting. */
  datatype JsValue =
    | Object(fields: seq<Field>)
    | Text(text: string)
    | Float(value: real)
    | Integer(n: int)
    | Undefined
    | OtherValue

  datatype Key = App | SplitKey | Ratio | A | B | OtherKey(name: string)

  datatype Field = Field(key: Key, value: JsValue)

  function Get(fields: seq<Field>, key: Key): (v: JsValue)
    ensures v == Undefined || exists f | f in fields :: f.value == v
  {
    if fields == [] then Undefined else if fields[0].key == key then fields[0].value else Get(fields[1..], key)
  }

  predicate Has(fields: seq<Field>, key: Key) { exists f | f in fields :: f.key == key }

  datatype PlanError = NotObject | AppNotString | UnknownKey | NeedsAppOrSplit | BadSplit | BadRatio

  /** The ratio field of a split: absent means one half, anything else must be a number in bounds. */
  function PlanRatio(fields: seq<Field>): Result<real, PlanError> {
    if !Has(fields, Ratio) then Ok(0.5)
    else
      match Get(fields, Ratio)
      case Float(v) => if MIN_RATIO <= v <= MAX_RATIO then Ok(v) else Err(BadRatio)
      case Integer(n) => if MIN_RATIO <= n as real <= MAX_RATIO then Ok(n as real) else Err(BadRatio)
      case _ => Err(BadRatio)
  }

  function PlanDir(v: JsValue): Dir {
    if v == Text("row") then Row else if v == Text("col") then Col else Unset
  }

  predicate OnlyKeys(fields: seq<Field>, keys: set<Key>) { forall f | f in fields :: f.key in keys }

  function Normalize(v: JsValue): Result<Shape, PlanError> {
    match v
    case Object(fields) =>
      if Has(fields, App) then
        if !Get(fields, App).Text? then Err(AppNotString)
        else if !OnlyKeys(fields, {App}) then Err(UnknownKey)
        else Ok(LeafShape(Get(fields, App).text))
      else if !Has(fields, SplitKey) then Err(NeedsAppOrSplit)
      else if PlanDir(Get(fields, SplitKey)) == Unset then Err(BadSplit)
      else if !OnlyKeys(fields, {SplitKey, Ratio, A, B}) then Err(UnknownKey)
      else
        var ratio := PlanRatio(fields);
        if ratio.Err? then Err(ratio.error)
        else
          var va, vb := Get(fields, A), Get(fields, B);
          var a := if va == Undefined then Err(NotObject) else Normalize(va);
          if a.Err? then a
          else
            var b := if vb == Undefined then Err(NotObject) else Normalize(vb);
            if b.Err? then b
            else Ok(SplitShape(PlanDir(Get(fields, SplitKey)), ratio.value, a.value, b.value))
    case _ => Err(NotObject)
  }

  /** What a plan may be: every direction legal, every ratio in bounds. */
  predicate PlanOk(plan: Shape) {
    plan.SplitShape? ==>
      Legal(plan.dir) && MIN_RATIO <= plan.ratio <= MAX_RATIO && PlanOk(plan.a) && PlanOk(plan.b)
  }

  /** A spec that is accepted at definition time is a plan that can be compiled. */
  lemma {:induction false} NormalizedPlanIsOk(v: JsValue)
    ensures Normalize(v).Ok? ==> PlanOk(Normalize(v).value)
  {
    hide Has, OnlyKeys;
    if v.Object? {
      var va, vb := Get(v.fields, A), Get(v.fields, B);
      if va != Undefined { NormalizedPlanIsOk(va); }
      if vb != Undefined { NormalizedPlanIsOk(vb); }
    }
  }

  /** The number a script gave, if it gave one. */
  predicate IsNumber(v: JsValue, x: real) { v == Float(x) || (v.Integer? && v.n as real == x) }

  predicate IsDir(v: JsValue, dir: Dir) { (dir == Row && v == Text("row")) || (dir == Col && v == Text("col")) }

  /** A ratio in bounds, or one half when there is none. */
  predicate GivesRatio(fields: seq<Field>, ratio: real) {
    if Has(fields, Ratio) then IsNumber(Get(fields, Ratio), ratio) && 0.1 <= ratio <= 0.9 else ratio == 0.5
  }

  /**
   What a spec says: a leaf gives its app and nothing else; a split gives its direction, maybe a ratio from 0.1 to
   0.9, one half if it gives none, and its two parts, and nothing else.
   */
  ghost predicate Says(v: JsValue, plan: Shape)
    decreases plan
  {
    && v.Object?
    && match plan
       case LeafShape(app) =>
         Has(v.fields, App) && Get(v.fields, App) == Text(app) && forall f | f in v.fields :: f.key == App
       case SplitShape(dir, ratio, a, b) =>
         && !Has(v.fields, App) && Has(v.fields, SplitKey)
         && IsDir(Get(v.fields, SplitKey), dir) && GivesRatio(v.fields, ratio)
         && (forall f | f in v.fields :: f.key == SplitKey || f.key == Ratio || f.key == A || f.key == B)
         && Says(Get(v.fields, A), a) && Says(Get(v.fields, B), b)
  }

  /** A spec is accepted exactly if it says a plan, and it is read as what it says. */
  lemma {:induction false} ReadAsSaid(v: JsValue, plan: Shape)
    ensures Normalize(v) == Ok(plan) <==> Says(v, plan)
    decreases plan
  {
    hide Has, Get;
    if v.Object? && plan.SplitShape? {
      ReadAsSaid(Get(v.fields, A), plan.a);
      ReadAsSaid(Get(v.fields, B), plan.b);
      SplitReadAsSaid(v, plan);
    } else if v.Object? {
      assert OnlyKeys(v.fields, {App}) <==> forall f | f in v.fields :: f.key == App;
    }
  }

  lemma {:induction false} SplitReadAsSaid(v: JsValue, plan: Shape)
    requires v.Object? && plan.SplitShape?
    requires Normalize(Get(v.fields, A)) == Ok(plan.a) <==> Says(Get(v.fields, A), plan.a)
    requires Normalize(Get(v.fields, B)) == Ok(plan.b) <==> Says(Get(v.fields, B), plan.b)
    ensures Normalize(v) == Ok(plan) <==> Says(v, plan)
  {
    hide Has, Get, Normalize, PlanDir, PlanRatio, IsDir, GivesRatio, OnlyKeys;
    KeysAsSaid(v.fields);
    SplitRead(v, plan);
    DirsAsSaid(Get(v.fields, SplitKey), plan.dir);
    RatioAsSaid(v.fields, plan.ratio);
  }

  /** When a split is accepted, and what it is then. */
  lemma {:induction false} SplitRead(v: JsValue, plan: Shape)
    requires v.Object? && plan.SplitShape?
    ensures Normalize(v) == Ok(plan) <==>
      && !Has(v.fields, App) && Has(v.fields, SplitKey)
      && PlanDir(Get(v.fields, SplitKey)) != Unset && PlanDir(Get(v.fields, SplitKey)) == plan.dir
      && OnlyKeys(v.fields, {SplitKey, Ratio, A, B}) && PlanRatio(v.fields) == Ok(plan.ratio)
      && Normalize(Get(v.fields, A)) == Ok(plan.a) && Normalize(Get(v.fields, B)) == Ok(plan.b)
  {
    hide Has, Get, OnlyKeys, PlanDir, PlanRatio;
  }

  lemma {:induction false} DirsAsSaid(v: JsValue, dir: Dir)
    ensures PlanDir(v) != Unset && PlanDir(v) == dir <==> IsDir(v, dir)
  {
    assert "row"[0] != "col"[0];
  }

  lemma {:induction false} RatioAsSaid(fields: seq<Field>, ratio: real)
    ensures PlanRatio(fields) == Ok(ratio) <==> GivesRatio(fields, ratio)
  {
    hide Has, Get;
  }

  lemma {:induction false} KeysAsSaid(fields: seq<Field>)
    ensures OnlyKeys(fields, {SplitKey, Ratio, A, B}) <==>
      forall f | f in fields :: f.key == SplitKey || f.key == Ratio || f.key == A || f.key == B
  {
  }

  /** The spec one would write for a plan. */
  function Written(plan: Shape): JsValue {
    if plan.LeafShape? then Object([Field(App, Text(plan.app))])
    else
      var split := Text(if plan.dir == Row then "row" else "col");
      Object(FourFields(split, Float(plan.ratio), Written(plan.a), Written(plan.b)))
  }

  function FourFields(split: JsValue, ratio: JsValue, a: JsValue, b: JsValue): seq<Field> {
    [Field(SplitKey, split), Field(Ratio, ratio), Field(A, a), Field(B, b)]
  }

  /** Every plan with legal directions and ratios can be written down and is read back unchanged. */
  lemma {:induction false} WrittenPlanIsRead(plan: Shape)
    requires PlanOk(plan)
    ensures Normalize(Written(plan)) == Ok(plan)
  {
    if plan.SplitShape? {
      WrittenPlanIsRead(plan.a);
      WrittenPlanIsRead(plan.b);
      hide Written, Get, Has, OnlyKeys, PlanDir, Normalize;
      var row := Text(if plan.dir == Row then "row" else "col");
      SplitFields(row, Float(plan.ratio), Written(plan.a), Written(plan.b));
      WrittenSplit(plan);
      DirIsRead(plan.dir);
      NormalizeSplit(Written(plan), plan);
    } else {
      assert Written(plan).fields[0].key == App;
    }
  }

  lemma {:induction false} DirIsRead(dir: Dir)
    requires Legal(dir)
    ensures PlanDir(Text(if dir == Row then "row" else "col")) == dir
  {
    assert "row"[0] != "col"[0];
  }

  lemma {:induction false} NormalizeSplit(v: JsValue, plan: Shape)
    requires v.Object? && plan.SplitShape? && Legal(plan.dir) && MIN_RATIO <= plan.ratio <= MAX_RATIO
    requires !Has(v.fields, App) && Has(v.fields, SplitKey) && Has(v.fields, Ratio)
    requires OnlyKeys(v.fields, {SplitKey, Ratio, A, B})
    requires PlanDir(Get(v.fields, SplitKey)) == plan.dir && Get(v.fields, Ratio) == Float(plan.ratio)
    requires Get(v.fields, A).Object? && Normalize(Get(v.fields, A)) == Ok(plan.a)
    requires Get(v.fields, B).Object? && Normalize(Get(v.fields, B)) == Ok(plan.b)
    ensures Normalize(v) == Ok(plan)
  {
    hide Get, Has, OnlyKeys, PlanDir;
  }

  lemma {:induction false} WrittenSplit(plan: Shape)
    requires plan.SplitShape?
    ensures Written(plan) == Object(FourFields(Text(if plan.dir == Row then "row" else "col"), Float(plan.ratio),
                                               Written(plan.a), Written(plan.b)))
    ensures Written(plan.a).Object? && Written(plan.b).Object?
  {
  }

  lemma {:induction false} SplitKeys(split: JsValue, ratio: JsValue, a: JsValue, b: JsValue)
    ensures var fields := FourFields(split, ratio, a, b);
      && !Has(fields, App) && Has(fields, SplitKey) && Has(fields, Ratio)
      && OnlyKeys(fields, {SplitKey, Ratio, A, B})
  {
    hide Get;
    var fields := FourFields(split, ratio, a, b);
    assert fields[0] in fields && fields[1] in fields;
  }

  lemma {:induction false} SplitFields(split: JsValue, ratio: JsValue, a: JsValue, b: JsValue)
    ensures var fields := FourFields(split, ratio, a, b);
      && !Has(fields, App) && Has(fields, SplitKey) && Has(fields, Ratio)
      && OnlyKeys(fields, {SplitKey, Ratio, A, B})
      && Get(fields, SplitKey) == split && Get(fields, Ratio) == ratio
      && Get(fields, A) == a && Get(fields, B) == b
  {
    hide Has, OnlyKeys;
    SplitKeys(split, ratio, a, b);
    var fields := FourFields(split, ratio, a, b);
    var rest := fields[1..];
    assert rest == [Field(Ratio, ratio), Field(A, a), Field(B, b)];
    var last := rest[1..];
    assert last == [Field(A, a), Field(B, b)];
    assert last[1..] == [Field(B, b)];
    assert Get(rest, A) == Get(last, A) && Get(rest, B) == Get(last, B);
    assert Get(last, B) == Get(last[1..], B) == b;
  }
}
