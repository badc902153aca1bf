/** Classifying drift of mapping semantics
    (src/fl_op/contracts/evolution.py, classify_semantic_metadata_change and its helpers). */
module SemanticChange {
  import opened VersionPolicy

  datatype Json = Null | Bool(b: bool) | Num(r: real) | Str(s: string) | Arr(items: seq<Json>) | Obj(fields: map<string, Json>)

  type Blocks = map<string, Json>

  predicate Truthy(v: Json) {
    match v
    case Null => false
    case Bool(b) => b
    case Num(r) => r != 0.0
    case Str(s) => s != ""
    case Arr(items) => items != []
    case Obj(fields) => fields != map[]
  }

  /** An absent field reads as none. */
  function Get(fields: map<string, Json>, field: string): (v: Json)
    ensures field in fields ==> v == fields[field]
    ensures field !in fields ==> v == Null
  {
    if field in fields then fields[field] else Null
  }

  function AsSet(v: Json): set<Json> {
    match v
    case Arr(items) => set x | x in items
    case Null => {}
    case _ => {v}
  }

  function AsDict(v: Json): map<string, Json> { if v.Obj? then v.fields else map[] }

  function Worst(a: Change, b: Change): Change {
    if a == Breaking || b == Breaking then Breaking
    else if a == Backward || b == Backward then Backward
    else Identical
  }

  // ---- One value --------------------------------------------------------------------------------------

  /** Lists may grow but not lose a value. */
  function AdditiveChange(was: Json, now: Json): Change {
    if AsSet(was) == AsSet(now) then Identical
    else if AsSet(was) - AsSet(now) != {} then Breaking
    else Backward
  }

  /** Code tables may gain codes but neither lose nor retarget one. */
  ghost function CodesChange(was: Json, now: Json): Change {
    var a, b := AsDict(was), AsDict(now);
    if exists key :: key in a && !(key in b && b[key] == a[key]) then Breaking
    else if b.Keys - a.Keys != {} then Backward
    else Identical
  }

  method DiffMetricCodes(was: Json, now: Json) returns (change: Change)
    ensures change == CodesChange(was, now)
  {
    var a, b := AsDict(was), AsDict(now);
    var todo := a.Keys;
    while todo != {}
      invariant todo <= a.Keys && forall key :: key in a.Keys - todo ==> key in b && b[key] == a[key]
      decreases |todo|
    {
      var key :| key in todo;
      if key !in b || b[key] != a[key] { return Breaking; }
      todo := todo - {key};
    }
    change := if b.Keys - a.Keys != {} then Backward else Identical;
  }

  const CONTRACT := "contract"

  ghost function FieldChange(block: string, field: string, was: Json, now: Json): Change {
    if block == CONTRACT then
      if field == "permittedPlanningUses" then AdditiveChange(was, now)
      else if field == "metricCodes" then CodesChange(was, now)
      else if was == now then Identical else Breaking
    else if field == "canonicalUnit" || field == "quantityKind" then
      if was == now then Identical
      else if Truthy(was) && !Truthy(now) then Breaking
      else Backward
    else if field == "planningUse" then AdditiveChange(was, now)
    else if was == now then Identical else Breaking
  }

  lemma FieldSame(block: string, field: string, v: Json)
    ensures FieldChange(block, field, v, v) == Identical
  {
  }

  lemma FieldComposes(block: string, field: string, a: Json, b: Json, c: Json)
    ensures FieldChange(block, field, a, b) != Breaking && FieldChange(block, field, b, c) != Breaking ==>
              FieldChange(block, field, a, c) != Breaking
    ensures FieldChange(block, field, a, b) == Identical && FieldChange(block, field, b, c) == Identical ==>
              FieldChange(block, field, a, c) == Identical
  {
    AdditiveComposes(a, b, c);
    CodesComposes(a, b, c);
  }

  lemma AdditiveComposes(a: Json, b: Json, c: Json)
    ensures AdditiveChange(a, b) != Breaking && AdditiveChange(b, c) != Breaking ==> AdditiveChange(a, c) != Breaking
    ensures AdditiveChange(a, b) == Identical && AdditiveChange(b, c) == Identical ==> AdditiveChange(a, c) == Identical
  {
    var x, y, z := AsSet(a), AsSet(b), AsSet(c);
    NothingLost(x, y);
    NothingLost(y, z);
    NothingLost(x, z);
  }

  lemma NothingLost<T>(a: set<T>, b: set<T>)
    ensures a - b == {} <==> a <= b
  {
    forall v | v in a ensures v in b || v in a - b {
    }
  }

  lemma CodesComposes(a: Json, b: Json, c: Json)
    ensures CodesChange(a, b) != Breaking && CodesChange(b, c) != Breaking ==> CodesChange(a, c) != Breaking
    ensures CodesChange(a, b) == Identical && CodesChange(b, c) == Identical ==> CodesChange(a, c) == Identical
  {
    var x, y, z := AsDict(a), AsDict(b), AsDict(c);
    NothingLost(y.Keys, x.Keys);
    NothingLost(z.Keys, y.Keys);
    NothingLost(z.Keys, x.Keys);
    if CodesChange(a, b) != Breaking && CodesChange(b, c) != Breaking {
      assert forall key :: key in x ==> key in y && y[key] == x[key];
      assert forall key :: key in y ==> key in z && z[key] == y[key];
    }
  }

  // ---- One block: what counts as a change ---------------------------------------------------------------

  /** A value a metadata author has set: not missing, false, zero or empty. */
  ghost predicate IsSet(v: Json) {
    v != Null && v != Bool(false) && v != Num(0.0) && v != Str("") && v != Arr([]) && v != Obj(map[])
  }

  /** x is one of the values of a list field; a value on its own is a list of one. */
  ghost predicate HasValue(fields: map<string, Json>, field: string, x: Json) {
    var v := Get(fields, field);
    if v.Arr? then x in v.items else v != Null && x == v
  }

  ghost predicate KeepsValues(was: map<string, Json>, now: map<string, Json>, field: string) {
    forall x :: HasValue(was, field, x) ==> HasValue(now, field, x)
  }

  /** code stands for target in the code table of the field. */
  ghost predicate HasCode(fields: map<string, Json>, field: string, code: string, target: Json) {
    var v := Get(fields, field);
    v.Obj? && code in v.fields && v.fields[code] == target
  }

  ghost predicate KeepsCodes(was: map<string, Json>, now: map<string, Json>, field: string) {
    forall code, target :: HasCode(was, field, code, target) ==> HasCode(now, field, code, target)
  }

  ghost predicate LosesUnit(was: map<string, Json>, now: map<string, Json>, field: string) {
    IsSet(Get(was, field)) && !IsSet(Get(now, field))
  }

  /** What may change within a major version. Of a field's block the unit and the quantity kind may
      be set or converted but not lost, and its planning uses may grow; of the contract's block the
      permitted planning uses and the metric codes may grow; everything else stays. */
  ghost predicate FieldsCompatible(block: string, was: map<string, Json>, now: map<string, Json>) {
    if block == "contract" then
      && KeepsValues(was, now, "permittedPlanningUses") && KeepsCodes(was, now, "metricCodes")
      && forall field: string :: field != "permittedPlanningUses" && field != "metricCodes" ==>
           Get(was, field) == Get(now, field)
    else
      && !LosesUnit(was, now, "canonicalUnit") && !LosesUnit(was, now, "quantityKind")
      && KeepsValues(was, now, "planningUse")
      && forall field: string :: field != "canonicalUnit" && field != "quantityKind" && field != "planningUse" ==>
           Get(was, field) == Get(now, field)
  }

  /** The same up to order and repetition in the growing lists. */
  ghost predicate FieldsEquivalent(block: string, was: map<string, Json>, now: map<string, Json>) {
    if block == "contract" then
      && KeepsValues(was, now, "permittedPlanningUses") && KeepsValues(now, was, "permittedPlanningUses")
      && KeepsCodes(was, now, "metricCodes") && KeepsCodes(now, was, "metricCodes")
      && forall field: string :: field != "permittedPlanningUses" && field != "metricCodes" ==>
           Get(was, field) == Get(now, field)
    else
      && KeepsValues(was, now, "planningUse") && KeepsValues(now, was, "planningUse")
      && forall field: string :: field != "planningUse" ==> Get(was, field) == Get(now, field)
  }

  ghost predicate BlockKeeps(block: string, was: Json, now: Json) {
    was == now || (was.Obj? && now.Obj? && FieldsCompatible(block, was.fields, now.fields))
  }

  ghost predicate BlockSame(block: string, was: Json, now: Json) {
    was == now || (was.Obj? && now.Obj? && FieldsEquivalent(block, was.fields, now.fields))
  }

  // ---- One block: field by field --------------------------------------------------------------------------

  ghost predicate NoneBreaks(block: string, was: map<string, Json>, now: map<string, Json>) {
    forall field: string :: FieldChange(block, field, Get(was, field), Get(now, field)) != Breaking
  }

  ghost predicate NoneDiffers(block: string, was: map<string, Json>, now: map<string, Json>) {
    forall field: string :: FieldChange(block, field, Get(was, field), Get(now, field)) == Identical
  }

  lemma TruthyIsSet(v: Json)
    ensures Truthy(v) <==> IsSet(v)
  {
  }

  lemma AdditiveMeans(was: map<string, Json>, now: map<string, Json>, field: string)
    ensures AdditiveChange(Get(was, field), Get(now, field)) != Breaking <==> KeepsValues(was, now, field)
    ensures AdditiveChange(Get(was, field), Get(now, field)) == Identical <==>
            KeepsValues(was, now, field) && KeepsValues(now, was, field)
  {
    var a, b := AsSet(Get(was, field)), AsSet(Get(now, field));
    assert forall x :: x in a <==> HasValue(was, field, x);
    assert forall x :: x in b <==> HasValue(now, field, x);
    NothingLost(a, b);
    NothingLost(b, a);
  }

  lemma CodesMean(was: map<string, Json>, now: map<string, Json>, field: string)
    ensures CodesChange(Get(was, field), Get(now, field)) != Breaking <==> KeepsCodes(was, now, field)
    ensures CodesChange(Get(was, field), Get(now, field)) == Identical <==>
            KeepsCodes(was, now, field) && KeepsCodes(now, was, field)
  {
    var a, b := AsDict(Get(was, field)), AsDict(Get(now, field));
    assert forall code, target :: HasCode(was, field, code, target) <==> code in a && a[code] == target;
    assert forall code, target :: HasCode(now, field, code, target) <==> code in b && b[code] == target;
    assert KeepsCodes(was, now, field) <==> forall code :: code in a ==> code in b && b[code] == a[code] by {
      if KeepsCodes(was, now, field) {
        forall code | code in a ensures code in b && b[code] == a[code] { assert HasCode(was, field, code, a[code]); }
      }
    }
    assert KeepsCodes(now, was, field) <==> forall code :: code in b ==> code in a && a[code] == b[code] by {
      if KeepsCodes(now, was, field) {
        forall code | code in b ensures code in a && a[code] == b[code] { assert HasCode(now, field, code, b[code]); }
      }
    }
    NothingLost(b.Keys, a.Keys);
  }

  /** What may become of one field. */
  ghost predicate FieldCompatible(block: string, was: map<string, Json>, now: map<string, Json>, field: string) {
    if block == "contract" then
      if field == "permittedPlanningUses" then KeepsValues(was, now, field)
      else if field == "metricCodes" then KeepsCodes(was, now, field)
      else Get(was, field) == Get(now, field)
    else if field == "canonicalUnit" || field == "quantityKind" then !LosesUnit(was, now, field)
    else if field == "planningUse" then KeepsValues(was, now, field)
    else Get(was, field) == Get(now, field)
  }

  ghost predicate FieldEquivalent(block: string, was: map<string, Json>, now: map<string, Json>, field: string) {
    if block == "contract" && field == "metricCodes" then KeepsCodes(was, now, field) && KeepsCodes(now, was, field)
    else if field == (if block == "contract" then "permittedPlanningUses" else "planningUse") then
      KeepsValues(was, now, field) && KeepsValues(now, was, field)
    else Get(was, field) == Get(now, field)
  }

  lemma OneFieldMeans(block: string, was: map<string, Json>, now: map<string, Json>, field: string)
    ensures FieldChange(block, field, Get(was, field), Get(now, field)) != Breaking <==>
            FieldCompatible(block, was, now, field)
    ensures FieldChange(block, field, Get(was, field), Get(now, field)) == Identical <==>
            FieldEquivalent(block, was, now, field)
  {
    hide AdditiveChange, CodesChange, KeepsValues, KeepsCodes, IsSet, Truthy;
    AdditiveMeans(was, now, field);
    CodesMean(was, now, field);
    TruthyIsSet(Get(was, field));
    TruthyIsSet(Get(now, field));
  }

  /** The rule table says, field by field, what the block as a whole may become. */
  lemma FieldsMean(block: string, was: map<string, Json>, now: map<string, Json>)
    ensures NoneBreaks(block, was, now) <==> FieldsCompatible(block, was, now)
    ensures NoneDiffers(block, was, now) <==> FieldsEquivalent(block, was, now)
  {
    hide FieldChange, FieldCompatible, FieldEquivalent, FieldsCompatible, FieldsEquivalent;
    forall field: string
      ensures FieldChange(block, field, Get(was, field), Get(now, field)) != Breaking <==>
              FieldCompatible(block, was, now, field)
      ensures FieldChange(block, field, Get(was, field), Get(now, field)) == Identical <==>
              FieldEquivalent(block, was, now, field)
    {
      OneFieldMeans(block, was, now, field);
    }
    AllCompatible(block, was, now);
    AllEquivalent(block, was, now);
  }

  lemma AllCompatible(block: string, was: map<string, Json>, now: map<string, Json>)
    ensures (forall field: string :: FieldCompatible(block, was, now, field)) <==> FieldsCompatible(block, was, now)
  {
    hide KeepsValues, KeepsCodes, LosesUnit, Get;
    if forall field: string :: FieldCompatible(block, was, now, field) {
      ListFieldsDiffer();
      assert FieldCompatible(block, was, now, "permittedPlanningUses") && FieldCompatible(block, was, now, "metricCodes");
      assert FieldCompatible(block, was, now, "canonicalUnit") && FieldCompatible(block, was, now, "quantityKind");
      assert FieldCompatible(block, was, now, "planningUse");
      forall field: string | field != "permittedPlanningUses" && field != "metricCodes" && block == "contract"
        ensures Get(was, field) == Get(now, field)
      {
        assert FieldCompatible(block, was, now, field);
      }
      forall field: string
        | field != "canonicalUnit" && field != "quantityKind" && field != "planningUse" && block != "contract"
        ensures Get(was, field) == Get(now, field)
      {
        assert FieldCompatible(block, was, now, field);
      }
    }
  }

  lemma AllEquivalent(block: string, was: map<string, Json>, now: map<string, Json>)
    ensures (forall field: string :: FieldEquivalent(block, was, now, field)) <==> FieldsEquivalent(block, was, now)
  {
    hide KeepsValues, KeepsCodes, Get;
    if forall field: string :: FieldEquivalent(block, was, now, field) {
      ListFieldsDiffer();
      assert FieldEquivalent(block, was, now, "permittedPlanningUses") && FieldEquivalent(block, was, now, "metricCodes");
      assert FieldEquivalent(block, was, now, "planningUse");
      forall field: string | field != "permittedPlanningUses" && field != "metricCodes" && block == "contract"
        ensures Get(was, field) == Get(now, field)
      {
        assert FieldEquivalent(block, was, now, field);
      }
      forall field: string | field != "planningUse" && block != "contract" ensures Get(was, field) == Get(now, field) {
        assert FieldEquivalent(block, was, now, field);
      }
    }
  }

  lemma ListFieldsDiffer()
    ensures "permittedPlanningUses" != "metricCodes" && "planningUse" != "canonicalUnit" && "planningUse" != "quantityKind"
  {
    assert |"permittedPlanningUses"| != |"metricCodes"| && |"planningUse"| != |"canonicalUnit"|;
    assert |"planningUse"| != |"quantityKind"|;
  }

  lemma BlockMeans(block: string, was: Json, now: Json)
    requires was.Obj? && now.Obj?
    ensures BlockKeeps(block, was, now) <==> was == now || NoneBreaks(block, was.fields, now.fields)
    ensures BlockSame(block, was, now) <==> was == now || NoneDiffers(block, was.fields, now.fields)
  {
    hide NoneBreaks, NoneDiffers, FieldsCompatible, FieldsEquivalent;
    FieldsMean(block, was.fields, now.fields);
  }

  lemma NoneBreaksComposes(block: string, a: map<string, Json>, b: map<string, Json>, c: map<string, Json>)
    ensures NoneBreaks(block, a, b) && NoneBreaks(block, b, c) ==> NoneBreaks(block, a, c)
    ensures NoneDiffers(block, a, b) && NoneDiffers(block, b, c) ==> NoneDiffers(block, a, c)
  {
    hide FieldChange, Get;
    forall field: string
      ensures FieldChange(block, field, Get(a, field), Get(b, field)) != Breaking
              && FieldChange(block, field, Get(b, field), Get(c, field)) != Breaking ==>
                FieldChange(block, field, Get(a, field), Get(c, field)) != Breaking
      ensures FieldChange(block, field, Get(a, field), Get(b, field)) == Identical
              && FieldChange(block, field, Get(b, field), Get(c, field)) == Identical ==>
                FieldChange(block, field, Get(a, field), Get(c, field)) == Identical
    {
      FieldComposes(block, field, Get(a, field), Get(b, field), Get(c, field));
    }
  }

  lemma BlockComposes(block: string, a: Json, b: Json, c: Json)
    ensures BlockKeeps(block, a, b) && BlockKeeps(block, b, c) ==> BlockKeeps(block, a, c)
    ensures BlockSame(block, a, b) && BlockSame(block, b, c) ==> BlockSame(block, a, c)
  {
    hide NoneBreaks, NoneDiffers, FieldsCompatible, FieldsEquivalent;
    if a.Obj? && b.Obj? && c.Obj? {
      BlockMeans(block, a, b);
      BlockMeans(block, b, c);
      BlockMeans(block, a, c);
      NoneBreaksComposes(block, a.fields, b.fields, c.fields);
    }
  }

  /** One field of a block, branch by branch. */
  method ClassifyField(block: string, field: string, was: Json, now: Json) returns (change: Change)
    ensures change == FieldChange(block, field, was, now)
  {
    if block == CONTRACT && field == "metricCodes" {
      change := DiffMetricCodes(was, now);
    } else if field == (if block == CONTRACT then "permittedPlanningUses" else "planningUse") {
      change := AdditiveChange(was, now);
    } else if was == now {
      change := Identical;
    } else if block != CONTRACT && (field == "canonicalUnit" || field == "quantityKind") {
      change := if Truthy(was) && !Truthy(now) then Breaking else Backward;
    } else {
      change := Breaking;
    }
  }

  ghost predicate FieldsKeep(block: string, was: map<string, Json>, now: map<string, Json>, fields: set<string>) {
    forall field :: field in fields ==> FieldChange(block, field, Get(was, field), Get(now, field)) != Breaking
  }

  ghost predicate FieldsSame(block: string, was: map<string, Json>, now: map<string, Json>, fields: set<string>) {
    forall field :: field in fields ==> FieldChange(block, field, Get(was, field), Get(now, field)) == Identical
  }

  method ClassifyFields(block: string, was: map<string, Json>, now: map<string, Json>) returns (change: Change)
    ensures change != Breaking <==> FieldsKeep(block, was, now, was.Keys + now.Keys)
    ensures change == Identical <==> FieldsSame(block, was, now, was.Keys + now.Keys)
  {
    hide FieldChange, FieldsKeep, FieldsSame;
    change := Identical;
    var all := was.Keys + now.Keys;
    var todo := all;
    ghost var done: set<string> := {};
    NoFields(block, was, now);
    while todo != {}
      invariant todo <= all && done == all - todo
      invariant change != Breaking <==> FieldsKeep(block, was, now, done)
      invariant change == Identical <==> FieldsSame(block, was, now, done)
      decreases |todo|
    {
      var field :| field in todo;
      var one := ClassifyField(block, field, Get(was, field), Get(now, field));
      OneMoreField(block, was, now, done, field);
      change := Worst(change, one);
      todo, done := todo - {field}, done + {field};
    }
    assert done == all;
  }

  lemma NoFields(block: string, was: map<string, Json>, now: map<string, Json>)
    ensures FieldsKeep(block, was, now, {}) && FieldsSame(block, was, now, {})
  {
  }

  lemma OneMoreField(block: string, was: map<string, Json>, now: map<string, Json>, done: set<string>, field: string)
    ensures var one := FieldChange(block, field, Get(was, field), Get(now, field));
            && (FieldsKeep(block, was, now, done + {field}) <==> FieldsKeep(block, was, now, done) && one != Breaking)
            && (FieldsSame(block, was, now, done + {field}) <==> FieldsSame(block, was, now, done) && one == Identical)
  {
    hide FieldChange;
    assert field in done + {field} && forall f :: f in done + {field} <==> f in done || f == field;
  }

  lemma OnlyListedFieldsMatter(block: string, was: map<string, Json>, now: map<string, Json>)
    ensures FieldsKeep(block, was, now, was.Keys + now.Keys) <==> NoneBreaks(block, was, now)
    ensures FieldsSame(block, was, now, was.Keys + now.Keys) <==> NoneDiffers(block, was, now)
  {
    hide FieldChange;
    forall field: string | field !in was.Keys + now.Keys
      ensures FieldChange(block, field, Get(was, field), Get(now, field)) == Identical
    {
      FieldSame(block, field, Null);
    }
  }

  method ClassifyBlock(block: string, was: Json, now: Json) returns (change: Change)
    ensures change != Breaking <==> BlockKeeps(block, was, now)
    ensures change == Identical <==> BlockSame(block, was, now)
  {
    hide FieldChange, FieldsKeep, FieldsSame, NoneBreaks, NoneDiffers, BlockKeeps, BlockSame;
    if was == now {
      EqualBlocks(block, was);
      return Identical;
    }
    if !was.Obj? || !now.Obj? {
      NotObjects(block, was, now);
      return Breaking;
    }
    change := ClassifyFields(block, was.fields, now.fields);
    OnlyListedFieldsMatter(block, was.fields, now.fields);
    BlockMeans(block, was, now);
  }

  lemma EqualBlocks(block: string, v: Json)
    ensures BlockKeeps(block, v, v) && BlockSame(block, v, v)
  {
  }

  lemma NotObjects(block: string, was: Json, now: Json)
    requires was != now && (!was.Obj? || !now.Obj?)
    ensures !BlockKeeps(block, was, now) && !BlockSame(block, was, now)
  {
  }

  // ---- All blocks -----------------------------------------------------------------------------------

  /** No block is gone and none changed in a breaking way; new blocks are welcome. */
  ghost predicate Keeps(was: Blocks, now: Blocks) {
    forall key :: key in was ==> key in now && BlockKeeps(key, was[key], now[key])
  }

  ghost predicate Unchanged(was: Blocks, now: Blocks) {
    was.Keys == now.Keys && forall key :: key in was ==> BlockSame(key, was[key], now[key])
  }

  ghost function ChangeOf(was: Blocks, now: Blocks): Change {
    if Unchanged(was, now) then Identical else if Keeps(was, now) then Backward else Breaking
  }

  lemma SameKeeps(block: string, was: Json, now: Json)
    ensures BlockSame(block, was, now) ==> BlockKeeps(block, was, now)
  {
  }

  /** Drift that does not break composes, and so does no drift. */
  lemma ChangeComposes(a: Blocks, b: Blocks, c: Blocks)
    ensures ChangeOf(a, b) != Breaking && ChangeOf(b, c) != Breaking ==> ChangeOf(a, c) != Breaking
    ensures ChangeOf(a, b) == Identical && ChangeOf(b, c) == Identical ==> ChangeOf(a, c) == Identical
  {
    hide BlockKeeps, BlockSame;
    forall key | key in a && key in b && key in c
      ensures BlockKeeps(key, a[key], b[key]) && BlockKeeps(key, b[key], c[key]) ==> BlockKeeps(key, a[key], c[key])
      ensures BlockSame(key, a[key], b[key]) && BlockSame(key, b[key], c[key]) ==> BlockSame(key, a[key], c[key])
    {
      BlockComposes(key, a[key], b[key], c[key]);
    }
    UnchangedKeeps(a, b);
    UnchangedKeeps(b, c);
    UnchangedKeeps(a, c);
  }

  lemma UnchangedKeeps(was: Blocks, now: Blocks)
    ensures Unchanged(was, now) ==> Keeps(was, now)
  {
    hide BlockKeeps, BlockSame;
    forall key | key in was && key in now ensures BlockSame(key, was[key], now[key]) ==> BlockKeeps(key, was[key], now[key]) {
      SameKeeps(key, was[key], now[key]);
    }
  }

  ghost predicate CommonKeep(was: Blocks, now: Blocks, keys: set<string>)
    requires keys <= was.Keys * now.Keys
  {
    forall key :: key in keys ==> BlockKeeps(key, was[key], now[key])
  }

  ghost predicate CommonSame(was: Blocks, now: Blocks, keys: set<string>)
    requires keys <= was.Keys * now.Keys
  {
    forall key :: key in keys ==> BlockSame(key, was[key], now[key])
  }

  /** The loop over the keys both snapshots have. */
  method ClassifyCommon(was: Blocks, now: Blocks) returns (change: Change)
    ensures change != Breaking <==> CommonKeep(was, now, was.Keys * now.Keys)
    ensures change == Identical <==> CommonSame(was, now, was.Keys * now.Keys)
  {
    hide BlockKeeps, BlockSame, CommonKeep, CommonSame;
    change := Identical;
    var common := was.Keys * now.Keys;
    var todo := common;
    ghost var done: set<string> := {};
    NoKeys(was, now);
    while todo != {}
      invariant todo <= common && done == common - todo
      invariant change != Breaking <==> CommonKeep(was, now, done)
      invariant change == Identical <==> CommonSame(was, now, done)
      decreases |todo|
    {
      var key :| key in todo;
      var one := ClassifyBlock(key, was[key], now[key]);
      OneMoreKey(was, now, done, key);
      change := Worst(change, one);
      todo, done := todo - {key}, done + {key};
    }
    assert done == common;
  }

  lemma NoKeys(was: Blocks, now: Blocks)
    ensures CommonKeep(was, now, {}) && CommonSame(was, now, {})
  {
  }

  lemma OneMoreKey(was: Blocks, now: Blocks, done: set<string>, key: string)
    requires done <= was.Keys * now.Keys && key in was && key in now
    ensures CommonKeep(was, now, done + {key}) <==> CommonKeep(was, now, done) && BlockKeeps(key, was[key], now[key])
    ensures CommonSame(was, now, done + {key}) <==> CommonSame(was, now, done) && BlockSame(key, was[key], now[key])
  {
    hide BlockKeeps, BlockSame;
    assert key in done + {key} && forall k :: k in done + {key} <==> k in done || k == key;
  }

  method ClassifySemanticChange(was: Blocks, now: Blocks) returns (change: Change)
    ensures change == ChangeOf(was, now)
    ensures change == Breaking <==> exists key :: key in was && !(key in now && BlockKeeps(key, was[key], now[key]))
    ensures change == Identical <==>
            was.Keys == now.Keys && forall key :: key in was ==> BlockSame(key, was[key], now[key])
  {
    hide BlockKeeps, BlockSame;
    if was == now {
      EqualIsUnchanged(was);
      UnchangedKeeps(was, now);
      return Identical;
    }
    change := ClassifyCommon(was, now);
    if was.Keys - now.Keys != {} { change := Breaking; }
    if now.Keys - was.Keys != {} { change := Worst(change, Backward); }
    AllBlocks(was, now);
  }

  lemma AllBlocks(was: Blocks, now: Blocks)
    ensures Keeps(was, now) <==> was.Keys - now.Keys == {} && CommonKeep(was, now, was.Keys * now.Keys)
    ensures Unchanged(was, now) <==>
            was.Keys - now.Keys == {} && now.Keys - was.Keys == {} && CommonSame(was, now, was.Keys * now.Keys)
    ensures Unchanged(was, now) ==> Keeps(was, now)
  {
    hide BlockKeeps, BlockSame;
    NothingLost(was.Keys, now.Keys);
    NothingLost(now.Keys, was.Keys);
    UnchangedKeeps(was, now);
  }

  lemma EqualIsUnchanged(blocks: Blocks)
    ensures Unchanged(blocks, blocks)
  {
  }
}
