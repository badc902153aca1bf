/** Classifying the field-level difference between two schemas
    (src/fl_op/contracts/evolution.py, classify_change). */
module SchemaChange {
  import opened VersionPolicy

  /** A field as the snapshot records it; absent types are "". */
  datatype Field = Field(logicalType: string, physicalType: string, required: bool)
  type Fields = map<string, Field>

  /** Every field of the old schema is still there as it was, and the new ones are optional. */
  ghost predicate NonBreaking(was: Fields, now: Fields) {
    && (forall name :: name in was ==> name in now && now[name] == was[name])
    && (forall name :: name in now && name !in was ==> !now[name].required)
  }

  ghost function ChangeOf(was: Fields, now: Fields): Change {
    if was == now then Identical else if NonBreaking(was, now) then Backward else Breaking
  }

  /** Not breaking is transitive, because an optional field added on the way stays as added. */
  lemma ChangeComposes(a: Fields, b: Fields, c: Fields)
    ensures ChangeOf(a, b) != Breaking && ChangeOf(b, c) != Breaking ==> ChangeOf(a, c) != Breaking
    ensures ChangeOf(a, b) == Identical && ChangeOf(b, c) == Identical ==> ChangeOf(a, c) == Identical
  {
    if NonBreaking(a, b) && NonBreaking(b, c) {
      forall name | name in c && name !in a ensures !c[name].required {
        if name in b { assert c[name] == b[name]; }
      }
    }
  }

  method ClassifyChange(was: Fields, now: Fields) returns (change: Change)
    ensures change == ChangeOf(was, now)
  {
    var breaking, backward := false, false;
    var todo := was.Keys;
    while todo != {}
      invariant todo <= was.Keys
      invariant breaking <==> exists name :: name in was.Keys - todo && !(name in now && now[name] == was[name])
      decreases |todo|
    {
      var name :| name in todo;
      if name !in now {
        breaking := true;
      } else {
        var current, spec := now[name], was[name];
        if current.logicalType != spec.logicalType || current.physicalType != spec.physicalType {
          breaking := true;
        }
        if current.required != spec.required { breaking := true; }
      }
      todo := todo - {name};
    }
    assert breaking <==> !(forall name :: name in was ==> name in now && now[name] == was[name]);
    ghost var kept := !breaking;
    todo := now.Keys;
    while todo != {}
      invariant todo <= now.Keys
      invariant breaking <==> !kept || exists name :: name in now.Keys - todo && name !in was && now[name].required
      invariant backward <==> exists name :: name in now.Keys - todo && name !in was && !now[name].required
      decreases |todo|
    {
      var name :| name in todo;
      if name !in was {
        if now[name].required { breaking := true; } else { backward := true; }
      }
      todo := todo - {name};
    }
    assert breaking <==> !NonBreaking(was, now);
    if !breaking && !backward { assert was == now by { SameFields(was, now); } }
    change := if breaking then Breaking else if backward then Backward else Identical;
  }

  lemma SameFields(was: Fields, now: Fields)
    requires NonBreaking(was, now) && forall name :: name in now ==> name in was
    ensures was == now
  {
  }
}
