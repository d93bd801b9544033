/**
 Merging two versions of one task field by field (crates/ajax-cli/src/context.rs:390-427).

 A task is encoded as a map of its fields; a fact that is absent has no field.
 */
module TaskFacts {
  import opened Options
  import opened Lifecycle
  import opened Registry

  datatype Field = IdField | CreatedAtField | LifecycleField | Fact(name: string)

  datatype FieldValue = IdValue(id: TaskId) | TimeValue(at: int) | LifecycleValue(status: LifecycleStatus) | Json(text: string)

  type Fields = map<Field, FieldValue>

  /** What field f of the task holds. */
  function FieldOf(t: Task, f: Field): Option<FieldValue> {
    match f
    case IdField => Some(IdValue(t.id))
    case CreatedAtField => Some(TimeValue(t.createdAt))
    case LifecycleField => Some(LifecycleValue(t.lifecycle))
    case Fact(name) => if name in t.facts then Some(Json(t.facts[name])) else None
  }

  function FieldsOf(t: Task): (fields: set<Field>)
    ensures forall f :: f in fields <==> FieldOf(t, f).Some?
  {
    (set name | name in t.facts :: Fact(name)) + {IdField, CreatedAtField, LifecycleField}
  }

  function Encode(t: Task): (fields: Fields)
    ensures forall f :: Lookup(fields, f) == FieldOf(t, f)
  {
    map f | f in FieldsOf(t) :: FieldOf(t, f).value
  }

  predicate IsTyped(f: Field, v: FieldValue) {
    match f
    case IdField => v.IdValue?
    case CreatedAtField => v.TimeValue?
    case LifecycleField => v.LifecycleValue?
    case Fact(_) => v.Json?
  }

  predicate Decodes(fields: Fields) {
    && IdField in fields && CreatedAtField in fields && LifecycleField in fields
    && forall f :: f in fields ==> IsTyped(f, fields[f])
  }

  function FactNames(fields: Fields): (names: set<string>)
    ensures forall name :: name in names <==> Fact(name) in fields
  {
    set f | f in fields && f.Fact? :: f.name
  }

  function Decode(fields: Fields): Option<Task> {
    if !Decodes(fields) then None
    else
      Some(Task(fields[IdField].id, fields[CreatedAtField].at, fields[LifecycleField].status,
                map name | name in FactNames(fields) :: fields[Fact(name)].text))
  }

  lemma {:induction false} EncodedField(t: Task, f: Field)
    ensures f in Encode(t) <==> FieldOf(t, f).Some?
    ensures f in Encode(t) ==> Encode(t)[f] == FieldOf(t, f).value
  {
    assert Lookup(Encode(t), f) == FieldOf(t, f);
  }

  lemma {:induction false} EncodeDecodes(t: Task)
    ensures Decodes(Encode(t))
  {
    forall f
      ensures f in Encode(t) ==> IsTyped(f, Encode(t)[f])
    {
      EncodedField(t, f);
    }
    EncodedField(t, IdField);
    EncodedField(t, CreatedAtField);
    EncodedField(t, LifecycleField);
  }

  lemma {:induction false} DecodeUndoesEncode(t: Task)
    ensures Decode(Encode(t)) == Some(t)
  {
    EncodeDecodes(t);
    var again := Decode(Encode(t)).value;
    forall name
      ensures Lookup(again.facts, name) == Lookup(t.facts, name)
    {
      EncodedField(t, Fact(name));
    }
    SameEntries(again.facts, t.facts);
    EncodedField(t, IdField);
    EncodedField(t, CreatedAtField);
    EncodedField(t, LifecycleField);
  }

  lemma {:induction false} SameEntries<K, V>(a: map<K, V>, b: map<K, V>)
    requires forall k :: Lookup(a, k) == Lookup(b, k)
    ensures a == b
  {
    assert forall k :: k in a <==> Lookup(a, k).Some?;
    assert forall k :: k in b <==> Lookup(b, k).Some?;
    assert forall k :: k in a ==> Lookup(a, k) == Some(a[k]) && Lookup(b, k) == Some(b[k]);
  }

  lemma {:induction false} DecodedField(fields: Fields, f: Field)
    requires Decodes(fields)
    ensures FieldOf(Decode(fields).value, f) == Lookup(fields, f)
  {
    if f in fields {
      assert IsTyped(f, fields[f]);
    }
    match f
    case Fact(name) => assert name in Decode(fields).value.facts <==> f in fields;
    case _ =>
  }

  /** Memory set the field to something other than the baseline. */
  predicate Changed(memory: Fields, baseline: Fields, f: Field) {
    f in memory && Lookup(memory, f) != Lookup(baseline, f)
  }

  /** Memory and disk changed the field in different ways. */
  predicate Clashes(disk: Fields, memory: Fields, baseline: Fields, f: Field) {
    Changed(memory, baseline, f) && Lookup(disk, f) != Lookup(baseline, f) && Lookup(disk, f) != Lookup(memory, f)
  }

  /** The merge, field by field: memory's changes over disk's fields, refused if any field clashes. */
  function MergedFields(disk: Fields, memory: Fields, baseline: Fields): Option<Fields> {
    if exists f :: f in memory && Clashes(disk, memory, baseline, f) then None
    else Some(disk + map f | f in memory && Changed(memory, baseline, f) :: memory[f])
  }

  function MergedFacts(disk: Task, memory: Task, baseline: Task): Option<Task> {
    var fields := MergedFields(Encode(disk), Encode(memory), Encode(baseline));
    if fields.None? then None else Decode(fields.value)
  }

  lemma {:induction false} MergedFieldsDecode(disk: Fields, memory: Fields, baseline: Fields)
    requires Decodes(disk) && Decodes(memory)
    requires MergedFields(disk, memory, baseline).Some?
    ensures Decodes(MergedFields(disk, memory, baseline).value)
  {
    var merged := MergedFields(disk, memory, baseline).value;
    assert forall f :: f in disk ==> f in merged;
    assert forall f :: f in merged ==> (f in disk && merged[f] == disk[f]) || (f in memory && merged[f] == memory[f]);
  }

  /** The loop over memory's fields, in any order. */
  method MergeFields(disk: Fields, memory: Fields, baseline: Fields) returns (r: Option<Fields>)
    ensures r == MergedFields(disk, memory, baseline)
  {
    var merged := disk;
    var rest := memory.Keys;
    while rest != {}
      invariant rest <= memory.Keys
      invariant forall f :: MergedSoFar(merged, disk, memory, baseline, rest, f)
    {
      var f :| f in rest;
      ghost var before := merged;
      if Lookup(memory, f) != Lookup(baseline, f) {
        if Lookup(disk, f) != Lookup(baseline, f) && Lookup(disk, f) != Lookup(memory, f) {
          assert Clashes(disk, memory, baseline, f);
          return None;
        }
        merged := merged[f := memory[f]];
      }
      FieldMerged(before, merged, disk, memory, baseline, rest, f);
      rest := rest - {f};
    }
    AllMerged(merged, disk, memory, baseline);
    return Some(merged);
  }

  /** What the loop has made of the field once only rest is left to visit. */
  ghost predicate MergedSoFar(merged: Fields, disk: Fields, memory: Fields, baseline: Fields, rest: set<Field>, f: Field) {
    if f in memory && f !in rest && Changed(memory, baseline, f)
    then Lookup(merged, f) == Some(memory[f]) && !Clashes(disk, memory, baseline, f)
    else Lookup(merged, f) == Lookup(disk, f)
  }

  lemma {:induction false} FieldMerged(
    before: Fields, after: Fields, disk: Fields, memory: Fields, baseline: Fields, rest: set<Field>, f: Field)
    requires f in rest && f in memory
    requires forall g :: MergedSoFar(before, disk, memory, baseline, rest, g)
    requires !Clashes(disk, memory, baseline, f)
    requires after == if Changed(memory, baseline, f) then before[f := memory[f]] else before
    ensures forall g :: MergedSoFar(after, disk, memory, baseline, rest - {f}, g)
  {
    forall g
      ensures MergedSoFar(after, disk, memory, baseline, rest - {f}, g)
    {
      assert MergedSoFar(before, disk, memory, baseline, rest, g);
    }
  }

  lemma {:induction false} AllMerged(merged: Fields, disk: Fields, memory: Fields, baseline: Fields)
    requires forall f :: MergedSoFar(merged, disk, memory, baseline, {}, f)
    ensures Some(merged) == MergedFields(disk, memory, baseline)
  {
    forall f
      ensures !(f in memory && Clashes(disk, memory, baseline, f))
    {
      assert MergedSoFar(merged, disk, memory, baseline, {}, f);
    }
    var changes := map f | f in memory && Changed(memory, baseline, f) :: memory[f];
    forall f
      ensures Lookup(merged, f) == Lookup(disk + changes, f)
    {
      assert MergedSoFar(merged, disk, memory, baseline, {}, f);
    }
    SameEntries(merged, disk + changes);
  }

  /** Encoding both versions, merging, and decoding, which never fails. */
  method MergeSameTaskFacts(disk: Task, memory: Task, baseline: Task) returns (r: Result<Option<Task>, string>)
    ensures r == Ok(MergedFacts(disk, memory, baseline))
    ensures MergedFacts(disk, memory, baseline).None?
       <==> exists f :: f in Encode(memory) && Clashes(Encode(disk), Encode(memory), Encode(baseline), f)
  {
    var fields := MergeFields(Encode(disk), Encode(memory), Encode(baseline));
    if fields.None? {
      return Ok(None);
    }
    EncodeDecodes(disk);
    EncodeDecodes(memory);
    MergedFieldsDecode(Encode(disk), Encode(memory), Encode(baseline));
    var task := Decode(fields.value);
    if task.None? {
      return Err("state merge failed");
    }
    return Ok(task);
  }

  /**
   A successful merge gives each field memory holds and changed from the baseline memory's value, and
   every other field what disk has, present or absent.
   */
  lemma {:induction false} FieldMeaning(disk: Task, memory: Task, baseline: Task, f: Field)
    requires MergedFacts(disk, memory, baseline).Some?
    ensures
      FieldOf(MergedFacts(disk, memory, baseline).value, f)
      == if FieldOf(memory, f).Some? && FieldOf(memory, f) != FieldOf(baseline, f) then FieldOf(memory, f)
         else FieldOf(disk, f)
  {
    var d, m, b := Encode(disk), Encode(memory), Encode(baseline);
    EncodeDecodes(disk);
    EncodeDecodes(memory);
    MergedFieldsDecode(d, m, b);
    DecodedField(MergedFields(d, m, b).value, f);
    MergedLookup(d, m, b, f);
    EncodedField(memory, f);
    assert Lookup(d, f) == FieldOf(disk, f) && Lookup(m, f) == FieldOf(memory, f) && Lookup(b, f) == FieldOf(baseline, f);
  }

  /** Versions of one task merge into a version of that task, created at the same time. */
  lemma {:induction false} MergeKeepsIdentity(disk: Task, memory: Task, baseline: Task)
    requires MergedFacts(disk, memory, baseline).Some?
    requires disk.id == memory.id
    ensures MergedFacts(disk, memory, baseline).value.id == disk.id
    ensures disk.createdAt == memory.createdAt ==> MergedFacts(disk, memory, baseline).value.createdAt == disk.createdAt
  {
    FieldMeaning(disk, memory, baseline, IdField);
    FieldMeaning(disk, memory, baseline, CreatedAtField);
  }

  /** Some field of the baseline is present in exactly one of the two versions: the other cleared it. */
  ghost predicate ClearedInOne(x: Fields, y: Fields, baseline: Fields) {
    exists f :: f in baseline && (f in x) != (f in y)
  }

  lemma {:induction false} MergedLookup(disk: Fields, memory: Fields, baseline: Fields, f: Field)
    requires MergedFields(disk, memory, baseline).Some?
    ensures Lookup(MergedFields(disk, memory, baseline).value, f)
         == if Changed(memory, baseline, f) then Lookup(memory, f) else Lookup(disk, f)
  {
  }

  lemma {:induction false} CommutesWithoutClearing(x: Fields, y: Fields, baseline: Fields)
    requires !ClearedInOne(x, y, baseline)
    ensures MergedFields(x, y, baseline) == MergedFields(y, x, baseline)
  {
    forall f
      ensures Clashes(x, y, baseline, f) <==> Clashes(y, x, baseline, f)
    {
      assert f in baseline ==> (f in x <==> f in y);
    }
    var xy, yx := MergedFields(x, y, baseline), MergedFields(y, x, baseline);
    assert xy.None? ==> yx.None? by {
      if f :| f in y && Clashes(x, y, baseline, f) {
        assert f in x && Clashes(y, x, baseline, f);
      }
    }
    assert yx.None? ==> xy.None? by {
      if f :| f in x && Clashes(y, x, baseline, f) {
        assert f in y && Clashes(x, y, baseline, f);
      }
    }
    if xy.Some? {
      forall f
        ensures Lookup(xy.value, f) == Lookup(yx.value, f)
      {
        MergedLookup(x, y, baseline, f);
        MergedLookup(y, x, baseline, f);
        assert f in baseline ==> (f in x <==> f in y);
        assert f in y ==> !Clashes(x, y, baseline, f);
        assert f in x ==> !Clashes(y, x, baseline, f);
      }
      SameEntries(xy.value, yx.value);
    }
  }

  lemma {:induction false} ClearingDoesNotCommute(x: Fields, y: Fields, baseline: Fields)
    requires ClearedInOne(x, y, baseline)
    requires MergedFields(x, y, baseline).Some? || MergedFields(y, x, baseline).Some?
    ensures MergedFields(x, y, baseline) != MergedFields(y, x, baseline)
  {
    var f :| f in baseline && (f in x) != (f in y);
    if MergedFields(x, y, baseline).Some? && MergedFields(y, x, baseline).Some? {
      MergedLookup(x, y, baseline, f);
      MergedLookup(y, x, baseline, f);
      assert f in y ==> !Clashes(x, y, baseline, f);
      assert f in x ==> !Clashes(y, x, baseline, f);
    }
  }

  /** Disk, memory and baseline have three different things, or two and nothing, for the field. */
  predicate AllDiffer(x: Fields, y: Fields, baseline: Fields, f: Field) {
    && Lookup(x, f) != Lookup(y, f) && Lookup(x, f) != Lookup(baseline, f) && Lookup(y, f) != Lookup(baseline, f)
  }

  ghost predicate HoldsDiffering(x: Fields, y: Fields, baseline: Fields) {
    exists f :: f in x && AllDiffer(x, y, baseline, f)
  }

  /** The field merge is refused exactly if memory holds a field that all three differ on. */
  lemma {:induction false} RefusedExactly(disk: Fields, memory: Fields, baseline: Fields)
    ensures MergedFields(disk, memory, baseline).None? <==> HoldsDiffering(memory, disk, baseline)
  {
    assert forall f :: f in memory ==> (Clashes(disk, memory, baseline, f) <==> AllDiffer(memory, disk, baseline, f));
  }

  /**
   Swapping disk and memory gives the same merge exactly when neither cleared a field of the baseline
   that the other still has, or each of them holds a field that all three differ on.
   */
  lemma {:induction false} MergeCommutes(x: Fields, y: Fields, baseline: Fields)
    ensures MergedFields(x, y, baseline) == MergedFields(y, x, baseline)
       <==> !ClearedInOne(x, y, baseline) || (HoldsDiffering(x, y, baseline) && HoldsDiffering(y, x, baseline))
  {
    RefusedExactly(x, y, baseline);
    RefusedExactly(y, x, baseline);
    if !ClearedInOne(x, y, baseline) {
      CommutesWithoutClearing(x, y, baseline);
    } else if MergedFields(x, y, baseline).Some? || MergedFields(y, x, baseline).Some? {
      ClearingDoesNotCommute(x, y, baseline);
    }
  }

  /** A fact that memory cleared stays on disk's version if the field merge is what decides. */
  lemma {:induction false} ClearedFactStays(disk: Task, memory: Task, baseline: Task, name: string)
    requires MergedFacts(disk, memory, baseline).Some?
    requires name !in memory.facts
    ensures Lookup(MergedFacts(disk, memory, baseline).value.facts, name) == Lookup(disk.facts, name)
  {
    FieldMeaning(disk, memory, baseline, Fact(name));
  }
}
