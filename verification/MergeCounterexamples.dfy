/**
 Three-way merges that do not do what one would expect: a cleared fact comes back, swapping the sides
 changes the result, and a lifecycle that disk alone moved is refused
 (crates/ajax-cli/src/context.rs:302-314, 410-422).
 */
module MergeCounterexamples {
  import opened Options
  import opened Lifecycle
  import opened Registry
  import opened TaskFacts
  import opened ContextMerge
  import opened MergeMeaning

  function Of(facts: map<string, string>): Task {
    Task("t", 0, Active, facts)
  }

  /** The baseline has a note; memory cleared it; disk changed the title meanwhile. */
  const Baseline := Of(map["note" := "n", "title" := "old"])
  const Cleared := Of(map["title" := "old"])
  const Retitled := Of(map["note" := "n", "title" := "new"])

  lemma {:induction false} NothingToMerge()
    ensures MergedFacts(Retitled, Cleared, Baseline) == Some(Retitled)
  {
    var d, m, b := Encode(Retitled), Encode(Cleared), Encode(Baseline);
    forall f
      ensures !Changed(m, b, f)
    {
      EncodedField(Cleared, f);
      EncodedField(Baseline, f);
      if f.Fact? {
        assert f.name in Cleared.facts ==> f.name == "title";
      }
    }
    RefusedExactly(d, m, b);
    var merged := MergedFields(d, m, b).value;
    forall f
      ensures Lookup(merged, f) == Lookup(d, f)
    {
      MergedLookup(d, m, b, f);
    }
    SameEntries(merged, d);
    DecodeUndoesEncode(Retitled);
  }

  const Old: string := "old"
  const New: string := "new"

  lemma {:induction false} AllDistinct()
    ensures Retitled != Baseline && Cleared != Baseline && Retitled != Cleared
  {
    assert Old[0] == 'o' && New[0] == 'n';
    assert Retitled.facts["title"] == New && Baseline.facts["title"] == Old;
    assert "note" in Baseline.facts && "note" in Retitled.facts && "note" !in Cleared.facts;
  }

  /** The merge brings the note back. */
  lemma {:induction false} ClearedNoteReturns(refresh: FactChange)
    ensures "note" !in Cleared.facts && "note" in Baseline.facts
    ensures MergesTasks(map["t" := Retitled], map["t" := Retitled], map["t" := Cleared], map["t" := Baseline], refresh)
    ensures "note" in Retitled.facts
  {
    RetitledIsKept(refresh);
    OneTaskMerges(Retitled, Cleared, Baseline, Retitled, refresh);
  }

  lemma {:induction false} RetitledIsKept(refresh: FactChange)
    ensures HeldOutcome(Some(Retitled), Cleared, Some(Baseline), refresh) == Keep(Some(Retitled))
  {
    NothingToMerge();
    AllDistinct();
    assert Retitled.lifecycle == Cleared.lifecycle;
  }

  lemma {:induction false} OneTaskMerges(disk: Task, memory: Task, baseline: Task, merged: Task, refresh: FactChange)
    requires HeldOutcome(Some(disk), memory, Some(baseline), refresh) == Keep(Some(merged))
    ensures MergesTasks(map["t" := merged], map["t" := disk], map["t" := memory], map["t" := baseline], refresh)
  {
    forall id
      ensures OutcomeAt(map["t" := disk], map["t" := memory], map["t" := baseline], refresh, id)
           == Keep(Lookup(map["t" := merged], id))
    {
      assert id != "t" ==> Lookup(map["t" := disk], id).None?;
    }
  }

  /** With disk and memory swapped the note goes. */
  lemma {:induction false} SwappedMergeDiffers()
    ensures MergedFields(Encode(Retitled), Encode(Cleared), Encode(Baseline))
         != MergedFields(Encode(Cleared), Encode(Retitled), Encode(Baseline))
  {
    var x, y, b := Encode(Retitled), Encode(Cleared), Encode(Baseline);
    var f := Fact("note");
    EncodedField(Retitled, f);
    EncodedField(Cleared, f);
    EncodedField(Baseline, f);
    assert f in b && f in x && f !in y;
    MergeCommutes(x, y, b);
    NoneDiffers();
  }

  lemma {:induction false} NoneDiffers()
    ensures !HoldsDiffering(Encode(Cleared), Encode(Retitled), Encode(Baseline))
  {
    forall f
      ensures !AllDiffer(Encode(Cleared), Encode(Retitled), Encode(Baseline), f)
    {
      EncodedField(Cleared, f);
      EncodedField(Retitled, f);
      EncodedField(Baseline, f);
      TwoAgree(f);
    }
  }

  /** On every field, the baseline agrees with one of the two. */
  lemma {:induction false} TwoAgree(f: Field)
    ensures FieldOf(Baseline, f) == FieldOf(Cleared, f) || FieldOf(Baseline, f) == FieldOf(Retitled, f)
  {
    match f
    case IdField =>
    case CreatedAtField =>
    case LifecycleField =>
    case Fact(name) =>
      assert name != "note" ==> Lookup(Baseline.facts, name) == Lookup(Cleared.facts, name);
      assert Lookup(Baseline.facts, "note") == Lookup(Retitled.facts, "note");
  }

  /** Disk alone moved the lifecycle; memory has what it loaded; the merge is refused. */
  lemma {:induction false} MovedLifecycleIsRefused(refresh: FactChange)
    ensures OutcomeAt(
      map["t" := Baseline.(lifecycle := LifecycleStatus.Waiting)], map["t" := Baseline], map["t" := Baseline], refresh, "t") == Conflict
    ensures !MergesTasks(
      map["t" := Baseline.(lifecycle := LifecycleStatus.Waiting)],
      map["t" := Baseline.(lifecycle := LifecycleStatus.Waiting)], map["t" := Baseline], map["t" := Baseline], refresh)
  {
    MemoryUnchanged(map["t" := Baseline.(lifecycle := LifecycleStatus.Waiting)], map["t" := Baseline], refresh);
  }
}
