/** buildBacklogCurationReducerInput as the program runs it: one reducer object whose
    context, outcomes and diagnostics are overwritten step by step. */
module ReducerBuilder {
  import opened Text
  import opened GreedyPacking
  import opened NameChunks
  import opened ReducerInput
  import opened ReducerSelection
  import opened ReducerByteCap
  import opened ReducerConvergence
  import opened ReducerLoop

  // ---- Clearing the omission diagnostics ----

  function WithoutOmissions(diagnostics: seq<Diagnostic>): seq<Diagnostic> {
    if diagnostics == [] then []
    else (if diagnostics[0].code == OMITTED_CODE then [] else [diagnostics[0]]) + WithoutOmissions(diagnostics[1..])
  }

  lemma {:induction false} WithoutOmissionsAppend(a: seq<Diagnostic>, b: seq<Diagnostic>)
    ensures WithoutOmissions(a + b) == WithoutOmissions(a) + WithoutOmissions(b)
  {
    if a == [] {
      assert a + b == b;
    } else {
      assert (a + b)[1..] == a[1..] + b;
      WithoutOmissionsAppend(a[1..], b);
    }
  }

  lemma {:induction false} OnlyOmissions(diagnostics: seq<Diagnostic>)
    requires forall i :: 0 <= i < |diagnostics| ==> diagnostics[i].code == OMITTED_CODE
    ensures WithoutOmissions(diagnostics) == []
  {
    if diagnostics != [] {
      OnlyOmissions(diagnostics[1..]);
    }
  }

  lemma {:induction false} NoOmissions(diagnostics: seq<Diagnostic>)
    requires forall i :: 0 <= i < |diagnostics| ==> diagnostics[i].code != OMITTED_CODE
    ensures WithoutOmissions(diagnostics) == diagnostics
  {
    if diagnostics != [] {
      NoOmissions(diagnostics[1..]);
    }
  }

  lemma ResetGivesBase(base: seq<Diagnostic>, chunks: seq<seq<string>>)
    requires forall i :: 0 <= i < |base| ==> base[i].code != OMITTED_CODE
    ensures WithoutOmissions(base + OmissionDiagnostics(chunks)) == base
  {
    hide Message, Decimal;
    WithoutOmissionsAppend(base, OmissionDiagnostics(chunks));
    OnlyOmissions(OmissionDiagnostics(chunks));
    NoOmissions(base);
  }

  // ---- First-fit, one outcome at a time ----

  lemma {:induction false} SelectedSnoc<T>(items: seq<T>, kept: seq<bool>, item: T, keep: bool)
    requires |kept| == |items|
    ensures Selected(items + [item], kept + [keep]) == Selected(items, kept) + (if keep then [item] else [])
  {
    if items == [] {
      assert [item][1..] == [] && [keep][1..] == [] && items + [item] == [item] && kept + [keep] == [keep];
    } else {
      assert (items + [item])[1..] == items[1..] + [item] && (kept + [keep])[1..] == kept[1..] + [keep];
      SelectedSnoc(items[1..], kept[1..], item, keep);
    }
  }

  lemma FitsRoom(head: string, context: Context, outcomes: seq<Outcome>, diagnostics: seq<Diagnostic>)
    requires outcomes != []
    ensures Bytes(Reducer(head, context, outcomes, diagnostics)) <= CAP
       <==> Weight(OutcomeTexts(outcomes)) <= OutcomeRoom(head, context, diagnostics)
  {
    hide Bytes, FixedBytes, DiagnosticTexts;
    BytesAreAdditive(Reducer(head, context, outcomes, diagnostics));
    ListBytesIsWeight(OutcomeTexts(outcomes));
  }

  lemma EmptyFitsRoom(head: string, context: Context, diagnostics: seq<Diagnostic>)
    ensures Bytes(Reducer(head, context, [], diagnostics)) <= CAP <==> OutcomeRoom(head, context, diagnostics) >= 1
  {
    hide Bytes, FixedBytes, DiagnosticTexts;
    BytesAreAdditive(Reducer(head, context, [], diagnostics));
    assert OutcomeTexts([]) == [];
  }

  function SelectedIndexes(entries: seq<Entry>, kept: seq<bool>): set<nat>
    requires |kept| == |entries|
  {
    set i | 0 <= i < |entries| && kept[i] :: entries[i].originalIndex
  }

  /** The fitting loop after the entries `done`, with `rest` to come. */
  ghost predicate Fitting(done: seq<Entry>, rest: seq<Entry>, kept: seq<bool>, outcomes: seq<Outcome>, room: int) {
    && |kept| == |done|
    && outcomes == Selected(OutcomesOf(done), kept)
    && Pick(Weights(done + rest), room) == kept + Pick(Weights(rest), room - Weight(OutcomeTexts(outcomes)))
  }

  lemma WeightSnoc(outcomes: seq<Outcome>, o: Outcome)
    ensures Weight(OutcomeTexts(outcomes + [o])) == Weight(OutcomeTexts(outcomes)) + Utf8Length(o.text) + 1
  {
    hide Utf8Length;
    assert OutcomeTexts(outcomes + [o]) == OutcomeTexts(outcomes) + [o.text];
    WeightAppend(OutcomeTexts(outcomes), [o.text]);
    assert [o.text][1..] == [];
  }

  lemma PickFirst(entries: seq<Entry>, room: int)
    requires entries != []
    ensures var w := Utf8Length(entries[0].outcome.text) + 1;
            Pick(Weights(entries), room) == [w <= room] + Pick(Weights(entries[1..]), if w <= room then room - w else room)
  {
    hide Utf8Length;
    assert Weights(entries)[1..] == Weights(entries[1..]);
  }

  lemma FittingStep(done: seq<Entry>, rest: seq<Entry>, kept: seq<bool>, outcomes: seq<Outcome>, room: int, keep: bool)
    requires Fitting(done, rest, kept, outcomes, room) && rest != []
    requires keep <==> Weight(OutcomeTexts(outcomes + [rest[0].outcome])) <= room
    ensures Fitting(done + [rest[0]], rest[1..], kept + [keep], if keep then outcomes + [rest[0].outcome] else outcomes, room)
  {
    hide Utf8Length, Pick, Selected, OutcomeTexts, Weights, Weight;
    var o := rest[0].outcome;
    assert done + [rest[0]] + rest[1..] == done + rest;
    assert OutcomesOf(done + [rest[0]]) == OutcomesOf(done) + [o];
    SelectedSnoc(OutcomesOf(done), kept, o, keep);
    assert outcomes + [] == outcomes;
    WeightSnoc(outcomes, o);
    PickFirst(rest, room - Weight(OutcomeTexts(outcomes)));
    var tail := Pick(Weights(rest[1..]), room - Weight(OutcomeTexts(if keep then outcomes + [o] else outcomes)));
    assert kept + ([keep] + tail) == kept + [keep] + tail;
  }

  lemma OmittedFromIndexes(entries: seq<Entry>, kept: seq<bool>)
    requires |kept| == |entries| && DistinctIndexes(entries)
    ensures Omitted(entries, kept)
         == set i | 0 <= i < |entries| && entries[i].originalIndex !in SelectedIndexes(entries, kept) && Protected(entries[i].outcome) :: entries[i].originalIndex
  {
    hide Protected;
    forall i | 0 <= i < |entries|
      ensures entries[i].originalIndex in SelectedIndexes(entries, kept) <==> kept[i]
    {
    }
  }

  class Builder {
    const head: string
    var context: Context
    var outcomes: seq<Outcome>
    var diagnostics: seq<Diagnostic>

    function Value(): Reducer
      reads this
    {
      Reducer(head, context, outcomes, diagnostics)
    }

    constructor (head: string, context: Context, outcomes: seq<Outcome>)
      ensures Value() == Reducer(head, context, outcomes, [])
    {
      this.head, this.context, this.outcomes, this.diagnostics := head, context, outcomes, [];
    }

    /** shrinkReducerGlobalContext. */
    method ShrinkGlobalContext()
      modifies `context, `diagnostics
      ensures diagnostics == if exists d :: d in old(diagnostics) && d.code == ContextTruncated().code
                             then old(diagnostics) else old(diagnostics) + [ContextTruncated()]
      ensures context == Shrink(Reducer(head, old(context), outcomes, diagnostics))
    {
      hide Bytes, HalveLargest;
      if !exists d :: d in diagnostics && d.code == ContextTruncated().code {
        diagnostics := diagnostics + [ContextTruncated()];
      }
      ghost var start := Value();
      while Bytes(Value()) > CAP && exists i | 0 <= i < |context.lists| :: context.lists[i] != []
        invariant diagnostics == start.diagnostics
        invariant Shrink(Value()) == Shrink(start)
        decreases TotalEntries(context.lists)
      {
        context := context.(lists := HalveLargest(context.lists));
      }
      if Bytes(Value()) > CAP {
        context := context.(redraft := None);
      }
    }

    /** fitPrioritizedOutcomes: push each outcome, and pop it if it does not fit. */
    method FitPrioritizedOutcomes(entries: seq<Entry>) returns (selected: set<nat>)
      modifies `outcomes
      ensures var kept := Pick(Weights(entries), OutcomeRoom(head, context, diagnostics));
              outcomes == Selected(OutcomesOf(entries), kept) && selected == SelectedIndexes(entries, kept)
    {
      hide Bytes, OutcomeRoom, Selected, Pick, Fitting, Weights;
      ghost var room := OutcomeRoom(head, context, diagnostics);
      ghost var kept: seq<bool> := [];
      selected := {};
      outcomes := [];
      FittingStart(entries, room);
      for i := 0 to |entries|
        invariant Fitting(entries[..i], entries[i..], kept, outcomes, room)
        invariant |kept| == i && selected == SelectedIndexes(entries[..i], kept)
      {
        var entry := entries[i];
        outcomes := outcomes + [entry.outcome];
        FitsRoom(head, context, outcomes, diagnostics);
        var fits := Bytes(Value()) <= CAP;
        if fits {
          selected := selected + {entry.originalIndex};
        } else {
          outcomes := outcomes[..|outcomes| - 1];
        }
        assert entries[..i] + [entry] == entries[..i + 1] && entries[i..][0] == entry && entries[i..][1..] == entries[i + 1..];
        FittingStep(entries[..i], entries[i..], kept, if fits then outcomes[..|outcomes| - 1] else outcomes, room, fits);
        kept := kept + [fits];
      }
      FittingEnd(entries, kept, outcomes, room);
    }

    /** resetTerminalOmissionDiagnostics: remove them in place, from the back. */
    method ResetTerminalOmissionDiagnostics()
      modifies `diagnostics
      ensures diagnostics == WithoutOmissions(old(diagnostics))
    {
      hide WithoutOmissions;
      ghost var all := diagnostics;
      var index := |diagnostics|;
      ResetStart(all);
      while index > 0
        invariant 0 <= index <= |all| && diagnostics == all[..index] + WithoutOmissions(all[index..])
      {
        index := index - 1;
        ResetStep(all, index);
        if diagnostics[index].code == OMITTED_CODE {
          diagnostics := diagnostics[..index] + diagnostics[index + 1..];
        }
      }
      assert all[0..] == all && all[..0] + WithoutOmissions(all) == WithoutOmissions(all);
    }

    /** One pass of the loop: name `omitted`, refit, and see what is omitted now. */
    method Attempt(entries: seq<Entry>, omitted: set<nat>, ghost env: Env) returns (failed: bool, next: set<nat>)
      requires env == Env(head, context, WithoutOmissions(diagnostics), entries) && DistinctIndexes(entries)
      modifies `outcomes, `diagnostics
      ensures match Try(env, omitted)
              case CannotFit => failed
              case Fitted(chunks, kept, omissions) =>
                && !failed && next == omissions
                && outcomes == Selected(OutcomesOf(entries), kept)
                && diagnostics == env.base + OmissionDiagnostics(chunks)
    {
      hide Bytes, NamesOf, OmissionDiagnostics, Weights, Pick, OutcomeRoom, Selected, SelectedIndexes, Protected, DistinctIndexes, WithoutOmissions, Omitted, Chunk;
      next := {};
      ResetTerminalOmissionDiagnostics();
      var names := NamesOf(entries, omitted);
      var chunks: seq<seq<string>> := [];
      if names != [] {
        var chunked := ChunkNames(names, DIAGNOSTICS_MAX - |diagnostics|);
        if chunked == None {
          return true, next;
        }
        chunks := chunked.value;
      }
      diagnostics := diagnostics + OmissionDiagnostics(chunks);
      var selected := FitPrioritizedOutcomes(entries);
      ghost var room := OutcomeRoom(head, context, diagnostics);
      FitTest(head, context, entries, diagnostics);
      if Bytes(Value()) > CAP {
        return true, next;
      }
      OmittedFromIndexes(entries, Pick(Weights(entries), room));
      next := set i | 0 <= i < |entries| && entries[i].originalIndex !in selected && Protected(entries[i].outcome) :: entries[i].originalIndex;
      failed := false;
    }

    /** selectReducerOutcomesUnderCap. */
    method SelectOutcomesUnderCap(entries: seq<Entry>) returns (failure: Option<seq<string>>)
      requires DistinctIndexes(entries)
      requires forall i :: 0 <= i < |diagnostics| ==> diagnostics[i].code != OMITTED_CODE
      modifies `outcomes, `diagnostics
      ensures match Prune(old(Value()), entries)
              case Ok(reducer) => failure == None && Value() == reducer
              case CannotName(names) => failure == Some(names)
    {
      hide Bytes, Settle, Try, NamesOf, OmissionDiagnostics, Selected, OutcomesDropped, DistinctIndexes, WithoutOmissions, OutcomesOf, Decimal;
      ghost var start := Value();
      ghost var env := PruneEnv(start, entries);
      ghost var target := Search(start, entries);
      var note := |diagnostics|;
      diagnostics := diagnostics + [OutcomesDropped(|entries|, "pending")];
      BaseHasNoOmissions(start, entries);
      var omitted: set<nat> := {};
      var maxAttempts := |entries| + 2;
      var attempt := 0;
      while attempt < maxAttempts
        invariant attempt <= maxAttempts && WithoutOmissions(diagnostics) == env.base
        invariant attempt < maxAttempts ==> Settle(env, omitted, maxAttempts - attempt) == target
        invariant attempt == maxAttempts ==> Matches(Value(), env, target)
      {
        SettleOnce(env, omitted, maxAttempts - attempt);
        var failed, next := Attempt(entries, omitted, env);
        if failed {
          return Some(NamesOf(entries, omitted));
        }
        ResetGivesBase(env.base, Try(env, omitted).chunks);
        if omitted == next {
          break;
        }
        omitted := next;
        attempt := attempt + 1;
      }
      assert Matches(Value(), env, target);
      if |outcomes| < |entries| {
        diagnostics := diagnostics[note := OutcomesDropped(|entries|, Decimal(|outcomes|))];
      } else {
        diagnostics := diagnostics[..note] + diagnostics[note + 1..];
      }
      NoteReplaced(start.diagnostics, OutcomesDropped(|entries|, "pending"), OmissionDiagnostics(target.chunks), OutcomesDropped(|entries|, Decimal(|outcomes|)));
      failure := None;
    }
  }

  ghost predicate Matches(r: Reducer, env: Env, s: Settling) {
    && s.Settled? && |s.kept| == |env.entries|
    && r.outcomes == Selected(OutcomesOf(env.entries), s.kept)
    && r.diagnostics == env.base + OmissionDiagnostics(s.chunks)
  }

  lemma SettleOnce(env: Env, omitted: set<nat>, attempts: nat)
    requires attempts > 0
    ensures match Try(env, omitted)
            case CannotFit => Settle(env, omitted, attempts) == Unfit(omitted)
            case Fitted(chunks, kept, next) =>
              && (next == omitted ==> Settle(env, omitted, attempts) == Settled(omitted, chunks, kept, true))
              && (next != omitted && attempts == 1 ==> Settle(env, omitted, attempts) == Settled(omitted, chunks, kept, false))
              && (next != omitted && attempts > 1 ==> Settle(env, omitted, attempts) == Settle(env, next, attempts - 1))
  {
    hide Try;
  }

  lemma NoteReplaced(front: seq<Diagnostic>, pending: Diagnostic, back: seq<Diagnostic>, note: Diagnostic)
    ensures (front + [pending] + back)[|front| := note] == front + [note] + back
    ensures (front + [pending] + back)[..|front|] + (front + [pending] + back)[|front| + 1..] == front + [] + back
  {
  }

  lemma BaseHasNoOmissions(start: Reducer, entries: seq<Entry>)
    requires forall i :: 0 <= i < |start.diagnostics| ==> start.diagnostics[i].code != OMITTED_CODE
    ensures forall i :: 0 <= i < |PruneEnv(start, entries).base| ==> PruneEnv(start, entries).base[i].code != OMITTED_CODE
    ensures WithoutOmissions(PruneEnv(start, entries).base) == PruneEnv(start, entries).base
  {
    hide DroppedFront, DroppedBack;
    DroppedCode();
    NoOmissions(PruneEnv(start, entries).base);
  }

  lemma DroppedCode()
    ensures "reducer-input-outcomes-dropped" != OMITTED_CODE
  {
    assert |"reducer-input-outcomes-dropped"| != |OMITTED_CODE|;
  }

  lemma FitTest(head: string, context: Context, entries: seq<Entry>, diagnostics: seq<Diagnostic>)
    ensures var room := OutcomeRoom(head, context, diagnostics);
            var kept := Pick(Weights(entries), room);
            Bytes(Reducer(head, context, Selected(OutcomesOf(entries), kept), diagnostics)) <= CAP <==> room >= 1
  {
    hide Bytes, OutcomeRoom, Weights, OutcomesOf, OutcomeTexts, Pick;
    var room := OutcomeRoom(head, context, diagnostics);
    var kept := Pick(Weights(entries), room);
    var outcomes := Selected(OutcomesOf(entries), kept);
    SelectedWeight(entries, kept);
    if room >= 1 {
      PickFits(Weights(entries), room);
    }
    if outcomes == [] {
      EmptyFitsRoom(head, context, diagnostics);
    } else {
      FitsRoom(head, context, outcomes, diagnostics);
    }
  }

  lemma ResetStart(all: seq<Diagnostic>)
    ensures all == all[..|all|] + WithoutOmissions(all[|all|..])
  {
  }

  lemma ResetStep(all: seq<Diagnostic>, index: nat)
    requires index < |all|
    ensures var current := all[..index + 1] + WithoutOmissions(all[index + 1..]);
            (all[..index] + WithoutOmissions(all[index..])
             == if all[index].code == OMITTED_CODE then current[..index] + current[index + 1..] else current)
  {
    assert all[index..][0] == all[index] && all[index..][1..] == all[index + 1..];
    assert all[..index + 1] == all[..index] + [all[index]];
  }

  lemma FittingStart(entries: seq<Entry>, room: int)
    ensures Fitting(entries[..0], entries[0..], [], [], room)
  {
    assert entries[..0] + entries[0..] == entries && entries[0..] == entries;
    assert OutcomeTexts([]) == [];
    assert [] + Pick(Weights(entries), room) == Pick(Weights(entries), room);
  }

  lemma FittingEnd(entries: seq<Entry>, kept: seq<bool>, outcomes: seq<Outcome>, room: int)
    requires Fitting(entries[..|entries|], entries[|entries|..], kept, outcomes, room)
    ensures kept == Pick(Weights(entries), room) && outcomes == Selected(OutcomesOf(entries), kept)
  {
    assert entries[..|entries|] + entries[|entries|..] == entries && entries[..|entries|] == entries;
    assert Weights(entries[|entries|..]) == [];
    assert kept + [] == kept;
  }

  /** buildBacklogCurationReducerInput. */
  method BuildReducerInput(head: string, context: Context, outcomes: seq<Outcome>) returns (builder: Builder, failure: Option<seq<string>>)
    ensures match Build(head, context, outcomes)
            case Ok(reducer) => failure == None && builder.Value() == reducer
            case CannotName(names) => failure == Some(names)
  {
    hide Bytes, Shrink, Prune, Prioritize, CompactAll, OutcomesOf, CapExceeded, DistinctIndexes;
    builder := new Builder(head, context, outcomes);
    failure := None;
    var bytes := Bytes(builder.Value());
    if bytes <= CAP {
      return;
    }
    builder.diagnostics := builder.diagnostics + [CapExceeded(bytes)];
    OnlyCapExceeded(bytes);
    builder.ShrinkGlobalContext();
    builder.outcomes := OutcomesOf(CompactAll(Prioritize(outcomes)));
    if Bytes(builder.Value()) <= CAP {
      return;
    }
    ghost var m := CompactedEntriesAreRanked(outcomes);
    LoopStartsWithoutOmissions(bytes);
    failure := builder.SelectOutcomesUnderCap(CompactAll(Prioritize(outcomes)));
  }

  lemma OnlyCapExceeded(bytes: nat)
    ensures [] + [CapExceeded(bytes)] == [CapExceeded(bytes)] && CapExceeded(bytes).code != ContextTruncated().code
    ensures [CapExceeded(bytes)] + [ContextTruncated()] == [CapExceeded(bytes), ContextTruncated()]
  {
    assert |CapExceeded(bytes).code| != |ContextTruncated().code|;
  }

  lemma LoopStartsWithoutOmissions(bytes: nat)
    ensures CapExceeded(bytes).code != OMITTED_CODE && ContextTruncated().code != OMITTED_CODE
  {
    hide Decimal;
    assert |CapExceeded(bytes).code| != |OMITTED_CODE| && CapExceeded(bytes).code[14] != OMITTED_CODE[14];
  }
}
