/** Naming omitted findings costs bytes, which changes what is omitted. When the loop
    stabilises, nothing protected is lost silently; here is when it does. */
module ReducerConvergence {
  import opened Text
  import opened GreedyPacking
  import opened NameChunks
  import opened ReducerInput
  import opened ReducerSelection
  import opened ReducerByteCap

  ghost predicate DistinctIndexes(entries: seq<Entry>) {
    forall i, j :: 0 <= i < j < |entries| ==> entries[i].originalIndex != entries[j].originalIndex
  }

  /** The protected entries are exactly the first m. */
  ghost predicate ProtectedFirst(entries: seq<Entry>, m: nat) {
    m <= |entries| && forall i :: 0 <= i < |entries| ==> (Protected(entries[i].outcome) <==> i < m)
  }

  // ---- Names by position ----

  function NamesAt(entries: seq<Entry>, from: nat, to: nat): (names: seq<string>)
    requires from <= to <= |entries| && forall i :: from <= i < to ==> Protected(entries[i].outcome)
    ensures |names| == to - from
  {
    seq(to - from, i requires 0 <= i < to - from => NameOf(entries[from + i].outcome))
  }

  /** Names of the protected entries that were not kept, in priority order. */
  function DroppedNames(entries: seq<Entry>, kept: seq<bool>): seq<string>
    requires |kept| == |entries|
  {
    if entries == [] then []
    else (if !kept[0] && Protected(entries[0].outcome) then [NameOf(entries[0].outcome)] else [])
         + DroppedNames(entries[1..], kept[1..])
  }

  lemma {:induction false} NamesOfDropped(entries: seq<Entry>, kept: seq<bool>, omitted: set<nat>)
    requires |kept| == |entries|
    requires forall i :: 0 <= i < |entries| && Protected(entries[i].outcome) ==> (entries[i].originalIndex in omitted <==> !kept[i])
    ensures NamesOf(entries, omitted) == DroppedNames(entries, kept)
  {
    if entries != [] {
      NamesOfDropped(entries[1..], kept[1..], omitted);
    }
  }

  lemma OmittedIsDropped(entries: seq<Entry>, kept: seq<bool>)
    requires |kept| == |entries| && DistinctIndexes(entries)
    ensures NamesOf(entries, Omitted(entries, kept)) == DroppedNames(entries, kept)
  {
    NamesOfDropped(entries, kept, Omitted(entries, kept));
  }

  lemma {:induction false} NamesOfRange(entries: seq<Entry>, omitted: set<nat>, from: nat, to: nat)
    requires from <= to <= |entries|
    requires forall i :: 0 <= i < |entries| ==> (entries[i].originalIndex in omitted && Protected(entries[i].outcome) <==> from <= i < to)
    ensures NamesOf(entries, omitted) == NamesAt(entries, from, to)
  {
    if entries != [] {
      var rest := entries[1..];
      var from', to' := if from == 0 then 0 else from - 1, if to == 0 then 0 else to - 1;
      forall i | 0 <= i < |rest|
        ensures rest[i].originalIndex in omitted && Protected(rest[i].outcome) <==> from' <= i < to'
      {
        assert rest[i] == entries[i + 1];
      }
      NamesOfRange(rest, omitted, from', to');
      if from == 0 && to > 0 {
        assert NamesAt(entries, from, to) == [NameOf(entries[0].outcome)] + NamesAt(rest, from', to');
      } else {
        assert NamesAt(entries, from, to) == NamesAt(rest, from', to');
      }
    }
  }

  // ---- What naming costs ----

  function NameBytes(names: seq<string>): nat {
    if names == [] then 0 else EscapedBytes(names[0]) + NameBytes(names[1..])
  }

  lemma {:induction false} NameBytesAppend(a: seq<string>, b: seq<string>)
    ensures NameBytes(a + b) == NameBytes(a) + NameBytes(b)
  {
    if a == [] {
      assert a + b == b;
    } else {
      assert (a + b)[1..] == a[1..] + b;
      NameBytesAppend(a[1..], b);
    }
  }

  lemma {:induction false} JoinBytes(names: seq<string>)
    requires names != []
    ensures EscapedBytes(Join(names, ", ")) + 2 == NameBytes(names) + 2 * |names|
  {
    hide EscapedBytes;
    if |names| > 1 {
      JoinBytes(names[1..]);
      SeparatorBytes();
      MessageBytes(names[0], ", ", Join(names[1..], ", "));
    } else {
      assert names[1..] == [];
    }
  }

  lemma SeparatorBytes()
    ensures EscapedBytes(", ") == 2
  {
    hide EscapedBytes;
    PlainEscapedBytes(", ");
  }

  /** What the c-th message costs besides its names and their separators. */
  function MessageOverhead(c: nat): nat {
    DiagnosticFrame(OMITTED_CODE, Some(OMITTED_PATH + Decimal(c))) + EscapedBytes(PREFIX) + EscapedBytes(".") - 1
  }

  function Overhead(c: nat): nat {
    if c == 0 then 0 else Overhead(c - 1) + MessageOverhead(c)
  }

  lemma {:induction false} OverheadMonotone(c: nat, d: nat)
    requires c <= d
    ensures Overhead(c) <= Overhead(d)
  {
    hide MessageOverhead;
    if c < d {
      OverheadMonotone(c, d - 1);
    }
  }

  lemma OneMessage(chunk: seq<string>, c: nat)
    requires chunk != []
    ensures Utf8Length(DiagnosticText(Diagnostic(OMITTED_CODE, Message(chunk), Some(OMITTED_PATH + Decimal(c))))) + 1
         == NameBytes(chunk) + 2 * |chunk| + MessageOverhead(c)
  {
    hide DiagnosticText, DiagnosticFrame, EscapedBytes, Join, Decimal;
    DiagnosticBytes(Diagnostic(OMITTED_CODE, Message(chunk), Some(OMITTED_PATH + Decimal(c))));
    MessageBytes(PREFIX, Join(chunk, ", "), ".");
    JoinBytes(chunk);
  }

  lemma {:induction false} OmissionWeight(chunks: seq<seq<string>>)
    requires forall i :: 0 <= i < |chunks| ==> chunks[i] != []
    ensures var names := Flatten(chunks);
            Weight(DiagnosticTexts(OmissionDiagnostics(chunks))) == NameBytes(names) + 2 * |names| + Overhead(|chunks|)
  {
    hide DiagnosticText, Message, MessageOverhead, Decimal, EscapedBytes, Utf8Length;
    if chunks != [] {
      var front, last := chunks[..|chunks| - 1], chunks[|chunks| - 1];
      OmissionWeight(front);
      assert chunks == front + [last];
      FlattenAppend(front, [last]);
      assert Flatten([last]) == last;
      NameBytesAppend(Flatten(front), last);
      var d := Diagnostic(OMITTED_CODE, Message(last), Some(OMITTED_PATH + Decimal(|chunks|)));
      assert OmissionDiagnostics(chunks) == OmissionDiagnostics(front) + [d];
      DiagnosticTextsAppend(OmissionDiagnostics(front), [d]);
      assert DiagnosticTexts([d])[1..] == [];
      OneMessage(last, |chunks|);
    }
  }

  lemma NamingIsPartition(names: seq<string>, slots: int)
    requires NamingChunks(names, slots).Some?
    ensures IsPartition(NamingChunks(names, slots).value, names)
  {
    if names != [] {
      ChunkIsExact(names, slots);
    }
  }

  lemma NamingSuffix(names: seq<string>, d: nat, slots: int)
    requires d <= |names| && NamingChunks(names, slots).Some?
    ensures NamingChunks(names[d..], slots).Some?
    ensures |NamingChunks(names[d..], slots).value| <= |NamingChunks(names, slots).value|
  {
    if names[d..] != [] {
      SuffixNeedsNoMore(names, d);
    }
  }

  /** Naming a suffix of a list costs no more than naming the list. */
  lemma SuffixCostsNoMore(names: seq<string>, d: nat, slots: int)
    requires d <= |names| && NamingChunks(names, slots).Some?
    ensures NamingChunks(names[d..], slots).Some?
    ensures Weight(DiagnosticTexts(OmissionDiagnostics(NamingChunks(names[d..], slots).value)))
         <= Weight(DiagnosticTexts(OmissionDiagnostics(NamingChunks(names, slots).value)))
  {
    hide DiagnosticTexts, OmissionDiagnostics, Overhead, NamingChunks, EscapedBytes, Flatten, Fits;
    NamingSuffix(names, d, slots);
    NamingIsPartition(names, slots);
    NamingIsPartition(names[d..], slots);
    var more, fewer := NamingChunks(names, slots).value, NamingChunks(names[d..], slots).value;
    OmissionWeight(more);
    OmissionWeight(fewer);
    OverheadMonotone(|fewer|, |more|);
    NameBytesAppend(names[..d], names[d..]);
    assert names == names[..d] + names[d..];
  }

  /** The fewer findings are named, the more room there is. */
  lemma MoreRoom(env: Env, names: seq<string>, d: nat)
    requires d <= |names|
    requires NamingChunks(names, DIAGNOSTICS_MAX - |env.base|).Some?
    ensures NamingChunks(names[d..], DIAGNOSTICS_MAX - |env.base|).Some?
    ensures Room(env, NamingChunks(names, DIAGNOSTICS_MAX - |env.base|).value)
         <= Room(env, NamingChunks(names[d..], DIAGNOSTICS_MAX - |env.base|).value)
  {
    hide DiagnosticTexts, OmissionDiagnostics, FixedBytes, NamingChunks, ListBytes;
    var slots := DIAGNOSTICS_MAX - |env.base|;
    SuffixCostsNoMore(names, d, slots);
    var more, fewer := OmissionDiagnostics(NamingChunks(names, slots).value), OmissionDiagnostics(NamingChunks(names[d..], slots).value);
    DiagnosticTextsAppend(env.base, more);
    DiagnosticTextsAppend(env.base, fewer);
    ListBytesIsWeight(DiagnosticTexts(env.base + more));
    ListBytesIsWeight(DiagnosticTexts(env.base + fewer));
  }
}
