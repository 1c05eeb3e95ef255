/** The reducer input of backlog-curation-packets.ts and the size of its JSON text. */
module ReducerInput {
  import opened Text

  const CAP := 140000
  const DIAGNOSTICS_MAX := 40

  datatype Disposition = Change | Recheck | Skip | NeedsInput

  datatype Verdict = Shipped | Superseded | Partial | StillNeeded | StaleInvalid | NeedsProductInput | Skipped

  datatype Finding = Finding(disposition: Disposition, verdict: Option<Verdict>, signals: nat)

  datatype Body =
    | Found(finding: Finding, fromCache: bool)
    | OversizedPacket
    | ItemAgentFailure
    | InvalidFinding
    | Cancelled

  /** An item outcome: what the selection reads of it, its JSON text, and the JSON
      text of its compacted form (both texts are arbitrary). */
  datatype Outcome = Outcome(itemId: string, body: Body, text: string, compactText: string)

  datatype Diagnostic = Diagnostic(code: string, message: string, path: Option<string>)

  /** The global context: its fixed members, the six arrays that may be halved, in
      the order the shrinking loop lists them, and the optional redraft summary. */
  datatype Context = Context(head: string, lists: seq<seq<string>>, redraft: Option<string>)

  datatype Reducer = Reducer(head: string, context: Context, outcomes: seq<Outcome>, diagnostics: seq<Diagnostic>)

  const LIST_KEYS: seq<string> := ["openItemIds", "recommendationSummaries", "dependencySummaries", "roadmapSummaries", "curationGuidance", "diagnostics"]

  // ---- JSON texts ----

  function ListsText(lists: seq<seq<string>>, keys: seq<string>): string {
    if lists == [] || keys == [] then ""
    else ",\"" + keys[0] + "\":[" + Join(lists[0], ",") + "]" + ListsText(lists[1..], keys[1..])
  }

  function ContextText(c: Context): string {
    c.head + ListsText(c.lists, LIST_KEYS) + (if c.redraft.Some? then ",\"redraftSummary\":" + c.redraft.value else "") + "}"
  }

  function DiagnosticText(d: Diagnostic): string {
    "{\"code\":" + Quote(d.code) + ",\"severity\":\"warning\",\"message\":" + Quote(d.message)
    + (if d.path.Some? then ",\"path\":" + Quote(d.path.value) else "") + "}"
  }

  function OutcomeTexts(outcomes: seq<Outcome>): (texts: seq<string>)
    ensures |texts| == |outcomes|
  {
    seq(|outcomes|, i requires 0 <= i < |outcomes| => outcomes[i].text)
  }

  function DiagnosticTexts(diagnostics: seq<Diagnostic>): (texts: seq<string>)
    ensures |texts| == |diagnostics|
  {
    seq(|diagnostics|, i requires 0 <= i < |diagnostics| => DiagnosticText(diagnostics[i]))
  }

  function Frame(head: string, context: Context): string {
    head + ",\"globalContext\":" + ContextText(context)
  }

  function ReducerText(r: Reducer): string {
    Frame(r.head, r.context) + ",\"outcomes\":[" + Join(OutcomeTexts(r.outcomes), ",")
    + "],\"diagnostics\":[" + Join(DiagnosticTexts(r.diagnostics), ",") + "]}"
  }

  /** byteLength(reducer). */
  function Bytes(r: Reducer): nat {
    Utf8Length(ReducerText(r))
  }

  // ---- Sizes are additive ----

  /** Each list element with the comma that follows it. */
  function Weight(texts: seq<string>): (w: nat)
    ensures |texts| <= w
  {
    if texts == [] then 0 else Utf8Length(texts[0]) + 1 + Weight(texts[1..])
  }

  function ListBytes(texts: seq<string>): (n: nat) {
    Utf8Length(Join(texts, ","))
  }

  lemma {:induction false} ListBytesIsWeight(texts: seq<string>)
    ensures ListBytes(texts) == if texts == [] then 0 else Weight(texts) - 1
  {
    if |texts| > 1 {
      ListBytesIsWeight(texts[1..]);
      PlainBytes(",");
      Utf8LengthAppend(texts[0] + ",", Join(texts[1..], ","));
      Utf8LengthAppend(texts[0], ",");
    }
  }

  lemma {:induction false} WeightAppend(a: seq<string>, b: seq<string>)
    ensures Weight(a + b) == Weight(a) + Weight(b)
  {
    if a == [] {
      assert a + b == b;
    } else {
      assert (a + b)[1..] == a[1..] + b;
      WeightAppend(a[1..], b);
    }
  }

  /** What is neither in `outcomes` nor in `diagnostics`. */
  function FixedBytes(head: string, context: Context): nat {
    Utf8Length(Frame(head, context)) + Utf8Length(",\"outcomes\":[") + Utf8Length("],\"diagnostics\":[") + Utf8Length("]}")
  }

  lemma BytesAreAdditive(r: Reducer)
    ensures Bytes(r) == FixedBytes(r.head, r.context) + ListBytes(OutcomeTexts(r.outcomes)) + ListBytes(DiagnosticTexts(r.diagnostics))
  {
    hide Frame, Utf8Length, Join, OutcomeTexts, DiagnosticTexts;
    var frame := Frame(r.head, r.context);
    var outcomes := Join(OutcomeTexts(r.outcomes), ",");
    var diagnostics := Join(DiagnosticTexts(r.diagnostics), ",");
    AppendFive(frame, ",\"outcomes\":[", outcomes, "],\"diagnostics\":[", diagnostics, "]}");
  }

  lemma AppendFive(a: string, b: string, c: string, d: string, e: string, f: string)
    ensures Utf8Length(a + b + c + d + e + f)
         == Utf8Length(a) + Utf8Length(b) + Utf8Length(c) + Utf8Length(d) + Utf8Length(e) + Utf8Length(f)
  {
    Utf8LengthAppend(a + b + c + d + e, f);
    Utf8LengthAppend(a + b + c + d, e);
    Utf8LengthAppend(a + b + c, d);
    Utf8LengthAppend(a + b, c);
    Utf8LengthAppend(a, b);
  }
}
