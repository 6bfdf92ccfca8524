/**
 Context compaction, `compress_single_sequence` of `crates/forge_app/src/compact.rs`: a range of
 messages is replaced by one summary, droppable messages are removed everywhere, and the last
 reasoning of the range is handed to the first assistant that is left.

 The summary text is an input; so is whether rendering it succeeds.
 */
module Compaction {

  import opened Prelude

  datatype Role = System | User | Assistant

  type Reasoning = seq<string>

  datatype Message =
    | Text(role: Role, content: string, reasoning: Option<Reasoning>, droppable: bool)
    | Tool(result: string)
    | Image(url: string)

  // Usage is a snapshot that is only carried along.
  datatype Entry = Entry(message: Message, usage: Option<nat>)

  predicate HasRole(m: Message, role: Role) {
    match m
    case Text(r, _, _, _) => r == role
    case Tool(_) => false
    case Image(_) => role == User
  }

  predicate IsDroppable(e: Entry) {
    e.message.Text? && e.message.droppable
  }

  // The reasoning a message contributes to a chain: none unless it is non-empty text reasoning.
  function Chain(e: Entry): Option<Reasoning> {
    if e.message.Text? && e.message.reasoning.Some? && e.message.reasoning.value != []
    then e.message.reasoning else None
  }

  function Keep(es: seq<Entry>): seq<Entry> {
    if es == [] then []
    else Keep(es[..|es| - 1]) + if IsDroppable(es[|es| - 1]) then [] else [es[|es| - 1]]
  }

  // The most recent usage, which is what the context reports as its size.
  function LastUsage(es: seq<Entry>): Option<nat> {
    if es == [] then None
    else if es[|es| - 1].usage.Some? then es[|es| - 1].usage
    else LastUsage(es[..|es| - 1])
  }

  function LastReasoning(es: seq<Entry>): Option<Reasoning> {
    if es == [] then None
    else if Chain(es[|es| - 1]).Some? then Chain(es[|es| - 1])
    else LastReasoning(es[..|es| - 1])
  }

  // The position of the first assistant, or the length when there is none.
  function FirstAssistant(es: seq<Entry>): (i: nat)
    ensures i <= |es|
    ensures i < |es| ==> HasRole(es[i].message, Assistant)
    ensures forall k :: 0 <= k < i ==> !HasRole(es[k].message, Assistant)
  {
    if es == [] then 0
    else
      var i := FirstAssistant(es[..|es| - 1]);
      if i < |es| - 1 || HasRole(es[|es| - 1].message, Assistant) then i else |es|
  }

  function Summary(text: string, range: seq<Entry>): Entry {
    Entry(Text(User, text, None, false), LastUsage(range))
  }

  // What remains before the reasoning is handed on.
  function Spliced(es: seq<Entry>, start: nat, stop: nat, text: string): seq<Entry>
    requires start <= stop <= |es|
  {
    Keep(es[..start] + [Summary(text, es[start..stop])] + es[stop..])
  }

  function Inject(es: seq<Entry>, reasoning: Option<Reasoning>): seq<Entry> {
    var i := FirstAssistant(es);
    if reasoning.Some? && i < |es| && Chain(es[i]).None?
    then es[i := es[i].(message := es[i].message.(reasoning := reasoning))]
    else es
  }

  function Compress(es: seq<Entry>, start: nat, stop: nat, text: string): seq<Entry>
    requires start <= stop <= |es|
  {
    Inject(Spliced(es, start, stop, text), LastReasoning(Keep(es[start..stop])))
  }

  // ----- the context -----

  class Context {
    var messages: seq<Entry>

    constructor (messages: seq<Entry>)
      ensures this.messages == messages
    {
      this.messages := messages;
    }

    // Replaces start..=end; the source panics on a range outside the context.
    method CompressSingleSequence(start: nat, end: nat, rendered: Option<string>) returns (ok: bool)
      requires start <= end + 1 <= |messages|
      modifies this
      ensures ok <==> rendered.Some?
      ensures messages == if rendered.Some? then Compress(old(messages), start, end + 1, rendered.value) else old(messages)
    {
      var range := messages[start..end + 1];
      var sequence := Retain(range);
      if rendered.None? {
        return false;
      }
      var reasoning := FindLastReasoning(sequence);
      var usage := FindLastUsage(range);
      var summary := Entry(Text(User, rendered.value, None, false), usage);
      var spliced := messages[..start] + [summary] + messages[end + 1..];
      messages := Retain(spliced);
      if reasoning.Some? {
        InjectReasoning(reasoning.value);
      }
      return true;
    }

    method InjectReasoning(reasoning: Reasoning)
      modifies this
      ensures messages == Inject(old(messages), Some(reasoning))
    {
      var i := 0;
      while i < |messages| && !HasRole(messages[i].message, Assistant)
        invariant i <= |messages|
        invariant forall k :: 0 <= k < i ==> !HasRole(messages[k].message, Assistant)
      {
        i := i + 1;
      }
      if i < |messages| {
        var m := messages[i].message;
        if m.reasoning.None? || m.reasoning.value == [] {
          messages := messages[i := messages[i].(message := m.(reasoning := Some(reasoning)))];
        }
      }
    }
  }

  method Retain(es: seq<Entry>) returns (kept: seq<Entry>)
    ensures kept == Keep(es)
  {
    kept := [];
    for i := 0 to |es|
      invariant kept == Keep(es[..i])
    {
      assert es[..i + 1][..i] == es[..i];
      if !IsDroppable(es[i]) {
        kept := kept + [es[i]];
      }
    }
    assert es[..|es|] == es;
  }

  method FindLastReasoning(es: seq<Entry>) returns (r: Option<Reasoning>)
    ensures r == LastReasoning(es)
  {
    var i := |es|;
    assert es[..i] == es;
    while i > 0
      invariant 0 <= i <= |es| && LastReasoning(es) == LastReasoning(es[..i])
    {
      i := i - 1;
      assert es[..i + 1][..i] == es[..i];
      var m := es[i].message;
      if m.Text? && m.reasoning.Some? && m.reasoning.value != [] {
        return m.reasoning;
      }
    }
    return None;
  }

  method FindLastUsage(es: seq<Entry>) returns (r: Option<nat>)
    ensures r == LastUsage(es)
  {
    var i := |es|;
    assert es[..i] == es;
    while i > 0
      invariant 0 <= i <= |es| && LastUsage(es) == LastUsage(es[..i])
    {
      i := i - 1;
      assert es[..i + 1][..i] == es[..i];
      if es[i].usage.Some? {
        return es[i].usage;
      }
    }
    return None;
  }

  // ----- survivors and order -----

  lemma {:induction false} KeepConcat(a: seq<Entry>, b: seq<Entry>)
    ensures Keep(a + b) == Keep(a) + Keep(b)
  {
    if b == [] {
      assert a + b == a;
    } else {
      KeepConcat(a, b[..|b| - 1]);
      assert (a + b)[..|a + b| - 1] == a + b[..|b| - 1];
    }
  }

  lemma SplicedShape(es: seq<Entry>, start: nat, stop: nat, text: string)
    requires start <= stop <= |es|
    ensures Spliced(es, start, stop, text)
            == Keep(es[..start]) + [Summary(text, es[start..stop])] + Keep(es[stop..])
  {
    var s := Summary(text, es[start..stop]);
    KeepConcat(es[..start] + [s], es[stop..]);
    KeepConcat(es[..start], [s]);
    assert [s][..0] == [];
  }

  function WithoutReasoning(e: Entry): Entry {
    if e.message.Text? then e.(message := e.message.(reasoning := None)) else e
  }

  /** What survives a compaction: the messages before the range that are not droppable, the
      summary, and those after it, in order and unchanged but for the first assistant's
      reasoning. The length falls exactly when the range and the droppable messages outside it
      come to two or more. */
  lemma SurvivorsInOrder(es: seq<Entry>, start: nat, stop: nat, text: string)
    requires start <= stop <= |es|
    ensures var base := Keep(es[..start]) + [Summary(text, es[start..stop])] + Keep(es[stop..]);
            var r := Compress(es, start, stop, text);
            && |r| == |base| && FirstAssistant(r) == FirstAssistant(base)
            && (forall i :: 0 <= i < |r| ==> WithoutReasoning(r[i]) == WithoutReasoning(base[i]))
            && (forall i :: 0 <= i < |r| && i != FirstAssistant(base) ==> r[i] == base[i])
    ensures |Compress(es, start, stop, text)| < |es|
            <==> (stop - start) + Droppables(es[..start]) + Droppables(es[stop..]) >= 2
  {
    SplicedShape(es, start, stop, text);
    InjectKeepsRoles(Spliced(es, start, stop, text), LastReasoning(Keep(es[start..stop])));
    DroppablesCount(es[..start]);
    DroppablesCount(es[stop..]);
  }

  /** Where the range was, the result has one user message that holds the summary: no reasoning,
      not droppable, and with the last usage of the range. */
  lemma SummaryStandsForRange(es: seq<Entry>, start: nat, stop: nat, text: string)
    requires start <= stop <= |es|
    ensures var r, k := Compress(es, start, stop, text), |Keep(es[..start])|;
            && k < |r|
            && r[k].message == Text(User, text, None, false)
            && r[k].usage == LastUsage(es[start..stop])
  {
    SplicedShape(es, start, stop, text);
    var base, k := Spliced(es, start, stop, text), |Keep(es[..start])|;
    assert base[k] == Summary(text, es[start..stop]);
    assert !HasRole(base[k].message, Assistant);
  }

  /** Kept are the entries that are not droppable texts. */
  lemma {:induction false} KeptIff(es: seq<Entry>, e: Entry)
    ensures e in Keep(es) <==> e in es && !(e.message.Text? && e.message.droppable)
  {
    if es != [] {
      KeptIff(es[..|es| - 1], e);
      assert es == es[..|es| - 1] + [es[|es| - 1]];
    }
  }

  function Droppables(es: seq<Entry>): nat {
    if es == [] then 0 else Droppables(es[..|es| - 1]) + if IsDroppable(es[|es| - 1]) then 1 else 0
  }

  lemma {:induction false} DroppablesCount(es: seq<Entry>)
    ensures |Keep(es)| + Droppables(es) == |es|
  {
    if es != [] {
      DroppablesCount(es[..|es| - 1]);
    }
  }

  // ----- usage -----

  lemma {:induction false} LastUsageConcat(a: seq<Entry>, b: seq<Entry>)
    ensures LastUsage(a + b) == if LastUsage(b).Some? then LastUsage(b) else LastUsage(a)
  {
    if b == [] {
      assert a + b == a;
    } else {
      LastUsageConcat(a, b[..|b| - 1]);
      assert (a + b)[..|a + b| - 1] == a + b[..|b| - 1];
    }
  }

  lemma LastUsageOfThree(a: seq<Entry>, b: seq<Entry>, c: seq<Entry>)
    ensures LastUsage(a + b + c) ==
            if LastUsage(c).Some? then LastUsage(c) else if LastUsage(b).Some? then LastUsage(b) else LastUsage(a)
  {
    LastUsageConcat(a + b, c);
    LastUsageConcat(a, b);
  }

  // The most recent usage of what is in the range or not droppable.
  function UsageInReach(es: seq<Entry>, start: nat, stop: nat): Option<nat>
    requires start <= stop <= |es|
  {
    LastUsage(Keep(es[..start]) + es[start..stop] + Keep(es[stop..]))
  }

  // The context reports the usage of the range and of what is kept outside it.
  lemma UsageAfter(es: seq<Entry>, start: nat, stop: nat, text: string)
    requires start <= stop <= |es|
    ensures LastUsage(Compress(es, start, stop, text))
            == UsageInReach(es, start, stop)
  {
    var s := Summary(text, es[start..stop]);
    SplicedShape(es, start, stop, text);
    var base := Spliced(es, start, stop, text);
    SameUsage(base, Compress(es, start, stop, text));
    LastUsageOfThree(Keep(es[..start]), [s], Keep(es[stop..]));
    LastUsageOfThree(Keep(es[..start]), es[start..stop], Keep(es[stop..]));
    assert [s][..0] == [];
  }

  lemma {:induction false} SameUsage(a: seq<Entry>, b: seq<Entry>)
    requires |a| == |b| && forall i :: 0 <= i < |a| ==> a[i].usage == b[i].usage
    ensures LastUsage(a) == LastUsage(b)
  {
    if a != [] {
      SameUsage(a[..|a| - 1], b[..|b| - 1]);
    }
  }

  // The entry that carries the last usage, if there is one, is not droppable.
  predicate CarrierKept(es: seq<Entry>) {
    es != [] ==>
      if es[|es| - 1].usage.Some? then !IsDroppable(es[|es| - 1]) else CarrierKept(es[..|es| - 1])
  }

  // The entry that carries the last usage is in the range or is not droppable.
  predicate CarrierSurvives(es: seq<Entry>, start: nat, stop: nat)
    requires start <= stop <= |es|
  {
    if LastUsage(es[stop..]).Some? then CarrierKept(es[stop..])
    else LastUsage(es[start..stop]).Some? || CarrierKept(es[..start])
  }

  lemma {:induction false} KeptUsage(es: seq<Entry>)
    requires CarrierKept(es)
    ensures LastUsage(Keep(es)) == LastUsage(es)
  {
    if es != [] {
      var n := |es| - 1;
      var last := if IsDroppable(es[n]) then [] else [es[n]];
      LastUsageConcat(Keep(es[..n]), last);
      assert last != [] ==> last[..0] == [];
      if es[n].usage.None? {
        KeptUsage(es[..n]);
      }
    }
  }

  // No two entries carry the same usage.
  ghost predicate DistinctUsages(es: seq<Entry>) {
    forall i, j :: 0 <= i < j < |es| && es[i].usage.Some? ==> es[i].usage != es[j].usage
  }

  // The same messages, with a usage at the same entries.
  ghost predicate SameShape(a: seq<Entry>, b: seq<Entry>) {
    |a| == |b| && forall i :: 0 <= i < |a| ==> a[i].message == b[i].message && a[i].usage.Some? == b[i].usage.Some?
  }

  /** A compaction leaves the reported usage unchanged, whatever the numbers are, exactly when
      the entry that carries it is not a droppable one outside the range. */
  lemma UsageUnchangedIff(es: seq<Entry>, start: nat, stop: nat, text: string)
    requires start <= stop <= |es|
    ensures CarrierSurvives(es, start, stop) <==>
              forall other :: SameShape(es, other) ==> LastUsage(Compress(other, start, stop, text)) == LastUsage(other)
  {
    if CarrierSurvives(es, start, stop) {
      forall other | SameShape(es, other)
        ensures LastUsage(Compress(other, start, stop, text)) == LastUsage(other)
      {
        CarrierOfShape(es, other, start, stop);
        SurvivorInReach(other, start, stop);
        UsageAfter(other, start, stop, text);
      }
    } else {
      var other := seq(|es|, i requires 0 <= i < |es| => es[i].(usage := if es[i].usage.Some? then Some(i) else None));
      assert SameShape(es, other);
      CarrierOfShape(es, other, start, stop);
      DistinctUsageUnchangedIff(other, start, stop, text);
    }
  }

  /** In a context whose usages all differ, one compaction leaves the reported usage unchanged
      exactly then: no other entry can stand in for a carrier that is lost. */
  lemma DistinctUsageUnchangedIff(es: seq<Entry>, start: nat, stop: nat, text: string)
    requires start <= stop <= |es| && DistinctUsages(es)
    ensures LastUsage(Compress(es, start, stop, text)) == LastUsage(es) <==> CarrierSurvives(es, start, stop)
  {
    UsageAfter(es, start, stop, text);
    if CarrierSurvives(es, start, stop) {
      SurvivorInReach(es, start, stop);
    } else {
      LostIsNotReached(es, start, stop);
    }
  }

  lemma LostIsNotReached(es: seq<Entry>, start: nat, stop: nat)
    requires start <= stop <= |es| && DistinctUsages(es) && !CarrierSurvives(es, start, stop)
    ensures UsageInReach(es, start, stop) != LastUsage(es)
  {
    var c := LostCarrier(es, start, stop);
    if UsageInReach(es, start, stop).Some? {
      var i := ReachedEntry(es, start, stop);
      UsagesDiffer(es, i, c);
    }
  }

  lemma UsagesDiffer(es: seq<Entry>, i: nat, j: nat)
    requires DistinctUsages(es) && i < |es| && j < |es| && i != j && es[j].usage.Some?
    ensures es[i].usage != es[j].usage
  {
  }

  // The entry that carries the last usage.
  lemma {:induction false} Carrier(es: seq<Entry>) returns (c: nat)
    requires LastUsage(es).Some?
    ensures c < |es| && es[c].usage == LastUsage(es)
    ensures forall j :: c < j < |es| ==> es[j].usage.None?
    ensures CarrierKept(es) <==> !IsDroppable(es[c])
  {
    c := |es| - 1;
    if es[c].usage.None? {
      c := Carrier(es[..c]);
    }
  }

  lemma LostCarrier(es: seq<Entry>, start: nat, stop: nat) returns (c: nat)
    requires start <= stop <= |es| && !CarrierSurvives(es, start, stop)
    ensures c < |es| && es[c].usage == LastUsage(es) != None
    ensures IsDroppable(es[c]) && !(start <= c < stop)
  {
    var pre, mid, post := es[..start], es[start..stop], es[stop..];
    PartsOf(es, start, stop);
    LastUsageOfThree(pre, mid, post);
    if LastUsage(post).Some? {
      c := Carrier(post);
      c := stop + c;
    } else {
      if LastUsage(pre).None? {
        NoUsageKept(pre);
      }
      c := Carrier(pre);
    }
  }

  // The entry whose usage is reported afterwards: it is in the range or not droppable.
  lemma ReachedEntry(es: seq<Entry>, start: nat, stop: nat) returns (i: nat)
    requires start <= stop <= |es| && UsageInReach(es, start, stop).Some?
    ensures i < |es| && es[i].usage == UsageInReach(es, start, stop)
    ensures start <= i < stop || !IsDroppable(es[i])
  {
    var pre, mid, post := es[..start], es[start..stop], es[stop..];
    LastUsageOfThree(Keep(pre), mid, Keep(post));
    if LastUsage(Keep(post)).Some? {
      var k := Carrier(Keep(post));
      i := KeptFrom(post, k);
      i := stop + i;
    } else if LastUsage(mid).Some? {
      i := Carrier(mid);
      i := start + i;
    } else {
      var k := Carrier(Keep(pre));
      i := KeptFrom(pre, k);
    }
  }

  lemma KeptFrom(es: seq<Entry>, k: nat) returns (i: nat)
    requires k < |Keep(es)|
    ensures i < |es| && es[i] == Keep(es)[k] && !IsDroppable(es[i])
  {
    KeptAreThere(es);
    NothingDroppableKept(es);
    i :| 0 <= i < |es| && es[i] == Keep(es)[k];
  }

  lemma {:induction false} KeptOfShape(a: seq<Entry>, b: seq<Entry>)
    requires SameShape(a, b)
    ensures CarrierKept(a) == CarrierKept(b) && LastUsage(a).Some? == LastUsage(b).Some?
  {
    if a != [] {
      KeptOfShape(a[..|a| - 1], b[..|b| - 1]);
    }
  }

  lemma CarrierOfShape(a: seq<Entry>, b: seq<Entry>, start: nat, stop: nat)
    requires start <= stop <= |a| && SameShape(a, b)
    ensures CarrierSurvives(a, start, stop) == CarrierSurvives(b, start, stop)
  {
    KeptOfShape(a[..start], b[..start]);
    KeptOfShape(a[start..stop], b[start..stop]);
    KeptOfShape(a[stop..], b[stop..]);
  }

  lemma SurvivorInReach(es: seq<Entry>, start: nat, stop: nat)
    requires start <= stop <= |es| && CarrierSurvives(es, start, stop)
    ensures UsageInReach(es, start, stop) == LastUsage(es)
  {
    SurvivingCarrier(es[..start], es[start..stop], es[stop..]);
    PartsOf(es, start, stop);
  }

  lemma PartsOf(es: seq<Entry>, start: nat, stop: nat)
    requires start <= stop <= |es|
    ensures es == es[..start] + es[start..stop] + es[stop..]
  {
  }

  lemma SurvivingCarrier(pre: seq<Entry>, mid: seq<Entry>, post: seq<Entry>)
    requires if LastUsage(post).Some? then CarrierKept(post) else LastUsage(mid).Some? || CarrierKept(pre)
    ensures LastUsage(Keep(pre) + mid + Keep(post)) == LastUsage(pre + mid + post)
  {
    LastUsageOfThree(Keep(pre), mid, Keep(post));
    LastUsageOfThree(pre, mid, post);
    if LastUsage(post).None? {
      NoUsageKept(post);
    }
    KeptUsage(post);
    if LastUsage(post).None? && LastUsage(mid).None? {
      KeptUsage(pre);
    }
  }

  lemma {:induction false} NoUsageKept(es: seq<Entry>)
    requires LastUsage(es).None?
    ensures CarrierKept(es) && LastUsage(Keep(es)).None?
  {
    if es != [] {
      NoUsageKept(es[..|es| - 1]);
      KeptUsage(es);
    }
  }

  // A droppable attachment that carries a usage takes it away.
  lemma UsageLostExample()
    ensures var es := [Entry(Text(User, "a", None, false), Some(10)), Entry(Text(User, "b", None, true), Some(20))];
            LastUsage(es) == Some(20) && LastUsage(Compress(es, 0, 1, "s")) == Some(10)
  {
    var es := [Entry(Text(User, "a", None, false), Some(10)), Entry(Text(User, "b", None, true), Some(20))];
    UsageAfter(es, 0, 1, "s");
    assert es[..0] == [] && es[0..1] == [es[0]] && es[1..] == [es[1]];
    assert [es[1]][..0] == [] && Keep([es[1]]) == [];
    assert Keep(es[..0]) + es[0..1] + Keep(es[1..]) == [es[0]];
  }

  // ----- reasoning -----

  lemma {:induction false} LastReasoningIsOne(es: seq<Entry>) returns (k: nat)
    requires LastReasoning(es).Some?
    ensures k < |es| && Chain(es[k]) == LastReasoning(es) && LastReasoning(es).value != []
    ensures forall j :: k < j < |es| ==> Chain(es[j]).None?
  {
    k := |es| - 1;
    if Chain(es[k]).None? {
      k := LastReasoningIsOne(es[..k]);
    }
  }

  /** A compaction whose range held reasoning keeps the chain exactly when an assistant is left:
      the first one then has non-empty reasoning, its own if it had any and otherwise the last
      of the range. With no reasoning in the range nothing is changed. */
  lemma ReasoningHandedOn(es: seq<Entry>, start: nat, stop: nat, text: string)
    requires start <= stop <= |es|
    ensures var base := Spliced(es, start, stop, text);
            var r := Compress(es, start, stop, text);
            var held := LastReasoning(Keep(es[start..stop]));
            var i := FirstAssistant(base);
            && FirstAssistant(r) == i <= |r| == |base|
            && (i < |r| ==> r[i].message.Text? && r[i].message.role == Assistant)
            && (forall k :: 0 <= k < i ==> !(r[k].message.Text? && r[k].message.role == Assistant))
            && (held.Some? && i < |r| ==>
                  Chain(r[i]).Some? && Chain(r[i]) == if Chain(base[i]).Some? then Chain(base[i]) else held)
            && (held.None? ==> r == base)
  {
    var base := Spliced(es, start, stop, text);
    var r := Compress(es, start, stop, text);
    var held := LastReasoning(Keep(es[start..stop]));
    if held.Some? {
      var _ := LastReasoningIsOne(Keep(es[start..stop]));
    }
    InjectKeepsRoles(base, held);
  }

  lemma InjectKeepsRoles(es: seq<Entry>, reasoning: Option<Reasoning>)
    ensures FirstAssistant(Inject(es, reasoning)) == FirstAssistant(es)
  {
    var r, i := Inject(es, reasoning), FirstAssistant(es);
    assert forall k :: 0 <= k < i ==> !HasRole(r[k].message, Assistant);
    assert i < |r| ==> HasRole(r[i].message, Assistant);
    assert FirstAssistant(r) < |r| ==> HasRole(es[FirstAssistant(r)].message, Assistant);
  }

  // ----- any sequence of compactions and appended messages -----

  datatype Op = Append(entry: Entry) | Compact(start: nat, stop: nat, text: string)

  // Every compaction has its range inside the context.
  predicate InBounds(ops: seq<Op>)
    decreases |ops|, 0
  {
    ops != [] ==>
      && InBounds(ops[..|ops| - 1])
      && (ops[|ops| - 1].Compact? ==>
            ops[|ops| - 1].start <= ops[|ops| - 1].stop <= |Run(ops[..|ops| - 1])|)
  }

  function Run(ops: seq<Op>): seq<Entry>
    requires InBounds(ops)
    decreases |ops|, 1
  {
    if ops == [] then []
    else
      var before := Run(ops[..|ops| - 1]);
      match ops[|ops| - 1]
      case Append(entry) => before + [entry]
      case Compact(start, stop, text) => Compress(before, start, stop, text)
  }

  function Appended(ops: seq<Op>): seq<Entry> {
    if ops == [] then []
    else Appended(ops[..|ops| - 1]) + match ops[|ops| - 1]
      case Append(entry) => [entry]
      case _ => []
  }

  // Some entry of `from` has this very reasoning.
  ghost predicate HadBy(r: Reasoning, from: seq<Entry>) {
    exists k :: 0 <= k < |from| && from[k].message.Text? && from[k].message.reasoning == Some(r)
  }

  ghost predicate AllHad(es: seq<Entry>, from: seq<Entry>) {
    forall i :: 0 <= i < |es| && es[i].message.Text? && es[i].message.reasoning.Some? ==>
      HadBy(es[i].message.reasoning.value, from)
  }

  lemma {:induction false} KeptAreThere(es: seq<Entry>)
    ensures forall i :: 0 <= i < |Keep(es)| ==> Keep(es)[i] in es
  {
    if es != [] {
      KeptAreThere(es[..|es| - 1]);
    }
  }

  lemma CompressHad(es: seq<Entry>, start: nat, stop: nat, text: string, from: seq<Entry>)
    requires start <= stop <= |es| && AllHad(es, from)
    ensures AllHad(Compress(es, start, stop, text), from)
  {
    var pre, mid, post := es[..start], es[start..stop], es[stop..];
    SplicedShape(es, start, stop, text);
    KeptAreThere(pre);
    KeptAreThere(mid);
    KeptAreThere(post);
    var base := Spliced(es, start, stop, text);
    forall i | 0 <= i < |base| && base[i].message.Text? && base[i].message.reasoning.Some?
      ensures HadBy(base[i].message.reasoning.value, from)
    {
      assert base[i] in pre || base[i] in post;
      assert base[i] in es;
    }
    var held := LastReasoning(Keep(mid));
    if held.Some? {
      var k := LastReasoningIsOne(Keep(mid));
      assert Keep(mid)[k] in es;
    }
  }

  /** Over any sequence of compactions and appended messages, every reasoning in the context is
      one that some appended message had: none is ever made up or joined together. */
  lemma {:induction false} ReasoningIsOriginal(ops: seq<Op>)
    requires InBounds(ops)
    ensures AllHad(Run(ops), Appended(ops))
  {
    if ops != [] {
      var before, last := ops[..|ops| - 1], ops[|ops| - 1];
      ReasoningIsOriginal(before);
      var es, from := Run(before), Appended(before);
      match last
      case Append(entry) =>
        forall r: Reasoning | HadBy(r, from)
          ensures HadBy(r, from + [entry])
        {
          var k :| 0 <= k < |from| && from[k].message.Text? && from[k].message.reasoning == Some(r);
          assert (from + [entry])[k] == from[k];
        }
        assert (from + [entry])[|from|] == entry;
      case Compact(start, stop, text) =>
        CompressHad(es, start, stop, text, from);
        assert from + [] == from;
    }
  }

  ghost predicate DroppablesCarryNone(es: seq<Entry>) {
    forall i :: 0 <= i < |es| && IsDroppable(es[i]) ==> es[i].usage.None?
  }

  lemma {:induction false} CarriersKept(es: seq<Entry>)
    requires DroppablesCarryNone(es)
    ensures CarrierKept(es)
  {
    if es != [] {
      CarriersKept(es[..|es| - 1]);
    }
  }

  /** While droppable messages carry no usage, no sequence of compactions changes what is
      reported: it is the usage last appended. */
  lemma {:induction false} UsageOverRuns(ops: seq<Op>)
    requires InBounds(ops) && DroppablesCarryNone(Appended(ops))
    ensures DroppablesCarryNone(Run(ops))
    ensures LastUsage(Run(ops)) == LastUsage(Appended(ops))
  {
    if ops != [] {
      var before, last := ops[..|ops| - 1], ops[|ops| - 1];
      var from := Appended(before);
      match last
      case Append(entry) =>
        SplitCarriesNone(from, entry);
        UsageOverRuns(before);
        LastUsageConcat(Run(before), [entry]);
        LastUsageConcat(from, [entry]);
      case Compact(start, stop, text) =>
        assert from + [] == from;
        UsageOverRuns(before);
        CompressKeepsUsage(Run(before), start, stop, text);
    }
  }

  lemma SplitCarriesNone(es: seq<Entry>, e: Entry)
    requires DroppablesCarryNone(es + [e])
    ensures DroppablesCarryNone(es) && (IsDroppable(e) ==> e.usage.None?)
  {
    assert forall i :: 0 <= i < |es| ==> es[i] == (es + [e])[i];
    assert (es + [e])[|es|] == e;
  }

  lemma CompressKeepsUsage(es: seq<Entry>, start: nat, stop: nat, text: string)
    requires start <= stop <= |es| && DroppablesCarryNone(es)
    ensures DroppablesCarryNone(Compress(es, start, stop, text))
    ensures LastUsage(Compress(es, start, stop, text)) == LastUsage(es)
  {
    CarriersKept(es[..start]);
    CarriersKept(es[stop..]);
    UsageAfter(es, start, stop, text);
    SurvivorInReach(es, start, stop);
    CompressCarriesNone(es, start, stop, text);
  }

  lemma CompressCarriesNone(es: seq<Entry>, start: nat, stop: nat, text: string)
    requires start <= stop <= |es|
    ensures DroppablesCarryNone(Compress(es, start, stop, text))
  {
    NothingDroppableKept(es[..start] + [Summary(text, es[start..stop])] + es[stop..]);
  }

  lemma {:induction false} NothingDroppableKept(es: seq<Entry>)
    ensures forall i :: 0 <= i < |Keep(es)| ==> !IsDroppable(Keep(es)[i])
  {
    if es != [] {
      NothingDroppableKept(es[..|es| - 1]);
    }
  }
}
