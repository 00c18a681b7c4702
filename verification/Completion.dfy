/**
 The completion envelope and its checks: src/execution/completion-protocol.ts,
 after the report was parsed and the result files were checked.
 */
module Completion {
  import opened JsText

  type Key(==, !new)
  type SubtaskId(==, !new)
  type File(==, !new)

  datatype Kind = TextKind | ArtifactKind
  datatype Required = Required(key: Key, kind: Kind)
  datatype Contract = Contract(target: SubtaskId, required: seq<Required>)

  datatype Item = TextItem(key: Key, value: Text) | ArtifactItem(key: Key, paths: seq<File>)
  datatype Handoff = Handoff(target: SubtaskId, items: seq<Item>)
  datatype Evidence = Evidence(key: Key, evidence: seq<Text>)
  datatype Envelope = Envelope(acceptance: seq<Evidence>, artifacts: seq<File>, handoffs: seq<Handoff>)

  /** Usage by handoffs that are integrated already. */
  datatype Usage = Usage(text: nat, artifacts: nat)

  datatype Code = AcceptanceMismatch | HandoffMismatch | BudgetExceeded
  /** What a violation is about; the source writes a path and a message. */
  datatype Place =
    | AllKeys | KeyAgain(index: int) | EvidenceCount(index: int) | EvidenceText(index: int, entry: int)
    | AllTargets | TargetAgain(handoff: int) | TargetUnknown(handoff: int)
    | ItemAgain(handoff: int, item: int) | ItemKinds(handoff: int)
    | ItemSize(handoff: int, item: int) | EdgeText(handoff: int) | EdgePaths(handoff: int)
    | IncomingText(handoff: int) | IncomingPaths(handoff: int) | TotalText | TotalPaths | TotalArtifacts
    | ResultFile(path: Text)
  datatype Violation = Violation(code: Code, place: Place)

  const MAX_TEXT := 4_000
  const EDGE_TEXT := 12_000
  const ALL_TEXT := 24_000
  const EDGE_ARTIFACTS := 20
  const ALL_ARTIFACTS := 40

  /** `!text.trim()`. */
  predicate IsBlank(t: Text) {
    forall u :: u in t ==> IsSpace(u)
  }

  function KindOf(item: Item): Kind {
    if item.TextItem? then TextKind else ArtifactKind
  }

  // ----------------------------------------------------------- materialise

  function MaterializeItems(required: seq<Required>, body: Text, artifacts: seq<File>): (items: seq<Item>)
    ensures |items| == |required|
    ensures forall k :: 0 <= k < |required| ==>
              items[k] == if required[k].kind == TextKind then TextItem(required[k].key, body)
                          else ArtifactItem(required[k].key, artifacts)
  {
    if |required| == 0 then []
    else
      [if required[0].kind == TextKind then TextItem(required[0].key, body)
       else ArtifactItem(required[0].key, artifacts)]
      + MaterializeItems(required[1..], body, artifacts)
  }

  function MaterializeHandoffs(contracts: seq<Contract>, body: Text, artifacts: seq<File>): (handoffs: seq<Handoff>)
    ensures |handoffs| == |contracts|
    ensures forall k :: 0 <= k < |contracts| ==>
              handoffs[k] == Handoff(contracts[k].target, MaterializeItems(contracts[k].required, body, artifacts))
  {
    if |contracts| == 0 then []
    else
      [Handoff(contracts[0].target, MaterializeItems(contracts[0].required, body, artifacts))]
      + MaterializeHandoffs(contracts[1..], body, artifacts)
  }

  function MaterializeAcceptance(keys: seq<Key>, body: Text): (acceptance: seq<Evidence>)
    ensures |acceptance| == |keys|
    ensures forall k :: 0 <= k < |keys| ==> acceptance[k] == Evidence(keys[k], [body])
  {
    if |keys| == 0 then [] else [Evidence(keys[0], [body])] + MaterializeAcceptance(keys[1..], body)
  }

  /** `materializeCompletionEnvelope` of a completed report. */
  function Materialize(keys: seq<Key>, contracts: seq<Contract>, body: Text, artifacts: seq<File>): Envelope {
    Envelope(MaterializeAcceptance(keys, body), artifacts, MaterializeHandoffs(contracts, body, artifacts))
  }

  // ------------------------------------------------------------ acceptance

  predicate Distinct<T(==)>(s: seq<T>) {
    forall i, j :: 0 <= i < j < |s| ==> s[i] != s[j]
  }

  function Elements<T(==)>(s: seq<T>): set<T> {
    set x | x in s
  }

  function Mapped<A, B>(s: seq<A>, f: A -> B): (r: seq<B>)
    ensures |r| == |s| && forall k :: 0 <= k < |r| ==> r[k] == f(s[k])
  {
    seq(|s|, k requires 0 <= k < |s| => f(s[k]))
  }

  function KeysOf(acceptance: seq<Evidence>): (keys: seq<Key>)
    ensures |keys| == |acceptance| && forall k :: 0 <= k < |keys| ==> keys[k] == acceptance[k].key
  {
    Mapped(acceptance, (item: Evidence) => item.key)
  }

  predicate GoodEvidence(item: Evidence) {
    1 <= |item.evidence| <= 4
    && forall j :: 0 <= j < |item.evidence| ==> !IsBlank(item.evidence[j]) && |item.evidence[j]| <= MAX_TEXT
  }

  predicate AcceptanceHolds(expected: seq<Key>, acceptance: seq<Evidence>) {
    && Distinct(KeysOf(acceptance))
    && (forall k :: 0 <= k < |acceptance| ==> GoodEvidence(acceptance[k]))
    && Elements(expected) == Elements(KeysOf(acceptance))
  }

  predicate BadText(text: Text) {
    IsBlank(text) || |text| > 4_000
  }

  /** The violations of one piece of evidence. */
  predicate EvidenceFault(index: int, item: Evidence, v: Violation) {
    || (v == Violation(AcceptanceMismatch, EvidenceCount(index)) && (item.evidence == [] || |item.evidence| > 4))
    || (v.code == BudgetExceeded && v.place.EvidenceText? && v.place.index == index
        && 0 <= v.place.entry < |item.evidence| && BadText(item.evidence[v.place.entry]))
  }

  /** A key for the second time, and evidence that is missing, too much, blank or
      too long, among the first `n` entries. */
  predicate EarlyAcceptanceFault(acceptance: seq<Evidence>, n: nat, v: Violation)
    requires n <= |acceptance|
  {
    match v.place
    case KeyAgain(i) =>
      v.code == AcceptanceMismatch && 0 <= i < n && exists k :: 0 <= k < i && acceptance[k].key == acceptance[i].key
    case EvidenceCount(i) => 0 <= i < n && EvidenceFault(i, acceptance[i], v)
    case EvidenceText(i, _) => 0 <= i < n && EvidenceFault(i, acceptance[i], v)
    case _ => false
  }

  /** The violations of the acceptance rules: those, and keys that are not the
      expected ones. */
  ghost predicate AcceptanceFault(expected: seq<Key>, acceptance: seq<Evidence>, v: Violation) {
    || EarlyAcceptanceFault(acceptance, |acceptance|, v)
    || (v == Violation(AcceptanceMismatch, AllKeys)
        && exists key :: key in expected <==> key !in KeysOf(acceptance))
  }

  lemma AcceptanceGrows(acceptance: seq<Evidence>, i: nat, v: Violation)
    requires i < |acceptance|
    ensures EarlyAcceptanceFault(acceptance, i + 1, v) <==>
              || EarlyAcceptanceFault(acceptance, i, v)
              || (v == Violation(AcceptanceMismatch, KeyAgain(i)) && acceptance[i].key in KeysOf(acceptance)[..i])
              || EvidenceFault(i, acceptance[i], v)
  {
    var keys := KeysOf(acceptance);
    if keys[i] in keys[..i] {
      var k :| 0 <= k < i && keys[..i][k] == keys[i];
      assert acceptance[k].key == acceptance[i].key;
    } else {
      forall k | 0 <= k < i
        ensures acceptance[k].key != acceptance[i].key
      {
        assert keys[..i][k] == acceptance[k].key;
      }
    }
  }

  lemma ElementsDiffer<T>(a: seq<T>, b: seq<T>)
    ensures Elements(a) != Elements(b) <==> exists x :: x in a <==> x !in b
  {
    if forall x :: x in a <==> x in b {
      assert Elements(a) == Elements(b);
    } else {
      var x :| x in a <==> x !in b;
      assert x in Elements(a) <==> x !in Elements(b);
    }
  }

  lemma NoneReported(violations: seq<Violation>)
    ensures |violations| == 0 <==> forall v :: v !in violations
  {
    if |violations| > 0 {
      assert violations[0] in violations;
    }
  }

  /** The rules hold exactly when nothing violates them. */
  lemma AcceptanceHoldsIff(expected: seq<Key>, acceptance: seq<Evidence>)
    ensures AcceptanceHolds(expected, acceptance) <==> forall v :: !AcceptanceFault(expected, acceptance, v)
  {
    var keys := KeysOf(acceptance);
    ElementsDiffer(expected, keys);
    if i, j :| 0 <= i < j < |keys| && keys[i] == keys[j] {
      assert acceptance[i].key == acceptance[j].key;
      assert AcceptanceFault(expected, acceptance, Violation(AcceptanceMismatch, KeyAgain(j)));
    } else if k :| 0 <= k < |acceptance| && !GoodEvidence(acceptance[k]) {
      var item := acceptance[k];
      if j :| 0 <= j < |item.evidence| && BadText(item.evidence[j]) {
        assert AcceptanceFault(expected, acceptance, Violation(BudgetExceeded, EvidenceText(k, j)));
      } else {
        assert AcceptanceFault(expected, acceptance, Violation(AcceptanceMismatch, EvidenceCount(k)));
      }
    } else if Elements(expected) != Elements(keys) {
      assert AcceptanceFault(expected, acceptance, Violation(AcceptanceMismatch, AllKeys));
    } else {
      forall v
        ensures !AcceptanceFault(expected, acceptance, v)
      {
        if v.place.KeyAgain? && 0 <= v.place.index < |acceptance| {
          forall k | 0 <= k < v.place.index
            ensures acceptance[k].key != acceptance[v.place.index].key
          {
            assert keys[k] != keys[v.place.index];
          }
        }
      }
    }
  }

  method ValidateAcceptance(expected: seq<Key>, acceptance: seq<Evidence>) returns (violations: seq<Violation>)
    ensures |violations| == 0 <==> AcceptanceHolds(expected, acceptance)
    ensures forall v :: v in violations <==> AcceptanceFault(expected, acceptance, v)
  {
    violations := [];
    var keys := KeysOf(acceptance);
    var actual: set<Key> := {};
    var i := 0;
    while i < |acceptance|
      invariant 0 <= i <= |acceptance|
      invariant actual == Elements(keys[..i])
      invariant forall v :: v in violations <==> EarlyAcceptanceFault(acceptance, i, v)
    {
      var item := acceptance[i];
      DistinctGrows(keys, i);
      forall v: Violation {
        AcceptanceGrows(acceptance, i, v);
      }
      if item.key in actual { violations := violations + [Violation(AcceptanceMismatch, KeyAgain(i))]; }
      actual := actual + {item.key};
      var found := ValidateEvidence(i, item);
      violations := violations + found;
      i := i + 1;
    }
    assert keys[..i] == keys;
    if Elements(expected) != actual {
      violations := violations + [Violation(AcceptanceMismatch, AllKeys)];
    }
    ElementsDiffer(expected, keys);
    AcceptanceHoldsIff(expected, acceptance);
    NoneReported(violations);
  }

  method ValidateEvidence(index: nat, item: Evidence) returns (violations: seq<Violation>)
    ensures forall v :: v in violations <==> EvidenceFault(index, item, v)
  {
    violations := [];
    if |item.evidence| < 1 || |item.evidence| > 4 {
      violations := violations + [Violation(AcceptanceMismatch, EvidenceCount(index))];
    }
    var j := 0;
    while j < |item.evidence|
      invariant 0 <= j <= |item.evidence|
      invariant forall v :: v in violations <==>
        EvidenceFault(index, item, v) && (v.place.EvidenceText? ==> v.place.entry < j)
    {
      if IsBlank(item.evidence[j]) || |item.evidence[j]| > MAX_TEXT {
        violations := violations + [Violation(BudgetExceeded, EvidenceText(index, j))];
      }
      j := j + 1;
    }
  }

  lemma DistinctGrows<T>(s: seq<T>, i: nat)
    requires i < |s|
    ensures Distinct(s[..i + 1]) <==> Distinct(s[..i]) && s[i] !in s[..i]
    ensures Elements(s[..i + 1]) == Elements(s[..i]) + {s[i]}
  {
    assert s[..i + 1] == s[..i] + [s[i]];
  }

  // --------------------------------------------------------------- handoffs

  function TargetsOf(handoffs: seq<Handoff>): (targets: seq<SubtaskId>)
    ensures |targets| == |handoffs| && forall k :: 0 <= k < |targets| ==> targets[k] == handoffs[k].target
  {
    Mapped(handoffs, (handoff: Handoff) => handoff.target)
  }

  function ItemKeys(items: seq<Item>): (keys: seq<Key>)
    ensures |keys| == |items| && forall k :: 0 <= k < |keys| ==> keys[k] == items[k].key
  {
    Mapped(items, (item: Item) => item.key)
  }

  /** `new Map(...)`: the last entry of a key counts. */
  function ExpectedKinds(required: seq<Required>): map<Key, Kind>
    decreases |required|
  {
    if |required| == 0 then map[]
    else
      var last := required[|required| - 1];
      ExpectedKinds(required[..|required| - 1])[last.key := last.kind]
  }

  function ActualKinds(items: seq<Item>): map<Key, Kind>
    decreases |items|
  {
    if |items| == 0 then map[]
    else
      var last := items[|items| - 1];
      ActualKinds(items[..|items| - 1])[last.key := KindOf(last)]
  }

  function ExpectedByTarget(contracts: seq<Contract>): map<SubtaskId, seq<Required>>
    decreases |contracts|
  {
    if |contracts| == 0 then map[]
    else
      var last := contracts[|contracts| - 1];
      ExpectedByTarget(contracts[..|contracts| - 1])[last.target := last.required]
  }

  predicate HandoffMatches(expected: map<SubtaskId, seq<Required>>, handoff: Handoff) {
    && handoff.target in expected
    && Distinct(ItemKeys(handoff.items))
    && ExpectedKinds(expected[handoff.target]) == ActualKinds(handoff.items)
  }

  predicate HandoffsHold(contracts: seq<Contract>, handoffs: seq<Handoff>) {
    && Distinct(TargetsOf(handoffs))
    && (forall k :: 0 <= k < |handoffs| ==> HandoffMatches(ExpectedByTarget(contracts), handoffs[k]))
    && ExpectedByTarget(contracts).Keys == Elements(TargetsOf(handoffs))
  }

  /** A key for the second time, among the first `n` items. */
  predicate RepeatFault(handoff: int, items: seq<Item>, n: nat, v: Violation)
    requires n <= |items|
  {
    && v.code == HandoffMismatch && v.place.ItemAgain? && v.place.handoff == handoff && 0 <= v.place.item < n
    && exists k :: 0 <= k < v.place.item && items[k].key == items[v.place.item].key
  }

  /** The violations of one handoff's items: a key for the second time, and keys
      or kinds that are not the required ones. */
  predicate ItemsFault(handoff: int, required: seq<Required>, items: seq<Item>, v: Violation) {
    || (v == Violation(HandoffMismatch, ItemKinds(handoff)) && ExpectedKinds(required) != ActualKinds(items))
    || RepeatFault(handoff, items, |items|, v)
  }

  lemma RepeatsGrow(handoff: int, items: seq<Item>, j: nat, v: Violation)
    requires j < |items|
    ensures RepeatFault(handoff, items, j + 1, v) <==>
              || RepeatFault(handoff, items, j, v)
              || (v == Violation(HandoffMismatch, ItemAgain(handoff, j)) && items[j].key in ItemKeys(items)[..j])
  {
    var keys := ItemKeys(items);
    if keys[j] in keys[..j] {
      var k :| 0 <= k < j && keys[..j][k] == keys[j];
      assert items[k].key == items[j].key;
    } else {
      forall k | 0 <= k < j
        ensures items[k].key != items[j].key
      {
        assert keys[..j][k] == items[k].key;
      }
    }
  }

  /** A target for the second time, one that has no contract, and items that do
      not fit it, among the first `n` handoffs. */
  predicate EarlyHandoffFault(contracts: seq<Contract>, handoffs: seq<Handoff>, n: nat, v: Violation)
    requires n <= |handoffs|
  {
    match v.place
    case TargetAgain(h) =>
      v.code == HandoffMismatch && 0 <= h < n && exists k :: 0 <= k < h && handoffs[k].target == handoffs[h].target
    case TargetUnknown(h) =>
      v.code == HandoffMismatch && 0 <= h < n && handoffs[h].target !in ContractTargets(contracts)
    case ItemAgain(h, _) => 0 <= h < n && MisfitOf(contracts, handoffs[h], h, v)
    case ItemKinds(h) => 0 <= h < n && MisfitOf(contracts, handoffs[h], h, v)
    case _ => false
  }

  /** The violations of the handoff rules: those, and targets that are not the
      targets of the contracts. */
  ghost predicate HandoffFault(contracts: seq<Contract>, handoffs: seq<Handoff>, v: Violation) {
    || EarlyHandoffFault(contracts, handoffs, |handoffs|, v)
    || (v == Violation(HandoffMismatch, AllTargets)
        && exists target :: target in ContractTargets(contracts) <==> target !in TargetsOf(handoffs))
  }

  predicate MisfitOf(contracts: seq<Contract>, handoff: Handoff, index: int, v: Violation) {
    var expected := ExpectedByTarget(contracts);
    handoff.target in expected && ItemsFault(index, expected[handoff.target], handoff.items, v)
  }

  lemma HandoffsGrow(contracts: seq<Contract>, handoffs: seq<Handoff>, i: nat, v: Violation)
    requires i < |handoffs|
    ensures var target := handoffs[i].target;
            EarlyHandoffFault(contracts, handoffs, i + 1, v) <==>
              || EarlyHandoffFault(contracts, handoffs, i, v)
              || (v == Violation(HandoffMismatch, TargetAgain(i)) && target in TargetsOf(handoffs)[..i])
              || (v == Violation(HandoffMismatch, TargetUnknown(i)) && target !in ExpectedByTarget(contracts))
              || MisfitOf(contracts, handoffs[i], i, v)
  {
    var targets := TargetsOf(handoffs);
    ExpectedTargets(contracts);
    if targets[i] in targets[..i] {
      var k :| 0 <= k < i && targets[..i][k] == targets[i];
      assert handoffs[k].target == handoffs[i].target;
    } else {
      forall k | 0 <= k < i
        ensures handoffs[k].target != handoffs[i].target
      {
        assert targets[..i][k] == handoffs[k].target;
      }
    }
  }

  /** Items fit a contract exactly when nothing violates it. */
  lemma ItemsFitIff(handoff: int, required: seq<Required>, items: seq<Item>)
    ensures Distinct(ItemKeys(items)) && ExpectedKinds(required) == ActualKinds(items)
            <==> forall v :: !ItemsFault(handoff, required, items, v)
  {
    var keys := ItemKeys(items);
    if i, j :| 0 <= i < j < |keys| && keys[i] == keys[j] {
      assert items[i].key == items[j].key;
      assert ItemsFault(handoff, required, items, Violation(HandoffMismatch, ItemAgain(handoff, j)));
    } else if ExpectedKinds(required) != ActualKinds(items) {
      assert ItemsFault(handoff, required, items, Violation(HandoffMismatch, ItemKinds(handoff)));
    } else {
      forall v
        ensures !ItemsFault(handoff, required, items, v)
      {
        if v.place.ItemAgain? && 0 <= v.place.item < |items| {
          forall k | 0 <= k < v.place.item
            ensures items[k].key != items[v.place.item].key
          {
            assert keys[k] != keys[v.place.item];
          }
        }
      }
    }
  }

  lemma HandoffsHoldIff(contracts: seq<Contract>, handoffs: seq<Handoff>)
    ensures HandoffsHold(contracts, handoffs) <==> forall v :: !HandoffFault(contracts, handoffs, v)
  {
    var targets, expected := TargetsOf(handoffs), ExpectedByTarget(contracts);
    ExpectedTargets(contracts);
    ElementsDiffer(ContractTargets(contracts), targets);
    if i, j :| 0 <= i < j < |targets| && targets[i] == targets[j] {
      assert handoffs[i].target == handoffs[j].target;
      assert HandoffFault(contracts, handoffs, Violation(HandoffMismatch, TargetAgain(j)));
    } else if k :| 0 <= k < |handoffs| && !HandoffMatches(expected, handoffs[k]) {
      if handoffs[k].target in expected {
        ItemsFitIff(k, expected[handoffs[k].target], handoffs[k].items);
        var v :| ItemsFault(k, expected[handoffs[k].target], handoffs[k].items, v);
        assert HandoffFault(contracts, handoffs, v);
      } else {
        assert HandoffFault(contracts, handoffs, Violation(HandoffMismatch, TargetUnknown(k)));
      }
    } else if expected.Keys != Elements(targets) {
      assert HandoffFault(contracts, handoffs, Violation(HandoffMismatch, AllTargets));
    } else {
      forall v
        ensures !HandoffFault(contracts, handoffs, v)
      {
        SoundHandoffs(contracts, handoffs, v);
      }
    }
  }

  lemma SoundHandoffs(contracts: seq<Contract>, handoffs: seq<Handoff>, v: Violation)
    requires HandoffsHold(contracts, handoffs)
    ensures !HandoffFault(contracts, handoffs, v)
  {
    var targets, expected := TargetsOf(handoffs), ExpectedByTarget(contracts);
    ExpectedTargets(contracts);
    ElementsDiffer(ContractTargets(contracts), targets);
    forall h | 0 <= h < |handoffs|
      ensures handoffs[h].target in expected
      ensures forall k :: 0 <= k < h ==> handoffs[k].target != handoffs[h].target
      ensures !ItemsFault(h, expected[handoffs[h].target], handoffs[h].items, v)
    {
      assert HandoffMatches(expected, handoffs[h]);
      ItemsFitIff(h, expected[handoffs[h].target], handoffs[h].items);
      forall k | 0 <= k < h
        ensures handoffs[k].target != handoffs[h].target
      {
        assert targets[k] != targets[h];
      }
    }
  }

  method ValidateHandoffs(contracts: seq<Contract>, handoffs: seq<Handoff>) returns (violations: seq<Violation>)
    ensures |violations| == 0 <==> HandoffsHold(contracts, handoffs)
    ensures forall v :: v in violations <==> HandoffFault(contracts, handoffs, v)
  {
    violations := [];
    var expectedByTarget := ExpectedByTarget(contracts);
    var targets := TargetsOf(handoffs);
    var seenTargets: set<SubtaskId> := {};
    var i := 0;
    while i < |handoffs|
      invariant 0 <= i <= |handoffs|
      invariant seenTargets == Elements(targets[..i])
      invariant forall v :: v in violations <==> EarlyHandoffFault(contracts, handoffs, i, v)
    {
      var index := i;
      var handoff := handoffs[index];
      i := i + 1;
      DistinctGrows(targets, index);
      forall v: Violation
        ensures EarlyHandoffFault(contracts, handoffs, i, v) <==>
                  || v in violations
                  || (v == Violation(HandoffMismatch, TargetAgain(index)) && handoff.target in targets[..index])
                  || (v == Violation(HandoffMismatch, TargetUnknown(index)) && handoff.target !in expectedByTarget)
                  || MisfitOf(contracts, handoff, index, v)
      {
        HandoffsGrow(contracts, handoffs, index, v);
      }
      if handoff.target in seenTargets { violations := violations + [Violation(HandoffMismatch, TargetAgain(index))]; }
      seenTargets := seenTargets + {handoff.target};
      if handoff.target !in expectedByTarget {
        violations := violations + [Violation(HandoffMismatch, TargetUnknown(index))];
        continue;
      }
      var mismatches := ValidateItems(index, expectedByTarget[handoff.target], handoff.items);
      violations := violations + mismatches;
    }
    assert targets[..i] == targets;
    if expectedByTarget.Keys != seenTargets {
      violations := violations + [Violation(HandoffMismatch, AllTargets)];
    }
    ExpectedTargets(contracts);
    ElementsDiffer(ContractTargets(contracts), targets);
    HandoffsHoldIff(contracts, handoffs);
    NoneReported(violations);
  }

  method ValidateItems(handoff: nat, required: seq<Required>, items: seq<Item>) returns (violations: seq<Violation>)
    ensures forall v :: v in violations <==> ItemsFault(handoff, required, items, v)
  {
    violations := [];
    var keys := ItemKeys(items);
    var actual: map<Key, Kind> := map[];
    var j := 0;
    while j < |items|
      invariant 0 <= j <= |items|
      invariant actual == ActualKinds(items[..j])
      invariant actual.Keys == Elements(keys[..j])
      invariant forall v :: v in violations <==> RepeatFault(handoff, items, j, v)
    {
      forall v: Violation {
        RepeatsGrow(handoff, items, j, v);
      }
      DistinctGrows(keys, j);
      assert items[..j + 1][..j] == items[..j];
      if items[j].key in actual { violations := violations + [Violation(HandoffMismatch, ItemAgain(handoff, j))]; }
      actual := actual[items[j].key := KindOf(items[j])];
      j := j + 1;
    }
    assert items[..j] == items && keys[..j] == keys;
    if ExpectedKinds(required) != actual {
      violations := violations + [Violation(HandoffMismatch, ItemKinds(handoff))];
    }
  }

  // ---------------------------------------------------------------- budgets

  function TextLength(items: seq<Item>): nat
    decreases |items|
  {
    if |items| == 0 then 0
    else
      var last := items[|items| - 1];
      TextLength(items[..|items| - 1]) + if last.TextItem? then |last.value| else 0
  }

  function PathCount(items: seq<Item>): nat
    decreases |items|
  {
    if |items| == 0 then 0
    else
      var last := items[|items| - 1];
      PathCount(items[..|items| - 1]) + if last.ArtifactItem? then |last.paths| else 0
  }

  function AllText(handoffs: seq<Handoff>): nat
    decreases |handoffs|
  {
    if |handoffs| == 0 then 0
    else AllText(handoffs[..|handoffs| - 1]) + TextLength(handoffs[|handoffs| - 1].items)
  }

  function AllPaths(handoffs: seq<Handoff>): nat
    decreases |handoffs|
  {
    if |handoffs| == 0 then 0
    else AllPaths(handoffs[..|handoffs| - 1]) + PathCount(handoffs[|handoffs| - 1].items)
  }

  predicate GoodItem(item: Item) {
    match item
    case TextItem(_, value) => !IsBlank(value) && |value| <= MAX_TEXT
    case ArtifactItem(_, paths) => 1 <= |paths| <= EDGE_ARTIFACTS
  }

  function Incoming(usage: map<SubtaskId, Usage>, target: SubtaskId): Usage {
    if target in usage then usage[target] else Usage(0, 0)
  }

  predicate EdgeHolds(handoff: Handoff, usage: map<SubtaskId, Usage>) {
    && (forall k :: 0 <= k < |handoff.items| ==> GoodItem(handoff.items[k]))
    && TextLength(handoff.items) <= EDGE_TEXT
    && PathCount(handoff.items) <= EDGE_ARTIFACTS
    && Incoming(usage, handoff.target).text + TextLength(handoff.items) <= ALL_TEXT
    && Incoming(usage, handoff.target).artifacts + PathCount(handoff.items) <= ALL_ARTIFACTS
  }

  predicate BudgetsHold(envelope: Envelope, usage: map<SubtaskId, Usage>) {
    && (forall k :: 0 <= k < |envelope.handoffs| ==> EdgeHolds(envelope.handoffs[k], usage))
    && AllText(envelope.handoffs) <= ALL_TEXT
    && AllPaths(envelope.handoffs) <= ALL_ARTIFACTS
    && |envelope.artifacts| <= ALL_ARTIFACTS
  }

  /** The violations of one edge's budgets: 4000 characters and 20 paths an item,
      12000 and 20 the edge, 24000 and 40 its target with what it has already. */
  predicate EdgeFault(index: int, handoff: Handoff, usage: map<SubtaskId, Usage>, v: Violation) {
    SizeFault(index, handoff.items, |handoff.items|, v) || SumFault(index, handoff, usage, v)
  }

  predicate BadItem(item: Item) {
    match item
    case TextItem(_, value) => BadText(value)
    case ArtifactItem(_, files) => files == [] || |files| > 20
  }

  predicate SizeFault(index: int, items: seq<Item>, n: nat, v: Violation)
    requires n <= |items|
  {
    && v.code == BudgetExceeded && v.place.ItemSize? && v.place.handoff == index
    && 0 <= v.place.item < n && BadItem(items[v.place.item])
  }

  lemma SizesGrow(index: int, items: seq<Item>, j: nat, v: Violation)
    requires j < |items|
    ensures SizeFault(index, items, j + 1, v) <==>
              || SizeFault(index, items, j, v)
              || (v == Violation(BudgetExceeded, ItemSize(index, j)) && BadItem(items[j]))
  {
  }

  predicate SumFault(index: int, handoff: Handoff, usage: map<SubtaskId, Usage>, v: Violation) {
    && v.code == BudgetExceeded
    && var text, paths := TextLength(handoff.items), PathCount(handoff.items);
       match v.place
       case EdgeText(h) => h == index && text > 12_000
       case EdgePaths(h) => h == index && paths > 20
       case IncomingText(h) =>
         h == index && text + (if handoff.target in usage then usage[handoff.target].text else 0) > 24_000
       case IncomingPaths(h) =>
         h == index && paths + (if handoff.target in usage then usage[handoff.target].artifacts else 0) > 40
       case _ => false
  }

  predicate EdgesFault(handoffs: seq<Handoff>, usage: map<SubtaskId, Usage>, v: Violation) {
    exists h :: 0 <= h < |handoffs| && EdgeFault(h, handoffs[h], usage, v)
  }

  /** The violations of the budgets: those of the edges, and 24000 characters and
      40 paths in all. */
  predicate BudgetFault(envelope: Envelope, usage: map<SubtaskId, Usage>, v: Violation) {
    || EdgesFault(envelope.handoffs, usage, v)
    || (v == Violation(BudgetExceeded, TotalText) && AllText(envelope.handoffs) > 24_000)
    || (v == Violation(BudgetExceeded, TotalPaths) && AllPaths(envelope.handoffs) > 40)
    || (v == Violation(BudgetExceeded, TotalArtifacts) && |envelope.artifacts| > 40)
  }

  lemma EdgesGrow(handoffs: seq<Handoff>, usage: map<SubtaskId, Usage>, i: nat, v: Violation)
    requires i < |handoffs|
    ensures EdgesFault(handoffs[..i + 1], usage, v)
            <==> EdgesFault(handoffs[..i], usage, v) || EdgeFault(i, handoffs[i], usage, v)
  {
    var more := handoffs[..i + 1];
    if EdgeFault(i, handoffs[i], usage, v) {
      assert more[i] == handoffs[i];
    }
    if EdgesFault(handoffs[..i], usage, v) {
      var h :| 0 <= h < i && EdgeFault(h, handoffs[..i][h], usage, v);
      assert more[h] == handoffs[..i][h];
    }
    if EdgesFault(more, usage, v) {
      var h :| 0 <= h <= i && EdgeFault(h, more[h], usage, v);
      assert h < i ==> more[h] == handoffs[..i][h];
    }
  }

  /** An edge is within its budgets exactly when nothing violates them. */
  lemma EdgeHoldsIff(index: int, handoff: Handoff, usage: map<SubtaskId, Usage>)
    ensures EdgeHolds(handoff, usage) <==> forall v :: !EdgeFault(index, handoff, usage, v)
  {
    if k :| 0 <= k < |handoff.items| && !GoodItem(handoff.items[k]) {
      assert EdgeFault(index, handoff, usage, Violation(BudgetExceeded, ItemSize(index, k)));
    } else if !EdgeHolds(handoff, usage) {
      assert || EdgeFault(index, handoff, usage, Violation(BudgetExceeded, EdgeText(index)))
             || EdgeFault(index, handoff, usage, Violation(BudgetExceeded, EdgePaths(index)))
             || EdgeFault(index, handoff, usage, Violation(BudgetExceeded, IncomingText(index)))
             || EdgeFault(index, handoff, usage, Violation(BudgetExceeded, IncomingPaths(index)));
    } else {
      forall v
        ensures !EdgeFault(index, handoff, usage, v)
      {
        if v.place.ItemSize? && 0 <= v.place.item < |handoff.items| {
          assert GoodItem(handoff.items[v.place.item]);
        }
      }
    }
  }

  lemma BudgetsHoldIff(envelope: Envelope, usage: map<SubtaskId, Usage>)
    ensures BudgetsHold(envelope, usage) <==> forall v :: !BudgetFault(envelope, usage, v)
  {
    var handoffs := envelope.handoffs;
    forall h | 0 <= h < |handoffs|
      ensures EdgeHolds(handoffs[h], usage) <==> forall v :: !EdgeFault(h, handoffs[h], usage, v)
    {
      EdgeHoldsIff(h, handoffs[h], usage);
    }
    if h :| 0 <= h < |handoffs| && !EdgeHolds(handoffs[h], usage) {
      var v :| EdgeFault(h, handoffs[h], usage, v);
      assert BudgetFault(envelope, usage, v);
    } else if !BudgetsHold(envelope, usage) {
      assert || BudgetFault(envelope, usage, Violation(BudgetExceeded, TotalText))
             || BudgetFault(envelope, usage, Violation(BudgetExceeded, TotalPaths))
             || BudgetFault(envelope, usage, Violation(BudgetExceeded, TotalArtifacts));
    }
  }

  method ValidateBudgets(envelope: Envelope, usage: map<SubtaskId, Usage>) returns (violations: seq<Violation>)
    ensures |violations| == 0 <==> BudgetsHold(envelope, usage)
    ensures forall v :: v in violations <==> BudgetFault(envelope, usage, v)
  {
    violations := [];
    var totalText, totalPaths := 0, 0;
    var i := 0;
    while i < |envelope.handoffs|
      invariant 0 <= i <= |envelope.handoffs|
      invariant totalText == AllText(envelope.handoffs[..i]) && totalPaths == AllPaths(envelope.handoffs[..i])
      invariant forall v :: v in violations <==> EdgesFault(envelope.handoffs[..i], usage, v)
    {
      forall v: Violation {
        EdgesGrow(envelope.handoffs, usage, i, v);
      }
      assert envelope.handoffs[..i + 1][..i] == envelope.handoffs[..i];
      var found, edgeText, edgePaths := ValidateEdge(i, envelope.handoffs[i], usage);
      violations := violations + found;
      totalText := totalText + edgeText;
      totalPaths := totalPaths + edgePaths;
      i := i + 1;
    }
    assert envelope.handoffs[..i] == envelope.handoffs;
    if totalText > ALL_TEXT { violations := violations + [Violation(BudgetExceeded, TotalText)]; }
    if totalPaths > ALL_ARTIFACTS { violations := violations + [Violation(BudgetExceeded, TotalPaths)]; }
    if |envelope.artifacts| > ALL_ARTIFACTS { violations := violations + [Violation(BudgetExceeded, TotalArtifacts)]; }
    BudgetsHoldIff(envelope, usage);
    NoneReported(violations);
  }

  /** One outgoing edge, and how much text and how many paths it carries. */
  method ValidateEdge(handoffIndex: nat, handoff: Handoff, usage: map<SubtaskId, Usage>)
    returns (violations: seq<Violation>, edgeText: nat, edgePaths: nat)
    ensures edgeText == TextLength(handoff.items) && edgePaths == PathCount(handoff.items)
    ensures forall v :: v in violations <==> EdgeFault(handoffIndex, handoff, usage, v)
  {
    violations, edgeText, edgePaths := [], 0, 0;
    var j := 0;
    while j < |handoff.items|
      invariant 0 <= j <= |handoff.items|
      invariant edgeText == TextLength(handoff.items[..j]) && edgePaths == PathCount(handoff.items[..j])
      invariant forall v :: v in violations <==> SizeFault(handoffIndex, handoff.items, j, v)
    {
      forall v: Violation {
        SizesGrow(handoffIndex, handoff.items, j, v);
      }
      assert handoff.items[..j + 1][..j] == handoff.items[..j];
      match handoff.items[j] {
        case TextItem(_, value) =>
          edgeText := edgeText + |value|;
          if IsBlank(value) || |value| > MAX_TEXT {
            violations := violations + [Violation(BudgetExceeded, ItemSize(handoffIndex, j))];
          }
        case ArtifactItem(_, paths) =>
          edgePaths := edgePaths + |paths|;
          if |paths| < 1 || |paths| > EDGE_ARTIFACTS {
            violations := violations + [Violation(BudgetExceeded, ItemSize(handoffIndex, j))];
          }
      }
      j := j + 1;
    }
    assert handoff.items[..j] == handoff.items;
    if edgeText > EDGE_TEXT { violations := violations + [Violation(BudgetExceeded, EdgeText(handoffIndex))]; }
    if edgePaths > EDGE_ARTIFACTS { violations := violations + [Violation(BudgetExceeded, EdgePaths(handoffIndex))]; }
    var existing := Incoming(usage, handoff.target);
    if existing.text + edgeText > ALL_TEXT {
      violations := violations + [Violation(BudgetExceeded, IncomingText(handoffIndex))];
    }
    if existing.artifacts + edgePaths > ALL_ARTIFACTS {
      violations := violations + [Violation(BudgetExceeded, IncomingPaths(handoffIndex))];
    }
  }

  // ------------------------------------------------- materialised envelopes

  function RequiredKeys(required: seq<Required>): (keys: seq<Key>)
    ensures |keys| == |required| && forall k :: 0 <= k < |keys| ==> keys[k] == required[k].key
  {
    Mapped(required, (item: Required) => item.key)
  }

  function ContractTargets(contracts: seq<Contract>): (targets: seq<SubtaskId>)
    ensures |targets| == |contracts| && forall k :: 0 <= k < |targets| ==> targets[k] == contracts[k].target
  {
    Mapped(contracts, (contract: Contract) => contract.target)
  }

  function Count(required: seq<Required>, kind: Kind): nat
    decreases |required|
  {
    if |required| == 0 then 0
    else Count(required[..|required| - 1], kind) + if required[|required| - 1].kind == kind then 1 else 0
  }

  function CountAll(contracts: seq<Contract>, kind: Kind): nat
    decreases |contracts|
  {
    if |contracts| == 0 then 0
    else CountAll(contracts[..|contracts| - 1], kind) + Count(contracts[|contracts| - 1].required, kind)
  }

  lemma {:induction false} MaterializedKinds(required: seq<Required>, items: seq<Item>)
    requires |items| == |required|
    requires forall k :: 0 <= k < |items| ==> items[k].key == required[k].key && KindOf(items[k]) == required[k].kind
    ensures ActualKinds(items) == ExpectedKinds(required)
    decreases |required|
  {
    if |required| > 0 {
      MaterializedKinds(required[..|required| - 1], items[..|items| - 1]);
    }
  }

  lemma {:induction false} ExpectedOfTarget(contracts: seq<Contract>, k: nat)
    requires Distinct(ContractTargets(contracts)) && k < |contracts|
    ensures contracts[k].target in ExpectedByTarget(contracts)
    ensures ExpectedByTarget(contracts)[contracts[k].target] == contracts[k].required
    decreases |contracts|
  {
    if k < |contracts| - 1 {
      var init := contracts[..|contracts| - 1];
      forall i, j | 0 <= i < j < |init|
        ensures ContractTargets(init)[i] != ContractTargets(init)[j]
      {
        assert ContractTargets(contracts)[i] != ContractTargets(contracts)[j];
      }
      ExpectedOfTarget(init, k);
      assert ContractTargets(contracts)[k] != ContractTargets(contracts)[|contracts| - 1];
    }
  }

  lemma {:induction false} ExpectedTargets(contracts: seq<Contract>)
    ensures ExpectedByTarget(contracts).Keys == Elements(ContractTargets(contracts))
    decreases |contracts|
  {
    if |contracts| > 0 {
      var init := contracts[..|contracts| - 1];
      ExpectedTargets(init);
      var targets := ContractTargets(contracts);
      assert targets[..|init|] == ContractTargets(init) && targets[..|init| + 1] == targets;
      DistinctGrows(targets, |init|);
    }
  }

  /** A materialised envelope never violates the acceptance rules for distinct
      keys, and always violates them for repeated ones. */
  lemma MaterializedAcceptance(keys: seq<Key>, body: Text)
    requires !IsBlank(body) && |body| <= MAX_TEXT
    ensures AcceptanceHolds(keys, MaterializeAcceptance(keys, body)) <==> Distinct(keys)
  {
    assert KeysOf(MaterializeAcceptance(keys, body)) == keys;
  }

  /** One handoff matches its contract exactly when the contract requires no
      key twice, if no other contract has its target. */
  lemma MaterializedHandoff(contracts: seq<Contract>, k: nat, handoff: Handoff, body: Text, artifacts: seq<File>)
    requires Distinct(ContractTargets(contracts)) && k < |contracts|
    requires handoff == Handoff(contracts[k].target, MaterializeItems(contracts[k].required, body, artifacts))
    ensures HandoffMatches(ExpectedByTarget(contracts), handoff) <==> Distinct(RequiredKeys(contracts[k].required))
  {
    assert ItemKeys(handoff.items) == RequiredKeys(contracts[k].required);
    MaterializedKinds(contracts[k].required, handoff.items);
    ExpectedOfTarget(contracts, k);
  }

  /** Its handoffs match the contracts exactly when no target has two
      contracts and no contract requires a key twice. */
  lemma MaterializedHandoffs(contracts: seq<Contract>, body: Text, artifacts: seq<File>)
    ensures HandoffsHold(contracts, MaterializeHandoffs(contracts, body, artifacts)) <==>
              && Distinct(ContractTargets(contracts))
              && forall k :: 0 <= k < |contracts| ==> Distinct(RequiredKeys(contracts[k].required))
  {
    var handoffs := MaterializeHandoffs(contracts, body, artifacts);
    assert TargetsOf(handoffs) == ContractTargets(contracts);
    ExpectedTargets(contracts);
    if Distinct(ContractTargets(contracts)) {
      forall k | 0 <= k < |contracts|
        ensures HandoffMatches(ExpectedByTarget(contracts), handoffs[k])
                <==> Distinct(RequiredKeys(contracts[k].required))
      {
        MaterializedHandoff(contracts, k, handoffs[k], body, artifacts);
      }
    }
  }

  lemma Distribute(a: nat, b: nat, c: nat)
    ensures a * (b + c) == a * b + a * c
  {
  }

  lemma {:induction false} MaterializedSums(required: seq<Required>, items: seq<Item>, body: Text, artifacts: seq<File>)
    requires |items| == |required|
    requires forall k :: 0 <= k < |items| ==>
               items[k] == if required[k].kind == TextKind then TextItem(required[k].key, body)
                           else ArtifactItem(required[k].key, artifacts)
    ensures TextLength(items) == |body| * Count(required, TextKind)
    ensures PathCount(items) == |artifacts| * Count(required, ArtifactKind)
    decreases |required|
  {
    if |required| > 0 {
      var init := required[..|required| - 1];
      MaterializedSums(init, items[..|items| - 1], body, artifacts);
      Distribute(|body|, Count(init, TextKind), 1);
      Distribute(|artifacts|, Count(init, ArtifactKind), 1);
    }
  }

  /** One more handoff, in sums and in products. */
  lemma TotalsStep(unit: nat, before: nat, more: nat, count: nat, total: nat, part: nat, sum: nat)
    requires total == unit * before && part == unit * more && count == before + more && sum == total + part
    ensures sum == unit * count
  {
    Distribute(unit, before, more);
  }

  lemma {:induction false} MaterializedText(contracts: seq<Contract>, body: Text, artifacts: seq<File>,
                                            handoffs: seq<Handoff>)
    requires |handoffs| == |contracts|
    requires forall k :: 0 <= k < |contracts| ==>
               handoffs[k].items == MaterializeItems(contracts[k].required, body, artifacts)
    ensures AllText(handoffs) == |body| * CountAll(contracts, TextKind)
    decreases |contracts|
  {
    if |contracts| > 0 {
      var n := |contracts| - 1;
      MaterializedText(contracts[..n], body, artifacts, handoffs[..n]);
      MaterializedSums(contracts[n].required, handoffs[n].items, body, artifacts);
      TotalsStep(|body|, CountAll(contracts[..n], TextKind), Count(contracts[n].required, TextKind),
                 CountAll(contracts, TextKind),
                 AllText(handoffs[..n]), TextLength(handoffs[n].items), AllText(handoffs));
    }
  }

  lemma {:induction false} MaterializedPaths(contracts: seq<Contract>, body: Text, artifacts: seq<File>,
                                             handoffs: seq<Handoff>)
    requires |handoffs| == |contracts|
    requires forall k :: 0 <= k < |contracts| ==>
               handoffs[k].items == MaterializeItems(contracts[k].required, body, artifacts)
    ensures AllPaths(handoffs) == |artifacts| * CountAll(contracts, ArtifactKind)
    decreases |contracts|
  {
    if |contracts| > 0 {
      var n := |contracts| - 1;
      MaterializedPaths(contracts[..n], body, artifacts, handoffs[..n]);
      MaterializedSums(contracts[n].required, handoffs[n].items, body, artifacts);
      TotalsStep(|artifacts|, CountAll(contracts[..n], ArtifactKind), Count(contracts[n].required, ArtifactKind),
                 CountAll(contracts, ArtifactKind),
                 AllPaths(handoffs[..n]), PathCount(handoffs[n].items), AllPaths(handoffs));
    }
  }

  lemma {:induction false} CountIsPositive(required: seq<Required>, kind: Kind)
    ensures Count(required, kind) > 0 <==> exists k :: 0 <= k < |required| && required[k].kind == kind
    decreases |required|
  {
    if |required| > 0 {
      var init := required[..|required| - 1];
      CountIsPositive(init, kind);
      if k :| 0 <= k < |init| && init[k].kind == kind {
        assert required[k].kind == kind;
      }
    }
  }

  /** What the budgets ask of one edge. */
  predicate EdgeForm(contract: Contract, length: nat, artifacts: nat, usage: map<SubtaskId, Usage>) {
    var text := length * Count(contract.required, TextKind);
    var paths := artifacts * Count(contract.required, ArtifactKind);
    && text <= EDGE_TEXT && paths <= EDGE_ARTIFACTS
    && Incoming(usage, contract.target).text + text <= ALL_TEXT
    && Incoming(usage, contract.target).artifacts + paths <= ALL_ARTIFACTS
    && (Count(contract.required, ArtifactKind) > 0 ==> artifacts > 0)
  }

  /** What the budgets ask of a body length, an artifact count and the numbers
      of required items. */
  predicate ClosedForm(contracts: seq<Contract>, length: nat, artifacts: nat, usage: map<SubtaskId, Usage>) {
    && (forall k :: 0 <= k < |contracts| ==> EdgeForm(contracts[k], length, artifacts, usage))
    && length * CountAll(contracts, TextKind) <= ALL_TEXT
    && artifacts * CountAll(contracts, ArtifactKind) <= ALL_ARTIFACTS
  }

  /** The budget loops accept a materialised envelope exactly when the closed
      form holds; the report schema allows at most 20 result files. */
  lemma MaterializedBudgets(keys: seq<Key>, contracts: seq<Contract>, body: Text, artifacts: seq<File>,
                            usage: map<SubtaskId, Usage>)
    requires !IsBlank(body) && |body| <= MAX_TEXT && |artifacts| <= EDGE_ARTIFACTS
    ensures BudgetsHold(Materialize(keys, contracts, body, artifacts), usage)
       <==> ClosedForm(contracts, |body|, |artifacts|, usage)
  {
    var handoffs := MaterializeHandoffs(contracts, body, artifacts);
    MaterializedText(contracts, body, artifacts, handoffs);
    MaterializedPaths(contracts, body, artifacts, handoffs);
    forall k | 0 <= k < |contracts|
      ensures EdgeHolds(handoffs[k], usage) <==> EdgeForm(contracts[k], |body|, |artifacts|, usage)
    {
      MaterializedEdge(contracts[k], body, artifacts, usage);
    }
  }

  lemma MaterializedEdge(contract: Contract, body: Text, artifacts: seq<File>, usage: map<SubtaskId, Usage>)
    requires !IsBlank(body) && |body| <= MAX_TEXT && |artifacts| <= EDGE_ARTIFACTS
    ensures EdgeHolds(Handoff(contract.target, MaterializeItems(contract.required, body, artifacts)), usage)
       <==> EdgeForm(contract, |body|, |artifacts|, usage)
  {
    MaterializedSums(contract.required, MaterializeItems(contract.required, body, artifacts), body, artifacts);
    MaterializedItemsGood(contract.required, body, artifacts);
  }

  lemma MaterializedItemsGood(required: seq<Required>, body: Text, artifacts: seq<File>)
    requires !IsBlank(body) && |body| <= MAX_TEXT && |artifacts| <= EDGE_ARTIFACTS
    ensures var items := MaterializeItems(required, body, artifacts);
            (forall j :: 0 <= j < |items| ==> GoodItem(items[j]))
            <==> (Count(required, ArtifactKind) > 0 ==> |artifacts| > 0)
  {
    CountIsPositive(required, ArtifactKind);
    var items := MaterializeItems(required, body, artifacts);
    if k :| 0 <= k < |required| && required[k].kind == ArtifactKind {
      assert GoodItem(items[k]) <==> |artifacts| > 0;
    }
  }

  datatype Outcome = Accepted(envelope: Envelope) | Refused(envelope: Envelope, violations: seq<Violation>)

  /** `validateCompletionProtocol` after parsing: the envelope that is made from
      the report, accepted or refused with its violations; `fileViolations` are
      those of the result files. */
  method ValidateCompleted(keys: seq<Key>, contracts: seq<Contract>, body: Text, artifacts: seq<File>,
                           usage: map<SubtaskId, Usage>, fileViolations: seq<Violation>)
    returns (outcome: Outcome)
    requires !IsBlank(body) && |body| <= MAX_TEXT && |artifacts| <= EDGE_ARTIFACTS
    ensures outcome.envelope == Materialize(keys, contracts, body, artifacts)
    ensures outcome.Accepted? <==>
              && |fileViolations| == 0
              && Distinct(keys) && Distinct(ContractTargets(contracts))
              && (forall k :: 0 <= k < |contracts| ==> Distinct(RequiredKeys(contracts[k].required)))
              && ClosedForm(contracts, |body|, |artifacts|, usage)
    ensures outcome.Refused? ==>
              && |outcome.violations| > 0
              && forall v :: v in outcome.violations <==>
                   || v in fileViolations || AcceptanceFault(keys, outcome.envelope.acceptance, v)
                   || HandoffFault(contracts, outcome.envelope.handoffs, v) || BudgetFault(outcome.envelope, usage, v)
  {
    var envelope := Materialize(keys, contracts, body, artifacts);
    var acceptance := ValidateAcceptance(keys, envelope.acceptance);
    var handoffs := ValidateHandoffs(contracts, envelope.handoffs);
    var budgets := ValidateBudgets(envelope, usage);
    var violations := fileViolations + acceptance + handoffs + budgets;
    MaterializedAcceptance(keys, body);
    MaterializedHandoffs(contracts, body, artifacts);
    MaterializedBudgets(keys, contracts, body, artifacts, usage);
    outcome := if |violations| > 0 then Refused(envelope, violations) else Accepted(envelope);
  }
}
