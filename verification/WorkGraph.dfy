/**
 Materialising an approved work graph revision:
 src/execution/work-graph-runtime-service.ts over the rows of one Task in
 src/storage/work-graph-revision-repo.ts and src/storage/subtask-repo.ts.
 */
module WorkGraph {
  import opened Prelude
  import opened JsText

  /** Everything of a subtask or of a dependency that is copied as it is. */
  type Body(==, !new)
  type Detail(==, !new)
  type Id(==, !new)

  datatype Dependency = Dependency(from: Text, detail: Detail)
  datatype Proposal = Proposal(id: Text, body: Body, dependencies: seq<Dependency>)

  // ------------------------------------------------------------------ ids

  function Decimal(n: nat): Text {
    if n < 10 then [0x30 + n] else Decimal(n / 10) + [0x30 + n % 10]
  }

  lemma {:induction false} DecimalIsDigits(n: nat)
    ensures |Decimal(n)| > 0 && forall u :: u in Decimal(n) ==> IsDigit(u)
  {
    if n >= 10 {
      DecimalIsDigits(n / 10);
    }
  }

  lemma {:induction false} DecimalIsInjective(m: nat, n: nat)
    requires Decimal(m) == Decimal(n)
    ensures m == n
  {
    DecimalIsDigits(m / 10);
    DecimalIsDigits(n / 10);
    if m >= 10 && n >= 10 {
      var a, b := Decimal(m), Decimal(n);
      assert a[..|a| - 1] == Decimal(m / 10) && b[..|b| - 1] == Decimal(n / 10);
      assert a[|a| - 1] == 0x30 + m % 10 && b[|b| - 1] == 0x30 + n % 10;
      DecimalIsInjective(m / 10, n / 10);
    } else {
      assert |Decimal(m)| == |Decimal(n)|;
    }
  }

  function Prefix(taskId: Text, revision: nat): Text {
    taskId + [UNDERSCORE, 0x72] + Decimal(revision) + [UNDERSCORE]
  }

  predicate IsSafe(u: Unit) {
    IsDigit(u) || 0x41 <= u <= 0x5A || 0x61 <= u <= 0x7A || u == UNDERSCORE || u == 0x3A || u == HYPHEN
  }

  /** Drops the run of unsafe units in front. */
  function DropUnsafe(t: Text): (rest: Text)
    ensures |rest| <= |t|
  {
    if |t| > 0 && !IsSafe(t[0]) then DropUnsafe(t[1..]) else t
  }

  /** Every run of unsafe units becomes one underscore. */
  function ReplaceUnsafe(t: Text): Text
    decreases |t|
  {
    if |t| == 0 then t
    else if IsSafe(t[0]) then [t[0]] + ReplaceUnsafe(t[1..])
    else [UNDERSCORE] + ReplaceUnsafe(DropUnsafe(t[1..]))
  }

  function TrimLeft(t: Text): Text {
    if |t| > 0 && t[0] == UNDERSCORE then TrimLeft(t[1..]) else t
  }

  function TrimRight(t: Text): Text
    decreases |t|
  {
    if |t| > 0 && t[|t| - 1] == UNDERSCORE then TrimRight(t[..|t| - 1]) else t
  }

  const FALLBACK: Text :=
    [0x73, 0x75, 0x62, 0x74, 0x61, 0x73, 0x6B, 0x5F, 0x65, 0x78, 0x65, 0x63, 0x75, 0x74, 0x65]

  function SafeId(id: Text): Text {
    var trimmed := TrimRight(TrimLeft(ReplaceUnsafe(id)));
    if |trimmed| == 0 then FALLBACK else trimmed
  }

  function NormalizeSubtaskId(taskId: Text, revision: nat, id: Text): Text {
    if Prefix(taskId, revision) <= id then id else Prefix(taskId, revision) + SafeId(id)
  }

  /** A normalised id names its revision, normalising it changes nothing, and an
      id that names its revision already is normal. */
  lemma NormalizedNamesRevision(taskId: Text, revision: nat, id: Text)
    ensures var n := NormalizeSubtaskId(taskId, revision, id);
            && Prefix(taskId, revision) <= n && NormalizeSubtaskId(taskId, revision, n) == n
            && n == if Prefix(taskId, revision) <= id then id else Prefix(taskId, revision) + SafeId(id)
  {
  }

  /** The number that decimal digits write. */
  ghost function ValueOf(digits: Text): int
    decreases |digits|
  {
    if |digits| == 0 then 0 else 10 * ValueOf(digits[..|digits| - 1]) + (digits[|digits| - 1] - '0' as int)
  }

  /** The prefix is the Task, `_r`, the revision in decimal without leading
      zeros, and `_`. */
  lemma {:induction false} PrefixSpells(taskId: Text, revision: nat)
    ensures var digits := Decimal(revision);
            && Prefix(taskId, revision) == taskId + ['_' as int, 'r' as int] + digits + ['_' as int]
            && |digits| > 0 && (forall u :: u in digits ==> '0' as int <= u <= '9' as int)
            && ValueOf(digits) == revision && (revision > 0 ==> digits[0] != '0' as int)
    decreases revision
  {
    DecimalIsDigits(revision);
    if revision >= 10 {
      var digits, front := Decimal(revision), Decimal(revision / 10);
      PrefixSpells(taskId, revision / 10);
      assert digits[..|digits| - 1] == front && digits[0] == front[0];
    }
  }

  /** The letters and digits of ASCII, underscore, colon and hyphen are safe. */
  lemma SafeUnits(u: Unit)
    ensures IsSafe(u) <==>
              || '0' as int <= u <= '9' as int || 'A' as int <= u <= 'Z' as int || 'a' as int <= u <= 'z' as int
              || u == '_' as int || u == ':' as int || u == '-' as int
  {
  }

  /** A safe unit is kept, and of each run of other units the first. */
  predicate IsKept(t: Text, i: nat)
    requires i < |t|
  {
    IsSafe(t[i]) || i == 0 || IsSafe(t[i - 1])
  }

  /** Text that consists of the kept units, at these places in order, with an
      underscore for each run. */
  ghost predicate Keeps(t: Text, places: seq<nat>, kept: Text) {
    && |places| == |kept|
    && (forall j, k :: 0 <= j < k < |places| ==> places[j] < places[k])
    && (forall i :: 0 <= i < |t| ==> (i in places <==> IsKept(t, i)))
    && (forall k :: 0 <= k < |places| ==>
          places[k] < |t| && kept[k] == if IsSafe(t[places[k]]) then t[places[k]] else '_' as int)
  }

  lemma {:induction false} DropUnsafeIsSuffix(t: Text) returns (n: nat)
    ensures n <= |t| && DropUnsafe(t) == t[n..]
    ensures forall i :: 0 <= i < n ==> !IsSafe(t[i])
    ensures n < |t| ==> IsSafe(t[n])
    decreases |t|
  {
    if |t| > 0 && !IsSafe(t[0]) {
      var m := DropUnsafeIsSuffix(t[1..]);
      n := m + 1;
      assert t[1..][m..] == t[n..];
      assert forall i :: 0 < i < n ==> t[i] == t[1..][i - 1];
    } else {
      n := 0;
    }
  }

  /** What is kept of a suffix that begins with a safe unit, or after one, is
      what is kept there of the whole. */
  lemma KeepsFromSuffix(t: Text, n: nat, places: seq<nat>, kept: Text) returns (all: seq<nat>)
    requires 0 < n <= |t| && Keeps(t[n..], places, kept)
    requires forall i :: 0 < i < n ==> !IsKept(t, i)
    requires n < |t| ==> IsKept(t, n)
    ensures Keeps(t, all, [if IsSafe(t[0]) then t[0] else '_' as int] + kept)
  {
    all := [0] + seq(|places|, k requires 0 <= k < |places| => n + places[k]);
    forall i | 0 <= i < |t|
      ensures i in all <==> IsKept(t, i)
    {
      if i == 0 {
        assert all[0] == 0;
      } else if i >= n {
        assert IsKept(t[n..], i - n) <==> IsKept(t, i);
        if i - n in places {
          var k :| 0 <= k < |places| && places[k] == i - n;
          assert all[k + 1] == i;
        }
      }
    }
  }

  lemma {:induction false} ReplaceUnsafeKeeps(t: Text) returns (places: seq<nat>)
    ensures Keeps(t, places, ReplaceUnsafe(t))
    decreases |t|
  {
    if |t| == 0 {
      places := [];
    } else if IsSafe(t[0]) {
      var rest := ReplaceUnsafeKeeps(t[1..]);
      places := KeepsFromSuffix(t, 1, rest, ReplaceUnsafe(t[1..]));
    } else {
      var m := DropUnsafeIsSuffix(t[1..]);
      assert t[1..][m..] == t[m + 1..];
      assert forall i :: 0 < i < m + 1 ==> t[i] == t[1..][i - 1];
      var rest := ReplaceUnsafeKeeps(t[m + 1..]);
      places := KeepsFromSuffix(t, m + 1, rest, ReplaceUnsafe(t[m + 1..]));
    }
  }

  lemma {:induction false} TrimLeftIsSuffix(t: Text) returns (n: nat)
    ensures n <= |t| && TrimLeft(t) == t[n..]
    ensures forall i :: 0 <= i < n ==> t[i] == '_' as int
    ensures n < |t| ==> t[n] != '_' as int
    decreases |t|
  {
    if |t| > 0 && t[0] == UNDERSCORE {
      var m := TrimLeftIsSuffix(t[1..]);
      n := m + 1;
      assert t[1..][m..] == t[n..];
      assert forall i :: 0 < i < n ==> t[i] == t[1..][i - 1];
    } else {
      n := 0;
    }
  }

  lemma {:induction false} TrimRightIsPrefix(t: Text) returns (n: nat)
    ensures n <= |t| && TrimRight(t) == t[..n]
    ensures forall i :: n <= i < |t| ==> t[i] == '_' as int
    ensures 0 < n ==> t[n - 1] != '_' as int
    decreases |t|
  {
    if |t| > 0 && t[|t| - 1] == UNDERSCORE {
      n := TrimRightIsPrefix(t[..|t| - 1]);
      assert t[..|t| - 1][..n] == t[..n];
    } else {
      n := |t|;
    }
  }

  /** Trimming leaves the middle, from the first unit that is no underscore to
      the last. */
  lemma TrimmedIsMiddle(t: Text) returns (left: nat, right: nat)
    ensures left <= right <= |t| && TrimRight(TrimLeft(t)) == t[left..right]
    ensures forall k :: 0 <= k < left || right <= k < |t| ==> t[k] == '_' as int
    ensures left < right ==> t[left] != '_' as int && t[right - 1] != '_' as int
  {
    left := TrimLeftIsSuffix(t);
    var n := TrimRightIsPrefix(t[left..]);
    right := left + n;
    assert t[left..][..n] == t[left..right];
    assert forall k :: right <= k < |t| ==> t[k] == t[left..][k - left];
    if n > 0 {
      assert t[left..][n - 1] == t[right - 1];
    }
  }

  lemma FallbackSpells()
    ensures |FALLBACK| == |"subtask_execute"|
    ensures forall k :: 0 <= k < |FALLBACK| ==> FALLBACK[k] == "subtask_execute"[k] as int
  {
  }

  /** A safe id is what is kept of the id without the underscores at both ends;
      if nothing is left it is `subtask_execute`. */
  lemma SafeIdIsKept(id: Text) returns (places: seq<nat>, kept: Text, left: nat, right: nat)
    ensures Keeps(id, places, kept) && left <= right <= |kept|
    ensures forall k :: 0 <= k < left || right <= k < |kept| ==> kept[k] == '_' as int
    ensures left < right ==>
              kept[left] != '_' as int && kept[right - 1] != '_' as int && SafeId(id) == kept[left..right]
    ensures left == right ==> |SafeId(id)| == |"subtask_execute"|
                              && forall k :: 0 <= k < |SafeId(id)| ==> SafeId(id)[k] == "subtask_execute"[k] as int
  {
    kept := ReplaceUnsafe(id);
    places := ReplaceUnsafeKeeps(id);
    left, right := TrimmedIsMiddle(kept);
    if left == right {
      FallbackSpells();
    }
  }

  lemma DigitsInside(id: Text, n: nat, p: Text)
    requires n + |p| + 1 <= |id| && id[n..n + |p| + 1] == p + [UNDERSCORE]
    requires forall u :: u in p ==> IsDigit(u)
    ensures forall k :: n <= k < n + |p| ==> IsDigit(id[k])
    ensures id[n + |p|] == UNDERSCORE && id[n..n + |p|] == p
  {
    var part := id[n..n + |p| + 1];
    forall k | n <= k < n + |p|
      ensures IsDigit(id[k])
    {
      assert id[k] == part[k - n] == p[k - n];
      assert p[k - n] in p;
    }
    assert id[n + |p|] == part[|p|];
    assert id[n..n + |p|] == part[..|p|] == p;
  }

  /** No id names two revisions. */
  lemma IdNamesOneRevision(taskId: Text, a: nat, b: nat, id: Text)
    requires Prefix(taskId, a) <= id && Prefix(taskId, b) <= id
    ensures a == b
  {
    var p, q, n := Decimal(a), Decimal(b), |taskId| + 2;
    DecimalIsDigits(a);
    DecimalIsDigits(b);
    assert Prefix(taskId, a)[n..] == p + [UNDERSCORE] && Prefix(taskId, b)[n..] == q + [UNDERSCORE];
    DigitsInside(id, n, p);
    DigitsInside(id, n, q);
    assert !IsDigit(id[n + |p|]) && !IsDigit(id[n + |q|]);
    assert p == q;
    DecimalIsInjective(a, b);
  }

  predicate Names(taskId: Text, revision: nat, id: Text) {
    Prefix(taskId, revision) <= id
  }

  /** Two Tasks' revisions share an id exactly when one prefix starts with the
      other. Task ids of one length, such as the generated ones, never do. */
  lemma TasksShareIdIff(a: Text, r: nat, b: Text, q: nat)
    ensures (exists id :: Names(a, r, id) && Names(b, q, id))
            <==> Prefix(a, r) <= Prefix(b, q) || Prefix(b, q) <= Prefix(a, r)
    ensures |a| == |b| && a != b ==> !(Prefix(a, r) <= Prefix(b, q)) && !(Prefix(b, q) <= Prefix(a, r))
  {
    var p, o := Prefix(a, r), Prefix(b, q);
    if id :| Names(a, r, id) && Names(b, q, id) {
      assert id[..|p|] == p && id[..|o|] == o;
      if |p| <= |o| {
        assert o[..|p|] == id[..|p|];
      } else {
        assert p[..|o|] == id[..|o|];
      }
    } else {
      assert !(Names(a, r, p) && Names(b, q, p)) && !(Names(a, r, o) && Names(b, q, o));
    }
    assert p[..|a|] == a && o[..|b|] == b;
  }

  function Suffixed(base: Text, index: nat): Text {
    base + [UNDERSCORE] + Decimal(index)
  }

  lemma SuffixesDiffer(base: Text, a: nat, b: nat)
    requires a != b
    ensures Suffixed(base, a) != Suffixed(base, b)
  {
    if Suffixed(base, a) == Suffixed(base, b) {
      assert Decimal(a) == Suffixed(base, a)[|base| + 1..] == Decimal(b);
      DecimalIsInjective(a, b);
    }
  }

  /** The suffixes already tried are all used, and as many as tried. */
  ghost predicate AllUsed(base: Text, used: set<Text>, index: nat) {
    forall k: nat :: 2 <= k < index ==> Suffixed(base, k) in used
  }

  ghost function Tried(base: Text, index: nat): set<Text> {
    set k: nat | 2 <= k < index :: Suffixed(base, k)
  }

  lemma {:induction false} TriedSize(base: Text, index: nat)
    requires index >= 2
    ensures |Tried(base, index)| == index - 2
    decreases index
  {
    if index == 2 {
      assert Tried(base, index) == {};
    } else {
      TriedSize(base, index - 1);
      forall k: nat | 2 <= k < index - 1
        ensures Suffixed(base, k) != Suffixed(base, index - 1)
      {
        SuffixesDiffer(base, k, index - 1);
      }
      assert Tried(base, index) == Tried(base, index - 1) + {Suffixed(base, index - 1)};
      assert Suffixed(base, index - 1) !in Tried(base, index - 1);
    }
  }

  lemma TriedIsBounded(base: Text, used: set<Text>, index: nat)
    requires index >= 2 && AllUsed(base, used, index)
    ensures index - 2 <= |used|
  {
    TriedSize(base, index);
    assert Tried(base, index) <= used;
    assert used == Tried(base, index) + (used - Tried(base, index));
  }

  /** An unused id: the base, or the base with the least unused suffix. The
      search ends because only finitely many ids are used. */
  method StableSubtaskId(taskId: Text, revision: nat, id: Text, used: set<Text>)
    returns (chosen: Text, usedNow: set<Text>)
    ensures chosen !in used && usedNow == used + {chosen}
    ensures Prefix(taskId, revision) <= chosen
    ensures var base := NormalizeSubtaskId(taskId, revision, id);
            if base !in used then chosen == base
            else exists index: nat :: index >= 2 && chosen == Suffixed(base, index) && AllUsed(base, used, index)
  {
    var base := NormalizeSubtaskId(taskId, revision, id);
    NormalizedNamesRevision(taskId, revision, id);
    if base !in used {
      return base, used + {base};
    }
    var index := 2;
    while true
      invariant index >= 2 && AllUsed(base, used, index)
      decreases |used| + 3 - index
    {
      var candidate := Suffixed(base, index);
      if candidate !in used {
        assert Prefix(taskId, revision) <= base <= candidate;
        return candidate, used + {candidate};
      }
      TriedIsBounded(base, used, index + 1);
      index := index + 1;
    }
  }

  // ------------------------------------------------------------- id map

  function Ids(proposals: seq<Proposal>): set<Text> {
    set i | 0 <= i < |proposals| :: proposals[i].id
  }

  predicate DistinctIds(proposals: seq<Proposal>) {
    forall i, j :: 0 <= i < j < |proposals| ==> proposals[i].id != proposals[j].id
  }

  /** Every dependency names a proposal of the same graph. */
  predicate Closed(proposals: seq<Proposal>) {
    forall i, k :: 0 <= i < |proposals| && 0 <= k < |proposals[i].dependencies| ==>
      proposals[i].dependencies[k].from in Ids(proposals)
  }

  predicate Injective(idMap: map<Text, Text>) {
    forall a, b :: a in idMap && b in idMap && a != b ==> idMap[a] != idMap[b]
  }

  /** Distinct proposal ids get distinct subtask ids of the revision. */
  method BuildSubtaskIdMap(taskId: Text, revision: nat, proposals: seq<Proposal>)
    returns (idMap: map<Text, Text>)
    ensures idMap.Keys == Ids(proposals) && Injective(idMap)
    ensures forall id :: id in idMap ==> Prefix(taskId, revision) <= idMap[id]
  {
    var used: set<Text> := {};
    idMap := map[];
    var i := 0;
    while i < |proposals|
      invariant 0 <= i <= |proposals|
      invariant idMap.Keys == Ids(proposals[..i]) && Injective(idMap)
      invariant forall id :: id in idMap ==> idMap[id] in used && Prefix(taskId, revision) <= idMap[id]
    {
      var chosen, usedNow := StableSubtaskId(taskId, revision, proposals[i].id, used);
      IdsGrow(proposals, i);
      idMap := idMap[proposals[i].id := chosen];
      used := usedNow;
      i := i + 1;
    }
    assert proposals[..i] == proposals;
  }

  lemma IdsGrow(proposals: seq<Proposal>, i: nat)
    requires i < |proposals|
    ensures Ids(proposals[..i + 1]) == Ids(proposals[..i]) + {proposals[i].id}
  {
    forall id | id in Ids(proposals[..i]) + {proposals[i].id}
      ensures id in Ids(proposals[..i + 1])
    {
      if id == proposals[i].id {
        assert proposals[..i + 1][i].id == id;
      } else {
        var k :| 0 <= k < i && proposals[..i][k].id == id;
        assert proposals[..i + 1][k].id == id;
      }
    }
    forall id | id in Ids(proposals[..i + 1])
      ensures id in Ids(proposals[..i]) + {proposals[i].id}
    {
      var k :| 0 <= k < i + 1 && proposals[..i + 1][k].id == id;
      if k < i {
        assert proposals[..i][k].id == id;
      }
    }
  }

  // ----------------------------------------------------------- subtasks

  datatype SubtaskStatus =
    Ready | Running | AwaitingIntegration | AwaitingDecision | Blocked | Done | Cancelled

  datatype Subtask = Subtask(
    revision: nat, generation: Id, status: SubtaskStatus, body: Body, dependencies: seq<Dependency>)

  /** A subtask as it is written, with its id. */
  datatype Planned = Planned(id: Text, row: Subtask)

  function MapDependencies(taskId: Text, revision: nat, idMap: map<Text, Text>, dependencies: seq<Dependency>)
    : (mapped: seq<Dependency>)
    ensures |mapped| == |dependencies|
    ensures forall k :: 0 <= k < |dependencies| ==>
              mapped[k] == dependencies[k].(from :=
                if dependencies[k].from in idMap then idMap[dependencies[k].from]
                else NormalizeSubtaskId(taskId, revision, dependencies[k].from))
  {
    if |dependencies| == 0 then dependencies
    else
      var d := dependencies[0];
      [d.(from := if d.from in idMap then idMap[d.from] else NormalizeSubtaskId(taskId, revision, d.from))]
      + MapDependencies(taskId, revision, idMap, dependencies[1..])
  }

  /** The planned subtasks are the proposals, renamed. */
  ghost predicate IsRenaming(proposals: seq<Proposal>, planned: seq<Planned>) {
    && |planned| == |proposals|
    && (forall i :: 0 <= i < |proposals| ==>
          && planned[i].row.body == proposals[i].body
          && |planned[i].row.dependencies| == |proposals[i].dependencies|
          && forall k :: 0 <= k < |proposals[i].dependencies| ==>
               planned[i].row.dependencies[k].detail == proposals[i].dependencies[k].detail)
    && (forall i, j :: 0 <= i < |proposals| && 0 <= j < |proposals| ==>
          (planned[i].id == planned[j].id <==> proposals[i].id == proposals[j].id))
    && (forall i, j, k :: 0 <= i < |proposals| && 0 <= j < |proposals| && 0 <= k < |proposals[i].dependencies| ==>
            (planned[i].row.dependencies[k].from == planned[j].id
             <==> proposals[i].dependencies[k].from == proposals[j].id))
  }

  /** The subtasks of a closed proposal form the same graph, under new ids. */
  method PlanSubtasks(taskId: Text, revision: nat, generation: Id, proposals: seq<Proposal>)
    returns (planned: seq<Planned>)
    ensures |planned| == |proposals|
    ensures forall i :: 0 <= i < |planned| ==>
              && Prefix(taskId, revision) <= planned[i].id
              && planned[i].row.revision == revision && planned[i].row.generation == generation
              && planned[i].row.status == Ready
    ensures forall i, j :: 0 <= i < |planned| && 0 <= j < |planned| ==>
              (planned[i].id == planned[j].id <==> proposals[i].id == proposals[j].id)
    ensures Closed(proposals) ==> IsRenaming(proposals, planned)
  {
    var idMap := BuildSubtaskIdMap(taskId, revision, proposals);
    planned := [];
    var i := 0;
    while i < |proposals|
      invariant 0 <= i == |planned| <= |proposals|
      invariant forall k :: 0 <= k < i ==>
        planned[k] == Planned(idMap[proposals[k].id],
                              Subtask(revision, generation, Ready, proposals[k].body,
                                      MapDependencies(taskId, revision, idMap, proposals[k].dependencies)))
    {
      planned := planned + [Planned(idMap[proposals[i].id],
                                    Subtask(revision, generation, Ready, proposals[i].body,
                                            MapDependencies(taskId, revision, idMap, proposals[i].dependencies)))];
      i := i + 1;
    }
    if Closed(proposals) {
      forall i, j, k | 0 <= i < |proposals| && 0 <= j < |proposals| && 0 <= k < |proposals[i].dependencies|
        ensures planned[i].row.dependencies[k].from == planned[j].id
           <==> proposals[i].dependencies[k].from == proposals[j].id
      {
        assert proposals[i].dependencies[k].from in idMap && proposals[j].id in idMap;
      }
    }
  }

  // ------------------------------------------------------------ revisions

  datatype RevisionStatus = Active | Superseded | Completed
  datatype Source = Initial | Replan | ConflictReplan
  datatype Revision = Revision(generation: Id, decision: Id, source: Source, status: RevisionStatus)
  datatype Authorization = Authorization(decision: Id, generation: Id, revision: nat, source: Source)

  /** The rows of one Task. */
  datatype Rows = Rows(revisions: map<nat, Revision>, subtasks: map<Text, Subtask>)

  predicate IsActive(rows: Rows, revision: nat) {
    revision in rows.revisions && rows.revisions[revision].status == Active
  }

  datatype Refusal = MissingGraph | MissingAuthorization | RevisionConflict | GenerationConflict
  datatype Outcome = AppliedNow | Recovered | NotExecutable(reason: Refusal)

  /** `findActive`; a database with two active revisions answers either. */
  ghost predicate AnswersActive(rows: Rows, answer: Option<nat>) {
    match answer
    case Some(revision) => IsActive(rows, revision)
    case None => forall revision :: !IsActive(rows, revision)
  }

  /** What `apply` decides before it writes. */
  function Decision(rows: Rows, active: Option<nat>, existing: bool,
                    proposed: bool, authorization: Option<Authorization>): Outcome
    requires active.Some? ==> active.value in rows.revisions
  {
    if !proposed then if existing then Recovered else NotExecutable(MissingGraph)
    else if authorization.None? then NotExecutable(MissingAuthorization)
    else
      var a := authorization.value;
      if active.Some? then
        if a.generation != rows.revisions[active.value].generation then NotExecutable(GenerationConflict)
        else if a.revision == active.value then Recovered
        else if a.source == Initial || a.revision != active.value + 1 then NotExecutable(RevisionConflict)
        else AppliedNow
      else if a.revision != 1 || a.source != Initial then NotExecutable(RevisionConflict)
      else AppliedNow
  }

  /** `supersedeActiveRevision`. */
  function CancelUnfinished(subtasks: map<Text, Subtask>, revision: nat): map<Text, Subtask> {
    map id | id in subtasks ::
      if subtasks[id].revision == revision && subtasks[id].status != Done
      then subtasks[id].(status := Cancelled) else subtasks[id]
  }

  /** `activate`. */
  function Activated(revisions: map<nat, Revision>, a: Authorization): map<nat, Revision> {
    (map r | r in revisions ::
       if revisions[r].status == Active && r != a.revision
       then revisions[r].(status := Superseded) else revisions[r])
    [a.revision := Revision(a.generation, a.decision, a.source, Active)]
  }

  /** `upsert`: an existing row keeps its revision and its generation. */
  function Upserted(subtasks: map<Text, Subtask>, p: Planned): map<Text, Subtask> {
    subtasks[p.id :=
      if p.id in subtasks
      then p.row.(revision := subtasks[p.id].revision, generation := subtasks[p.id].generation)
      else p.row]
  }

  function UpsertedAll(subtasks: map<Text, Subtask>, planned: seq<Planned>): map<Text, Subtask>
    decreases |planned|
  {
    if |planned| == 0 then subtasks
    else Upserted(UpsertedAll(subtasks, planned[..|planned| - 1]), planned[|planned| - 1])
  }

  /** What the transaction of `apply` writes. */
  function AfterApply(rows: Rows, active: Option<nat>, a: Authorization, planned: seq<Planned>): Rows {
    var kept := if active.Some? then CancelUnfinished(rows.subtasks, active.value) else rows.subtasks;
    Rows(Activated(rows.revisions, a), UpsertedAll(kept, planned))
  }

  /** When `apply` ends in which way. With an active revision the next one of its
      generation is accepted, and without one an initial first one. */
  ghost predicate Decided(rows: Rows, active: Option<nat>, proposed: bool, authorization: Option<Authorization>,
                          outcome: Outcome)
    requires active.Some? ==> active.value in rows.revisions
  {
    && (outcome == AppliedNow <==>
          && proposed && authorization.Some?
          && match active
             case Some(revision) =>
               && authorization.value.generation == rows.revisions[revision].generation
               && authorization.value.revision == revision + 1 && authorization.value.source != Initial
             case None => authorization.value.revision == 1 && authorization.value.source == Initial)
    && (outcome == Recovered <==>
          if proposed
          then authorization.Some? && active.Some? && authorization.value.revision == active.value
               && authorization.value.generation == rows.revisions[active.value].generation
          else exists id :: id in rows.subtasks && (active.Some? ==> rows.subtasks[id].revision == active.value))
    && (outcome == NotExecutable(MissingGraph) <==>
          !proposed && forall id :: id in rows.subtasks ==> active.Some? && rows.subtasks[id].revision != active.value)
    && (outcome == NotExecutable(MissingAuthorization) <==> proposed && authorization.None?)
    && (outcome == NotExecutable(GenerationConflict) <==>
          && proposed && authorization.Some? && active.Some?
          && authorization.value.generation != rows.revisions[active.value].generation)
  }

  lemma DecisionIsDecided(rows: Rows, active: Option<nat>, proposed: bool, authorization: Option<Authorization>)
    requires active.Some? ==> active.value in rows.revisions
    ensures Decided(rows, active, proposed, authorization,
                    Decision(rows, active, HasSubtasks(rows, active), proposed, authorization))
  {
  }

  /** The last planned subtask of an id. */
  predicate IsLastOf(planned: seq<Planned>, id: Text, k: nat) {
    k < |planned| && planned[k].id == id && forall j :: k < j < |planned| ==> planned[j].id != id
  }

  /** The rows after a revision is applied: it is active and no other is, the
      unfinished subtasks of the one before are cancelled, and each planned
      subtask is stored, in the revision and generation of a row that had its id
      before. */
  ghost predicate Written(rows: Rows, active: Option<nat>, a: Authorization, planned: seq<Planned>, after: Rows) {
    && after.revisions.Keys == rows.revisions.Keys + {a.revision}
    && after.revisions[a.revision] == Revision(a.generation, a.decision, a.source, Active)
    && (forall r :: r in rows.revisions && r != a.revision ==>
          after.revisions[r] ==
            if rows.revisions[r].status == Active then rows.revisions[r].(status := Superseded) else rows.revisions[r])
    && (forall id :: id in after.subtasks <==> id in rows.subtasks || exists k: nat :: IsLastOf(planned, id, k))
    && (forall id, k: nat :: IsLastOf(planned, id, k) && id in after.subtasks ==>
          after.subtasks[id] ==
            if id in rows.subtasks
            then planned[k].row.(revision := rows.subtasks[id].revision, generation := rows.subtasks[id].generation)
            else planned[k].row)
    && (forall id :: id in rows.subtasks && id in after.subtasks && (forall k: nat :: !IsLastOf(planned, id, k)) ==>
          after.subtasks[id] ==
            if active == Some(rows.subtasks[id].revision) && rows.subtasks[id].status != Done
            then rows.subtasks[id].(status := Cancelled) else rows.subtasks[id])
  }

  /** Where an id stands last. */
  lemma {:induction false} LastOf(planned: seq<Planned>, id: Text) returns (k: Option<nat>)
    ensures match k
            case Some(last) => IsLastOf(planned, id, last)
            case None => forall i :: 0 <= i < |planned| ==> planned[i].id != id
    decreases |planned|
  {
    if |planned| == 0 {
      k := None;
    } else if planned[|planned| - 1].id == id {
      k := Some(|planned| - 1);
    } else {
      k := LastOf(planned[..|planned| - 1], id);
    }
  }

  /** All of one revision and one generation. */
  predicate OfRevision(planned: seq<Planned>, revision: nat, generation: Id) {
    forall i :: 0 <= i < |planned| ==> planned[i].row.revision == revision && planned[i].row.generation == generation
  }

  /** However often it is planned, a subtask keeps its place. */
  lemma {:induction false} UpsertsKeepPlace(
    subtasks: map<Text, Subtask>, planned: seq<Planned>, revision: nat, generation: Id, id: Text)
    requires OfRevision(planned, revision, generation)
    ensures id in subtasks ==> id in UpsertedAll(subtasks, planned)
    ensures id in UpsertedAll(subtasks, planned) ==>
              && UpsertedAll(subtasks, planned)[id].revision
                 == (if id in subtasks then subtasks[id].revision else revision)
              && UpsertedAll(subtasks, planned)[id].generation
                 == (if id in subtasks then subtasks[id].generation else generation)
    decreases |planned|
  {
    if |planned| > 0 {
      UpsertsKeepPlace(subtasks, planned[..|planned| - 1], revision, generation, id);
    }
  }

  lemma {:induction false} UpsertsStoreLast(
    subtasks: map<Text, Subtask>, planned: seq<Planned>, revision: nat, generation: Id, id: Text, k: nat)
    requires OfRevision(planned, revision, generation) && IsLastOf(planned, id, k)
    ensures Lookup(UpsertedAll(subtasks, planned), id)
            == Some(if id in subtasks
                    then planned[k].row.(revision := subtasks[id].revision, generation := subtasks[id].generation)
                    else planned[k].row)
    decreases |planned|
  {
    var init := planned[..|planned| - 1];
    if k < |init| {
      UpsertsStoreLast(subtasks, init, revision, generation, id, k);
    } else {
      UpsertsKeepPlace(subtasks, init, revision, generation, id);
    }
  }

  /** What storing a plan makes of one id. */
  lemma UpsertsWrite(kept: map<Text, Subtask>, planned: seq<Planned>, revision: nat, generation: Id, id: Text)
    requires OfRevision(planned, revision, generation)
    ensures var after := UpsertedAll(kept, planned);
            && (id in after <==> id in kept || exists k: nat :: IsLastOf(planned, id, k))
            && (forall k: nat :: IsLastOf(planned, id, k) && id in after ==>
                  after[id] == if id in kept
                               then planned[k].row.(revision := kept[id].revision, generation := kept[id].generation)
                               else planned[k].row)
            && ((forall k: nat :: !IsLastOf(planned, id, k)) ==> Lookup(after, id) == Lookup(kept, id))
  {
    var last := LastOf(planned, id);
    if last.Some? {
      UpsertsStoreLast(kept, planned, revision, generation, id, last.value);
      assert forall k: nat :: IsLastOf(planned, id, k) ==> k == last.value;
    } else {
      UpsertsAreFrame(kept, planned, id);
    }
  }

  lemma ApplyWrites(rows: Rows, active: Option<nat>, a: Authorization, planned: seq<Planned>)
    requires OfRevision(planned, a.revision, a.generation)
    ensures Written(rows, active, a, planned, AfterApply(rows, active, a, planned))
  {
    var kept := if active.Some? then CancelUnfinished(rows.subtasks, active.value) else rows.subtasks;
    forall id | true {
      UpsertsWrite(kept, planned, a.revision, a.generation, id);
    }
  }

  class WorkGraphRuntimeService {
    const taskId: Text
    var rows: Rows

    constructor (taskId: Text, rows: Rows)
      ensures this.taskId == taskId && this.rows == rows
    {
      this.taskId := taskId;
      this.rows := rows;
    }

    method FindActive() returns (active: Option<nat>)
      ensures AnswersActive(rows, active)
    {
      var rest := rows.revisions.Keys;
      while rest != {}
        invariant rest <= rows.revisions.Keys
        invariant forall r :: IsActive(rows, r) ==> r in rest
        decreases |rest|
      {
        if forall r: nat :: r !in rest {
          EmptyWithoutMembers(rest);
        }
        var revision: nat :| revision in rest;
        if rows.revisions[revision].status == Active { return Some(revision); }
        rest := rest - {revision};
      }
      return None;
    }

    /** Applies an approved graph in one transaction, or recovers. */
    method Apply(proposed: Option<seq<Proposal>>, authorization: Option<Authorization>)
      returns (outcome: Outcome, active: Option<nat>, planned: seq<Planned>)
      modifies this
      ensures AnswersActive(old(rows), active)
      ensures Decided(old(rows), active, proposed.Some?, authorization, outcome)
      ensures outcome == Decision(old(rows), active, HasSubtasks(old(rows), active), proposed.Some?, authorization)
      ensures outcome != AppliedNow ==> rows == old(rows)
      ensures outcome == AppliedNow ==>
                && rows == AfterApply(old(rows), active, authorization.value, planned)
                && IsPlan(taskId, authorization.value, proposed.value, planned)
                && Written(old(rows), active, authorization.value, planned, rows)
    {
      ghost var before := rows;
      active := FindActive();
      planned := [];
      var existing := HasSubtasks(rows, active);
      if proposed.None? {
        return if existing then Recovered else NotExecutable(MissingGraph), active, planned;
      }
      if authorization.None? { return NotExecutable(MissingAuthorization), active, planned; }
      var a := authorization.value;
      if active.Some? {
        var current := rows.revisions[active.value];
        if a.generation != current.generation { return NotExecutable(GenerationConflict), active, planned; }
        if a.revision == active.value { return Recovered, active, planned; }
        if a.source == Initial || a.revision != active.value + 1 {
          return NotExecutable(RevisionConflict), active, planned;
        }
      } else if a.revision != 1 || a.source != Initial {
        return NotExecutable(RevisionConflict), active, planned;
      }
      var subtasks := rows.subtasks;
      if active.Some? { subtasks := CancelUnfinished(subtasks, active.value); }
      var revisions := Activated(rows.revisions, a);
      planned := PlanSubtasks(taskId, a.revision, a.generation, proposed.value);
      ghost var kept := subtasks;
      var i := 0;
      while i < |planned|
        invariant 0 <= i <= |planned|
        invariant subtasks == UpsertedAll(kept, planned[..i])
      {
        assert planned[..i + 1][..i] == planned[..i];
        subtasks := Upserted(subtasks, planned[i]);
        i := i + 1;
      }
      assert planned[..i] == planned;
      rows := Rows(revisions, subtasks);
      ApplyWrites(before, active, a, planned);
      return AppliedNow, active, planned;
    }
  }

  /** Whether `apply` finds subtasks to recover. */
  predicate HasSubtasks(rows: Rows, active: Option<nat>) {
    exists id :: id in rows.subtasks && (active.None? || rows.subtasks[id].revision == active.value)
  }

  ghost predicate IsPlan(taskId: Text, a: Authorization, proposals: seq<Proposal>, planned: seq<Planned>) {
    && |planned| == |proposals|
    && (forall i :: 0 <= i < |planned| ==>
          && Prefix(taskId, a.revision) <= planned[i].id
          && planned[i].row.revision == a.revision && planned[i].row.generation == a.generation
          && planned[i].row.status == Ready)
    && (forall i, j :: 0 <= i < |planned| && 0 <= j < |planned| ==>
          (planned[i].id == planned[j].id <==> proposals[i].id == proposals[j].id))
    && (Closed(proposals) ==> IsRenaming(proposals, planned))
  }

  // --------------------------------------------------------- what is kept

  /** The revisions are 1, ..., last, of one generation, and only the last is
      active; every subtask's id names its revision, which is one of these. */
  ghost predicate Chain(taskId: Text, rows: Rows, last: nat, generation: Id) {
    && (forall r :: r in rows.revisions <==> 1 <= r <= last)
    && (forall r :: r in rows.revisions ==>
          && rows.revisions[r].generation == generation
          && rows.revisions[r].status == if r == last then Active else Superseded)
    && (forall id :: id in rows.subtasks ==>
          Prefix(taskId, rows.subtasks[id].revision) <= id && 1 <= rows.subtasks[id].revision <= last)
  }

  lemma {:induction false} UpsertsAreFrame(subtasks: map<Text, Subtask>, planned: seq<Planned>, id: Text)
    requires forall i :: 0 <= i < |planned| ==> planned[i].id != id
    ensures id in UpsertedAll(subtasks, planned) <==> id in subtasks
    ensures id in subtasks ==> UpsertedAll(subtasks, planned)[id] == subtasks[id]
    decreases |planned|
  {
    if |planned| > 0 {
      UpsertsAreFrame(subtasks, planned[..|planned| - 1], id);
    }
  }

  /** Planned subtasks whose ids are new and distinct are stored as planned. */
  lemma {:induction false} UpsertsStore(subtasks: map<Text, Subtask>, planned: seq<Planned>, k: nat)
    requires k < |planned| && planned[k].id !in subtasks
    requires forall i, j :: 0 <= i < j < |planned| ==> planned[i].id != planned[j].id
    ensures planned[k].id in UpsertedAll(subtasks, planned)
    ensures UpsertedAll(subtasks, planned)[planned[k].id] == planned[k].row
    decreases |planned|
  {
    var init := planned[..|planned| - 1];
    if k == |planned| - 1 {
      UpsertsAreFrame(subtasks, init, planned[k].id);
    } else {
      UpsertsStore(subtasks, init, k);
    }
  }

  lemma {:induction false} UpsertedIds(subtasks: map<Text, Subtask>, planned: seq<Planned>, id: Text)
    requires id in UpsertedAll(subtasks, planned)
    ensures id in subtasks || exists i :: 0 <= i < |planned| && planned[i].id == id
    decreases |planned|
  {
    if |planned| > 0 && id != planned[|planned| - 1].id {
      UpsertedIds(subtasks, planned[..|planned| - 1], id);
      if id !in subtasks {
        var i :| 0 <= i < |planned| - 1 && planned[..|planned| - 1][i].id == id;
        assert planned[i].id == id;
      }
    } else if |planned| > 0 {
      assert planned[|planned| - 1].id == id;
    }
  }

  /** New subtasks share no id with subtasks of other revisions. */
  lemma NewIdsAreNew(taskId: Text, rows: Rows, last: nat, generation: Id, a: Authorization,
                     proposals: seq<Proposal>, planned: seq<Planned>, i: nat)
    requires Chain(taskId, rows, last, generation) && a.revision == last + 1
    requires IsPlan(taskId, a, proposals, planned) && i < |planned|
    ensures planned[i].id !in rows.subtasks
  {
    if planned[i].id in rows.subtasks {
      IdNamesOneRevision(taskId, rows.subtasks[planned[i].id].revision, a.revision, planned[i].id);
      assert false;
    }
  }

  /** While no revision is completed, an accepted revision is the next one,
      and it stays in the generation. */
  lemma AcceptedIsNext(taskId: Text, rows: Rows, last: nat, generation: Id, active: Option<nat>, a: Authorization)
    requires Chain(taskId, rows, last, generation) && AnswersActive(rows, active)
    requires Decision(rows, active, HasSubtasks(rows, active), true, Some(a)) == AppliedNow
    ensures a.revision == last + 1
    ensures if last > 0 then active == Some(last) && a.generation == generation else active == None
  {
    assert last > 0 ==> IsActive(rows, last);
  }

  /** The subtasks after an accepted revision: done ones stay as they are,
      unfinished ones of the old revision are cancelled, and the new graph is
      stored under ids that no subtask had. */
  lemma SubtasksAfterApply(taskId: Text, rows: Rows, last: nat, generation: Id, active: Option<nat>,
                           a: Authorization, proposals: seq<Proposal>, planned: seq<Planned>)
    requires Chain(taskId, rows, last, generation) && AnswersActive(rows, active)
    requires Decision(rows, active, HasSubtasks(rows, active), true, Some(a)) == AppliedNow
    requires IsPlan(taskId, a, proposals, planned) && DistinctIds(proposals)
    ensures var subtasks := AfterApply(rows, active, a, planned).subtasks;
            && (forall i :: 0 <= i < |planned| ==>
                  planned[i].id in subtasks && subtasks[planned[i].id] == planned[i].row
                  && planned[i].id !in rows.subtasks)
            && (forall id :: id in rows.subtasks ==>
                  && id in subtasks
                  && subtasks[id] == if rows.subtasks[id].revision == last && rows.subtasks[id].status != Done
                                     then rows.subtasks[id].(status := Cancelled) else rows.subtasks[id])
            && (forall id :: id in subtasks && id !in rows.subtasks ==>
                  exists i :: 0 <= i < |planned| && planned[i].id == id)
  {
    AcceptedIsNext(taskId, rows, last, generation, active, a);
    var kept := if active.Some? then CancelUnfinished(rows.subtasks, active.value) else rows.subtasks;
    var subtasks := UpsertedAll(kept, planned);
    assert kept.Keys == rows.subtasks.Keys;
    forall i | 0 <= i < |planned|
      ensures planned[i].id !in rows.subtasks
      ensures planned[i].id in subtasks && subtasks[planned[i].id] == planned[i].row
    {
      NewIdsAreNew(taskId, rows, last, generation, a, proposals, planned, i);
      UpsertsStore(kept, planned, i);
    }
    forall id | id in rows.subtasks
      ensures id in subtasks && subtasks[id] == kept[id]
    {
      UpsertsAreFrame(kept, planned, id);
    }
    forall id | id in subtasks && id !in rows.subtasks
      ensures exists i :: 0 <= i < |planned| && planned[i].id == id
    {
      UpsertedIds(kept, planned, id);
    }
  }

  lemma ApplyExtendsChain(taskId: Text, rows: Rows, last: nat, generation: Id, active: Option<nat>,
                          a: Authorization, proposals: seq<Proposal>, planned: seq<Planned>)
    requires Chain(taskId, rows, last, generation) && AnswersActive(rows, active)
    requires Decision(rows, active, HasSubtasks(rows, active), true, Some(a)) == AppliedNow
    requires IsPlan(taskId, a, proposals, planned) && DistinctIds(proposals)
    ensures Chain(taskId, AfterApply(rows, active, a, planned), last + 1, a.generation)
  {
    AcceptedIsNext(taskId, rows, last, generation, active, a);
    SubtasksAfterApply(taskId, rows, last, generation, active, a, proposals, planned);
    var rows' := AfterApply(rows, active, a, planned);
    forall id | id in rows'.subtasks
      ensures Prefix(taskId, rows'.subtasks[id].revision) <= id && 1 <= rows'.subtasks[id].revision <= last + 1
    {
      if id !in rows.subtasks {
        var i :| 0 <= i < |planned| && planned[i].id == id;
      }
    }
  }

  // ----------------------------------------------------------------- runs

  datatype Request =
    | Propose(authorization: Authorization, proposals: seq<Proposal>)
    | ChangeStatus(id: Text, status: SubtaskStatus)

  ghost predicate Accepts(taskId: Text, before: Rows, request: Request, after: Rows) {
    request.Propose? && exists active, planned ::
      && AnswersActive(before, active)
      && Decision(before, active, HasSubtasks(before, active), true, Some(request.authorization)) == AppliedNow
      && IsPlan(taskId, request.authorization, request.proposals, planned)
      && after == AfterApply(before, active, request.authorization, planned)
  }

  /** A proposal that is accepted, or writes nothing, or a status change of
      one subtask by other code. */
  ghost predicate Answers(taskId: Text, before: Rows, request: Request, after: Rows) {
    match request
    case Propose(_, _) => Accepts(taskId, before, request, after) || after == before
    case ChangeStatus(id, status) =>
      after == if id in before.subtasks
               then before.(subtasks := before.subtasks[id := before.subtasks[id].(status := status)])
               else before
  }

  /** How many proposals of a run were accepted. */
  ghost function Accepted(taskId: Text, states: seq<Rows>, requests: seq<Request>): nat
    requires |states| == |requests| + 1
    decreases |requests|
  {
    if |requests| == 0 then 0
    else
      var n := |requests| - 1;
      Accepted(taskId, states[..n + 1], requests[..n])
      + if Accepts(taskId, states[n], requests[n], states[n + 1]) then 1 else 0
  }

  lemma OneAnswer(taskId: Text, before: Rows, request: Request, after: Rows, last: nat, generation: Id)
    returns (last': nat, generation': Id)
    requires Chain(taskId, before, last, generation) && Answers(taskId, before, request, after)
    requires request.Propose? ==> DistinctIds(request.proposals)
    ensures Chain(taskId, after, last', generation') && (last > 0 ==> generation' == generation)
    ensures last' == last + if Accepts(taskId, before, request, after) then 1 else 0
  {
    if Accepts(taskId, before, request, after) {
      var active, planned :|
        && AnswersActive(before, active)
        && Decision(before, active, HasSubtasks(before, active), true, Some(request.authorization)) == AppliedNow
        && IsPlan(taskId, request.authorization, request.proposals, planned)
        && after == AfterApply(before, active, request.authorization, planned);
      AcceptedIsNext(taskId, before, last, generation, active, request.authorization);
      ApplyExtendsChain(taskId, before, last, generation, active, request.authorization,
                        request.proposals, planned);
      return last + 1, request.authorization.generation;
    }
    return last, generation;
  }

  /** A run: each request of it is answered, and its proposals have distinct ids. */
  ghost predicate IsHistory(taskId: Text, states: seq<Rows>, requests: seq<Request>) {
    && |states| == |requests| + 1
    && forall k :: 0 <= k < |requests| ==> AnswersAt(taskId, states, requests, k)
  }

  ghost predicate AnswersAt(taskId: Text, states: seq<Rows>, requests: seq<Request>, k: nat)
    requires k < |requests| && |states| == |requests| + 1
  {
    && Answers(taskId, states[k], requests[k], states[k + 1])
    && (requests[k].Propose? ==> DistinctIds(requests[k].proposals))
  }

  lemma HistoryInit(taskId: Text, states: seq<Rows>, requests: seq<Request>, n: nat)
    requires IsHistory(taskId, states, requests) && n < |requests|
    ensures IsHistory(taskId, states[..n + 1], requests[..n])
  {
    var init, asked := states[..n + 1], requests[..n];
    forall k | 0 <= k < n
      ensures AnswersAt(taskId, init, asked, k)
    {
      assert AnswersAt(taskId, states, requests, k);
    }
  }

  /** Over every run without a completion the revisions are 1, 2, ..., each
      accepted proposal adds exactly one, and the generation never changes. */
  lemma {:induction false} RevisionsRiseByOne(taskId: Text, states: seq<Rows>, requests: seq<Request>,
                                              last: nat, generation: Id)
    returns (last': nat, generation': Id)
    requires IsHistory(taskId, states, requests) && Chain(taskId, states[0], last, generation)
    ensures Chain(taskId, states[|requests|], last', generation')
    ensures last' == last + Accepted(taskId, states, requests)
    ensures last > 0 ==> generation' == generation
    decreases |requests|
  {
    if |requests| == 0 {
      return last, generation;
    }
    var n := |requests| - 1;
    HistoryInit(taskId, states, requests, n);
    var before, beforeGeneration :=
      RevisionsRiseByOne(taskId, states[..n + 1], requests[..n], last, generation);
    assert states[..n + 1][n] == states[n];
    assert AnswersAt(taskId, states, requests, n);
    last', generation' := OneAnswer(taskId, states[n], requests[n], states[n + 1], before, beforeGeneration);
  }

  /** After a completion the next accepted revision is 1 again, in whatever
      generation, and it overwrites the row of the first revision. */
  lemma CompletionRestarts(taskId: Text, rows: Rows, last: nat, generation: Id, a: Authorization)
    requires Chain(taskId, rows, last, generation) && last > 0
    ensures var rows' := rows.(revisions := rows.revisions[last := rows.revisions[last].(status := Completed)]);
            && AnswersActive(rows', None)
            && (Decision(rows', None, HasSubtasks(rows', None), true, Some(a)) == AppliedNow
                <==> a.revision == 1 && a.source == Initial)
            && (a.revision == 1 ==>
                  1 in rows'.revisions && Activated(rows'.revisions, a).Keys == rows'.revisions.Keys)
  {
    var rows' := rows.(revisions := rows.revisions[last := rows.revisions[last].(status := Completed)]);
    assert forall r :: !IsActive(rows', r);
  }

  /** A planned subtask whose id exists already replaces that row, which keeps
      its revision and its generation. */
  lemma {:induction false} UpsertsReplace(subtasks: map<Text, Subtask>, planned: seq<Planned>, k: nat)
    requires k < |planned| && planned[k].id in subtasks
    requires forall i, j :: 0 <= i < j < |planned| ==> planned[i].id != planned[j].id
    ensures planned[k].id in UpsertedAll(subtasks, planned)
    ensures var before := subtasks[planned[k].id];
            UpsertedAll(subtasks, planned)[planned[k].id]
            == planned[k].row.(revision := before.revision, generation := before.generation)
    decreases |planned|
  {
    var init := planned[..|planned| - 1];
    if k == |planned| - 1 {
      UpsertsAreFrame(subtasks, init, planned[k].id);
    } else {
      UpsertsReplace(subtasks, init, k);
    }
  }

  predicate IsPlanned(planned: seq<Planned>, id: Text) {
    exists i :: 0 <= i < |planned| && planned[i].id == id
  }

  /** The restart overwrites exactly the subtasks whose ids are planned again,
      done ones included: they are ready afterwards. All of them belong to the
      first revision. */
  lemma RestartOverwrites(taskId: Text, rows: Rows, last: nat, generation: Id, a: Authorization,
                          proposals: seq<Proposal>, planned: seq<Planned>)
    requires Chain(taskId, rows, last, generation) && a.revision == 1
    requires IsPlan(taskId, a, proposals, planned) && DistinctIds(proposals)
    ensures var subtasks := AfterApply(rows, None, a, planned).subtasks;
            forall id :: id in rows.subtasks ==>
              && id in subtasks
              && (if IsPlanned(planned, id) then rows.subtasks[id].revision == 1 && subtasks[id].status == Ready
                  else subtasks[id] == rows.subtasks[id])
  {
    forall id | id in rows.subtasks
      ensures id in UpsertedAll(rows.subtasks, planned)
      ensures if IsPlanned(planned, id)
              then rows.subtasks[id].revision == 1 && UpsertedAll(rows.subtasks, planned)[id].status == Ready
              else UpsertedAll(rows.subtasks, planned)[id] == rows.subtasks[id]
    {
      if IsPlanned(planned, id) {
        var i :| 0 <= i < |planned| && planned[i].id == id;
        UpsertsReplace(rows.subtasks, planned, i);
        IdNamesOneRevision(taskId, rows.subtasks[id].revision, 1, id);
      } else {
        UpsertsAreFrame(rows.subtasks, planned, id);
      }
    }
  }

  /** `listActiveByTask`: the subtasks whose revision number is active. */
  predicate IsListed(rows: Rows, id: Text) {
    id in rows.subtasks && IsActive(rows, rows.subtasks[id].revision)
  }

  /** After the restart the active graph is the new plan and, beside it, every
      subtask of the first revision that is not planned again, as it was: with
      its status, and in the generation it had. */
  lemma RestartRejoins(taskId: Text, rows: Rows, last: nat, generation: Id, a: Authorization,
                       proposals: seq<Proposal>, planned: seq<Planned>, id: Text)
    requires Chain(taskId, rows, last, generation) && last > 0 && a.revision == 1
    requires IsPlan(taskId, a, proposals, planned) && DistinctIds(proposals)
    ensures var before := rows.(revisions := rows.revisions[last := rows.revisions[last].(status := Completed)]);
            var after := AfterApply(before, None, a, planned);
            && (IsListed(after, id)
                <==> IsPlanned(planned, id) || (id in rows.subtasks && rows.subtasks[id].revision == 1))
            && (id in rows.subtasks && !IsPlanned(planned, id) ==>
                  id in after.subtasks && after.subtasks[id] == rows.subtasks[id])
  {
    var before := rows.(revisions := rows.revisions[last := rows.revisions[last].(status := Completed)]);
    var after := AfterApply(before, None, a, planned);
    assert forall r :: IsActive(after, r) <==> r == 1;
    if id in rows.subtasks {
      RestartOverwrites(taskId, rows, last, generation, a, proposals, planned);
    }
    if IsPlanned(planned, id) {
      var k :| 0 <= k < |planned| && planned[k].id == id;
      PlannedIsFirst(taskId, rows, last, generation, a, planned, k);
    } else if id !in rows.subtasks && id in after.subtasks {
      UpsertedIds(rows.subtasks, planned, id);
    }
  }

  /** A planned subtask stands in the first revision afterwards. */
  lemma PlannedIsFirst(taskId: Text, rows: Rows, last: nat, generation: Id, a: Authorization,
                       planned: seq<Planned>, k: nat)
    requires Chain(taskId, rows, last, generation) && a.revision == 1 && k < |planned|
    requires forall i :: 0 <= i < |planned| ==>
               Prefix(taskId, 1) <= planned[i].id && planned[i].row.revision == 1
    requires forall i, j :: 0 <= i < j < |planned| ==> planned[i].id != planned[j].id
    ensures var subtasks := UpsertedAll(rows.subtasks, planned);
            planned[k].id in subtasks && subtasks[planned[k].id].revision == 1
  {
    if planned[k].id in rows.subtasks {
      UpsertsReplace(rows.subtasks, planned, k);
      IdNamesOneRevision(taskId, rows.subtasks[planned[k].id].revision, 1, planned[k].id);
    } else {
      UpsertsStore(rows.subtasks, planned, k);
    }
  }
}
