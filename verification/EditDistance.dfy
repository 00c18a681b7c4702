/** Edit distance and the nearest command name: src/commands/catalog.ts. */
module EditDistance {
  import opened Prelude

  /** A code unit of a JavaScript string; only equality matters here. */
  type Unit(==, !new)
  type Text = seq<Unit>

  function Smaller(a: nat, b: nat): nat {
    if a <= b then a else b
  }

  function Least(a: nat, b: nat, c: nat): nat {
    Smaller(Smaller(a, b), c)
  }

  /** A cell from the cells above, to the left, and diagonally before it. */
  function Combine(above: nat, before: nat, diagonal: nat, same: bool): nat {
    Least(above + 1, before + 1, diagonal + if same then 0 else 1)
  }

  function Init(t: Text): Text
    requires |t| > 0
  {
    t[..|t| - 1]
  }

  function Last(t: Text): Unit
    requires |t| > 0
  {
    t[|t| - 1]
  }

  /** The least number of edits, by the last units of both texts. */
  function Distance(a: Text, b: Text): nat
    decreases |a| + |b|
  {
    if |a| == 0 then |b|
    else if |b| == 0 then |a|
    else Combine(
      Distance(Init(a), b), Distance(a, Init(b)), Distance(Init(a), Init(b)), Last(a) == Last(b))
  }

  function Cell(left: Text, right: Text, i: nat, j: nat): nat
    requires i <= |left| && j <= |right|
  {
    Distance(left[..i], right[..j])
  }

  lemma CellStep(left: Text, right: Text, i: nat, j: nat)
    requires i <= |left| && j <= |right|
    ensures i == 0 ==> Cell(left, right, i, j) == j
    ensures j == 0 ==> Cell(left, right, i, j) == i
    ensures i > 0 && j > 0 ==>
              Cell(left, right, i, j) == Combine(
                Cell(left, right, i - 1, j), Cell(left, right, i, j - 1), Cell(left, right, i - 1, j - 1),
                left[i - 1] == right[j - 1])
  {
    if i > 0 && j > 0 {
      assert Init(left[..i]) == left[..i - 1] && Init(right[..j]) == right[..j - 1];
    }
  }

  method Levenshtein(left: Text, right: Text) returns (distance: nat)
    ensures distance == Distance(left, right)
  {
    var rows := new nat[|left| + 1, |right| + 1]((i, j) => 0);
    var i := 0;
    while i <= |left|
      invariant 0 <= i <= |left| + 1
      invariant forall k :: 0 <= k < i ==> rows[k, 0] == k
    {
      rows[i, 0] := i;
      i := i + 1;
    }
    var j := 0;
    while j <= |right|
      invariant 0 <= j <= |right| + 1
      invariant forall k :: 0 <= k <= |left| ==> rows[k, 0] == k
      invariant forall k :: 0 <= k < j ==> rows[0, k] == k
    {
      rows[0, j] := j;
      j := j + 1;
    }
    forall c | 0 <= c <= |right|
      ensures rows[0, c] == Cell(left, right, 0, c)
    {
      CellStep(left, right, 0, c);
    }
    i := 1;
    while i <= |left|
      invariant 1 <= i <= |left| + 1
      invariant forall k :: 0 <= k <= |left| ==> rows[k, 0] == k
      invariant forall r, c :: 0 <= r < i && 0 <= c <= |right| ==> rows[r, c] == Cell(left, right, r, c)
    {
      j := 1;
      CellStep(left, right, i, 0);
      while j <= |right|
        invariant 1 <= j <= |right| + 1
        invariant forall k :: 0 <= k <= |left| ==> rows[k, 0] == k
        invariant forall r, c :: 0 <= r < i && 0 <= c <= |right| ==> rows[r, c] == Cell(left, right, r, c)
        invariant forall c :: 0 <= c < j ==> rows[i, c] == Cell(left, right, i, c)
      {
        CellStep(left, right, i, j);
        rows[i, j] := Least(
          rows[i - 1, j] + 1,
          rows[i, j - 1] + 1,
          rows[i - 1, j - 1] + if left[i - 1] == right[j - 1] then 0 else 1);
        j := j + 1;
      }
      i := i + 1;
    }
    assert left[..|left|] == left && right[..|right|] == right;
    return rows[|left|, |right|];
  }

  // --------------------------------------------------------- edit scripts

  /** `b` is `a` with one unit inserted at `i`. */
  predicate Inserts(a: Text, b: Text, i: nat) {
    i <= |a| && |b| == |a| + 1 && b == a[..i] + [b[i]] + a[i..]
  }

  predicate Replaces(a: Text, b: Text, i: nat) {
    i < |a| == |b| && b == a[i := b[i]]
  }

  /** One insertion, deletion or replacement. */
  ghost predicate OneEdit(a: Text, b: Text) {
    exists i: nat :: Inserts(a, b, i) || Inserts(b, a, i) || Replaces(a, b, i)
  }

  /** A sequence of texts from `a` to `b`, one edit apart each. */
  ghost predicate IsScript(path: seq<Text>, a: Text, b: Text) {
    && path != [] && path[0] == a && path[|path| - 1] == b
    && forall k :: 0 <= k < |path| - 1 ==> OneEdit(path[k], path[k + 1])
  }

  lemma ScriptsJoin(first: seq<Text>, second: seq<Text>, a: Text, b: Text, c: Text)
    requires IsScript(first, a, b) && IsScript(second, b, c)
    ensures IsScript(first + second[1..], a, c)
  {
    var path := first + second[1..];
    forall k | 0 <= k < |path| - 1
      ensures OneEdit(path[k], path[k + 1])
    {
      if k >= |first| - 1 {
        assert path[k] == second[k - (|first| - 1)];
        assert path[k + 1] == second[k + 1 - (|first| - 1)];
      }
    }
  }

  lemma InsertBeforeUnit(a: Text, b: Text, u: Unit, i: nat)
    requires Inserts(a, b, i)
    ensures Inserts(a + [u], b + [u], i)
  {
  }

  lemma EditBeforeUnit(a: Text, b: Text, u: Unit)
    requires OneEdit(a, b)
    ensures OneEdit(a + [u], b + [u])
  {
    var i: nat :| Inserts(a, b, i) || Inserts(b, a, i) || Replaces(a, b, i);
    if Inserts(a, b, i) {
      InsertBeforeUnit(a, b, u, i);
    } else if Inserts(b, a, i) {
      InsertBeforeUnit(b, a, u, i);
    } else {
      assert Replaces(a + [u], b + [u], i);
    }
  }

  lemma {:induction false} ScriptBeforeUnit(path: seq<Text>, a: Text, b: Text, u: Unit) returns (more: seq<Text>)
    requires IsScript(path, a, b)
    ensures IsScript(more, a + [u], b + [u]) && |more| == |path|
    decreases |path|
  {
    more := [a + [u]];
    if |path| > 1 {
      var rest := ScriptBeforeUnit(path[1..], path[1], b, u);
      EditBeforeUnit(a, path[1], u);
      more := more + rest;
      assert IsScript(more, a + [u], b + [u]);
    }
  }

  lemma AddsLast(t: Text)
    requires |t| > 0
    ensures OneEdit(Init(t), t) && OneEdit(t, Init(t))
  {
    assert Inserts(Init(t), t, |t| - 1);
  }

  lemma ReplacesLast(t: Text, u: Unit, v: Unit)
    ensures OneEdit(t + [u], t + [v])
  {
    assert Replaces(t + [u], t + [v], |t|);
  }

  lemma EditIsScript(a: Text, b: Text)
    requires OneEdit(a, b)
    ensures IsScript([a, b], a, b)
  {
  }

  lemma AddAtEnd(before: seq<Text>, a: Text, b: Text) returns (path: seq<Text>)
    requires |b| > 0 && IsScript(before, a, Init(b))
    ensures IsScript(path, a, b) && |path| == |before| + 1
  {
    AddsLast(b);
    EditIsScript(Init(b), b);
    ScriptsJoin(before, [Init(b), b], a, Init(b), b);
    path := before + [Init(b), b][1..];
  }

  lemma RemoveAtStart(after: seq<Text>, a: Text, b: Text) returns (path: seq<Text>)
    requires |a| > 0 && IsScript(after, Init(a), b)
    ensures IsScript(path, a, b) && |path| == |after| + 1
  {
    AddsLast(a);
    EditIsScript(a, Init(a));
    ScriptsJoin([a, Init(a)], after, a, Init(a), b);
    path := [a, Init(a)] + after[1..];
  }

  lemma ReplaceAtEnd(inits: seq<Text>, a: Text, b: Text) returns (path: seq<Text>)
    requires |a| > 0 && |b| > 0 && IsScript(inits, Init(a), Init(b))
    ensures IsScript(path, a, b) && |path| == |inits| + if Last(a) == Last(b) then 0 else 1
  {
    path := ScriptBeforeUnit(inits, Init(a), Init(b), Last(a));
    assert Init(a) + [Last(a)] == a && Init(b) + [Last(b)] == b;
    if Last(a) != Last(b) {
      var almost := Init(b) + [Last(a)];
      ReplacesLast(Init(b), Last(a), Last(b));
      EditIsScript(almost, b);
      ScriptsJoin(path, [almost, b], a, almost, b);
      path := path + [almost, b][1..];
    }
  }

  /** There is an edit script as long as the distance says. */
  lemma {:induction false} ScriptOfDistance(a: Text, b: Text) returns (path: seq<Text>)
    ensures IsScript(path, a, b) && |path| == Distance(a, b) + 1
    decreases |a| + |b|
  {
    if |a| == 0 && |b| == 0 {
      path := [a];
    } else if |b| > 0 && (|a| == 0 || Distance(a, b) == Distance(a, Init(b)) + 1) {
      path := ScriptOfDistance(a, Init(b));
      path := AddAtEnd(path, a, b);
    } else if |b| == 0 || Distance(a, b) == Distance(Init(a), b) + 1 {
      path := ScriptOfDistance(Init(a), b);
      path := RemoveAtStart(path, a, b);
    } else {
      path := ScriptOfDistance(Init(a), Init(b));
      path := ReplaceAtEnd(path, a, b);
    }
  }

  // ---------------------------------------------------------- lower bound

  predicate Near(m: nat, n: nat) {
    m <= n + 1 && n <= m + 1
  }

  lemma {:induction false} NearAfterAdding(t: Text, u: Unit, c: Text)
    ensures Near(Distance(t, c), Distance(t + [u], c))
    decreases |c|
  {
    assert Init(t + [u]) == t;
    if |c| > 0 {
      NearAfterAdding(t, u, Init(c));
      StepOnSecond(t, c);
    }
  }

  lemma StepOnSecond(t: Text, c: Text)
    requires |c| > 0
    ensures Distance(t, c) <= Distance(t, Init(c)) + 1
  {
  }

  lemma {:induction false} NearAfterReplacing(t: Text, u: Unit, v: Unit, c: Text)
    ensures Near(Distance(t + [u], c), Distance(t + [v], c))
    decreases |c|
  {
    assert Init(t + [u]) == t && Init(t + [v]) == t;
    if |c| > 0 {
      NearAfterReplacing(t, u, v, Init(c));
    }
  }

  lemma CombineNear(a1: nat, a2: nat, a3: nat, b1: nat, b2: nat, b3: nat, same: bool)
    requires Near(a1, b1) && Near(a2, b2) && Near(a3, b3)
    ensures Near(Combine(a1, a2, a3, same), Combine(b1, b2, b3, same))
  {
  }

  lemma DistanceStep(a: Text, b: Text)
    requires |a| > 0 && |b| > 0
    ensures Distance(a, b) == Combine(
              Distance(Init(a), b), Distance(a, Init(b)), Distance(Init(a), Init(b)), Last(a) == Last(b))
  {
  }

  lemma NearStep(a: Text, b: Text, c: Text)
    requires |a| > 0 && |b| > 0 && |c| > 0 && Last(a) == Last(b)
    requires Near(Distance(Init(a), c), Distance(Init(b), c))
    requires Near(Distance(a, Init(c)), Distance(b, Init(c)))
    requires Near(Distance(Init(a), Init(c)), Distance(Init(b), Init(c)))
    ensures Near(Distance(a, c), Distance(b, c))
  {
    DistanceStep(a, c);
    DistanceStep(b, c);
    CombineNear(Distance(Init(a), c), Distance(a, Init(c)), Distance(Init(a), Init(c)),
                Distance(Init(b), c), Distance(b, Init(c)), Distance(Init(b), Init(c)), Last(a) == Last(c));
  }

  /** An edit at the end. */
  lemma {:induction false} NearAtEnd(a: Text, b: Text, i: nat, c: Text)
    requires || (Inserts(a, b, i) && i == |a|) || (Inserts(b, a, i) && i == |b|)
             || (Replaces(a, b, i) && i == |a| - 1)
    ensures Near(Distance(a, c), Distance(b, c))
  {
    if Inserts(a, b, i) && i == |a| {
      assert b == a + [b[i]];
      NearAfterAdding(a, b[i], c);
    } else if Inserts(b, a, i) && i == |b| {
      assert a == b + [a[i]];
      NearAfterAdding(b, a[i], c);
    } else {
      assert Init(a) + [Last(a)] == a && Init(a) + [Last(b)] == b;
      NearAfterReplacing(Init(a), Last(a), Last(b), c);
    }
  }

  /** An edit anywhere changes the distance to any text by at most one. */
  lemma {:induction false} NearAfterEdit(a: Text, b: Text, c: Text)
    requires OneEdit(a, b)
    ensures Near(Distance(a, c), Distance(b, c))
    decreases |a| + |b| + |c|
  {
    var i: nat :| Inserts(a, b, i) || Inserts(b, a, i) || Replaces(a, b, i);
    if (Inserts(a, b, i) && i == |a|) || (Inserts(b, a, i) && i == |b|) || (Replaces(a, b, i) && i == |a| - 1) {
      NearAtEnd(a, b, i, c);
    } else {
      SameLast(a, b, i);
      if |c| > 0 {
        NearAfterEdit(Init(a), Init(b), c);
        NearAfterEdit(a, b, Init(c));
        NearAfterEdit(Init(a), Init(b), Init(c));
        NearStep(a, b, c);
      }
    }
  }

  lemma SameLast(a: Text, b: Text, i: nat)
    requires (Inserts(a, b, i) && i < |a|) || (Inserts(b, a, i) && i < |b|) || (Replaces(a, b, i) && i < |a| - 1)
    ensures |a| > 0 && |b| > 0 && Last(a) == Last(b) && OneEdit(Init(a), Init(b))
  {
    if Inserts(a, b, i) {
      assert Inserts(Init(a), Init(b), i);
    } else if Inserts(b, a, i) {
      assert Inserts(Init(b), Init(a), i);
    } else {
      assert Replaces(Init(a), Init(b), i);
    }
  }

  lemma {:induction false} DistanceToItself(t: Text)
    ensures Distance(t, t) == 0
    decreases |t|
  {
    if |t| > 0 {
      DistanceToItself(Init(t));
    }
  }

  /** No edit script is shorter than the distance. */
  lemma {:induction false} ScriptsAreNotShorter(path: seq<Text>, a: Text, b: Text)
    requires IsScript(path, a, b)
    ensures Distance(a, b) < |path|
    decreases |path|
  {
    if |path| == 1 {
      DistanceToItself(a);
    } else {
      NearAfterEdit(a, path[1], b);
      ScriptsAreNotShorter(path[1..], path[1], b);
    }
  }

  /** The distance is the length of a shortest edit script. */
  lemma DistanceIsShortestScript(a: Text, b: Text)
    ensures exists path :: IsScript(path, a, b) && |path| == Distance(a, b) + 1
    ensures forall path :: IsScript(path, a, b) ==> Distance(a, b) + 1 <= |path|
  {
    var path := ScriptOfDistance(a, b);
    forall other | IsScript(other, a, b)
      ensures Distance(a, b) + 1 <= |other|
    {
      ScriptsAreNotShorter(other, a, b);
    }
  }

  lemma {:induction false} DistanceIsSymmetric(a: Text, b: Text)
    ensures Distance(a, b) == Distance(b, a)
    decreases |a| + |b|
  {
    if |a| > 0 && |b| > 0 {
      DistanceIsSymmetric(Init(a), b);
      DistanceIsSymmetric(a, Init(b));
      DistanceIsSymmetric(Init(a), Init(b));
    }
  }

  lemma DistanceIsMetric(a: Text, b: Text, c: Text)
    ensures Distance(a, b) == 0 <==> a == b
    ensures Distance(a, b) == Distance(b, a)
    ensures Distance(a, c) <= Distance(a, b) + Distance(b, c)
  {
    DistanceToItself(a);
    DistanceIsSymmetric(a, b);
    var first := ScriptOfDistance(a, b);
    var second := ScriptOfDistance(b, c);
    ScriptsJoin(first, second, a, b, c);
    ScriptsAreNotShorter(first + second[1..], a, c);
  }

  // --------------------------------------------------------- nearest name

  datatype Ranked = Ranked(name: Text, distance: nat)

  /** `localeCompare`: some total preorder of names. */
  ghost predicate IsCollation(before: (Text, Text) -> bool) {
    && (forall a, b :: before(a, b) || before(b, a))
    && (forall a, b, c :: before(a, b) && before(b, c) ==> before(a, c))
  }

  predicate RanksBefore(before: (Text, Text) -> bool, a: Ranked, b: Ranked) {
    a.distance < b.distance || (a.distance == b.distance && before(a.name, b.name))
  }

  function Place(before: (Text, Text) -> bool, item: Ranked, sorted: seq<Ranked>): seq<Ranked> {
    if sorted == [] || RanksBefore(before, item, sorted[0]) then [item] + sorted
    else [sorted[0]] + Place(before, item, sorted[1..])
  }

  /** The names by distance, then by collation; equal ones keep their order. */
  function Ranking(before: (Text, Text) -> bool, value: Text, names: seq<Text>): seq<Ranked> {
    if names == [] then []
    else Place(before, Ranked(names[0], Distance(value, names[0])), Ranking(before, value, names[1..]))
  }

  function Threshold(value: Text): nat {
    if |value| / 2 > 2 then |value| / 2 else 2
  }

  function NearestNode(before: (Text, Text) -> bool, value: Text, names: seq<Text>): Option<Text> {
    var ranked := Ranking(before, value, names);
    if ranked != [] && ranked[0].distance <= Threshold(value) then Some(ranked[0].name) else None
  }

  lemma {:induction false} FirstIsLeast(before: (Text, Text) -> bool, value: Text, names: seq<Text>) returns (best: nat)
    requires IsCollation(before) && names != []
    ensures best < |names| && Ranking(before, value, names) != []
    ensures Ranking(before, value, names)[0] == Ranked(names[best], Distance(value, names[best]))
    ensures forall k :: 0 <= k < |names| ==>
              RanksBefore(before, Ranked(names[best], Distance(value, names[best])),
                          Ranked(names[k], Distance(value, names[k])))
    decreases |names|
  {
    var first := Ranked(names[0], Distance(value, names[0]));
    assert before(names[0], names[0]);
    if |names| == 1 {
      return 0;
    }
    var rest := FirstIsLeast(before, value, names[1..]);
    var second := Ranked(names[rest + 1], Distance(value, names[rest + 1]));
    assert names[1..][rest] == names[rest + 1];
    if RanksBefore(before, first, second) {
      forall k | 0 < k < |names|
        ensures RanksBefore(before, first, Ranked(names[k], Distance(value, names[k])))
      {
        assert names[1..][k - 1] == names[k];
      }
      return 0;
    }
    forall k | 0 <= k < |names|
      ensures RanksBefore(before, second, Ranked(names[k], Distance(value, names[k])))
    {
      if k > 0 {
        assert names[1..][k - 1] == names[k];
      }
    }
    return rest + 1;
  }

  /** A name is suggested exactly when some name is at most two edits away, or
      half as many as the value is long; it is a name of least distance, and among
      those the first by collation. */
  lemma NearestNodeIsLeast(before: (Text, Text) -> bool, value: Text, names: seq<Text>)
    requires IsCollation(before)
    ensures var nearest := NearestNode(before, value, names);
            && (nearest.Some? <==>
                  exists k :: 0 <= k < |names|
                    && (Distance(value, names[k]) <= 2 || 2 * Distance(value, names[k]) <= |value|))
            && (nearest.Some? ==>
                  && nearest.value in names
                  && forall k :: 0 <= k < |names| ==>
                       || Distance(value, nearest.value) < Distance(value, names[k])
                       || (Distance(value, nearest.value) == Distance(value, names[k])
                           && before(nearest.value, names[k])))
  {
    if names != [] {
      var best := FirstIsLeast(before, value, names);
      forall k | 0 <= k < |names|
        ensures Distance(value, names[best]) <= Distance(value, names[k])
      {
        assert RanksBefore(before, Ranked(names[best], Distance(value, names[best])),
                           Ranked(names[k], Distance(value, names[k])));
      }
    }
  }
}
