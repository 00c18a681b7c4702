/**
 The bytes that are hashed for a proposal submission: the text of
 src/planning/planner-proposal.ts as UTF-8.
 */
module SubmissionBytes {
  import opened JsText
  import J = StableJson
  import U = Utf8

  // ------------------------------------------- canonical text is well-formed

  predicate IsPlain(t: Text) {
    forall k :: 0 <= k < |t| ==> !U.IsHigh(t[k]) && !U.IsLow(t[k])
  }

  lemma {:induction false} PlainIsWellFormed(t: Text)
    requires IsPlain(t)
    ensures U.WellFormed(t)
    decreases |t|
  {
    if |t| > 0 {
      assert U.FirstChar(t) == t[..1];
      PlainIsWellFormed(t[1..]);
    }
  }

  lemma EscapeIsPlain(u: Unit)
    ensures IsPlain(J.EscapeUnit(u))
  {
  }

  lemma PairIsWellFormed(t: Text)
    requires |t| == 2 && U.IsHigh(t[0]) && U.IsLow(t[1])
    ensures U.WellFormed(t)
  {
    assert U.FirstChar(t) == t[..2] && |t[2..]| == 0;
  }

  lemma {:induction false} EscapedIsWellFormed(s: Text)
    ensures U.WellFormed(J.Escaped(s))
    decreases |s|
  {
    if s != [] {
      if J.IsLead(s[0]) && |s| > 1 && J.IsTrail(s[1]) {
        EscapedIsWellFormed(s[2..]);
        PairIsWellFormed(s[..2]);
        U.WellFormedJoins(s[..2], J.Escaped(s[2..]));
      } else {
        EscapedIsWellFormed(s[1..]);
        EscapeIsPlain(s[0]);
        PlainIsWellFormed(J.EscapeUnit(s[0]));
        U.WellFormedJoins(J.EscapeUnit(s[0]), J.Escaped(s[1..]));
      }
    }
  }

  lemma Surrounded(open: Text, inside: Text, close: Text)
    requires IsPlain(open) && IsPlain(close) && U.WellFormed(inside)
    ensures U.WellFormed(open + inside + close)
  {
    PlainIsWellFormed(open);
    PlainIsWellFormed(close);
    U.WellFormedJoins(open, inside);
    U.WellFormedJoins(open + inside, close);
  }

  lemma QuotedIsWellFormed(s: Text)
    ensures U.WellFormed(J.Quoted(s))
  {
    EscapedIsWellFormed(s);
    Surrounded([QUOTE], J.Escaped(s), [QUOTE]);
  }

  predicate AllWellFormed(entries: seq<(Text, Text)>) {
    forall k :: 0 <= k < |entries| ==> U.WellFormed(entries[k].1)
  }

  lemma {:induction false} PlaceKeepsWellFormed(entry: (Text, Text), sorted: seq<(Text, Text)>)
    requires U.WellFormed(entry.1) && AllWellFormed(sorted)
    ensures AllWellFormed(J.Place(entry, sorted))
    decreases |sorted|
  {
    if sorted != [] && !J.Less(entry.0, sorted[0].0) {
      PlaceKeepsWellFormed(entry, sorted[1..]);
    }
  }

  lemma {:induction false} SortKeepsWellFormed(entries: seq<(Text, Text)>)
    requires AllWellFormed(entries)
    ensures AllWellFormed(J.SortByKey(entries))
    decreases |entries|
  {
    if entries != [] {
      SortKeepsWellFormed(entries[1..]);
      PlaceKeepsWellFormed(entries[0], J.SortByKey(entries[1..]));
    }
  }

  lemma MemberIsWellFormed(key: Text, value: Text)
    requires U.WellFormed(value)
    ensures U.WellFormed(J.Quoted(key) + [J.COLON] + value)
  {
    QuotedIsWellFormed(key);
    PlainIsWellFormed([J.COLON]);
    U.WellFormedJoins(J.Quoted(key), [J.COLON]);
    U.WellFormedJoins(J.Quoted(key) + [J.COLON], value);
  }

  lemma WithComma(head: Text, tail: Text)
    requires U.WellFormed(head) && U.WellFormed(tail)
    ensures U.WellFormed(head + ([J.COMMA] + tail))
  {
    PlainIsWellFormed([J.COMMA]);
    U.WellFormedJoins([J.COMMA], tail);
    U.WellFormedJoins(head, [J.COMMA] + tail);
  }

  lemma {:induction false} JoinedIsWellFormed(entries: seq<(Text, Text)>)
    requires AllWellFormed(entries)
    ensures U.WellFormed(J.JoinEntries(entries))
    decreases |entries|
  {
    if entries != [] {
      var member := J.Quoted(entries[0].0) + [J.COLON] + entries[0].1;
      MemberIsWellFormed(entries[0].0, entries[0].1);
      if |entries| == 1 {
        assert member + [] == member;
      } else {
        JoinedIsWellFormed(entries[1..]);
        WithComma(member, J.JoinEntries(entries[1..]));
      }
    }
  }

  lemma {:induction false} ItemsAreWellFormed(items: seq<J.Json>)
    requires forall k :: 0 <= k < |items| ==> J.IsJson(items[k])
    ensures U.WellFormed(J.StableItems(items))
    decreases items
  {
    if items != [] {
      StableIsWellFormed(items[0]);
      if |items| == 1 {
        assert J.Stable(items[0]) + [] == J.Stable(items[0]);
      } else {
        ItemsAreWellFormed(items[1..]);
        WithComma(J.Stable(items[0]), J.StableItems(items[1..]));
      }
    }
  }

  lemma {:induction false} EntriesAreWellFormed(members: seq<J.Member>)
    requires forall k :: 0 <= k < |members| ==> J.IsJson(members[k].value)
    ensures AllWellFormed(J.StableEntries(members))
    decreases members
  {
    if members != [] {
      StableIsWellFormed(members[0].value);
      EntriesAreWellFormed(members[1..]);
    }
  }

  /** Canonical text holds no lone surrogate: JSON.stringify escapes it. */
  lemma {:induction false} StableIsWellFormed(v: J.Json)
    requires J.IsJson(v)
    ensures U.WellFormed(J.Stable(v))
    decreases v
  {
    match v
    case Null => PlainIsWellFormed(J.NULL_WORD);
    case Bool(b) => PlainIsWellFormed(if b then J.TRUE_WORD else J.FALSE_WORD);
    case Number(token) =>
      forall k | 0 <= k < |token|
        ensures !U.IsHigh(token[k]) && !U.IsLow(token[k])
      {
        assert token[k] in token;
      }
      PlainIsWellFormed(token);
    case Str(s) => QuotedIsWellFormed(s);
    case Arr(items) =>
      ItemsAreWellFormed(items);
      Surrounded([J.LEFT_BRACKET], J.StableItems(items), [J.RIGHT_BRACKET]);
    case Obj(members) =>
      EntriesAreWellFormed(members);
      SortKeepsWellFormed(J.StableEntries(members));
      JoinedIsWellFormed(J.SortByKey(J.StableEntries(members)));
      Surrounded([J.LEFT_BRACE], J.JoinEntries(J.SortByKey(J.StableEntries(members))), [J.RIGHT_BRACE]);
  }

  // ------------------------------------------------------ what is identified

  lemma FirstStays(t: Text, u: Text)
    requires |t| > 0 && |u| > 0 && !U.IsLow(u[0])
    ensures U.CharLength(t + u) == U.CharLength(t) && U.FirstChar(t + u) == U.FirstChar(t)
    ensures (t + u)[U.CharLength(t)..] == t[U.CharLength(t)..] + u
  {
  }

  lemma {:induction false} RepairedUnfolds(t: Text)
    requires |t| > 0
    ensures U.Repaired(t) == U.FirstChar(t) + U.Repaired(t[U.CharLength(t)..])
  {
  }

  /** Repairing works on parts, where the cut is not inside a pair. */
  lemma {:induction false} RepairedJoins(t: Text, u: Text)
    requires |u| > 0 && !U.IsLow(u[0])
    ensures U.Repaired(t + u) == U.Repaired(t) + U.Repaired(u)
    decreases |t|
  {
    if |t| == 0 {
      assert t + u == u;
    } else {
      var rest := t[U.CharLength(t)..];
      RepairedJoins(rest, u);
      FirstStays(t, u);
      RepairedUnfolds(t);
      RepairedUnfolds(t + u);
      U.JoinAfter(U.FirstChar(t), U.Repaired(t), U.Repaired(u), U.Repaired(rest + u), U.Repaired(rest),
                  U.Repaired(t + u));
    }
  }

  lemma RepairedSubmission(ids: Text, plan: J.Json)
    requires J.IsJson(plan)
    ensures U.Repaired(ids + [LF] + J.Stable(plan)) == U.Repaired(ids) + [LF] + J.Stable(plan)
  {
    var line: Text := [LF];
    StableIsWellFormed(plan);
    PlainIsWellFormed(line);
    U.WellFormedJoins(line, J.Stable(plan));
    U.WellFormedIsRepaired(line + J.Stable(plan));
    RepairedJoins(ids, line + J.Stable(plan));
    U.Assoc(ids, line, J.Stable(plan));
    U.Assoc(U.Repaired(ids), line, J.Stable(plan));
  }

  /** The hashed bytes identify the plan always, and session and turn exactly up
      to lone surrogates and the line feed that joins them. */
  lemma SubmissionBytesIdentify(s1: Text, t1: Text, plan1: J.Json, s2: Text, t2: Text, plan2: J.Json)
    requires J.IsJson(plan1) && J.IsJson(plan2)
    ensures U.Encoded(J.SubmissionText(s1, t1, plan1)) == U.Encoded(J.SubmissionText(s2, t2, plan2)) <==>
              U.Repaired(s1 + [LF] + t1) == U.Repaired(s2 + [LF] + t2) && J.Same(plan1, plan2)
  {
    var ids1, ids2 := s1 + [LF] + t1, s2 + [LF] + t2;
    U.EncodingIdentifies(J.SubmissionText(s1, t1, plan1), J.SubmissionText(s2, t2, plan2));
    RepairedSubmission(ids1, plan1);
    RepairedSubmission(ids2, plan2);
    J.Reads(plan1);
    J.Reads(plan2);
    J.SameTextIffSameValue(plan1, plan2);
    if U.Repaired(ids1) + [LF] + J.Stable(plan1) == U.Repaired(ids2) + [LF] + J.Stable(plan2) {
      J.LastLineSplits(U.Repaired(ids1), J.Stable(plan1), U.Repaired(ids2), J.Stable(plan2));
    }
  }

  /** Two session ids that differ in a lone surrogate hash alike. */
  lemma LoneSurrogatesConfuseSubmissions(a: Unit, b: Unit, turnId: Text, plan: J.Json)
    requires J.IsJson(plan) && U.IsHigh(a) && U.IsHigh(b)
    ensures U.Encoded(J.SubmissionText([a], turnId, plan)) == U.Encoded(J.SubmissionText([b], turnId, plan))
  {
    var rest := [LF] + turnId;
    RepairedJoins([a], rest);
    RepairedJoins([b], rest);
    U.Assoc([a], [LF], turnId);
    U.Assoc([b], [LF], turnId);
    assert U.Repaired([a]) == U.Repaired([b]) by {
      assert |[a][1..]| == 0 && |[b][1..]| == 0;
    }
    SameValue(plan);
    SubmissionBytesIdentify([a], turnId, plan, [b], turnId, plan);
  }

  lemma SameValue(plan: J.Json)
    requires J.IsJson(plan)
    ensures J.Same(plan, plan)
  {
    J.SameTextIffSameValue(plan, plan);
  }
}
