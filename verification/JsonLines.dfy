/**
 The newline-delimited JSON framing: src/gateway/jsonl.ts.

 A chunk is a string or, from a socket, a Buffer of bytes that is decoded alone.
 */
module JsonLines {
  import opened JsText
  import Utf8

  type Message(==, !new)

  /** What a line holds after `trim`: nothing, text that JSON.parse refuses
      with an exception, or a message. */
  datatype Line = Blank | Bad | Good(message: Message)

  datatype Codec = Codec(stringify: Message -> Text, read: Text -> Line)

  datatype Chunk = Str(text: Text) | Buffer(bytes: Utf8.Bytes)

  /** `chunk.toString()`. */
  function ToText(chunk: Chunk): Text {
    match chunk
    case Str(text) => text
    case Buffer(bytes) => Utf8.Decoded(bytes)
  }

  predicate IsLineFeed(t: Text, k: nat)
    requires k < |t|
  {
    t[k] == LF
  }

  /** The position of the first line feed from `i` on, or the length of the text. */
  function IndexOfLineFeed(t: Text, i: nat): (n: nat)
    requires i <= |t|
    ensures i <= n <= |t| && (n < |t| ==> IsLineFeed(t, n))
    ensures forall k :: i <= k < n ==> !IsLineFeed(t, k)
    decreases |t[i..]|
  {
    if i == |t| || IsLineFeed(t, i) then i else IndexOfLineFeed(t, i + 1)
  }

  function LineLength(t: Text): (n: nat)
    ensures n <= |t| && (n < |t| ==> IsLineFeed(t, n))
    ensures forall k :: 0 <= k < n ==> !IsLineFeed(t, k)
  {
    IndexOfLineFeed(t, 0)
  }

  /** A line feed with none before it is the first. */
  lemma FirstLineFeed(t: Text, n: nat)
    requires n < |t| && IsLineFeed(t, n)
    requires forall k :: 0 <= k < n ==> !IsLineFeed(t, k)
    ensures LineLength(t) == n && HasLine(t)
  {
    assert !(n < LineLength(t));
  }

  predicate HasLine(t: Text) {
    LineLength(t) < |t|
  }

  /** The message of a line, if it has one. */
  function LineMessages(line: Line): seq<Message> {
    if line.Good? then [line.message] else []
  }

  /** The messages of the complete lines of a text, bad lines left out. */
  function Messages(codec: Codec, t: Text): seq<Message>
    decreases |t|, codec
  {
    if HasLine(t)
    then LineMessages(codec.read(t[..LineLength(t)])) + Messages(codec, t[LineLength(t) + 1..])
    else []
  }

  /** No complete line is bad. */
  predicate AllGood(codec: Codec, t: Text)
    decreases |t|, codec
  {
    HasLine(t) ==> codec.read(t[..LineLength(t)]) != Bad && AllGood(codec, t[LineLength(t) + 1..])
  }

  /** What is left of a text: all after the first bad line, or else all after
      the last line feed. */
  function Remainder(codec: Codec, t: Text): Text
    decreases |t|, codec
  {
    if HasLine(t)
    then
      var rest := t[LineLength(t) + 1..];
      if codec.read(t[..LineLength(t)]) == Bad then rest else Remainder(codec, rest)
    else t
  }

  predicate EndsLine(t: Text) {
    |t| == 0 || t[|t| - 1] == LF
  }

  lemma {:induction false} LineOfConcat(a: Text, b: Text)
    requires HasLine(a)
    ensures LineLength(a + b) == LineLength(a)
    ensures (a + b)[..LineLength(a)] == a[..LineLength(a)]
    ensures (a + b)[LineLength(a) + 1..] == a[LineLength(a) + 1..] + b
    decreases |a|
  {
    var n := LineLength(a);
    assert IsLineFeed(a + b, n);
    forall k | 0 <= k < n
      ensures !IsLineFeed(a + b, k)
    {
      assert !IsLineFeed(a, k);
    }
    FirstLineFeed(a + b, n);
  }

  lemma LastEndsLine(t: Text)
    requires EndsLine(t) && |t| > 0
    ensures HasLine(t) && EndsLine(t[LineLength(t) + 1..])
  {
    assert IsLineFeed(t, |t| - 1);
  }

  lemma NoLine(codec: Codec, t: Text)
    requires !HasLine(t)
    ensures |Messages(codec, t)| == 0 && LF !in t
  {
    forall k | 0 <= k < |t|
      ensures t[k] != LF
    {
      assert !IsLineFeed(t, k);
    }
  }

  lemma MessagesStep(codec: Codec, t: Text)
    requires HasLine(t)
    ensures Messages(codec, t)
         == LineMessages(codec.read(t[..LineLength(t)])) + Messages(codec, t[LineLength(t) + 1..])
  {
  }

  lemma Assoc<T>(a: seq<T>, b: seq<T>, c: seq<T>)
    ensures (a + b) + c == a + (b + c)
    ensures |a| == 0 ==> a + b == b
  {
  }

  /** Complete lines are read on their own. */
  lemma {:induction false} MessagesSplit(codec: Codec, a: Text, b: Text)
    requires EndsLine(a)
    ensures Messages(codec, a + b) == Messages(codec, a) + Messages(codec, b)
    decreases |a|
  {
    if |a| == 0 {
      Assoc(a, b, b);
      NoLine(codec, a);
      Assoc(Messages(codec, a), Messages(codec, b), Messages(codec, b));
    } else {
      LastEndsLine(a);
      LineOfConcat(a, b);
      var n := LineLength(a);
      MessagesSplit(codec, a[n + 1..], b);
      MessagesStep(codec, a);
      MessagesStep(codec, a + b);
      Assoc(LineMessages(codec.read(a[..n])), Messages(codec, a[n + 1..]), Messages(codec, b));
    }
  }

  lemma {:induction false} AllGoodBehind(codec: Codec, a: Text, b: Text)
    requires EndsLine(a) && AllGood(codec, a + b)
    ensures AllGood(codec, b)
    decreases |a|
  {
    if |a| == 0 {
      Assoc(a, b, b);
    } else {
      LastEndsLine(a);
      LineOfConcat(a, b);
      AllGoodBehind(codec, a[LineLength(a) + 1..], b);
    }
  }

  /** The first line of a text, taken alone. */
  lemma TakenLine(codec: Codec, t: Text)
    requires HasLine(t)
    ensures var taken := t[..LineLength(t) + 1];
            && EndsLine(taken) && Messages(codec, taken) == LineMessages(codec.read(t[..LineLength(t)]))
  {
    var n := LineLength(t);
    var taken := t[..n + 1];
    assert IsLineFeed(taken, n);
    forall k | 0 <= k < n
      ensures !IsLineFeed(taken, k)
    {
      assert !IsLineFeed(t, k);
    }
    FirstLineFeed(taken, n);
    NoLine(codec, taken[n + 1..]);
    assert taken[..n] == t[..n];
  }

  /** Moving the first line from the buffer to the text that was read. */
  lemma OneLineRead(codec: Codec, consumed: Text, buffer: Text)
    requires EndsLine(consumed) && HasLine(buffer)
    ensures var n := LineLength(buffer);
            && EndsLine(consumed + buffer[..n + 1])
            && consumed + buffer == (consumed + buffer[..n + 1]) + buffer[n + 1..]
            && Messages(codec, consumed + buffer[..n + 1])
               == Messages(codec, consumed) + LineMessages(codec.read(buffer[..n]))
  {
    var taken, rest := buffer[..LineLength(buffer) + 1], buffer[LineLength(buffer) + 1..];
    TakenLine(codec, buffer);
    MessagesSplit(codec, consumed, taken);
    assert buffer == taken + rest;
    Assoc(consumed, taken, rest);
    assert (consumed + taken)[|consumed + taken| - 1] == taken[|taken| - 1];
  }

  /** What the loop over the lines of `text` has read, when its messages so far
      are these. */
  ghost predicate Reading(codec: Codec, before: State, text: Text, now: State, messages: seq<Message>) {
    && EndsLine(now.consumed) && now.emitted == Messages(codec, now.consumed)
    && now.emitted == before.emitted + messages
    && now.consumed + now.buffer == before.consumed + text
    && (AllGood(codec, text) <==> AllGood(codec, now.buffer))
    && Remainder(codec, text) == Remainder(codec, now.buffer)
  }

  /** The state after the first line of the buffer. */
  function AfterLine(codec: Codec, now: State): State
    requires HasLine(now.buffer)
  {
    var n := LineLength(now.buffer);
    State(now.consumed + now.buffer[..n + 1], now.buffer[n + 1..],
          now.emitted + LineMessages(codec.read(now.buffer[..n])))
  }

  lemma ReadsLine(codec: Codec, before: State, text: Text, now: State, messages: seq<Message>)
    requires Reading(codec, before, text, now, messages) && HasLine(now.buffer)
    ensures var line, next := codec.read(now.buffer[..LineLength(now.buffer)]), AfterLine(codec, now);
            if line == Bad then
              && EndsLine(next.consumed) && next.emitted == Messages(codec, next.consumed)
              && next.emitted == before.emitted + messages
              && next.consumed + next.buffer == before.consumed + text
              && !AllGood(codec, text) && next.buffer == Remainder(codec, text)
            else Reading(codec, before, text, next, messages + LineMessages(line))
  {
    OneLineRead(codec, now.consumed, now.buffer);
    Assoc(before.emitted, messages, LineMessages(codec.read(now.buffer[..LineLength(now.buffer)])));
    Assoc(now.emitted, LineMessages(codec.read(now.buffer[..LineLength(now.buffer)])), []);
  }

  lemma ReadsNoLine(codec: Codec, before: State, text: Text, now: State, messages: seq<Message>)
    requires Reading(codec, before, text, now, messages) && !HasLine(now.buffer)
    ensures AllGood(codec, text) && now.buffer == Remainder(codec, text) && LF !in now.buffer
  {
    NoLine(codec, now.buffer);
  }

  class JsonLineParser {
    const codec: Codec
    var buffer: Text
    /** The text that was read line by line, and the messages of its lines. */
    ghost var consumed: Text
    ghost var emitted: seq<Message>

    ghost predicate Valid()
      reads this
    {
      EndsLine(consumed) && emitted == Messages(codec, consumed)
    }

    constructor (codec: Codec)
      ensures Valid() && this.codec == codec && |buffer| == 0 && |consumed| == 0 && |emitted| == 0
    {
      this.codec := codec;
      buffer := [];
      consumed := [];
      emitted := [];
    }

    /** Takes one chunk. A bad line throws after the messages before it went
        out; the lines behind it wait in the buffer for the next call. */
    method Feed(chunk: Chunk) returns (messages: seq<Message>, threw: bool)
      requires Valid()
      modifies this
      ensures Valid() && emitted == old(emitted) + messages
      ensures consumed + buffer == old(consumed) + (old(buffer) + ToText(chunk))
      ensures threw <==> !AllGood(codec, old(buffer) + ToText(chunk))
      ensures buffer == Remainder(codec, old(buffer) + ToText(chunk))
      ensures !threw ==> LF !in buffer
    {
      messages, threw := [], false;
      ghost var before := State(consumed, buffer, emitted);
      var received := ToText(chunk);
      buffer := buffer + received;
      ghost var text := buffer;
      while true
        invariant Reading(codec, before, text, State(consumed, buffer, emitted), messages)
        decreases |buffer|
      {
        var newlineIndex := LineLength(buffer);
        if newlineIndex == |buffer| {
          ReadsNoLine(codec, before, text, State(consumed, buffer, emitted), messages);
          return;
        }
        var line := codec.read(buffer[..newlineIndex]);
        ReadsLine(codec, before, text, State(consumed, buffer, emitted), messages);
        consumed := consumed + buffer[..newlineIndex + 1];
        emitted := emitted + LineMessages(line);
        buffer := buffer[newlineIndex + 1..];
        match line {
          case Blank => continue;
          case Bad =>
            threw := true;
            return;
          case Good(message) => messages := messages + [message];
        }
      }
    }
  }

  // ----------------------------------------------------------------- runs

  /** One call of the parser, as its contract says. */
  datatype State = State(consumed: Text, buffer: Text, emitted: seq<Message>)

  ghost predicate Feeds(codec: Codec, before: State, chunk: Text, after: State) {
    && EndsLine(after.consumed) && after.emitted == Messages(codec, after.consumed)
    && after.consumed + after.buffer == before.consumed + (before.buffer + chunk)
    && after.buffer == Remainder(codec, before.buffer + chunk)
  }

  /** A text and the chunks after it. */
  function Appended(t: Text, chunks: seq<Text>): Text
    decreases |chunks|
  {
    if |chunks| == 0 then t else Appended(t, chunks[..|chunks| - 1]) + chunks[|chunks| - 1]
  }

  ghost predicate Calls(codec: Codec, states: seq<State>, chunks: seq<Text>) {
    && |states| == |chunks| + 1
    && |states[0].consumed| == 0 && |states[0].emitted| == 0
    && forall k :: 0 <= k < |chunks| ==> Feeds(codec, states[k], chunks[k], states[k + 1])
  }

  lemma {:induction false} TextIsConserved(codec: Codec, states: seq<State>, chunks: seq<Text>)
    requires Calls(codec, states, chunks)
    ensures var s := states[|chunks|];
            && s.consumed + s.buffer == Appended(states[0].buffer, chunks)
            && EndsLine(s.consumed) && s.emitted == Messages(codec, s.consumed)
    decreases |chunks|
  {
    var n := |chunks|;
    if n == 0 {
      NoLine(codec, states[0].consumed);
      Assoc(states[0].consumed, states[0].buffer, states[0].buffer);
    } else {
      TextIsConserved(codec, states[..n], chunks[..n - 1]);
      assert states[..n][n - 1] == states[n - 1];
      assert Feeds(codec, states[n - 1], chunks[n - 1], states[n]);
      var before := states[n - 1];
      Assoc(before.consumed, before.buffer, chunks[n - 1]);
    }
  }

  /** However a text is cut into strings, whatever lines are bad: what went out and what
      still waits in the buffer are together the messages of the whole text. */
  lemma MessagesAreConserved(codec: Codec, states: seq<State>, chunks: seq<Text>)
    requires Calls(codec, states, chunks)
    ensures var s := states[|chunks|];
            s.emitted + Messages(codec, s.buffer) == Messages(codec, Appended(states[0].buffer, chunks))
  {
    TextIsConserved(codec, states, chunks);
    MessagesSplit(codec, states[|chunks|].consumed, states[|chunks|].buffer);
  }

  lemma {:induction false} GoodRemainderIsOneLine(codec: Codec, t: Text)
    requires AllGood(codec, t)
    ensures !HasLine(Remainder(codec, t)) && |Messages(codec, Remainder(codec, t))| == 0
    decreases |t|
  {
    if HasLine(t) {
      GoodRemainderIsOneLine(codec, t[LineLength(t) + 1..]);
    }
  }

  /** After a call the buffer holds a line feed exactly when that call met a
      bad line with a complete line behind it. */
  lemma LineLeftInBuffer(codec: Codec, before: State, chunk: Text, after: State)
    requires Feeds(codec, before, chunk, after)
    ensures LF in after.buffer <==>
              !AllGood(codec, before.buffer + chunk) && HasLine(Remainder(codec, before.buffer + chunk))
  {
    if AllGood(codec, before.buffer + chunk) {
      GoodRemainderIsOneLine(codec, before.buffer + chunk);
    }
    if LF in after.buffer {
      var k :| 0 <= k < |after.buffer| && after.buffer[k] == LF;
      assert IsLineFeed(after.buffer, k);
    }
  }

  /** When the last call threw nothing, the messages that went out depend only
      on the text, not on how it was cut into strings. */
  lemma MessagesDependOnTextOnly(codec: Codec, states: seq<State>, chunks: seq<Text>)
    requires Calls(codec, states, chunks) && |chunks| > 0
    requires AllGood(codec, states[|chunks| - 1].buffer + chunks[|chunks| - 1])
    ensures states[|chunks|].emitted == Messages(codec, Appended(states[0].buffer, chunks))
  {
    var n := |chunks|;
    MessagesAreConserved(codec, states, chunks);
    assert Feeds(codec, states[n - 1], chunks[n - 1], states[n]);
    GoodRemainderIsOneLine(codec, states[n - 1].buffer + chunks[n - 1]);
  }

  // ----------------------------------------------------------- round trip

  /** JSON text has no line feed, and is read back. */
  ghost predicate IsCodec(codec: Codec) {
    forall m :: LF !in codec.stringify(m) && codec.read(codec.stringify(m)) == Good(m)
  }

  function EncodeJsonLine(codec: Codec, m: Message): Text {
    codec.stringify(m) + [LF]
  }

  /** The encoded messages, and then `tail`. */
  function EncodeAll(codec: Codec, ms: seq<Message>, tail: Text): Text
    decreases |ms|
  {
    if |ms| == 0 then tail else EncodeJsonLine(codec, ms[0]) + EncodeAll(codec, ms[1..], tail)
  }

  /** The first encoded message of a text is its first line. */
  lemma EncodedLine(codec: Codec, m: Message, after: Text)
    requires IsCodec(codec)
    ensures var t := EncodeJsonLine(codec, m) + after;
            && LineLength(t) == |codec.stringify(m)| && HasLine(t)
            && t[..LineLength(t)] == codec.stringify(m) && t[LineLength(t) + 1..] == after
  {
    var text := codec.stringify(m);
    var t := EncodeJsonLine(codec, m) + after;
    assert IsLineFeed(t, |text|);
    forall k | 0 <= k < |text|
      ensures !IsLineFeed(t, k)
    {
      assert t[k] == text[k] && text[k] in text;
    }
    FirstLineFeed(t, |text|);
  }

  lemma {:induction false} EncodedEndsLine(codec: Codec, ms: seq<Message>, tail: Text)
    requires |tail| == 0
    ensures EndsLine(EncodeAll(codec, ms, tail))
    decreases |ms|
  {
    if |ms| > 0 {
      EncodedEndsLine(codec, ms[1..], tail);
    }
  }

  lemma {:induction false} EncodedLines(codec: Codec, ms: seq<Message>, tail: Text)
    requires IsCodec(codec) && |tail| == 0
    ensures Messages(codec, EncodeAll(codec, ms, tail)) == ms
    ensures AllGood(codec, EncodeAll(codec, ms, tail))
    decreases |ms|
  {
    if |ms| > 0 {
      var after := EncodeAll(codec, ms[1..], tail);
      var t := EncodeAll(codec, ms, tail);
      EncodedLines(codec, ms[1..], tail);
      EncodedLine(codec, ms[0], after);
      MessagesStep(codec, t);
      assert codec.read(codec.stringify(ms[0])) == Good(ms[0]);
    } else {
      NoLine(codec, tail);
    }
  }

  /** Encoded messages, cut into any strings, come back in order, and nothing is
      left. */
  lemma EncodingRoundTrip(codec: Codec, ms: seq<Message>, tail: Text, states: seq<State>, chunks: seq<Text>)
    requires IsCodec(codec) && |tail| == 0 && Calls(codec, states, chunks) && |chunks| > 0
    requires Appended(states[0].buffer, chunks) == EncodeAll(codec, ms, tail)
    ensures states[|chunks|].emitted == ms && |states[|chunks|].buffer| == 0
  {
    var n := |chunks|;
    var before, s := states[n - 1], states[n];
    EncodedLines(codec, ms, tail);
    EncodedEndsLine(codec, ms, tail);
    TextIsConserved(codec, states[..n], chunks[..n - 1]);
    assert states[..n][n - 1] == before && states[..n][0] == states[0];
    TextIsConserved(codec, states, chunks);
    var text := before.buffer + chunks[n - 1];
    assert Feeds(codec, before, chunks[n - 1], s);
    Assoc(before.consumed, before.buffer, chunks[n - 1]);
    AllGoodBehind(codec, before.consumed, text);
    MessagesDependOnTextOnly(codec, states, chunks);
    GoodRemainderIsOneLine(codec, text);
    EndsWithBuffer(s.consumed, s.buffer);
  }

  /** A text that ends its line ends it in its last part. */
  lemma EndsWithBuffer(consumed: Text, buffer: Text)
    requires EndsLine(consumed + buffer)
    ensures EndsLine(buffer)
    ensures !HasLine(buffer) ==> |buffer| == 0
  {
    if |buffer| > 0 {
      assert (consumed + buffer)[|consumed + buffer| - 1] == buffer[|buffer| - 1];
      LastEndsLine(buffer);
    }
  }

  // ---------------------------------------------------------------- bytes

  lemma {:induction false} AppendedJoins(t: Text, texts: seq<Text>)
    ensures Appended(t, texts) == t + Utf8.Joined(texts)
    decreases |texts|
  {
    var n := |texts|;
    if n == 0 {
      assert t + Utf8.Joined(texts) == t;
    } else {
      AppendedJoins(t, texts[..n - 1]);
      JoinedLast(texts);
      Assoc(t, Utf8.Joined(texts[..n - 1]), texts[n - 1]);
    }
  }

  lemma {:induction false} JoinedLast(texts: seq<Text>)
    requires |texts| > 0
    ensures Utf8.Joined(texts) == Utf8.Joined(texts[..|texts| - 1]) + texts[|texts| - 1]
    decreases |texts|
  {
    var n := |texts|;
    if n == 1 {
      assert Utf8.Joined(texts[1..]) == Utf8.Joined(texts[..0]);
      assert texts[0] + Utf8.Joined(texts[1..]) == texts[0] == Utf8.Joined(texts[..0]) + texts[0];
    } else {
      JoinedLast(texts[1..]);
      assert texts[1..][..n - 2] == texts[..n - 1][1..];
      Assoc(texts[0], Utf8.Joined(texts[..n - 1][1..]), texts[n - 1]);
    }
  }

  lemma AppendedToEmpty(t: Text, texts: seq<Text>)
    requires |t| == 0
    ensures Appended(t, texts) == Utf8.Joined(texts)
  {
    AppendedJoins(t, texts);
    assert t + Utf8.Joined(texts) == Utf8.Joined(texts);
  }

  /** The calls of a parser that is fed Buffers. */
  ghost predicate ByteCalls(codec: Codec, states: seq<State>, chunks: seq<Utf8.Bytes>) {
    Calls(codec, states, Utf8.DecodedEach(chunks)) && |states[0].buffer| == 0
  }

  /** The parser sees the text of the bytes exactly when no cut between chunks
      goes through a character. */
  lemma TextArrivesIff(codec: Codec, states: seq<State>, chunks: seq<Utf8.Bytes>)
    requires ByteCalls(codec, states, chunks)
    ensures states[|chunks|].consumed + states[|chunks|].buffer == Utf8.Decoded(Utf8.Concat(chunks))
            <==> Utf8.CutAtBoundaries(chunks)
  {
    var texts := Utf8.DecodedEach(chunks);
    TextIsConserved(codec, states, texts);
    AppendedToEmpty(states[0].buffer, texts);
    Utf8.ChunksDecodeIff(chunks);
  }

  /** Then the messages, too, depend only on the bytes. */
  lemma MessagesDependOnBytesOnly(codec: Codec, states: seq<State>, chunks: seq<Utf8.Bytes>)
    requires ByteCalls(codec, states, chunks) && |chunks| > 0 && Utf8.CutAtBoundaries(chunks)
    requires AllGood(codec, states[|chunks| - 1].buffer + Utf8.Decoded(chunks[|chunks| - 1]))
    ensures states[|chunks|].emitted == Messages(codec, Utf8.Decoded(Utf8.Concat(chunks)))
  {
    var texts := Utf8.DecodedEach(chunks);
    MessagesDependOnTextOnly(codec, states, texts);
    AppendedToEmpty(states[0].buffer, texts);
    Utf8.ChunksDecodeIff(chunks);
  }

  /** JSON text holds no lone surrogate: JSON.stringify escapes it. */
  predicate AllWellFormed(codec: Codec, ms: seq<Message>) {
    forall k :: 0 <= k < |ms| ==> Utf8.WellFormed(codec.stringify(ms[k]))
  }

  lemma {:induction false} EncodedIsWellFormed(codec: Codec, ms: seq<Message>, tail: Text)
    requires |tail| == 0 && AllWellFormed(codec, ms)
    ensures Utf8.WellFormed(EncodeAll(codec, ms, tail))
    decreases |ms|
  {
    if |ms| > 0 {
      EncodedIsWellFormed(codec, ms[1..], tail);
      assert Utf8.WellFormed([LF]);
      Utf8.WellFormedJoins(codec.stringify(ms[0]), [LF]);
      Utf8.WellFormedJoins(EncodeJsonLine(codec, ms[0]), EncodeAll(codec, ms[1..], tail));
    }
  }

  /** The bytes of encoded messages, cut anywhere but inside a character, come
      back in order, and nothing is left. */
  lemma BytesRoundTrip(codec: Codec, ms: seq<Message>, tail: Text, states: seq<State>, chunks: seq<Utf8.Bytes>)
    requires IsCodec(codec) && |tail| == 0 && AllWellFormed(codec, ms)
    requires ByteCalls(codec, states, chunks) && |chunks| > 0 && Utf8.CutAtBoundaries(chunks)
    requires Utf8.Concat(chunks) == Utf8.Encoded(EncodeAll(codec, ms, tail))
    ensures states[|chunks|].emitted == ms && |states[|chunks|].buffer| == 0
  {
    EncodedIsWellFormed(codec, ms, tail);
    Utf8.EncodedArrives(EncodeAll(codec, ms, tail), chunks);
    AppendedToEmpty(states[0].buffer, Utf8.DecodedEach(chunks));
    EncodingRoundTrip(codec, ms, tail, states, Utf8.DecodedEach(chunks));
  }

  lemma TwoChunks(a: Utf8.Bytes, b: Utf8.Bytes)
    ensures Utf8.Concat([a, b]) == a + b
    ensures Utf8.Joined(Utf8.DecodedEach([a, b])) == Utf8.Decoded(a) + Utf8.Decoded(b)
  {
    var one: seq<Utf8.Bytes> := [b];
    assert [a, b][1..] == one && |one[1..]| == 0;
    assert Utf8.Concat(one) == b + Utf8.Concat(one[1..]) == b;
    var texts: seq<Text> := Utf8.DecodedEach([a, b]);
    var last: seq<Text> := texts[1..];
    var none: seq<Text> := last[1..];
    assert last == Utf8.DecodedEach(one) && |none| == 0;
    assert Utf8.Joined(last) == last[0] + Utf8.Joined(none) == last[0];
  }

  /** A text whose one line feed is its last unit. */
  lemma OneLine(codec: Codec, line: Text)
    requires LF !in line
    ensures LineLength(line + [LF]) == |line| && HasLine(line + [LF])
    ensures |Remainder(codec, line + [LF])| == 0
    ensures Messages(codec, line + [LF]) == LineMessages(codec.read(line))
  {
    var t := line + [LF];
    assert IsLineFeed(t, |line|);
    forall k | 0 <= k < |line|
      ensures !IsLineFeed(t, k)
    {
      assert t[k] == line[k] && line[k] in line;
    }
    FirstLineFeed(t, |line|);
    assert t[..|line|] == line && |t[|line| + 1..]| == 0;
    NoLine(codec, t[|line| + 1..]);
  }

  /** Where a part of such a text ends its line, it is nothing or all of it. */
  lemma PartOfLine(consumed: Text, text: Text, line: Text)
    requires LF !in line && consumed + text == line + [LF] && EndsLine(consumed)
    ensures |consumed| == 0 || |text| == 0
  {
    forall k | 0 <= k < |line|
      ensures (line + [LF])[k] != LF
    {
      assert line[k] in line;
    }
    assert |consumed| > 0 ==> (consumed + text)[|consumed| - 1] == LF;
  }

  /** One line, in strings: its message goes out, and nothing is left. */
  lemma OneLineArrives(codec: Codec, line: Text, states: seq<State>, chunks: seq<Text>)
    requires LF !in line && Calls(codec, states, chunks)
    requires Appended(states[0].buffer, chunks) == line + [LF] && |chunks| > 0
    ensures states[|chunks|].emitted == LineMessages(codec.read(line)) && |states[|chunks|].buffer| == 0
  {
    var n := |chunks|;
    var before, s := states[n - 1], states[n];
    TextIsConserved(codec, states[..n], chunks[..n - 1]);
    assert states[..n][n - 1] == before && states[..n][0] == states[0];
    assert Feeds(codec, before, chunks[n - 1], s);
    TextIsConserved(codec, states, chunks);
    var text := before.buffer + chunks[n - 1];
    PartOfLine(before.consumed, text, line);
    OneLine(codec, line);
    if |text| > 0 {
      assert text == line + [LF];
    }
    assert |s.buffer| == 0;
    assert s.consumed == line + [LF];
  }

  lemma {:induction false} EncodedMessage(codec: Codec, m: Message)
    requires IsCodec(codec) && Utf8.WellFormed(codec.stringify(m))
    ensures LF !in Utf8.Encoded(codec.stringify(m))
    ensures Utf8.Encoded(EncodeJsonLine(codec, m)) == Utf8.Encoded(codec.stringify(m)) + [LF]
    ensures Utf8.Decoded(Utf8.Encoded(EncodeJsonLine(codec, m))) == codec.stringify(m) + [LF]
  {
    var sent := codec.stringify(m);
    Utf8.EncodedHas(sent, LF);
    Utf8.EncodedJoins(sent, [LF]);
    assert Utf8.Encoded([LF]) == [LF];
    Utf8.WellFormedIsRepaired(sent);
    Utf8.DecodingInvertsEncoding(sent);
    Utf8.DecodedLast(Utf8.Encoded(sent), LF);
  }

  lemma SameBeforeFeed(a: Text, b: Text)
    ensures a + [LF] == b + [LF] <==> a == b
  {
    if a + [LF] == b + [LF] {
      assert (a + [LF])[..|a|] == a && (b + [LF])[..|b|] == b;
    }
  }

  /** An encoded message as Buffers, however it is cut: one line arrives, its
      message goes out, and the line is the one that was sent exactly when no
      cut goes through a character. */
  lemma {:induction false} CutMessageArrives(codec: Codec, m: Message, states: seq<State>, chunks: seq<Utf8.Bytes>)
    returns (line: Text)
    requires IsCodec(codec) && Utf8.WellFormed(codec.stringify(m)) && ByteCalls(codec, states, chunks)
    requires Utf8.Concat(chunks) == Utf8.Encoded(EncodeJsonLine(codec, m))
    ensures LF !in line && (line == codec.stringify(m) <==> Utf8.CutAtBoundaries(chunks))
    ensures states[|chunks|].emitted == LineMessages(codec.read(line)) && |states[|chunks|].buffer| == 0
    ensures states[|chunks|].emitted == [m] <==> codec.read(line) == Good(m)
  {
    EncodedMessage(codec, m);
    line := Utf8.ChunksEnd(chunks, Utf8.Encoded(codec.stringify(m)), LF);
    AppendedToEmpty(states[0].buffer, Utf8.DecodedEach(chunks));
    OneLineArrives(codec, line, states, Utf8.DecodedEach(chunks));
    Utf8.ChunksDecodeIff(chunks);
    SameBeforeFeed(line, codec.stringify(m));
  }

  /** The line that arrives for a letter that was cut in two. */
  function Garbled(before: Text, after: Text): Text {
    before + [Utf8.REPLACEMENT, Utf8.REPLACEMENT] + after
  }

  lemma GarbledParts(before: Text, after: Text)
    ensures (before + [Utf8.REPLACEMENT]) + ([Utf8.REPLACEMENT] + (after + [LF])) == Garbled(before, after) + [LF]
  {
  }

  lemma LineParts(before: Text, letter: Unit, after: Text)
    ensures before + [letter] + after + [LF] == before + [letter] + (after + [LF])
  {
  }

  /** An encoded message that is cut inside a letter of two bytes arrives as
      another line, with two U+FFFD in place of the letter. */
  lemma SplitLetterIsGarbled(codec: Codec, m: Message, before: Text, letter: Unit, after: Text)
    returns (a: Utf8.Bytes, b: Utf8.Bytes)
    requires IsCodec(codec) && codec.stringify(m) == before + [letter] + after
    requires Utf8.WellFormed(before) && Utf8.WellFormed(after) && 0x80 <= letter < 0x800
    ensures Utf8.Concat([a, b]) == Utf8.Encoded(EncodeJsonLine(codec, m)) && !Utf8.CutAtBoundaries([a, b])
    ensures Utf8.Joined(Utf8.DecodedEach([a, b])) == Garbled(before, after) + [LF]
    ensures Garbled(before, after) != codec.stringify(m)
    ensures Messages(codec, Garbled(before, after) + [LF]) == LineMessages(codec.read(Garbled(before, after)))
  {
    Utf8.WellFormedJoins(after, [LF]);
    LineParts(before, letter, after);
    a, b := Utf8.SplitLetter(before, letter, after + [LF]);
    TwoChunks(a, b);
    GarbledParts(before, after);
    GarbledIsLine(codec, m, before, letter, after);
    SplitIsInside(codec, m, before, letter, after, a, b);
  }

  lemma GarbledIsLine(codec: Codec, m: Message, before: Text, letter: Unit, after: Text)
    requires IsCodec(codec) && codec.stringify(m) == before + [letter] + after
    ensures Messages(codec, Garbled(before, after) + [LF]) == LineMessages(codec.read(Garbled(before, after)))
  {
    var garbled := Garbled(before, after);
    var line := garbled + [LF];
    forall k | 0 <= k < |garbled|
      ensures !IsLineFeed(line, k)
    {
      assert line[k] == garbled[k];
      assert garbled[k] in before || garbled[k] in after || garbled[k] == Utf8.REPLACEMENT;
      assert garbled[k] != Utf8.REPLACEMENT ==> garbled[k] in codec.stringify(m);
    }
    assert IsLineFeed(line, |garbled|);
    FirstLineFeed(line, |garbled|);
    MessagesStep(codec, line);
    assert line[..|garbled|] == garbled && |line[|garbled| + 1..]| == 0;
    NoLine(codec, line[|garbled| + 1..]);
  }

  lemma SplitIsInside(codec: Codec, m: Message, before: Text, letter: Unit, after: Text, a: Utf8.Bytes, b: Utf8.Bytes)
    requires codec.stringify(m) == before + [letter] + after
    requires Utf8.Concat([a, b]) == Utf8.Encoded(EncodeJsonLine(codec, m))
    requires |Utf8.Joined(Utf8.DecodedEach([a, b]))| == |codec.stringify(m)| + 2
    ensures !Utf8.CutAtBoundaries([a, b])
  {
    Utf8.ChunksDecodeIff([a, b]);
    Utf8.DecodingInvertsEncoding(EncodeJsonLine(codec, m));
  }
}
