/** What the clients record about one request, and the metrics read. Times are
    exact reals in seconds. */
module Requests {

  /** Why a request failed: refused by the server, an exception on the way, or
      no chunk that a first-token time could be taken from. */
  datatype Error = NoError | Refused | Exception | NoValidChunk

  datatype Output = Output(success: bool, latency: real, ttft: real, itl: seq<real>, outputTokens: nat,
                           text: string, error: Error)

  const INITIAL := Output(false, 0.0, 0.0, [], 0, "", NoError)

  function Sum(xs: seq<real>): real {
    if xs == [] then 0.0 else Sum(xs[..|xs| - 1]) + xs[|xs| - 1]
  }

  lemma SumSnoc(xs: seq<real>, x: real)
    ensures Sum(xs + [x]) == Sum(xs) + x
  {
    assert (xs + [x])[..|xs|] == xs;
  }

  lemma {:induction false} SumAppend(xs: seq<real>, ys: seq<real>)
    ensures Sum(xs + ys) == Sum(xs) + Sum(ys)
  {
    if ys == [] {
      assert xs + ys == xs;
    } else {
      var front, y := ys[..|ys| - 1], ys[|ys| - 1];
      assert xs + ys == (xs + front) + [y];
      SumAppend(xs, front);
      SumSnoc(xs + front, y);
    }
  }
}

/** Latency accounting of the streaming benchmark clients. The response is a
    stream of already decoded chunks, each with the clock readings taken while
    it is handled. */
module Streaming {

  import opened Options
  import opened Requests
  import opened Sequences

  function LastTime(st: real, times: seq<real>): real {
    if times == [] then st else times[|times| - 1]
  }

  // ---- TRT-LLM: every chunk is a token, zero is the "no token yet" sentinel

  datatype TrtChunk = TrtBlank | TrtToken(time: real, text: string) | TrtBad

  function TrtTimes(chunks: seq<TrtChunk>): seq<real> {
    if chunks == [] then []
    else
      var c := chunks[|chunks| - 1];
      if c.TrtToken? then TrtTimes(chunks[..|chunks| - 1]) + [c.time] else TrtTimes(chunks[..|chunks| - 1])
  }

  function TrtText(chunks: seq<TrtChunk>): string {
    if chunks == [] then ""
    else
      var c := chunks[|chunks| - 1];
      if c.TrtToken? then TrtText(chunks[..|chunks| - 1]) + c.text else TrtText(chunks[..|chunks| - 1])
  }

  predicate TrtTimed(c: TrtChunk, t: real) {
    c.TrtToken? && c.time == t
  }

  predicate TrtSaid(c: TrtChunk, text: string) {
    c.TrtToken? && c.text == text
  }

  /** The times are those of the tokens, in order. */
  lemma {:induction false} TrtTimesMean(chunks: seq<TrtChunk>) returns (at: seq<nat>)
    ensures Picked(chunks, (c: TrtChunk) => c.TrtToken?, (c: TrtChunk, t: real) => TrtTimed(c, t), TrtTimes(chunks), at)
  {
    at := [];
    if chunks != [] {
      var front, c := chunks[..|chunks| - 1], chunks[|chunks| - 1];
      at := TrtTimesMean(front);
      assert chunks == front + [c];
      PickedNext(front, c, (c: TrtChunk) => c.TrtToken?, (c: TrtChunk, t: real) => TrtTimed(c, t),
                 TrtTimes(front), at, if c.TrtToken? then c.time else 0.0);
      if c.TrtToken? {
        at := at + [|front|];
      }
    }
  }

  /** The text is that of the tokens, one behind the other. */
  lemma {:induction false} TrtTextMeans(chunks: seq<TrtChunk>) returns (texts: seq<string>, at: seq<nat>)
    ensures Picked(chunks, (c: TrtChunk) => c.TrtToken?, (c: TrtChunk, t: string) => TrtSaid(c, t), texts, at)
    ensures TrtText(chunks) == Flatten(texts)
  {
    texts, at := [], [];
    if chunks != [] {
      var front, c := chunks[..|chunks| - 1], chunks[|chunks| - 1];
      texts, at := TrtTextMeans(front);
      assert chunks == front + [c];
      var text := if c.TrtToken? then c.text else "";
      PickedNext(front, c, (c: TrtChunk) => c.TrtToken?, (c: TrtChunk, t: string) => TrtSaid(c, t), texts, at, text);
      if c.TrtToken? {
        FlattenSnoc(texts, text);
        texts, at := texts + [text], at + [|front|];
      }
    }
  }

  lemma TrtNext(chunks: seq<TrtChunk>, n: nat)
    requires n < |chunks|
    ensures
      var before, c, after := chunks[..n], chunks[n], chunks[..n + 1];
      && TrtTimes(after) == (if c.TrtToken? then TrtTimes(before) + [c.time] else TrtTimes(before))
      && TrtText(after) == (if c.TrtToken? then TrtText(before) + c.text else TrtText(before))
      && (TrtBad in after <==> TrtBad in before || c.TrtBad?)
  {
    assert chunks[..n + 1][..n] == chunks[..n];
  }

  /** The first token that came after the start, or the number of tokens. */
  function FirstAfter(st: real, times: seq<real>): (k: nat)
    ensures k <= |times|
    ensures forall i :: 0 <= i < k ==> times[i] == st
    ensures k < |times| ==> times[k] != st
  {
    if times == [] then 0
    else
      var k := FirstAfter(st, times[..|times| - 1]);
      if k == |times| - 1 && times[k] == st then k + 1 else k
  }

  /** Gaps between successive tokens from the k-th on. */
  function GapsFrom(times: seq<real>, k: nat): (gaps: seq<real>)
    ensures k < |times| ==> |gaps| == |times| - 1 - k
    ensures forall i :: 0 <= i < |gaps| ==> k + i + 1 < |times| && gaps[i] == times[k + i + 1] - times[k + i]
  {
    if k >= |times| then []
    else seq(|times| - 1 - k, i requires 0 <= i < |times| - 1 - k => times[k + i + 1] - times[k + i])
  }

  /** The time to the first token, as the client defines it. */
  function Ttft(st: real, times: seq<real>): real {
    var k := FirstAfter(st, times);
    if k < |times| then times[k] - st else 0.0
  }

  /** First-token time and inter-token times telescope to the latency, even when
      the clock has not moved when the first tokens arrive. */
  lemma {:induction false} Telescope(st: real, times: seq<real>)
    ensures Ttft(st, times) + Sum(GapsFrom(times, FirstAfter(st, times))) == LastTime(st, times) - st
  {
    if times != [] {
      var front, t := times[..|times| - 1], times[|times| - 1];
      Telescope(st, front);
      var k := FirstAfter(st, front);
      if k < |front| {
        assert FirstAfter(st, times) == k;
        assert GapsFrom(times, k) == GapsFrom(front, k) + [t - front[|front| - 1]];
        SumSnoc(GapsFrom(front, k), t - front[|front| - 1]);
      } else {
        assert GapsFrom(times, FirstAfter(st, times)) == [];
      }
    }
  }

  lemma NextToken(st: real, times: seq<real>, t: real)
    ensures
      var k := FirstAfter(st, times);
      var longer := times + [t];
      if k < |times| then
        && Ttft(st, longer) == Ttft(st, times) && Ttft(st, times) != 0.0
        && GapsFrom(longer, FirstAfter(st, longer)) == GapsFrom(times, k) + [t - LastTime(st, times)]
      else
        && Ttft(st, times) == 0.0
        && Ttft(st, longer) == t - st
        && GapsFrom(longer, FirstAfter(st, longer)) == [] == GapsFrom(times, k)
  {
    assert (times + [t])[..|times|] == times;
  }

  /** The loop variables after the tokens `times`. */
  ghost predicate TrtState(st: real, times: seq<real>, ttft: real, mostRecent: real, itl: seq<real>) {
    && mostRecent == LastTime(st, times)
    && ttft == Ttft(st, times)
    && itl == GapsFrom(times, FirstAfter(st, times))
  }

  lemma TrtStep(st: real, times: seq<real>, ttft: real, mostRecent: real, itl: seq<real>, t: real)
    requires TrtState(st, times, ttft, mostRecent, itl)
    ensures ttft == 0.0 ==> TrtState(st, times + [t], t - st, t, itl)
    ensures ttft != 0.0 ==> TrtState(st, times + [t], ttft, t, itl + [t - mostRecent])
  {
    NextToken(st, times, t);
  }

  /** The chunk loop. The request succeeds exactly when the response is accepted
      and every chunk decodes; the record then holds the real first-token time,
      every later gap, and they add up to the latency, and the text of all
      tokens in order. A request that fails on the way keeps the text so far. */
  method RequestTrtLlm(accepted: bool, st: real, chunks: seq<TrtChunk>) returns (output: Output)
    ensures output.success <==> accepted && TrtBad !in chunks
    ensures output.error == if !accepted then Refused else if TrtBad in chunks then Exception else NoError
    ensures output.success ==>
              var times := TrtTimes(chunks);
              && output.outputTokens == 0
              && output.ttft == Ttft(st, times)
              && output.itl == GapsFrom(times, FirstAfter(st, times))
              && output.latency == LastTime(st, times) - st
              && output.ttft + Sum(output.itl) == output.latency
              && output.text == TrtText(chunks)
    ensures !output.success ==> output.latency == 0.0
    ensures output.error.Exception? ==>
              exists n :: 0 <= n < |chunks| && chunks[n].TrtBad? && TrtBad !in chunks[..n] && output.text == TrtText(chunks[..n])
  {
    output := INITIAL;
    if !accepted {
      output := output.(error := Refused);
      return;
    }
    var ttft, mostRecentTimestamp := 0.0, st;
    for n := 0 to |chunks|
      invariant TrtBad !in chunks[..n]
      invariant output == INITIAL.(ttft := ttft, itl := output.itl, text := TrtText(chunks[..n]))
      invariant TrtState(st, TrtTimes(chunks[..n]), ttft, mostRecentTimestamp, output.itl)
    {
      TrtNext(chunks, n);
      match chunks[n] {
        case TrtBlank =>
        case TrtBad =>
          output := output.(error := Exception);
          return;
        case TrtToken(timestamp, text) =>
          TrtStep(st, TrtTimes(chunks[..n]), ttft, mostRecentTimestamp, output.itl, timestamp);
          output := output.(text := output.text + text);
          if ttft == 0.0 {
            ttft := timestamp - st;
            output := output.(ttft := ttft);
          } else {
            output := output.(itl := output.itl + [timestamp - mostRecentTimestamp]);
          }
          mostRecentTimestamp := timestamp;
      }
    }
    assert chunks[..|chunks|] == chunks;
    Telescope(st, TrtTimes(chunks));
    output := output.(latency := mostRecentTimestamp - st, success := true);
  }

  // ---- server-sent events, shared by the two OpenAI clients

  /** A decoded event. `Comment` begins with a colon; `first` and `second` are
      the clock readings the client may take while handling a data event, and
      `text` is the text of its first choice, empty when that has none. */
  datatype Chunk =
    | Blank
    | Comment
    | Done
    | Data(choices: bool, usage: Option<nat>, first: real, second: real, text: string)
    | Bad

  function DataOf(chunks: seq<Chunk>): seq<Chunk> {
    if chunks == [] then []
    else
      var c := chunks[|chunks| - 1];
      if c.Data? then DataOf(chunks[..|chunks| - 1]) + [c] else DataOf(chunks[..|chunks| - 1])
  }

  /** The text of all events with choices, in order. */
  function TextOf(chunks: seq<Chunk>): string {
    if chunks == [] then ""
    else
      var c := chunks[|chunks| - 1];
      if c.Data? && c.choices then TextOf(chunks[..|chunks| - 1]) + c.text else TextOf(chunks[..|chunks| - 1])
  }

  predicate Said(c: Chunk, text: string) {
    c.Data? && c.text == text
  }

  /** The text is that of the events with choices, one behind the other. */
  lemma {:induction false} TextMeans(chunks: seq<Chunk>) returns (texts: seq<string>, at: seq<nat>)
    ensures Picked(chunks, (c: Chunk) => c.Data? && c.choices, (c: Chunk, t: string) => Said(c, t), texts, at)
    ensures TextOf(chunks) == Flatten(texts)
  {
    texts, at := [], [];
    if chunks != [] {
      var front, c := chunks[..|chunks| - 1], chunks[|chunks| - 1];
      texts, at := TextMeans(front);
      assert chunks == front + [c];
      var text := if c.Data? then c.text else "";
      PickedNext(front, c, (c: Chunk) => c.Data? && c.choices, (c: Chunk, t: string) => Said(c, t), texts, at, text);
      if c.Data? && c.choices {
        FlattenSnoc(texts, text);
        texts, at := texts + [text], at + [|front|];
      }
    }
  }

  /** The data events, in order. */
  lemma {:induction false} DataMean(chunks: seq<Chunk>) returns (at: seq<nat>)
    ensures Picked(chunks, (c: Chunk) => c.Data?, (c: Chunk, d: Chunk) => c == d, DataOf(chunks), at)
  {
    at := [];
    if chunks != [] {
      var front, c := chunks[..|chunks| - 1], chunks[|chunks| - 1];
      at := DataMean(front);
      assert chunks == front + [c];
      PickedNext(front, c, (c: Chunk) => c.Data?, (c: Chunk, d: Chunk) => c == d, DataOf(front), at, c);
      if c.Data? {
        at := at + [|front|];
      }
    }
  }

  lemma DataNext(chunks: seq<Chunk>, n: nat)
    requires n < |chunks|
    ensures
      var before, c, after := chunks[..n], chunks[n], chunks[..n + 1];
      && DataOf(after) == (if c.Data? then DataOf(before) + [c] else DataOf(before))
      && TextOf(after) == (if c.Data? && c.choices then TextOf(before) + c.text else TextOf(before))
      && (Bad in after <==> Bad in before || c.Bad?)
  {
    assert chunks[..n + 1][..n] == chunks[..n];
  }

  ghost predicate AllData(data: seq<Chunk>) {
    forall i :: 0 <= i < |data| ==> data[i].Data?
  }

  // ---- chat completions

  function LastRead(st: real, data: seq<Chunk>): real {
    if data != [] && data[|data| - 1].Data? then data[|data| - 1].first else st
  }

  /** Some chunk with choices has arrived after the start. */
  ghost predicate Started(st: real, data: seq<Chunk>) {
    exists i :: 0 <= i < |data| && data[i].Data? && data[i].choices && data[i].first != st
  }

  /** The time that the record loses: gaps that end in a data chunk without
      choices, unless a first token still to come takes them in. */
  ghost function Lost(st: real, data: seq<Chunk>): real {
    if data == [] || !data[|data| - 1].Data? then 0.0
    else
      var front, c := data[..|data| - 1], data[|data| - 1];
      if c.choices then (if Started(st, front) then Lost(st, front) else 0.0)
      else Lost(st, front) + (c.first - LastRead(st, front))
  }

  /** One gap per chunk with choices that follows the first token, each to the
      data chunk before it. */
  ghost function ChatGaps(st: real, data: seq<Chunk>): seq<real> {
    if data == [] || !data[|data| - 1].Data? then []
    else
      var front, c := data[..|data| - 1], data[|data| - 1];
      if c.choices && Started(st, front) then ChatGaps(st, front) + [c.first - LastRead(st, front)]
      else ChatGaps(st, front)
  }

  /** The token count of the last usage report that came without choices. */
  function ChatUsage(data: seq<Chunk>): nat {
    if data == [] then 0
    else
      var c := data[|data| - 1];
      if c.Data? && !c.choices && c.usage.Some? then c.usage.value else ChatUsage(data[..|data| - 1])
  }

  /** The last usage report without choices decides the token count; without
      one it is zero. */
  lemma {:induction false} ChatUsageMeans(data: seq<Chunk>, n: nat)
    requires n <= |data|
    requires forall i :: n <= i < |data| ==> !(data[i].Data? && !data[i].choices && data[i].usage.Some?)
    ensures n == 0 ==> ChatUsage(data) == 0
    ensures n > 0 && data[n - 1].Data? && !data[n - 1].choices && data[n - 1].usage.Some? ==>
              ChatUsage(data) == data[n - 1].usage.value
    decreases |data|
  {
    if n < |data| {
      ChatUsageMeans(data[..|data| - 1], n);
    }
  }

  lemma ChatUsageNext(data: seq<Chunk>, c: Chunk)
    ensures ChatUsage(data + [c]) ==
            if c.Data? && !c.choices && c.usage.Some? then c.usage.value else ChatUsage(data)
  {
    assert (data + [c])[..|data|] == data;
  }

  ghost predicate Monotone(st: real, data: seq<Chunk>) {
    && AllData(data)
    && (data != [] ==> st <= data[0].first)
    && (forall i :: 0 < i < |data| ==> data[i - 1].first <= data[i].first)
  }

  lemma StartedNext(st: real, front: seq<Chunk>, c: Chunk)
    ensures Started(st, front + [c]) <==> Started(st, front) || (c.Data? && c.choices && c.first != st)
  {
    var data := front + [c];
    assert data[|front|] == c && forall i :: 0 <= i < |front| ==> data[i] == front[i];
  }

  lemma LostNext(st: real, front: seq<Chunk>, c: Chunk)
    requires c.Data?
    ensures Lost(st, front + [c]) ==
            if c.choices then (if Started(st, front) then Lost(st, front) else 0.0)
            else Lost(st, front) + (c.first - LastRead(st, front))
    ensures LastRead(st, front + [c]) == c.first
    ensures ChatGaps(st, front + [c]) ==
            if c.choices && Started(st, front) then ChatGaps(st, front) + [c.first - LastRead(st, front)]
            else ChatGaps(st, front)
  {
    assert (front + [c])[..|front|] == front;
  }

  /** Event i is the first token: it has choices and comes after the start, and
      none before it does. */
  ghost predicate FirstTokenAt(st: real, data: seq<Chunk>, i: nat) {
    i < |data| && data[i].Data? && data[i].choices && data[i].first != st && !Started(st, data[..i])
  }

  ghost predicate TtftIs(st: real, data: seq<Chunk>, ttft: real) {
    forall i: nat :: FirstTokenAt(st, data, i) ==> ttft == data[i].first - st
  }

  lemma TtftNext(st: real, data: seq<Chunk>, ttft: real, c: Chunk, ttft': real)
    requires TtftIs(st, data, ttft)
    requires Started(st, data) ==> ttft' == ttft
    requires c.Data? && c.choices && !Started(st, data) ==> ttft' == c.first - st
    ensures TtftIs(st, data + [c], ttft')
  {
    forall i: nat | FirstTokenAt(st, data + [c], i) ensures ttft' == (data + [c])[i].first - st {
      if i < |data| {
        assert (data + [c])[..i] == data[..i];
        assert FirstTokenAt(st, data, i);
      } else {
        assert (data + [c])[..i] == data;
      }
    }
  }

  /** The loop variables after the data chunks `data`. */
  ghost predicate ChatState(st: real, data: seq<Chunk>, ttft: real, mostRecent: real, itl: seq<real>) {
    && mostRecent == LastRead(st, data)
    && itl == ChatGaps(st, data)
    && (ttft != 0.0 <==> Started(st, data))
    && (ttft == 0.0 ==> itl == [])
    && TtftIs(st, data, ttft)
    && ttft + Sum(itl) + Lost(st, data) == mostRecent - st
  }

  lemma ChatStep(st: real, data: seq<Chunk>, ttft: real, mostRecent: real, itl: seq<real>, c: Chunk)
    requires ChatState(st, data, ttft, mostRecent, itl) && c.Data?
    ensures !c.choices ==> ChatState(st, data + [c], ttft, c.first, itl)
    ensures c.choices && ttft == 0.0 ==> ChatState(st, data + [c], c.first - st, c.first, itl)
    ensures c.choices && ttft != 0.0 ==> ChatState(st, data + [c], ttft, c.first, itl + [c.first - mostRecent])
  {
    StartedNext(st, data, c);
    LostNext(st, data, c);
    SumSnoc(itl, c.first - mostRecent);
    if c.choices && ttft == 0.0 {
      TtftNext(st, data, ttft, c, c.first - st);
    } else {
      TtftNext(st, data, ttft, c, ttft);
    }
  }

  /** Takes one data event: a first token, one more gap, or a usage report. */
  method RecordEvent(st: real, c: Chunk, output: Output, mostRecentTimestamp: real, ghost data: seq<Chunk>)
    returns (updated: Output)
    requires c.Data? && ChatState(st, data, output.ttft, mostRecentTimestamp, output.itl)
    requires output.outputTokens == ChatUsage(data)
    ensures ChatState(st, data + [c], updated.ttft, c.first, updated.itl)
    ensures updated.outputTokens == ChatUsage(data + [c])
    ensures updated == output.(ttft := updated.ttft, itl := updated.itl, outputTokens := updated.outputTokens)
  {
    ChatStep(st, data, output.ttft, mostRecentTimestamp, output.itl, c);
    ChatUsageNext(data, c);
    updated := output;
    if c.choices {
      if output.ttft == 0.0 {
        updated := output.(ttft := c.first - st);
      } else {
        updated := output.(itl := output.itl + [c.first - mostRecentTimestamp]);
      }
    } else if c.usage.Some? {
      updated := output.(outputTokens := c.usage.value);
    }
  }

  /** The chunk loop. Colon comments are skipped. On success the record plus the
      lost time is the latency; a request that fails keeps no text. */
  method RequestChat(accepted: bool, st: real, chunks: seq<Chunk>) returns (output: Output)
    ensures output.success <==> accepted && Bad !in chunks
    ensures output.error == if !accepted then Refused else if Bad in chunks then Exception else NoError
    ensures output.success ==>
              && output.latency == LastRead(st, DataOf(chunks)) - st
              && (output.ttft != 0.0 <==> Started(st, DataOf(chunks)))
              && TtftIs(st, DataOf(chunks), output.ttft)
              && output.itl == ChatGaps(st, DataOf(chunks))
              && output.outputTokens == ChatUsage(DataOf(chunks))
              && output.ttft + Sum(output.itl) + Lost(st, DataOf(chunks)) == output.latency
              && output.text == TextOf(chunks)
    ensures !output.success ==> output.latency == 0.0 && output.text == ""
  {
    output := INITIAL;
    if !accepted {
      output := output.(error := Refused);
      return;
    }
    var generatedText, mostRecentTimestamp := "", st;
    for n := 0 to |chunks|
      invariant Bad !in chunks[..n]
      invariant output == INITIAL.(ttft := output.ttft, itl := output.itl, outputTokens := ChatUsage(DataOf(chunks[..n])))
      invariant generatedText == TextOf(chunks[..n])
      invariant ChatState(st, DataOf(chunks[..n]), output.ttft, mostRecentTimestamp, output.itl)
    {
      DataNext(chunks, n);
      var c := chunks[n];
      if c.Blank? || c.Comment? || c.Done? {
        continue;
      }
      if c.Bad? {
        output := output.(error := Exception);
        return;
      }
      output := RecordEvent(st, c, output, mostRecentTimestamp, DataOf(chunks[..n]));
      if c.choices {
        generatedText := generatedText + c.text;
      }
      mostRecentTimestamp := c.first;
    }
    assert chunks[..|chunks|] == chunks;
    output := output.(text := generatedText, success := true, latency := mostRecentTimestamp - st);
  }

  /** Every stream of one token and a later usage report loses time: what lies
      between the two is in the latency but not in the record. */
  lemma UsageReportLosesTime(st: real, token: Chunk, report: Chunk)
    requires token.Data? && token.choices && report.Data? && !report.choices
    requires st < token.first < report.first
    ensures Monotone(st, [token, report]) && ChatGaps(st, [token, report]) == []
    ensures Lost(st, [token, report]) == report.first - token.first > 0.0
  {
    assert [] + [token] == [token] && [token] + [report] == [token, report];
    LostNext(st, [], token);
    LostNext(st, [token], report);
  }

  /** Index i marks a loss: a data chunk without choices arrives later than its
      predecessor, with the first token behind it or never to come. */
  ghost predicate LossAt(st: real, data: seq<Chunk>, i: nat)
    requires i < |data| && AllData(data)
  {
    !data[i].choices && data[i].first != LastRead(st, data[..i])
    && (Started(st, data[..i]) || !Started(st, data))
  }

  /** With a clock that never goes back the lost time is never negative, and it
      is zero exactly when no chunk marks a loss; in particular when every data
      chunk carries choices. */
  lemma {:induction false} LostExact(st: real, data: seq<Chunk>)
    requires Monotone(st, data)
    ensures Lost(st, data) >= 0.0
    ensures Lost(st, data) == 0.0 <==> NoLoss(st, data)
  {
    if data != [] {
      var front, c := data[..|data| - 1], data[|data| - 1];
      assert data == front + [c];
      LostExact(st, front);
      AtLeastStart(st, data);
      LostNext(st, front, c);
      if !c.choices {
        assert LastRead(st, front) <= c.first;
        NoLossUntimed(st, front, c);
      } else if Started(st, front) {
        NoLossTimed(st, front, c);
      } else {
        NoLossAtFirst(st, front, c);
      }
    }
  }

  /** The chat client's record of `data` is the TRT-LLM client's record of tokens
      at `times`. */
  ghost predicate SameRecord(st: real, data: seq<Chunk>, times: seq<real>) {
    && LastRead(st, data) == LastTime(st, times)
    && (Started(st, data) <==> FirstAfter(st, times) < |times|)
    && ChatGaps(st, data) == GapsFrom(times, FirstAfter(st, times))
    && Lost(st, data) == 0.0
  }

  lemma SameRecordNext(st: real, data: seq<Chunk>, times: seq<real>, c: Chunk)
    requires SameRecord(st, data, times) && c.Data? && c.choices
    ensures SameRecord(st, data + [c], times + [c.first])
  {
    LostNext(st, data, c);
    StartedNext(st, data, c);
    NextToken(st, times, c.first);
    FirstAfterNext(st, times, c.first);
  }

  /** With choices in every data event the chat client records what the TRT-LLM
      client would: its events are tokens. */
  lemma {:induction false} AllChoicesAreTokens(st: real, data: seq<Chunk>)
    requires AllData(data) && forall i :: 0 <= i < |data| ==> data[i].choices
    ensures SameRecord(st, data, FirstReads(data))
  {
    if data != [] {
      var front, c := data[..|data| - 1], data[|data| - 1];
      assert data == front + [c];
      AllChoicesAreTokens(st, front);
      SameRecordNext(st, front, FirstReads(front), c);
      assert FirstReads(data) == FirstReads(front) + [c.first];
    }
  }

  lemma FirstAfterNext(st: real, times: seq<real>, t: real)
    ensures
      var k := FirstAfter(st, times);
      FirstAfter(st, times + [t]) == if k == |times| && t == st then k + 1 else k
  {
    assert (times + [t])[..|times|] == times;
  }

  predicate GapEnds(st: real, data: seq<Chunk>, i: nat, gap: real) {
    0 < i < |data| && data[i].Data? && data[i - 1].Data? && gap == data[i].first - data[i - 1].first
  }

  ghost predicate LaterToken(st: real, data: seq<Chunk>, i: nat) {
    i < |data| && data[i].Data? && data[i].choices && Started(st, data[..i])
  }

  /** One gap for each event with choices behind the first token, back to the
      data event before it, whatever that carries. */
  lemma {:induction false} ChatGapsMean(st: real, data: seq<Chunk>, n: nat) returns (at: seq<nat>)
    requires AllData(data) && n <= |data|
    ensures |at| == |ChatGaps(st, data[..n])| && Increasing(at)
    ensures forall k :: 0 <= k < |at| ==>
              at[k] < n && LaterToken(st, data, at[k]) && GapEnds(st, data, at[k], ChatGaps(st, data[..n])[k])
    ensures forall i: nat :: i < n && LaterToken(st, data, i) ==> i in at
  {
    at := [];
    if n > 0 {
      var front, c := data[..n - 1], data[n - 1];
      at := ChatGapsMean(st, data, n - 1);
      assert data[..n] == front + [c];
      LostNext(st, front, c);
      assert LaterToken(st, data, n - 1) <==> c.choices && Started(st, front);
      if c.choices && Started(st, front) {
        assert n - 1 > 0 && LastRead(st, front) == data[n - 2].first;
        at := at + [n - 1];
        assert at[|at| - 1] == n - 1;
      }
    }
  }

  lemma AllTimedNothingLost(st: real, data: seq<Chunk>)
    requires Monotone(st, data) && forall i :: 0 <= i < |data| ==> data[i].choices
    ensures Lost(st, data) == 0.0
  {
    LostExact(st, data);
  }

  ghost predicate NoLoss(st: real, data: seq<Chunk>)
    requires AllData(data)
  {
    forall i :: 0 <= i < |data| ==> !LossAt(st, data, i)
  }

  lemma NoLossUntimed(st: real, front: seq<Chunk>, c: Chunk)
    requires AllData(front) && c.Data? && !c.choices
    ensures NoLoss(st, front + [c]) <==> NoLoss(st, front) && c.first == LastRead(st, front)
  {
    StartedNext(st, front, c);
    LossNext(st, front, c);
  }

  lemma NoLossTimed(st: real, front: seq<Chunk>, c: Chunk)
    requires AllData(front) && c.Data? && c.choices && Started(st, front)
    ensures NoLoss(st, front + [c]) <==> NoLoss(st, front)
  {
    StartedNext(st, front, c);
    LossNext(st, front, c);
  }

  lemma NoLossAtFirst(st: real, front: seq<Chunk>, c: Chunk)
    requires c.Data? && Monotone(st, front + [c]) && c.choices && !Started(st, front)
    ensures NoLoss(st, front + [c])
  {
    var data := front + [c];
    assert forall i :: 0 <= i < |front| ==> data[i] == front[i];
    StartedNext(st, front, c);
    if c.first == st {
      StillAtStart(st, data);
    }
    forall i | 0 <= i < |data| ensures !LossAt(st, data, i) {
      if i < |front| {
        assert data[..i] == front[..i];
        StartedMonotone(st, front, i);
      }
    }
  }

  /** How the marked losses change with one more chunk. */
  lemma LossNext(st: real, front: seq<Chunk>, c: Chunk)
    requires AllData(front) && c.Data?
    ensures forall i :: 0 <= i < |front| ==>
              (LossAt(st, front + [c], i) <==>
               LossAt(st, front, i) && (Started(st, front[..i]) || !Started(st, front + [c])))
    ensures LossAt(st, front + [c], |front|) <==>
            !c.choices && c.first != LastRead(st, front) && (Started(st, front) || !Started(st, front + [c]))
  {
    var data := front + [c];
    assert data[..|front|] == front;
    forall i | 0 <= i < |front|
      ensures LossAt(st, data, i) <==> LossAt(st, front, i) && (Started(st, front[..i]) || !Started(st, data))
    {
      assert data[..i] == front[..i];
      StartedMonotone(st, front, i);
      StartedNext(st, front, c);
    }
  }

  lemma StartedMonotone(st: real, data: seq<Chunk>, i: nat)
    requires i <= |data|
    ensures Started(st, data[..i]) ==> Started(st, data)
  {
    if Started(st, data[..i]) {
      var j :| 0 <= j < i && data[..i][j].Data? && data[..i][j].choices && data[..i][j].first != st;
      assert data[j] == data[..i][j];
    }
  }

  lemma {:induction false} StillAtStart(st: real, data: seq<Chunk>)
    requires Monotone(st, data) && LastRead(st, data) == st
    ensures forall i :: 0 <= i < |data| ==> data[i].first == st && LastRead(st, data[..i]) == st
  {
    if data != [] {
      var front := data[..|data| - 1];
      if front != [] {
        assert data[|data| - 2].first <= data[|data| - 1].first;
        assert st <= LastRead(st, front) by {
          AtLeastStart(st, front);
        }
      }
      StillAtStart(st, front);
      forall i | 0 <= i < |front| ensures data[i].first == st && LastRead(st, data[..i]) == st {
        assert data[..i] == front[..i] && data[i] == front[i];
      }
    }
  }

  lemma {:induction false} AtLeastStart(st: real, data: seq<Chunk>)
    requires Monotone(st, data)
    ensures st <= LastRead(st, data)
  {
    if |data| > 1 {
      AtLeastStart(st, data[..|data| - 1]);
    }
  }

  // ---- completions

  /** Data chunks with choices: the only ones that this client times. */
  function Choices(data: seq<Chunk>): seq<Chunk> {
    if data == [] then []
    else
      var c := data[|data| - 1];
      if c.Data? && c.choices then Choices(data[..|data| - 1]) + [c] else Choices(data[..|data| - 1])
  }

  function FirstReads(cs: seq<Chunk>): seq<real> {
    seq(|cs|, i requires 0 <= i < |cs| => if cs[i].Data? then cs[i].first else 0.0)
  }

  /** The loop variables after the chunks with choices `cs`. */
  ghost predicate CompletionState(st: real, cs: seq<Chunk>, ttft: real, mostRecent: real, itl: seq<real>) {
    if cs == [] then ttft == 0.0 && mostRecent == st && itl == []
    else
      && AllData(cs)
      && ttft == cs[0].second - st
      && mostRecent == cs[|cs| - 1].first
      && itl == GapsFrom(FirstReads(cs), 0)
      && cs[0].first + Sum(itl) == mostRecent
  }

  /** The events with choices, in order. */
  lemma {:induction false} ChoicesMean(chunks: seq<Chunk>) returns (at: seq<nat>)
    ensures Picked(chunks, (c: Chunk) => c.Data? && c.choices, (c: Chunk, d: Chunk) => c == d, Choices(chunks), at)
  {
    at := [];
    if chunks != [] {
      var front, c := chunks[..|chunks| - 1], chunks[|chunks| - 1];
      at := ChoicesMean(front);
      assert chunks == front + [c];
      PickedNext(front, c, (c: Chunk) => c.Data? && c.choices, (c: Chunk, d: Chunk) => c == d, Choices(front), at, c);
      if c.Data? && c.choices {
        at := at + [|front|];
      }
    }
  }

  lemma CompletionStep(st: real, cs: seq<Chunk>, ttft: real, mostRecent: real, itl: seq<real>, c: Chunk)
    requires CompletionState(st, cs, ttft, mostRecent, itl) && c.Data?
    ensures cs == [] ==> CompletionState(st, cs + [c], c.second - st, c.first, itl)
    ensures cs != [] ==> CompletionState(st, cs + [c], ttft, c.first, itl + [c.first - mostRecent])
  {
    if cs != [] {
      SumSnoc(itl, c.first - mostRecent);
      assert FirstReads(cs + [c]) == FirstReads(cs) + [c.first];
      assert GapsFrom(FirstReads(cs + [c]), 0) == GapsFrom(FirstReads(cs), 0) + [c.first - mostRecent];
    } else {
      assert GapsFrom(FirstReads([c]), 0) == [];
    }
  }

  function LastUsage(data: seq<Chunk>): nat {
    if data == [] then 0
    else
      var c := data[|data| - 1];
      if c.Data? && c.usage.Some? then c.usage.value else LastUsage(data[..|data| - 1])
  }

  /** The last usage report decides the token count; without one it is zero. */
  lemma {:induction false} LastUsageMeans(data: seq<Chunk>, n: nat)
    requires n <= |data|
    requires forall i :: n <= i < |data| ==> !(data[i].Data? && data[i].usage.Some?)
    ensures n == 0 ==> LastUsage(data) == 0
    ensures n > 0 && data[n - 1].Data? && data[n - 1].usage.Some? ==> LastUsage(data) == data[n - 1].usage.value
    decreases |data|
  {
    if n < |data| {
      LastUsageMeans(data[..|data| - 1], n);
    }
  }

  /** No chunk fails to decode. */
  predicate Decodes(chunks: seq<Chunk>) {
    chunks == [] ||
    (Decodes(chunks[..|chunks| - 1]) && !chunks[|chunks| - 1].Bad? && !chunks[|chunks| - 1].Comment?)
  }

  lemma {:induction false} DecodesMeans(chunks: seq<Chunk>)
    ensures Decodes(chunks) <==> Bad !in chunks && Comment !in chunks
  {
    if chunks != [] {
      DecodesMeans(chunks[..|chunks| - 1]);
      assert chunks == chunks[..|chunks| - 1] + [chunks[|chunks| - 1]];
    }
  }

  lemma {:induction false} DecodesPrefix(chunks: seq<Chunk>, n: nat)
    requires n <= |chunks|
    ensures Decodes(chunks) ==> Decodes(chunks[..n])
  {
    if n == |chunks| {
      assert chunks[..n] == chunks;
    } else {
      assert chunks[..|chunks| - 1][..n] == chunks[..n];
      DecodesPrefix(chunks[..|chunks| - 1], n);
    }
  }

  lemma PrefixNext(chunks: seq<Chunk>, n: nat)
    requires n < |chunks|
    ensures
      var before, c, after := chunks[..n], chunks[n], chunks[..n + 1];
      && (Decodes(after) <==> Decodes(before) && !c.Bad? && !c.Comment?)
      && Choices(after) == (if c.Data? && c.choices then Choices(before) + [c] else Choices(before))
      && LastUsage(after) == (if c.Data? && c.usage.Some? then c.usage.value else LastUsage(before))
      && TextOf(after) == (if c.Data? && c.choices then TextOf(before) + c.text else TextOf(before))
  {
    assert chunks[..n + 1][..n] == chunks[..n];
  }

  lemma {:induction false} NoChoicesNoText(chunks: seq<Chunk>)
    requires Choices(chunks) == []
    ensures TextOf(chunks) == ""
  {
    if chunks != [] {
      NoChoicesNoText(chunks[..|chunks| - 1]);
    }
  }

  lemma CompletionDone(st: real, cs: seq<Chunk>, ttft: real, mostRecent: real, itl: seq<real>)
    requires CompletionState(st, cs, ttft, mostRecent, itl)
    ensures cs != [] ==>
              && cs[0].Data? && cs[|cs| - 1].Data?
              && ttft == cs[0].second - st
              && itl == GapsFrom(FirstReads(cs), 0)
              && mostRecent == cs[|cs| - 1].first
              && ttft + Sum(itl) - (mostRecent - st) == cs[0].second - cs[0].first
  {
  }

  /** Times a chunk with choices: the first token or one more gap. */
  method RecordChoice(st: real, c: Chunk, output: Output, mostRecentTimestamp: real, firstChunkReceived: bool,
                      ghost cs: seq<Chunk>)
    returns (updated: Output)
    requires c.Data? && (firstChunkReceived <==> cs != [])
    requires CompletionState(st, cs, output.ttft, mostRecentTimestamp, output.itl)
    ensures CompletionState(st, cs + [c], updated.ttft, c.first, updated.itl)
    ensures updated == output.(ttft := updated.ttft, itl := updated.itl)
  {
    CompletionStep(st, cs, output.ttft, mostRecentTimestamp, output.itl, c);
    var timestamp := c.first;
    if !firstChunkReceived {
      var ttft := c.second - st;
      updated := output.(ttft := ttft);
    } else {
      updated := output.(itl := output.itl + [timestamp - mostRecentTimestamp]);
    }
  }

  /** The chunk loop. Colon comments are not skipped and fail to decode. The
      first token is timed by a second clock reading, so the record overshoots
      the latency by exactly the time between the two readings. A request that
      fails keeps no text. */
  method RequestCompletions(accepted: bool, st: real, chunks: seq<Chunk>) returns (output: Output)
    ensures output.success <==> accepted && Decodes(chunks) && Choices(chunks) != []
    ensures output.error ==
              if !accepted then Refused else if !Decodes(chunks) then Exception
              else if Choices(chunks) == [] then NoValidChunk else NoError
    ensures output.success ==>
              var cs := Choices(chunks);
              && cs[0].Data? && cs[|cs| - 1].Data?
              && output.ttft == cs[0].second - st
              && output.itl == GapsFrom(FirstReads(cs), 0)
              && output.latency == cs[|cs| - 1].first - st
              && output.ttft + Sum(output.itl) - output.latency == cs[0].second - cs[0].first
              && output.outputTokens == LastUsage(chunks)
              && output.text == TextOf(chunks)
    ensures !output.success ==> output.latency == 0.0 && output.text == ""
  {
    output := INITIAL;
    if !accepted {
      output := output.(error := Refused);
      return;
    }
    var generatedText, mostRecentTimestamp, firstChunkReceived := "", st, false;
    for n := 0 to |chunks|
      invariant Decodes(chunks[..n])
      invariant output == INITIAL.(ttft := output.ttft, itl := output.itl, outputTokens := LastUsage(chunks[..n]))
      invariant generatedText == TextOf(chunks[..n])
      invariant firstChunkReceived <==> Choices(chunks[..n]) != []
      invariant CompletionState(st, Choices(chunks[..n]), output.ttft, mostRecentTimestamp, output.itl)
    {
      PrefixNext(chunks, n);
      var c := chunks[n];
      if c.Blank? || c.Done? {
        continue;
      }
      if c.Bad? || c.Comment? {
        DecodesPrefix(chunks, n + 1);
        output := output.(error := Exception);
        return;
      }
      if c.choices {
        output := RecordChoice(st, c, output, mostRecentTimestamp, firstChunkReceived, Choices(chunks[..n]));
        firstChunkReceived := true;
        mostRecentTimestamp := c.first;
        generatedText := generatedText + c.text;
      }
      if c.usage.Some? {
        output := output.(outputTokens := c.usage.value);
      }
    }
    assert chunks[..|chunks|] == chunks;
    CompletionDone(st, Choices(chunks), output.ttft, mostRecentTimestamp, output.itl);
    if firstChunkReceived {
      output := output.(success := true);
    } else {
      NoChoicesNoText(chunks);
      output := output.(error := NoValidChunk);
    }
    output := output.(text := generatedText, latency := mostRecentTimestamp - st);
  }
}
