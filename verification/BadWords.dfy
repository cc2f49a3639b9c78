/** What the bad-words mask means, independently of how it is computed. */
module BadWordsSpec {
  import opened Sequences

  /** A logit is minus infinity or a finite value, taken as an exact real. */
  datatype Logit = NegInf | Fin(value: real) {
    function Plus(other: Logit): Logit {
      if NegInf? || other.NegInf? then NegInf else Fin(value + other.value)
    }
  }

  type Word = seq<int>

  /** `word` occurs in `tokens` as a contiguous run. */
  ghost predicate Occurs(word: Word, tokens: seq<int>) {
    exists i :: OccursAt(word, tokens, i)
  }

  predicate OccursAt(word: Word, tokens: seq<int>, i: int) {
    0 <= i <= |tokens| - |word| && tokens[i..i + |word|] == word
  }

  /** Emitting t after `past` would complete some bad word. */
  ghost predicate Banned(words: seq<Word>, past: seq<int>, t: int) {
    exists j :: 0 <= j < |words| && IsSuffix(words[j], past + [t])
  }

  /** The logits after masking: banned tokens at minus infinity, every other
      logit untouched. */
  ghost predicate Masked(words: seq<Word>, past: seq<int>, raw: seq<Logit>, out: seq<Logit>) {
    |out| == |raw| && forall t :: 0 <= t < |raw| ==> out[t] == if Banned(words, past, t) then NegInf else raw[t]
  }

  /** `tokens` can be sampled from the raw logits `raw` through the mask: each
      token's masked logit is not minus infinity. */
  ghost predicate Emittable(words: seq<Word>, raw: seq<seq<Logit>>, tokens: seq<int>) {
    |raw| == |tokens| &&
    forall k :: 0 <= k < |tokens| ==> StepAllowed(words, raw[k], tokens[..k], tokens[k])
  }

  ghost predicate StepAllowed(words: seq<Word>, raw: seq<Logit>, past: seq<int>, t: int) {
    0 <= t < |raw| && raw[t] != NegInf && !Banned(words, past, t)
  }

  ghost predicate Avoids(words: seq<Word>, tokens: seq<int>) {
    forall j :: 0 <= j < |words| ==> !Occurs(words[j], tokens)
  }

  lemma SuffixOccurs(word: Word, tokens: seq<int>, k: nat)
    requires k < |tokens| && IsSuffix(word, tokens[..k] + [tokens[k]])
    ensures Occurs(word, tokens)
  {
    var i := k + 1 - |word|;
    assert tokens[..k] + [tokens[k]] == tokens[..k + 1];
    assert tokens[i..i + |word|] == tokens[..k + 1][i..];
    assert OccursAt(word, tokens, i);
  }

  lemma OccurrenceEnds(word: Word, tokens: seq<int>) returns (k: nat)
    requires word != [] && Occurs(word, tokens)
    ensures k < |tokens| && IsSuffix(word, tokens[..k] + [tokens[k]])
  {
    var i :| OccursAt(word, tokens, i);
    k := i + |word| - 1;
    assert tokens[..k] + [tokens[k]] == tokens[..k + 1];
    assert tokens[i..i + |word|] == tokens[..k + 1][i..];
  }

  /** Over a whole run that starts from an empty output: a token sequence can
      be emitted exactly when it uses no token whose raw logit is minus
      infinity and no bad word occurs anywhere in it. */
  lemma RunSafety(words: seq<Word>, raw: seq<seq<Logit>>, tokens: seq<int>)
    requires |raw| == |tokens|
    requires forall j :: 0 <= j < |words| ==> words[j] != []
    ensures Emittable(words, raw, tokens) <==>
              && (forall k :: 0 <= k < |tokens| ==> 0 <= tokens[k] < |raw[k]| && raw[k][tokens[k]] != NegInf)
              && Avoids(words, tokens)
  {
    if Emittable(words, raw, tokens) {
      forall k | 0 <= k < |tokens| ensures 0 <= tokens[k] < |raw[k]| && raw[k][tokens[k]] != NegInf {
        assert StepAllowed(words, raw[k], tokens[..k], tokens[k]);
      }
      EmittableAvoids(words, raw, tokens);
    } else {
      var k :| 0 <= k < |tokens| && !StepAllowed(words, raw[k], tokens[..k], tokens[k]);
      if Banned(words, tokens[..k], tokens[k]) {
        var j :| 0 <= j < |words| && IsSuffix(words[j], tokens[..k] + [tokens[k]]);
        SuffixOccurs(words[j], tokens, k);
      }
    }
  }

  /** A token sequence, the spaced form of a bad word for instance, is blocked
      in every run exactly when some listed word occurs in it: nothing else is
      blocked. */
  lemma BlockedExactly(words: seq<Word>, tokens: seq<int>)
    requires forall j :: 0 <= j < |words| ==> words[j] != []
    requires forall k :: 0 <= k < |tokens| ==> 0 <= tokens[k]
    ensures (exists raw :: Emittable(words, raw, tokens)) <==> Avoids(words, tokens)
  {
    if Avoids(words, tokens) {
      var raw := seq(|tokens|, k requires 0 <= k < |tokens| => seq(tokens[k] + 1, _ => Fin(0.0)));
      RunSafety(words, raw, tokens);
    }
    forall raw | Emittable(words, raw, tokens) ensures Avoids(words, tokens) {
      EmittableAvoids(words, raw, tokens);
    }
  }

  lemma EmittableAvoids(words: seq<Word>, raw: seq<seq<Logit>>, tokens: seq<int>)
    requires Emittable(words, raw, tokens)
    requires forall j :: 0 <= j < |words| ==> words[j] != []
    ensures Avoids(words, tokens)
  {
    forall j | 0 <= j < |words| ensures !Occurs(words[j], tokens) {
      if Occurs(words[j], tokens) {
        var k := OccurrenceEnds(words[j], tokens);
        assert false;
      }
    }
  }
}

/** The logits processor: a lazily built bias for one-token words and a fresh
    bias for the last tokens of longer words. */
module BadWords {
  import opened BadWordsSpec
  import opened Options
  import opened Sequences
  import opened Text

  datatype Outcome = Logits(values: seq<Logit>) | ValueError | IndexError

  predicate InBounds(words: seq<Word>, vocabSize: nat) {
    forall j, p :: 0 <= j < |words| && 0 <= p < |words[j]| ==> 0 <= words[j][p] < vocabSize
  }

  /** The tokens outside the vocabulary, in order. */
  function Outside(vocabSize: nat, tokens: seq<int>): seq<int> {
    if tokens == [] then []
    else
      var front, t := Outside(vocabSize, tokens[..|tokens| - 1]), tokens[|tokens| - 1];
      if t < 0 || t >= vocabSize then front + [t] else front
  }

  /** All of them, in order. */
  lemma {:induction false} OutsideMeans(vocabSize: nat, tokens: seq<int>) returns (at: seq<nat>)
    ensures Picked(tokens, (t: int) => !(0 <= t < vocabSize), (t: int, x: int) => t == x, Outside(vocabSize, tokens), at)
  {
    at := [];
    if tokens != [] {
      var front, t := tokens[..|tokens| - 1], tokens[|tokens| - 1];
      at := OutsideMeans(vocabSize, front);
      assert tokens == front + [t];
      PickedNext(front, t, (t: int) => !(0 <= t < vocabSize), (t: int, x: int) => t == x, Outside(vocabSize, front), at, t);
      if !(0 <= t < vocabSize) {
        at := at + [|front|];
      }
    }
  }

  lemma OutsideSnoc(vocabSize: nat, tokens: seq<int>, t: int)
    ensures Outside(vocabSize, tokens + [t]) ==
              if t < 0 || t >= vocabSize then Outside(vocabSize, tokens) + [t] else Outside(vocabSize, tokens)
  {
    assert (tokens + [t])[..|tokens|] == tokens;
  }

  lemma {:induction false} OutsideEmpty(vocabSize: nat, tokens: seq<int>)
    ensures Outside(vocabSize, tokens) == [] <==> forall p :: 0 <= p < |tokens| ==> 0 <= tokens[p] < vocabSize
  {
    if tokens != [] {
      OutsideEmpty(vocabSize, tokens[..|tokens| - 1]);
    }
  }

  lemma {:induction false} OutsideAppend(vocabSize: nat, a: seq<int>, b: seq<int>)
    ensures Outside(vocabSize, a + b) == Outside(vocabSize, a) + Outside(vocabSize, b)
  {
    if b == [] {
      assert a + b == a;
    } else {
      var front, t := b[..|b| - 1], b[|b| - 1];
      assert b == front + [t] && a + b == (a + front) + [t];
      OutsideAppend(vocabSize, a, front);
      OutsideSnoc(vocabSize, a + front, t);
    }
  }

  lemma {:induction false} InBoundsMeans(words: seq<Word>, vocabSize: nat)
    ensures InBounds(words, vocabSize) <==> Outside(vocabSize, Flatten(words)) == []
  {
    if words != [] {
      var rest := words[1..];
      InBoundsMeans(rest, vocabSize);
      OutsideAppend(vocabSize, words[0], Flatten(rest));
      OutsideEmpty(vocabSize, words[0]);
      InBoundsSplit(words, vocabSize);
    }
  }

  lemma InBoundsSplit(words: seq<Word>, vocabSize: nat)
    requires words != []
    ensures InBounds(words, vocabSize) <==>
              && (forall p :: 0 <= p < |words[0]| ==> 0 <= words[0][p] < vocabSize)
              && InBounds(words[1..], vocabSize)
  {
    if InBounds(words, vocabSize) {
      forall j, p | 0 <= j < |words[1..]| && 0 <= p < |words[1..][j]| ensures 0 <= words[1..][j][p] < vocabSize {
        assert words[1..][j] == words[j + 1];
      }
    } else {
      var j, p :| 0 <= j < |words| && 0 <= p < |words[j]| && !(0 <= words[j][p] < vocabSize);
      assert j > 0 ==> words[1..][j - 1] == words[j];
    }
  }

  /** The bias a fresh computation would give to the one-token words. */
  function FreshBias(words: seq<Word>, vocabSize: nat): seq<Logit> {
    seq(vocabSize, t => if [t] in words then NegInf else Fin(0.0))
  }

  lemma FreshBiasNext(words: seq<Word>, word: Word, vocabSize: nat)
    ensures
      var bias := FreshBias(words, vocabSize);
      FreshBias(words + [word], vocabSize) ==
        if |word| == 1 && 0 <= word[0] < vocabSize then bias[word[0] := NegInf] else bias
  {
    forall t | 0 <= t < vocabSize ensures [t] in words + [word] <==> [t] in words || word == [t] {
      LastOrBefore(words, word, [t]);
    }
    if |word| == 1 {
      assert word == [word[0]];
    }
  }

  lemma LastOrBefore<T>(s: seq<T>, x: T, y: T)
    ensures y in s + [x] <==> y in s || y == x
  {
    assert (s + [x])[|s|] == x;
  }

  /** Some word of at least two tokens, among the first k, is completed by t. */
  ghost predicate CompletedLong(words: seq<Word>, k: nat, past: seq<int>, t: int)
    requires k <= |words|
  {
    exists j :: 0 <= j < k && |words[j]| > 1 && IsSuffix(words[j], past + [t])
  }

  lemma PrefixMatch(word: Word, past: seq<int>, t: int)
    requires 1 <= |word| <= |past| + 1
    ensures IsSuffix(word, past + [t]) <==>
            past[|past| + 1 - |word|..] == word[..|word| - 1] && word[|word| - 1] == t
  {
    var n := |word| - 1;
    var tail := (past + [t])[|past| + 1 - |word|..];
    assert tail == past[|past| - n..] + [t];
    assert word == word[..n] + [word[n]];
    if word == tail {
      assert tail[..n] == past[|past| - n..] && tail[n] == t;
    }
  }

  lemma ShortOrLong(words: seq<Word>, past: seq<int>, t: int)
    requires forall j :: 0 <= j < |words| ==> words[j] != []
    ensures Banned(words, past, t) <==> [t] in words || CompletedLong(words, |words|, past, t)
  {
    if Banned(words, past, t) {
      var j :| 0 <= j < |words| && IsSuffix(words[j], past + [t]);
      if |words[j]| == 1 {
        PrefixMatch(words[j], past, t);
        assert words[j] == [t];
      }
    }
    if [t] in words {
      var j :| 0 <= j < |words| && words[j] == [t];
      PrefixMatch(words[j], past, t);
      assert past[|past|..] == [t][..0];
      assert IsSuffix(words[j], past + [t]);
    }
  }

  class NoBadWordsLogitsProcessor {
    const badWordsIds: seq<Word>
    var wordBias: Option<seq<Logit>>

    /** The cached bias, once built, is what a fresh computation would give. */
    ghost predicate Valid()
      reads this
    {
      wordBias.Some? ==>
        && InBounds(badWordsIds, |wordBias.value|)
        && wordBias.value == FreshBias(badWordsIds, |wordBias.value|)
    }

    constructor (badWordsIds: seq<Word>)
      ensures Valid() && this.badWordsIds == badWordsIds && wordBias == None
    {
      this.badWordsIds := badWordsIds;
      wordBias := None;
    }

    /** Collects the token ids outside the vocabulary, in the order of the list;
        there are none exactly when every id is inside. */
    method CheckTokenIdsBounds(vocabSize: nat) returns (invalid: seq<int>)
      ensures invalid == Outside(vocabSize, Flatten(badWordsIds))
      ensures invalid == [] <==> InBounds(badWordsIds, vocabSize)
    {
      invalid := [];
      for j := 0 to |badWordsIds|
        invariant invalid == Outside(vocabSize, Flatten(badWordsIds[..j]))
      {
        var word := badWordsIds[j];
        ghost var before := Flatten(badWordsIds[..j]);
        assert before + word[..0] == before;
        for p := 0 to |word|
          invariant invalid == Outside(vocabSize, before + word[..p])
        {
          assert before + word[..p + 1] == (before + word[..p]) + [word[p]];
          OutsideSnoc(vocabSize, before + word[..p], word[p]);
          if word[p] < 0 || word[p] >= vocabSize {
            invalid := invalid + [word[p]];
          }
        }
        assert word[..|word|] == word;
        assert badWordsIds[..j + 1] == badWordsIds[..j] + [word];
        FlattenSnoc(badWordsIds[..j], word);
      }
      assert badWordsIds[..|badWordsIds|] == badWordsIds;
      InBoundsMeans(badWordsIds, vocabSize);
    }

    /** Builds the bias vector, or fails and leaves it unset when a token id is
        outside the vocabulary. */
    method InitWordBias(vocabSize: nat) returns (ok: bool)
      requires wordBias == None
      modifies this`wordBias
      ensures ok <==> InBounds(badWordsIds, vocabSize)
      ensures wordBias == if ok then Some(FreshBias(badWordsIds, vocabSize)) else None
    {
      var invalid := CheckTokenIdsBounds(vocabSize);
      if |invalid| > 0 {
        return false;
      }
      var bias := seq(vocabSize, _ => Fin(0.0));
      assert bias == FreshBias(badWordsIds[..0], vocabSize);
      for j := 0 to |badWordsIds|
        invariant bias == FreshBias(badWordsIds[..j], vocabSize)
      {
        var word := badWordsIds[j];
        assert badWordsIds[..j + 1] == badWordsIds[..j] + [word];
        FreshBiasNext(badWordsIds[..j], word, vocabSize);
        if |word| == 1 {
          assert 0 <= badWordsIds[j][0] < vocabSize;
          bias := bias[word[0] := NegInf];
        }
      }
      assert badWordsIds[..|badWordsIds|] == badWordsIds;
      wordBias := Some(bias);
      ok := true;
    }

    /** The bias of the last tokens of longer words. An empty word has no last
        token: `None`. */
    method LastTokenBias(past: seq<int>, vocabSize: nat) returns (bias: Option<seq<Logit>>)
      requires InBounds(badWordsIds, vocabSize)
      ensures bias.None? <==> [] in badWordsIds
      ensures bias.Some? ==>
                |bias.value| == vocabSize &&
                forall t :: 0 <= t < vocabSize ==>
                  bias.value[t] == if CompletedLong(badWordsIds, |badWordsIds|, past, t) then NegInf else Fin(0.0)
    {
      var b := seq(vocabSize, _ => Fin(0.0));
      for k := 0 to |badWordsIds|
        invariant [] !in badWordsIds[..k]
        invariant |b| == vocabSize
        invariant forall t :: 0 <= t < vocabSize ==>
                    b[t] == if CompletedLong(badWordsIds, k, past, t) then NegInf else Fin(0.0)
      {
        var word := badWordsIds[k];
        assert badWordsIds[..k + 1] == badWordsIds[..k] + [word];
        if |word| == 1 {
          continue;
        }
        if |word| > |past| + 1 {
          continue;
        }
        if |word| == 0 {
          return None;
        }
        var prefixLength := |word| - 1;
        var lastTokenId := word[prefixLength];
        var actualPrefix := past[|past| - prefixLength..];
        var expectedPrefix := word[..prefixLength];
        assert |actualPrefix| == |expectedPrefix|;
        var isMatch := actualPrefix == expectedPrefix;
        assert 0 <= badWordsIds[k][prefixLength] < vocabSize;
        b := b[lastTokenId := b[lastTokenId].Plus(if isMatch then NegInf else Fin(0.0))];
        forall t ensures IsSuffix(word, past + [t]) <==> isMatch && lastTokenId == t {
          PrefixMatch(word, past, t);
        }
      }
      assert badWordsIds[..|badWordsIds|] == badWordsIds;
      bias := Some(b);
    }

    /** One decoding step. The first call checks the bounds and builds the
        cache. On success the result is exactly the mask. */
    method Call(past: seq<int>, logits: seq<Logit>) returns (r: Outcome)
      requires Valid() && (wordBias.Some? ==> |wordBias.value| == |logits|)
      modifies this`wordBias
      ensures Valid()
      ensures r.ValueError? <==> !InBounds(badWordsIds, |logits|)
      ensures wordBias == if r.ValueError? then None else Some(FreshBias(badWordsIds, |logits|))
      ensures r.IndexError? <==> InBounds(badWordsIds, |logits|) && [] in badWordsIds
      ensures r.Logits? ==> Masked(badWordsIds, past, logits, r.values)
    {
      if wordBias.None? {
        var ok := InitWordBias(|logits|);
        if !ok {
          return ValueError;
        }
      }
      var lastTokenBias := LastTokenBias(past, |logits|);
      if lastTokenBias.None? {
        return IndexError;
      }
      var values := AddBiases(logits, wordBias.value, lastTokenBias.value);
      forall t | 0 <= t < |logits| ensures values[t] == if Banned(badWordsIds, past, t) then NegInf else logits[t] {
        ShortOrLong(badWordsIds, past, t);
      }
      r := Logits(values);
    }
  }

  function AddBiases(logits: seq<Logit>, a: seq<Logit>, b: seq<Logit>): seq<Logit>
    requires |logits| == |a| == |b|
  {
    seq(|logits|, t requires 0 <= t < |logits| => logits[t].Plus(a[t]).Plus(b[t]))
  }

  ghost predicate HasCandidate(logits: seq<Logit>) {
    exists t :: 0 <= t < |logits| && logits[t] != NegInf
  }

  /** A sampler never returns a token at minus infinity while another exists. */
  ghost predicate Sampler(pick: seq<Logit> -> Option<nat>, vocabSize: nat) {
    forall l: seq<Logit> :: |l| == vocabSize ==>
      match pick(l)
      case Some(t) => t < vocabSize && l[t] != NegInf
      case None => !HasCandidate(l)
  }

  /** A decoding run through one processor: at most one token per step, ending
      early when everything is masked. No bad word occurs in the output, and
      the run ends early only when every continuation is impossible. */
  method Decode(words: seq<Word>, vocabSize: nat, raw: seq<seq<Logit>>, pick: seq<Logit> -> Option<nat>)
    returns (tokens: seq<int>)
    requires InBounds(words, vocabSize) && forall j :: 0 <= j < |words| ==> words[j] != []
    requires forall k :: 0 <= k < |raw| ==> |raw[k]| == vocabSize
    requires Sampler(pick, vocabSize)
    ensures |tokens| <= |raw| && Emittable(words, raw[..|tokens|], tokens)
    ensures Avoids(words, tokens)
    ensures |tokens| < |raw| ==> forall t :: !StepAllowed(words, raw[|tokens|], tokens, t)
  {
    var processor := new NoBadWordsLogitsProcessor(words);
    tokens := [];
    while |tokens| < |raw|
      invariant |tokens| <= |raw| && Emittable(words, raw[..|tokens|], tokens)
      invariant processor.badWordsIds == words && fresh(processor) && processor.Valid()
      invariant processor.wordBias.Some? ==> |processor.wordBias.value| == vocabSize
      invariant Avoids(words, tokens)
      decreases |raw| - |tokens|
    {
      var n := |tokens|;
      var r := processor.Call(tokens, raw[n]);
      assert [] !in words;
      var choice := pick(r.values);
      if choice.None? {
        NothingAllowed(words, tokens, raw[n], r.values);
        return;
      }
      assert StepAllowed(words, raw[n], tokens, choice.value);
      EmittableExtends(words, raw, tokens, choice.value);
      tokens := tokens + [choice.value];
      EmittableAvoids(words, raw[..n + 1], tokens);
    }
  }

  lemma NothingAllowed(words: seq<Word>, past: seq<int>, raw: seq<Logit>, out: seq<Logit>)
    requires Masked(words, past, raw, out) && !HasCandidate(out)
    ensures forall t :: !StepAllowed(words, raw, past, t)
  {
    forall t | 0 <= t < |raw| ensures raw[t] == NegInf || Banned(words, past, t) {
      assert out[t] == NegInf;
    }
  }

  lemma EmittableExtends(words: seq<Word>, raw: seq<seq<Logit>>, tokens: seq<int>, t: int)
    requires |tokens| < |raw| && Emittable(words, raw[..|tokens|], tokens)
    requires StepAllowed(words, raw[|tokens|], tokens, t)
    ensures Emittable(words, raw[..|tokens| + 1], tokens + [t])
  {
    var longer, r := tokens + [t], raw[..|tokens| + 1];
    forall k | 0 <= k < |longer| ensures StepAllowed(words, r[k], longer[..k], longer[k]) {
      if k < |tokens| {
        assert longer[..k] == tokens[..k];
        assert StepAllowed(words, raw[..|tokens|][k], tokens[..k], tokens[k]);
      } else {
        assert longer[..k] == tokens;
      }
    }
  }

  // ---- building the word list

  /** Encodings of a word without and with a leading space. */
  function Plain(w: string, encode: string -> Word): Word {
    encode(LStrip(w))
  }

  function Spaced(w: string, encode: string -> Word): Word {
    encode(" " + LStrip(w))
  }

  predicate Encodable(w: string, encode: string -> Word) {
    Plain(w, encode) != [] && Spaced(w, encode) != []
  }

  /** The leading space gives a different first token and as many tokens. */
  predicate SpacedCounts(w: string, encode: string -> Word)
    requires Encodable(w, encode)
  {
    var p, s := Plain(w, encode), Spaced(w, encode);
    s[0] != p[0] && |s| == |p|
  }

  /** By token ids: as many tokens, and another first one. */
  ghost predicate NewWordToken(plain: Word, spaced: Word) {
    |plain| == |spaced| && plain != [] && plain[0] != spaced[0]
  }

  /** By token ids: v is the plain encoding, or the spaced one and a new word
      token. */
  ghost predicate ListedFor(w: string, encode: string -> Word, v: Word) {
    var plain, spaced := encode(LStrip(w)), encode(" " + LStrip(w));
    v == plain || (v == spaced && NewWordToken(plain, spaced))
  }

  lemma ListedByTokens(w: string, encode: string -> Word, v: Word)
    requires Encodable(w, encode)
    ensures v in Listed(w, encode) <==> ListedFor(w, encode, v)
    ensures SpacedCounts(w, encode) <==> NewWordToken(encode(LStrip(w)), encode(" " + LStrip(w)))
  {
  }

  /** What one word contributes to the list. */
  function Listed(w: string, encode: string -> Word): seq<Word> {
    if Encodable(w, encode) && SpacedCounts(w, encode) then [Plain(w, encode), Spaced(w, encode)]
    else [Plain(w, encode)]
  }

  function WordList(badWords: seq<string>, encode: string -> Word): seq<Word> {
    if badWords == [] then []
    else WordList(badWords[..|badWords| - 1], encode) + Listed(badWords[|badWords| - 1], encode)
  }

  lemma {:induction false} WordListMeans(badWords: seq<string>, encode: string -> Word, v: Word)
    ensures v in WordList(badWords, encode) <==>
              exists i :: 0 <= i < |badWords| && v in Listed(badWords[i], encode)
  {
    if badWords != [] {
      WordListMeans(badWords[..|badWords| - 1], encode, v);
    }
  }

  lemma WordListHas(badWords: seq<string>, encode: string -> Word, w: string, v: Word)
    requires w in badWords && v in Listed(w, encode)
    ensures v in WordList(badWords, encode)
  {
    var i :| 0 <= i < |badWords| && badWords[i] == w;
    WordListMeans(badWords, encode, v);
  }

  ghost predicate AllEncodable(badWords: seq<string>, encode: string -> Word) {
    forall w :: w in badWords ==> Encodable(w, encode)
  }

  lemma WordListNonEmpty(badWords: seq<string>, encode: string -> Word)
    requires AllEncodable(badWords, encode)
    ensures forall j :: 0 <= j < |WordList(badWords, encode)| ==> WordList(badWords, encode)[j] != []
  {
    var words := WordList(badWords, encode);
    forall j | 0 <= j < |words| ensures words[j] != [] {
      WordListMeans(badWords, encode, words[j]);
    }
  }

  lemma WordListHolds(badWords: seq<string>, encode: string -> Word)
    requires AllEncodable(badWords, encode)
    ensures
      var ids := WordList(badWords, encode);
      && (forall j :: 0 <= j < |ids| ==> ids[j] != [])
      && (forall w :: w in badWords ==> encode(LStrip(w)) in ids)
      && (forall w :: w in badWords && NewWordToken(encode(LStrip(w)), encode(" " + LStrip(w)))
                      ==> encode(" " + LStrip(w)) in ids)
      && (forall v :: v in ids ==> exists i :: 0 <= i < |badWords| && ListedFor(badWords[i], encode, v))
  {
    var ids := WordList(badWords, encode);
    WordListNonEmpty(badWords, encode);
    forall w | w in badWords
      ensures encode(LStrip(w)) in ids
      ensures NewWordToken(encode(LStrip(w)), encode(" " + LStrip(w))) ==> encode(" " + LStrip(w)) in ids
    {
      WordHeld(badWords, encode, w);
    }
    forall v | v in ids ensures exists i :: 0 <= i < |badWords| && ListedFor(badWords[i], encode, v) {
      WordListMeans(badWords, encode, v);
      var i :| 0 <= i < |badWords| && v in Listed(badWords[i], encode);
      ListedByTokens(badWords[i], encode, v);
    }
  }

  lemma WordHeld(badWords: seq<string>, encode: string -> Word, w: string)
    requires w in badWords && Encodable(w, encode)
    ensures encode(LStrip(w)) in WordList(badWords, encode)
    ensures NewWordToken(encode(LStrip(w)), encode(" " + LStrip(w))) ==>
              encode(" " + LStrip(w)) in WordList(badWords, encode)
  {
    var plain, spaced := encode(LStrip(w)), encode(" " + LStrip(w));
    ListedByTokens(w, encode, plain);
    WordListHas(badWords, encode, w, plain);
    if NewWordToken(plain, spaced) {
      ListedByTokens(w, encode, spaced);
      WordListHas(badWords, encode, w, spaced);
    }
  }

  lemma WordListNext(badWords: seq<string>, encode: string -> Word, n: nat)
    requires n < |badWords|
    ensures WordList(badWords[..n + 1], encode) == WordList(badWords[..n], encode) + Listed(badWords[n], encode)
    ensures AllEncodable(badWords[..n + 1], encode) <==> AllEncodable(badWords[..n], encode) && Encodable(badWords[n], encode)
    ensures !Encodable(badWords[n], encode) ==> !AllEncodable(badWords, encode)
  {
    assert badWords[..n + 1] == badWords[..n] + [badWords[n]];
    assert badWords[..n + 1][..n] == badWords[..n];
    assert badWords[n] in badWords;
  }

  /** The word list handed to the processor: for each word in order its plain
      encoding, then its spaced encoding if that counts. It fails exactly when
      an encoding is empty. */
  method GetBadWordsIds(badWords: seq<string>, encode: string -> Word)
    returns (r: Option<seq<Word>>)
    ensures r.None? <==> exists w :: w in badWords && (encode(LStrip(w)) == [] || encode(" " + LStrip(w)) == [])
    ensures r.Some? ==> r.value == WordList(badWords, encode)
    ensures r.Some? ==> forall j :: 0 <= j < |r.value| ==> r.value[j] != []
    ensures r.Some? ==> forall w :: w in badWords ==> encode(LStrip(w)) in r.value
    ensures r.Some? ==> forall w :: w in badWords && NewWordToken(encode(LStrip(w)), encode(" " + LStrip(w)))
                                    ==> encode(" " + LStrip(w)) in r.value
    ensures r.Some? ==> forall v :: v in r.value ==> exists i :: 0 <= i < |badWords| && ListedFor(badWords[i], encode, v)
  {
    var ids: seq<Word> := [];
    for n := 0 to |badWords|
      invariant AllEncodable(badWords[..n], encode)
      invariant ids == WordList(badWords[..n], encode)
    {
      var w := badWords[n];
      var plain := encode("" + LStrip(w));
      assert "" + LStrip(w) == LStrip(w);
      WordListNext(badWords, encode, n);
      ids := ids + [plain];
      var spaced := encode(" " + LStrip(w));
      if |spaced| == 0 || |ids[|ids| - 1]| == 0 {
        return None;
      }
      if spaced[0] != ids[|ids| - 1][0] && |spaced| == |ids[|ids| - 1]| {
        ids := ids + [spaced];
      }
    }
    assert badWords[..|badWords|] == badWords;
    WordListHolds(badWords, encode);
    r := Some(ids);
  }

  // ---- what the list does about the spaced form of a word

  /** No listed encoding of any of the words occurs in `tokens`. */
  ghost predicate FreeOf(badWords: seq<string>, encode: string -> Word, tokens: seq<int>) {
    forall i, v :: 0 <= i < |badWords| && v in Listed(badWords[i], encode) ==> !Occurs(v, tokens)
  }

  lemma FreeIsAvoiding(badWords: seq<string>, encode: string -> Word, tokens: seq<int>)
    ensures FreeOf(badWords, encode, tokens) <==> Avoids(WordList(badWords, encode), tokens)
  {
    var words := WordList(badWords, encode);
    if FreeOf(badWords, encode, tokens) {
      forall j | 0 <= j < |words| ensures !Occurs(words[j], tokens) {
        WordListMeans(badWords, encode, words[j]);
      }
    } else {
      var i, v :| 0 <= i < |badWords| && v in Listed(badWords[i], encode) && Occurs(v, tokens);
      WordListMeans(badWords, encode, v);
      var j :| 0 <= j < |words| && words[j] == v;
    }
  }

  /** The spaced form of a word can be emitted exactly when no listed encoding
      occurs in it. */
  lemma SpacedEmittedExactly(badWords: seq<string>, encode: string -> Word, w: string)
    requires AllEncodable(badWords, encode)
    requires forall k :: 0 <= k < |Spaced(w, encode)| ==> 0 <= Spaced(w, encode)[k]
    ensures (exists raw :: Emittable(WordList(badWords, encode), raw, Spaced(w, encode)))
            <==> FreeOf(badWords, encode, Spaced(w, encode))
  {
    WordListNonEmpty(badWords, encode);
    BlockedExactly(WordList(badWords, encode), Spaced(w, encode));
    FreeIsAvoiding(badWords, encode, Spaced(w, encode));
  }

  lemma FreeOfOne(w: string, encode: string -> Word, tokens: seq<int>)
    ensures FreeOf([w], encode, tokens) <==> forall v :: v in Listed(w, encode) ==> !Occurs(v, tokens)
  {
    var ws := [w];
    if FreeOf(ws, encode, tokens) {
      forall v | v in Listed(w, encode) ensures !Occurs(v, tokens) {
        assert v in Listed(ws[0], encode);
      }
    }
  }

  /** For a list of one word: exactly when its spaced form is not listed and
      does not hold the plain one. */
  lemma OneWordSpacedEmitted(w: string, encode: string -> Word)
    requires Encodable(w, encode)
    requires forall k :: 0 <= k < |Spaced(w, encode)| ==> 0 <= Spaced(w, encode)[k]
    ensures (exists raw :: Emittable(WordList([w], encode), raw, Spaced(w, encode)))
            <==> !SpacedCounts(w, encode) && !Occurs(Plain(w, encode), Spaced(w, encode))
  {
    var spaced := Spaced(w, encode);
    SpacedEmittedExactly([w], encode, w);
    assert OccursAt(spaced, spaced, 0);
    FreeOfOne(w, encode, spaced);
    assert Listed(w, encode)[0] == Plain(w, encode);
    if SpacedCounts(w, encode) {
      assert spaced in Listed(w, encode) && Occurs(spaced, spaced);
    }
  }

  /** The usual byte-pair tokenizer: a word is one token, with the space another
      one. */
  function SpaceFused(text: string): Word {
    if text != [] && text[0] == ' ' then [5] else [3]
  }

  /** There the spaced form is listed and no run emits it. */
  lemma SpaceFusedIsListed()
    ensures WordList(["x"], SpaceFused) == [[3], [5]]
    ensures forall raw, tokens :: Emittable(WordList(["x"], SpaceFused), raw, tokens) ==> 3 !in tokens && 5 !in tokens
  {
    OneWordOf("x", SpaceFused);
    assert LStrip("x") == "x";
    var words := [[3], [5]];
    forall raw, tokens | Emittable(words, raw, tokens) ensures 3 !in tokens && 5 !in tokens {
      EmittableAvoids(words, raw, tokens);
      assert !Occurs(words[0], tokens) && !Occurs(words[1], tokens);
      OneTokenOccurs(3, tokens);
      OneTokenOccurs(5, tokens);
    }
  }

  lemma OneTokenOccurs(t: int, tokens: seq<int>)
    ensures t in tokens ==> Occurs([t], tokens)
  {
    if t in tokens {
      var i :| 0 <= i < |tokens| && tokens[i] == t;
      assert tokens[i..i + 1] == [t];
      assert OccursAt([t], tokens, i);
    }
  }

  /** A tokenizer that gives a leading space a token of its own. */
  function SpaceApart(text: string): Word {
    if text != [] && text[0] == ' ' then [1, 2] else [2]
  }

  /** A tokenizer whose tokens for a word depend on the space before it. */
  function SpaceInside(text: string): Word {
    if text != [] && text[0] == ' ' then [1, 2] else [3]
  }

  /** The promise to ban a word in the middle of a text fails: with this
      tokenizer only the plain form is listed and the spaced one is emitted. */
  lemma SpacedFormEscapes()
    ensures WordList(["x"], SpaceInside) == [[3]] && Spaced("x", SpaceInside) == [1, 2]
    ensures exists raw :: Emittable(WordList(["x"], SpaceInside), raw, [1, 2])
  {
    OneWordOf("x", SpaceInside);
    assert LStrip("x") == "x";
    forall i ensures !OccursAt([3], [1, 2], i) {
      if 0 <= i <= 1 {
        assert [1, 2][i..i + 1] == [[1, 2][i]];
      }
    }
    OneWordSpacedEmitted("x", SpaceInside);
  }

  /** Where the space is a token of its own the plain form is inside the spaced
      one, which is then blocked without being listed. */
  lemma SpaceApartIsBlocked()
    ensures WordList(["x"], SpaceApart) == [[2]] && Spaced("x", SpaceApart) == [1, 2]
    ensures !exists raw :: Emittable(WordList(["x"], SpaceApart), raw, [1, 2])
  {
    OneWordOf("x", SpaceApart);
    assert LStrip("x") == "x";
    assert OccursAt([2], [1, 2], 1);
    OneWordSpacedEmitted("x", SpaceApart);
  }

  lemma OneWordOf(w: string, encode: string -> Word)
    ensures WordList([w], encode) == Listed(w, encode)
  {
    assert [w][..0] == [];
  }

  /** From the user's word list to the emitted tokens: no run contains the plain
      encoding of a listed word, nor a spaced encoding that counts. `None` is a
      rejected list (an empty encoding or a token outside the vocabulary). */
  method DecodeAvoiding(badWords: seq<string>, encode: string -> Word,
                        vocabSize: nat, raw: seq<seq<Logit>>, pick: seq<Logit> -> Option<nat>)
    returns (r: Option<seq<int>>)
    requires forall k :: 0 <= k < |raw| ==> |raw[k]| == vocabSize
    requires Sampler(pick, vocabSize)
    ensures r.None? <==> !AllEncodable(badWords, encode) || !InBounds(WordList(badWords, encode), vocabSize)
    ensures r.Some? ==> forall w :: w in badWords ==>
              && !Occurs(encode(LStrip(w)), r.value)
              && (NewWordToken(encode(LStrip(w)), encode(" " + LStrip(w))) ==> !Occurs(encode(" " + LStrip(w)), r.value))
  {
    var ids := GetBadWordsIds(badWords, encode);
    if ids.None? {
      return None;
    }
    var processor := new NoBadWordsLogitsProcessor(ids.value);
    var invalid := processor.CheckTokenIdsBounds(vocabSize);
    if invalid != [] {
      return None;
    }
    var tokens := Decode(ids.value, vocabSize, raw, pick);
    assert forall v :: v in ids.value ==> !Occurs(v, tokens);
    r := Some(tokens);
  }
}
