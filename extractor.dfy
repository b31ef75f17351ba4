/**
 * The highlight extractor (backend/utils/contextExtractor.js): picks the sentences of an email
 * body that carry decision or issue context, tags each with a product keyword and a sentiment,
 * and synthesises one general highlight when no sentence qualifies.
 *
 * The sentence tokeniser and the AFINN scorer are not modelled: the caller supplies the
 * sentences with their scores. The two lookup tables are supplied as `Tables`.
 */
module ContextExtractor {
  import opened Wrappers
  import opened Text
  import opened Records

  /** One sentence from the tokeniser with the sentiment score of its lower-cased words. */
  datatype Sentence = Sentence(text: string, score: real)

  /** KNOWN_SERVICES and CONTEXT_INDICATOR_KEYWORDS, in table order. */
  datatype Tables = Tables(services: seq<string>, indicators: seq<string>)

  /** The fields every highlight of one email shares. */
  datatype EmailContext = EmailContext(owner: string, subject: Option<string>, messageId: Option<string>)

  const MinTextExclusive := 15
  const MaxTextExclusive := 400
  const FallbackMinBodyExclusive := 50
  const FallbackMaxBodyExclusive := 1000
  const FallbackPrefixLength := 200
  const FallbackLead := "General context about "

  function SentimentLabel(score: real): (r: Sentiment)
    ensures r == Positive <==> score > 0.3
    ensures r == Negative <==> score < -0.3
    ensures r == Neutral <==> -0.3 <= score <= 0.3
  {
    if score > 0.3 then Positive
    else if score < -0.3 then Negative
    else Neutral
  }

  // ---------------------------------------------------------------- product keywords

  /** `service` occurs, ignoring case, in one of `texts`. */
  predicate Mentions(texts: seq<string>, service: string) {
    texts != [] && (ContainsIgnoringCase(texts[0], service) || Mentions(texts[1..], service))
  }

  /** The first service, in table order, that one of `texts` mentions. */
  function FirstMentioned(services: seq<string>, texts: seq<string>): (r: Option<string>)
    ensures r.Some? ==> r.value in services && Mentions(texts, r.value)
  {
    if services == [] then None
    else if Mentions(texts, services[0]) then Some(services[0])
    else FirstMentioned(services[1..], texts)
  }

  /** FirstMentioned picks the earliest mentioned table entry, and is None only when none is mentioned. */
  lemma {:induction false} FirstMentionedIsFirst(services: seq<string>, texts: seq<string>)
    ensures FirstMentioned(services, texts).None? <==>
              forall i :: 0 <= i < |services| ==> !Mentions(texts, services[i])
    ensures FirstMentioned(services, texts).Some? ==>
              exists i :: 0 <= i < |services| && services[i] == FirstMentioned(services, texts).value
                          && Mentions(texts, services[i])
                          && forall j :: 0 <= j < i ==> !Mentions(texts, services[j])
  {
    if services != [] {
      FirstMentionedIsFirst(services[1..], texts);
      if !Mentions(texts, services[0]) {
        if FirstMentioned(services[1..], texts).Some? {
          var i :| 0 <= i < |services[1..]| && services[1..][i] == FirstMentioned(services[1..], texts).value
                   && Mentions(texts, services[1..][i])
                   && forall j :: 0 <= j < i ==> !Mentions(texts, services[1..][j]);
          assert services[i + 1] == services[1..][i];
          assert forall j :: 0 <= j < i + 1 ==> !Mentions(texts, services[j]) by {
            forall j | 0 <= j < i + 1 ensures !Mentions(texts, services[j]) {
              if j > 0 { assert services[j] == services[1..][j - 1]; }
            }
          }
        } else {
          forall i | 0 <= i < |services| ensures !Mentions(texts, services[i]) {
            if i > 0 { assert services[i] == services[1..][i - 1]; }
          }
        }
      } else {
        assert 0 < |services| && services[0] == FirstMentioned(services, texts).value;
      }
    }
  }

  /** The email-level keyword: the first service named in the subject or the body. */
  function EmailKeyword(services: seq<string>, subject: string, body: string): Option<string> {
    FirstMentioned(services, [subject, body])
  }

  /** A sentence's keyword: the first service named in it, otherwise the email-level keyword. */
  function SentenceKeyword(services: seq<string>, sentence: string, emailKeyword: Option<string>): Option<string> {
    match FirstMentioned(services, [sentence])
    case Some(s) => Some(s)
    case None => emailKeyword
  }

  /** A service named in the sentence always wins over the email-level keyword, and the earliest such service in table order is taken. */
  lemma SentenceKeywordPrecedence(services: seq<string>, sentence: string, emailKeyword: Option<string>)
    ensures (forall i :: 0 <= i < |services| ==> !Mentions([sentence], services[i])) ==>
              SentenceKeyword(services, sentence, emailKeyword) == emailKeyword
    ensures (exists i :: 0 <= i < |services| && Mentions([sentence], services[i])) ==>
              exists i :: 0 <= i < |services| && SentenceKeyword(services, sentence, emailKeyword) == Some(services[i])
                          && Mentions([sentence], services[i])
                          && forall j :: 0 <= j < i ==> !Mentions([sentence], services[j])
  {
    FirstMentionedIsFirst(services, [sentence]);
  }

  /** The loop at lines 37-45 and 53-67: scan the table in order and stop at the first hit. */
  method FindFirstMentioned(services: seq<string>, texts: seq<string>) returns (r: Option<string>)
    ensures r == FirstMentioned(services, texts)
  {
    r := None;
    var i := 0;
    while i < |services|
      invariant 0 <= i <= |services|
      invariant FirstMentioned(services, texts) == FirstMentioned(services[i..], texts)
    {
      if Mentions(texts, services[i]) {
        r := Some(services[i]);
        break;
      }
      assert services[i..][1..] == services[i + 1..];
      i := i + 1;
    }
  }

  // ---------------------------------------------------------------- sentence selection

  /** Some indicator phrase occurs in the lower-cased sentence (the phrase itself is not lower-cased). */
  predicate HasIndicator(sentence: string, indicators: seq<string>) {
    indicators != [] && (Contains(Lower(sentence), indicators[0]) || HasIndicator(sentence, indicators[1..]))
  }

  /** A sentence yields a highlight: trimmed length in 16..399 and an indicator phrase present. */
  predicate Qualifies(sentence: string, indicators: seq<string>) {
    MinTextExclusive < |Trim(sentence)| < MaxTextExclusive && HasIndicator(sentence, indicators)
  }

  /** The loop at lines 73-79. */
  method FindIndicator(sentence: string, indicators: seq<string>) returns (found: bool)
    ensures found == HasIndicator(sentence, indicators)
  {
    var lowerSentence := Lower(sentence);
    found := false;
    var i := 0;
    while i < |indicators|
      invariant 0 <= i <= |indicators|
      invariant HasIndicator(sentence, indicators) == HasIndicator(sentence, indicators[i..])
    {
      if Contains(lowerSentence, indicators[i]) {
        found := true;
        break;
      }
      assert indicators[i..][1..] == indicators[i + 1..];
      i := i + 1;
    }
  }

  function MakeHighlight(s: Sentence, tables: Tables, ctx: EmailContext, emailKeyword: Option<string>): Highlight {
    Highlight(ctx.owner, SentenceKeyword(tables.services, s.text, emailKeyword), Trim(s.text),
              SentimentLabel(s.score), ctx.subject, ctx.messageId, None)
  }

  /** What one sentence contributes: its highlight if it qualifies, nothing otherwise. */
  function HighlightOf(s: Sentence, tables: Tables, ctx: EmailContext, emailKeyword: Option<string>): (r: seq<Highlight>)
    ensures |r| <= 1
  {
    if Qualifies(s.text, tables.indicators) then [MakeHighlight(s, tables, ctx, emailKeyword)] else []
  }

  /** The highlights the forEach at lines 47-111 pushes, in sentence order. */
  function SentenceHighlights(ss: seq<Sentence>, tables: Tables, ctx: EmailContext, emailKeyword: Option<string>): (r: seq<Highlight>)
  {
    if ss == [] then []
    else SentenceHighlights(ss[..|ss| - 1], tables, ctx, emailKeyword) + HighlightOf(ss[|ss| - 1], tables, ctx, emailKeyword)
  }

  /** At most one highlight per sentence. */
  lemma {:induction false} SentenceHighlightsBound(ss: seq<Sentence>, tables: Tables, ctx: EmailContext, kw: Option<string>)
    ensures |SentenceHighlights(ss, tables, ctx, kw)| <= |ss|
  {
    if ss != [] {
      SentenceHighlightsBound(ss[..|ss| - 1], tables, ctx, kw);
    }
  }

  lemma SentenceHighlightsStep(ss: seq<Sentence>, n: nat, tables: Tables, ctx: EmailContext, kw: Option<string>)
    requires n < |ss|
    ensures SentenceHighlights(ss[..n + 1], tables, ctx, kw)
            == SentenceHighlights(ss[..n], tables, ctx, kw) + HighlightOf(ss[n], tables, ctx, kw)
  {
    assert ss[..n + 1][..n] == ss[..n];
  }

  /** Every highlight comes from a qualifying sentence: its trimmed text, its keyword, its score. */
  lemma {:induction false} SentenceHighlightsSound(ss: seq<Sentence>, tables: Tables, ctx: EmailContext, kw: Option<string>, h: Highlight)
    requires h in SentenceHighlights(ss, tables, ctx, kw)
    ensures exists i :: 0 <= i < |ss| && Qualifies(ss[i].text, tables.indicators) && h == MakeHighlight(ss[i], tables, ctx, kw)
    ensures MinTextExclusive < |h.text| < MaxTextExclusive && h.financialItemId.None?
  {
    var last := |ss| - 1;
    if Qualifies(ss[last].text, tables.indicators) && h == MakeHighlight(ss[last], tables, ctx, kw) {
    } else {
      var init := ss[..last];
      assert h in SentenceHighlights(init, tables, ctx, kw);
      SentenceHighlightsSound(init, tables, ctx, kw, h);
      var i :| 0 <= i < |init| && Qualifies(init[i].text, tables.indicators) && h == MakeHighlight(init[i], tables, ctx, kw);
      assert ss[i] == init[i];
    }
  }

  /** Every qualifying sentence yields its highlight. */
  lemma {:induction false} SentenceHighlightsComplete(ss: seq<Sentence>, tables: Tables, ctx: EmailContext, kw: Option<string>, i: nat)
    requires i < |ss| && Qualifies(ss[i].text, tables.indicators)
    ensures MakeHighlight(ss[i], tables, ctx, kw) in SentenceHighlights(ss, tables, ctx, kw)
  {
    var h := MakeHighlight(ss[i], tables, ctx, kw);
    var last := |ss| - 1;
    var init := ss[..last];
    var front := SentenceHighlights(init, tables, ctx, kw);
    var tail := HighlightOf(ss[last], tables, ctx, kw);
    assert SentenceHighlights(ss, tables, ctx, kw) == front + tail;
    if i < last {
      assert ss[i] == init[i];
      SentenceHighlightsComplete(init, tables, ctx, kw, i);
      assert h in front;
    } else {
      assert i == last;
      assert Qualifies(ss[last].text, tables.indicators);
      assert tail == [h];
    }
  }

  /** No sentence highlight at all exactly when no sentence qualifies. */
  lemma {:induction false} SentenceHighlightsEmpty(ss: seq<Sentence>, tables: Tables, ctx: EmailContext, kw: Option<string>)
    ensures SentenceHighlights(ss, tables, ctx, kw) == [] <==> forall i :: 0 <= i < |ss| ==> !Qualifies(ss[i].text, tables.indicators)
  {
    if ss != [] {
      var last := |ss| - 1;
      var init := ss[..last];
      var front := SentenceHighlights(init, tables, ctx, kw);
      var tail := HighlightOf(ss[last], tables, ctx, kw);
      assert SentenceHighlights(ss, tables, ctx, kw) == front + tail;
      assert tail == [] <==> !Qualifies(ss[last].text, tables.indicators);
      SentenceHighlightsEmpty(init, tables, ctx, kw);
      if front + tail == [] {
        assert front == [] && tail == [];
        forall i | 0 <= i < |ss| ensures !Qualifies(ss[i].text, tables.indicators) {
          if i < last {
            assert ss[i] == init[i];
            assert !Qualifies(init[i].text, tables.indicators);
          } else {
            assert i == last;
          }
        }
      } else if front == [] {
        assert Qualifies(ss[last].text, tables.indicators);
      } else {
        var j :| 0 <= j < |init| && Qualifies(init[j].text, tables.indicators);
        assert ss[j] == init[j];
      }
    }
  }

  // ---------------------------------------------------------------- the fallback

  function FallbackText(keyword: string, body: string): string {
    FallbackLead + keyword + ": " + Trim(CollapseSpaces(Prefix(body, FallbackPrefixLength))) + "..."
  }

  /** The synthesised highlight summarises at most the first 200 characters of the body. */
  lemma FallbackTextShape(keyword: string, body: string)
    ensures FallbackLead <= FallbackText(keyword, body)
    ensures |FallbackText(keyword, body)| <= |FallbackLead| + |keyword| + 2 + FallbackPrefixLength + 3
  {
    var core := Trim(CollapseSpaces(Prefix(body, FallbackPrefixLength)));
    assert FallbackText(keyword, body) == FallbackLead + (keyword + ": " + core + "...");
  }

  function FallbackHighlight(keyword: string, body: string, score: real, ctx: EmailContext): Highlight {
    Highlight(ctx.owner, Some(keyword), FallbackText(keyword, body), SentimentLabel(score),
              ctx.subject, ctx.messageId, None)
  }

  predicate FallbackApplies(sentenceHighlights: seq<Highlight>, emailKeyword: Option<string>, body: string) {
    sentenceHighlights == [] && Truthy(emailKeyword)
    && FallbackMinBodyExclusive < |body| < FallbackMaxBodyExclusive
  }

  // ---------------------------------------------------------------- the whole extractor

  /**
   * extractContextHighlights(textBody, owner, subject, messageId): an absent or empty body
   * yields nothing; otherwise the subject is lower-cased for every table entry, which throws
   * when it is absent and the table is not empty.
   */
  function Extract(body: Option<string>, ctx: EmailContext, tables: Tables, ss: seq<Sentence>, fallbackScore: real): Result<seq<Highlight>, JsError> {
    if !Truthy(body) then Success([])
    else if ctx.subject.None? && |tables.services| > 0 then Failure(TypeError("emailSubject is not a string"))
    else
      var kw := EmailKeyword(tables.services, ctx.subject.GetOr(""), body.value);
      var hs := SentenceHighlights(ss, tables, ctx, kw);
      if FallbackApplies(hs, kw, body.value) then Success([FallbackHighlight(kw.value, body.value, fallbackScore, ctx)])
      else Success(hs)
  }

  lemma ExtractUnfold(body: string, ctx: EmailContext, tables: Tables, ss: seq<Sentence>, fallbackScore: real, kw: Option<string>)
    requires body != [] && !(ctx.subject.None? && |tables.services| > 0)
    requires kw == EmailKeyword(tables.services, ctx.subject.GetOr(""), body)
    ensures Extract(Some(body), ctx, tables, ss, fallbackScore) ==
              if FallbackApplies(SentenceHighlights(ss, tables, ctx, kw), kw, body)
              then Success([FallbackHighlight(kw.value, body, fallbackScore, ctx)])
              else Success(SentenceHighlights(ss, tables, ctx, kw))
  {
  }

  /** The fallback fires only when no sentence qualified, and then adds exactly one highlight. */
  lemma FallbackRule(body: string, ctx: EmailContext, tables: Tables, ss: seq<Sentence>, fallbackScore: real)
    requires body != [] && (ctx.subject.Some? || tables.services == [])
    ensures var kw := EmailKeyword(tables.services, ctx.subject.GetOr(""), body);
            var r := Extract(Some(body), ctx, tables, ss, fallbackScore);
            && r.Success?
            && ((forall i :: 0 <= i < |ss| ==> !Qualifies(ss[i].text, tables.indicators))
                && Truthy(kw) && 50 < |body| < 1000
                ==> r.value == [FallbackHighlight(kw.value, body, fallbackScore, ctx)])
            && (!((forall i :: 0 <= i < |ss| ==> !Qualifies(ss[i].text, tables.indicators))
                  && Truthy(kw) && 50 < |body| < 1000)
                ==> r.value == SentenceHighlights(ss, tables, ctx, kw))
  {
    var kw := EmailKeyword(tables.services, ctx.subject.GetOr(""), body);
    SentenceHighlightsEmpty(ss, tables, ctx, kw);
  }

  /** The forEach callback at lines 47-111: what it pushes for one sentence. */
  method VisitSentence(s: Sentence, tables: Tables, ctx: EmailContext, overallProductKeyword: Option<string>)
    returns (pushed: seq<Highlight>)
    ensures pushed == HighlightOf(s, tables, ctx, overallProductKeyword)
  {
    var sentence := s.text;
    var sentenceProductKeyword := overallProductKeyword;
    var specific := FindFirstMentioned(tables.services, [sentence]);
    if !Truthy(sentenceProductKeyword) {
      if specific.Some? {
        sentenceProductKeyword := specific;
      }
    } else {
      if specific.Some? {
        sentenceProductKeyword := specific;
      } else if Truthy(overallProductKeyword) {
        sentenceProductKeyword := overallProductKeyword;
      }
    }
    assert sentenceProductKeyword == SentenceKeyword(tables.services, sentence, overallProductKeyword);
    var foundIndicator := FindIndicator(sentence, tables.indicators);
    var trimmed := Trim(sentence);
    pushed := [];
    if MinTextExclusive < |trimmed| < MaxTextExclusive && foundIndicator {
      if Truthy(sentenceProductKeyword) || HasIndicator(sentence, tables.indicators) {
        pushed := [Highlight(ctx.owner, sentenceProductKeyword, trimmed, SentimentLabel(s.score),
                             ctx.subject, ctx.messageId, None)];
      }
    }
  }

  /** The forEach at lines 47-111: visit the sentences in order, pushing what each yields. */
  method CollectSentenceHighlights(ss: seq<Sentence>, tables: Tables, ctx: EmailContext, overallProductKeyword: Option<string>)
    returns (highlights: seq<Highlight>)
    ensures highlights == SentenceHighlights(ss, tables, ctx, overallProductKeyword)
  {
    highlights := [];
    var n := 0;
    while n < |ss|
      invariant 0 <= n <= |ss|
      invariant highlights == SentenceHighlights(ss[..n], tables, ctx, overallProductKeyword)
    {
      var pushed := VisitSentence(ss[n], tables, ctx, overallProductKeyword);
      SentenceHighlightsStep(ss, n, tables, ctx, overallProductKeyword);
      highlights := highlights + pushed;
      n := n + 1;
    }
    assert ss[..n] == ss;
  }

  /** Lines 22-146 as written: break-loops, a forEach pushing into `highlights`, then the fallback. */
  method ExtractContextHighlights(body: Option<string>, ctx: EmailContext, tables: Tables, ss: seq<Sentence>, fallbackScore: real)
    returns (r: Result<seq<Highlight>, JsError>)
    ensures r == Extract(body, ctx, tables, ss, fallbackScore)
  {
    if !Truthy(body) {
      return Success([]);
    }
    var textBody := body.value;
    if ctx.subject.None? && |tables.services| > 0 {
      return Failure(TypeError("emailSubject is not a string"));
    }
    var overallProductKeyword := FindFirstMentioned(tables.services, [ctx.subject.GetOr(""), textBody]);

    var highlights := CollectSentenceHighlights(ss, tables, ctx, overallProductKeyword);
    ExtractUnfold(textBody, ctx, tables, ss, fallbackScore, overallProductKeyword);
    ghost var sentenceHighlights := highlights;

    if |highlights| == 0 && Truthy(overallProductKeyword)
       && FallbackMinBodyExclusive < |textBody| < FallbackMaxBodyExclusive
    {
      assert highlights == [];
      highlights := highlights + [FallbackHighlight(overallProductKeyword.value, textBody, fallbackScore, ctx)];
      assert FallbackApplies(sentenceHighlights, overallProductKeyword, textBody);
      assert highlights == [FallbackHighlight(overallProductKeyword.value, textBody, fallbackScore, ctx)];
    } else {
      assert !FallbackApplies(sentenceHighlights, overallProductKeyword, textBody);
    }
    assert body == Some(textBody);
    r := Success(highlights);
  }
}
