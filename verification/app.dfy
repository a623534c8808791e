/** The full configuration (`app.py`): the large model, summaries of at most 150 tokens,
    and one line written per bullet, each behind the literal prefix the script carries. */
module App {
  import opened Wrappers
  import opened Text
  import opened Summary

  /** `max_length=150, min_length=30, do_sample=False`. */
  const Params: Config := Config(maxLength := 150, minLength := 30, doSample := false)

  /** The request's bounds are consistent and sampling is off, so the same text always gets
      the same summary. */
  lemma ParamsConsistent()
    ensures Params.minLength <= Params.maxLength && !Params.doSample
  {
  }

  /** The bullet prefix exactly as the script spells it: U+2022 encoded in UTF-8 and then
      read back as Windows-1252 ("â€¢"), followed by a space. */
  const BulletMark: string := "\U{E2}\U{20AC}\U{A2} "

  const UploadedMessage: string := "Text file uploaded successfully!"
  const RejectMessage: string := "Please upload only .txt files"
  const ErrorPrefix: string := "An error occurred: "

  /** The lines `st.write(f"â€¢ {sentence}")` writes for some bullet sentences, in order. */
  function Lines(bullets: seq<string>): (r: seq<string>)
    ensures |r| == |bullets|
    ensures forall k :: 0 <= k < |r| ==> BulletMark <= r[k] && r[k][|BulletMark|..] == bullets[k]
  {
    seq(|bullets|, k requires 0 <= k < |bullets| => BulletMark + bullets[k])
  }

  /** The lines written for a summary: one per bullet, so never more than the fragments of
      its split (`LinesWellFormed` states what each line looks like). */
  function DisplayLines(summaryText: string): (r: seq<string>)
    ensures |r| == |Bullets(summaryText)| && |r| <= |Split(summaryText)|
  {
    Lines(Bullets(summaryText))
  }

  /** The loop of `app.py` over the summary's sentences: punctuate each one and write it
      behind the bullet prefix. Line `k` is the prefix followed by sentence `k`, ending in a
      period; for the sentences of a summary these are its `DisplayLines`. */
  method WriteBulletLines(sentences: seq<string>) returns (lines: seq<string>)
    ensures |lines| == |sentences|
    ensures forall k :: 0 <= k < |lines| ==> lines[k] == BulletMark + Punctuate(sentences[k])
    ensures lines == Lines(PunctuateAll(sentences))
  {
    lines := [];
    var i := 0;
    while i < |sentences|
      invariant 0 <= i <= |sentences|
      invariant |lines| == i
      invariant forall k :: 0 <= k < i ==> lines[k] == BulletMark + Punctuate(sentences[k])
    {
      var sentence := sentences[i];
      if !EndsWithPeriod(sentence) {
        sentence := sentence + ".";
      }
      lines := lines + [BulletMark + sentence];
      i := i + 1;
    }
    ghost var expected := Lines(PunctuateAll(sentences));
    assert |expected| == |lines|;
    forall k | 0 <= k < |lines|
      ensures lines[k] == expected[k]
    {
    }
  }

  /** Writing sentences that end in '.' and start with non-whitespace gives one line each,
      every one the prefix followed by such a sentence. */
  lemma {:induction false} LinesFollowBullets(bullets: seq<string>)
    requires forall b :: b in bullets ==> EndsWithPeriod(b) && !IsSpace(b[0])
    ensures |Lines(bullets)| == |bullets|
    ensures forall line :: line in Lines(bullets) ==>
              BulletMark <= line && EndsWithPeriod(line) && |line| > |BulletMark| &&
              !IsSpace(line[|BulletMark|])
  {
    var lines := Lines(bullets);
    forall line | line in lines
      ensures BulletMark <= line && EndsWithPeriod(line) && |line| > |BulletMark| &&
              !IsSpace(line[|BulletMark|])
    {
      var k :| 0 <= k < |lines| && lines[k] == line;
      assert bullets[k] in bullets;
      assert line[|BulletMark|] == bullets[k][0];
    }
  }

  /** Every written line is the prefix followed by a sentence that ends in '.', is not blank
      and has no whitespace at either end; there is one line per bullet. */
  lemma {:induction false} LinesWellFormed(summaryText: string)
    ensures |DisplayLines(summaryText)| == |Bullets(summaryText)|
    ensures forall line :: line in DisplayLines(summaryText) ==>
              BulletMark <= line && EndsWithPeriod(line) && |line| > |BulletMark| &&
              !IsSpace(line[|BulletMark|])
  {
    BulletsWellFormed(summaryText);
    LinesFollowBullets(Bullets(summaryText));
  }

  /** An empty or blank summary writes no line at all. */
  lemma {:induction false} BlankSummaryWritesNothing(summaryText: string)
    requires AllSpace(summaryText)
    ensures DisplayLines(summaryText) == []
  {
    BlankSummaryHasNoBullets(summaryText);
  }

  /** What one run of the script shows; as in the light configuration, but the result of a
      successful run is the list of written bullet lines. */
  datatype Outcome =
    | Idle
    | Rejected(message: string)
    | Ready(message: string)
    | Failed(previewShown: Option<string>, message: string)
    | Done(preview: string, lines: seq<string>)

  /** One run of the script with the uploader's file, the button's state, and the decoder
      and summarizer it calls. Every exception of the `try` block becomes `Failed`. */
  function Run(file: Option<Upload>, pressed: bool, decode: Decoder, summarize: Summarizer): (o: Outcome)
    ensures o.Idle? <==> file.None?
    ensures o.Rejected? <==> file.Some? && file.value.mimeType != PlainText
    ensures o.Ready? <==> file.Some? && file.value.mimeType == PlainText && !pressed
    ensures o.Failed? ==> ErrorPrefix <= o.message
    ensures o.Done? <==>
              && file.Some? && file.value.mimeType == PlainText && pressed
              && decode(file.value.content).Success?
              && summarize(decode(file.value.content).value, Params).Success?
              && |summarize(decode(file.value.content).value, Params).value| > 0
  {
    if file.None? then Idle
    else if file.value.mimeType != PlainText then Rejected(RejectMessage)
    else if !pressed then Ready(UploadedMessage)
    else match decode(file.value.content)
      case Failure(e) => Failed(None, ErrorPrefix + e)
      case Success(text) =>
        var preview := Preview(text);
        match summarize(text, Params)
        case Failure(e) => Failed(Some(preview), ErrorPrefix + e)
        case Success(candidates) =>
          if |candidates| == 0 then Failed(Some(preview), ErrorPrefix + EmptyListError)
          else Done(preview, DisplayLines(candidates[0].summaryText))
  }

  /** A file of another declared type is rejected whatever the decoder and the summarizer
      would do: neither is consulted. */
  lemma {:induction false} RejectionCallsNothing(file: Upload, pressed: bool, decode1: Decoder, summarize1: Summarizer,
                              decode2: Decoder, summarize2: Summarizer)
    requires file.mimeType != PlainText
    ensures Run(Some(file), pressed, decode1, summarize1) == Rejected(RejectMessage)
    ensures Run(Some(file), pressed, decode1, summarize1) == Run(Some(file), pressed, decode2, summarize2)
  {
  }

  /** The summarizer is asked only about the decoded text with the fixed parameters, and
      only the first candidate matters: two summarizers that agree there give the same run. */
  lemma {:induction false} OnlyFirstCandidateMatters(file: Option<Upload>, pressed: bool, decode: Decoder,
                                  summarize1: Summarizer, summarize2: Summarizer)
    requires file.Some? && decode(file.value.content).Success?
    requires var text := decode(file.value.content).value;
             match (summarize1(text, Params), summarize2(text, Params))
             case (Success(c1), Success(c2)) => |c1| > 0 && |c2| > 0 && c1[0] == c2[0]
             case (Failure(e1), Failure(e2)) => e1 == e2
             case _ => false
    ensures Run(file, pressed, decode, summarize1) == Run(file, pressed, decode, summarize2)
  {
  }

  /** A successful run shows the preview of the decoded text and the bullet lines of the
      first candidate's summary. */
  lemma {:induction false} DoneShowsFirstCandidate(file: Option<Upload>, pressed: bool, decode: Decoder, summarize: Summarizer)
    requires Run(file, pressed, decode, summarize).Done?
    ensures var text := decode(file.value.content).value;
            var o := Run(file, pressed, decode, summarize);
            o.preview == Preview(text) &&
            o.lines == DisplayLines(summarize(text, Params).value[0].summaryText)
  {
  }

  /** A failed decode shows only the error; a failed summary or an empty candidate list shows the preview and
      the error. Neither writes any bullet line. */
  lemma {:induction false} FailureShowsError(file: Upload, decode: Decoder, summarize: Summarizer)
    requires file.mimeType == PlainText
    ensures decode(file.content).Failure? ==>
              Run(Some(file), true, decode, summarize) == Failed(None, ErrorPrefix + decode(file.content).error)
    ensures decode(file.content).Success? && summarize(decode(file.content).value, Params).Failure? ==>
              Run(Some(file), true, decode, summarize) ==
              Failed(Some(Preview(decode(file.content).value)),
                     ErrorPrefix + summarize(decode(file.content).value, Params).error)
    ensures decode(file.content).Success? && summarize(decode(file.content).value, Params) == Success([]) ==>
              Run(Some(file), true, decode, summarize) ==
              Failed(Some(Preview(decode(file.content).value)), ErrorPrefix + EmptyListError)
  {
  }
}
