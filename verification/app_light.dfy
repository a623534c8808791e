/** The light configuration (`app_light.py`): distilled model, summaries of at most 130
    tokens, and the bullets gathered into one text that is both rendered and offered for
    download as `summary.txt`. */
module AppLight {
  import opened Wrappers
  import opened Text
  import opened Summary

  /** `max_length=130, min_length=30, do_sample=False`. */
  const Params: Config := Config(maxLength := 130, minLength := 30, doSample := false)

  /** The request's bounds are consistent and sampling is off, so the same text always gets
      the same summary. */
  lemma ParamsConsistent()
    ensures Params.minLength <= Params.maxLength && !Params.doSample
  {
  }

  const BulletMark: string := "\U{2022} "
  const BlankLine: string := "\n\n"

  const UploadedMessage: string := "\U{2705} Text file uploaded successfully!"
  const RejectMessage: string := "\U{26A0}\U{FE0F} Please upload only .txt files"
  const ErrorPrefix: string := "\U{274C} An error occurred: "

  /** One bullet of the text: `f"• {sentence}\n\n"`. */
  function Item(sentence: string): (r: string)
    ensures |r| == |BulletMark| + |sentence| + |BlankLine|
    ensures r[0] == '\U{2022}' && r[|r| - 1] == '\n'
  {
    BulletMark + sentence + BlankLine
  }

  /** The bullet text for a list of sentences: their items, in order. It is empty exactly
      when there are no sentences. */
  function Blob(sentences: seq<string>): (blob: string)
    ensures blob == [] <==> sentences == []
    ensures |blob| >= |sentences| * (|BulletMark| + |BlankLine|)
  {
    if sentences == [] then [] else Item(sentences[0]) + Blob(sentences[1..])
  }

  /** Adding a sentence at the end adds its item at the end of the text. */
  lemma {:induction false} BlobAppend(sentences: seq<string>, sentence: string)
    ensures Blob(sentences + [sentence]) == Blob(sentences) + Item(sentence)
  {
    if sentences == [] {
      assert [] + [sentence] == [sentence];
    } else {
      assert (sentences + [sentence])[1..] == sentences[1..] + [sentence];
      BlobAppend(sentences[1..], sentence);
    }
  }

  /** The text of one more leading bullet is the text so far followed by that bullet's item. */
  lemma {:induction false} BlobPrefixStep(bullets: seq<string>, i: nat)
    requires i < |bullets|
    ensures Blob(bullets[..i + 1]) == Blob(bullets[..i]) + Item(bullets[i])
  {
    assert bullets[..i + 1] == bullets[..i] + [bullets[i]];
    BlobAppend(bullets[..i], bullets[i]);
  }

  /** The loop of `app_light.py` over the summary's sentences: punctuate each one and append
      its item to `bullet_points`. The result is the text of the punctuated sentences, in
      order; for the sentences of a summary that is `Blob(Bullets(summary))`. */
  method FormatBulletPoints(sentences: seq<string>) returns (bulletPoints: string)
    ensures bulletPoints == Blob(PunctuateAll(sentences))
  {
    ghost var bullets := PunctuateAll(sentences);
    bulletPoints := "";
    var i := 0;
    while i < |sentences|
      invariant 0 <= i <= |sentences|
      invariant bulletPoints == Blob(bullets[..i])
    {
      var sentence := sentences[i];
      if !EndsWithPeriod(sentence) {
        sentence := sentence + ".";
      }
      assert sentence == bullets[i];
      BlobPrefixStep(bullets, i);
      bulletPoints := bulletPoints + Item(sentence);
      i := i + 1;
    }
    assert bullets[..i] == bullets;
  }

  /** An empty or blank summary gives an empty bullet text. */
  lemma {:induction false} BlankSummaryEmptyBlob(summaryText: string)
    requires AllSpace(summaryText)
    ensures Blob(Bullets(summaryText)) == []
  {
    BlankSummaryHasNoBullets(summaryText);
  }

  /** What one run of the script shows. `Idle`: no file. `Rejected`: a file whose declared
      type is not plain text. `Ready`: an accepted file, button not pressed. `Failed`: the
      error message, after the preview when decoding had succeeded. `Done`: the preview and
      the bullet text, which is also the download's content. */
  datatype Outcome =
    | Idle
    | Rejected(message: string)
    | Ready(message: string)
    | Failed(previewShown: Option<string>, message: string)
    | Done(preview: string, bulletPoints: string)

  /** One run of the script with the uploader's file, the button's state, and the decoder
      and summarizer it calls. Every exception of the `try` block becomes `Failed`. */
  function Run(file: Option<Upload>, pressed: bool, decode: Decoder, summarize: Summarizer): (o: Outcome)
    ensures o.Idle? <==> file.None?
    ensures o.Rejected? <==> file.Some? && file.value.mimeType != PlainText
    ensures o.Ready? <==> file.Some? && file.value.mimeType == PlainText && !pressed
    ensures o.Failed? ==> ErrorPrefix <= o.message
    ensures o.Done? <==>
              && file.Some? && file.value.mimeType == PlainText && pressed
              && decode(file.value.content).Success?
              && summarize(decode(file.value.content).value, Params).Success?
              && |summarize(decode(file.value.content).value, Params).value| > 0
  {
    if file.None? then Idle
    else if file.value.mimeType != PlainText then Rejected(RejectMessage)
    else if !pressed then Ready(UploadedMessage)
    else match decode(file.value.content)
      case Failure(e) => Failed(None, ErrorPrefix + e)
      case Success(text) =>
        var preview := Preview(text);
        match summarize(text, Params)
        case Failure(e) => Failed(Some(preview), ErrorPrefix + e)
        case Success(candidates) =>
          if |candidates| == 0 then Failed(Some(preview), ErrorPrefix + EmptyListError)
          else Done(preview, Blob(Bullets(candidates[0].summaryText)))
  }

  /** A file of another declared type is rejected whatever the decoder and the summarizer
      would do: neither is consulted. */
  lemma {:induction false} RejectionCallsNothing(file: Upload, pressed: bool, decode1: Decoder, summarize1: Summarizer,
                              decode2: Decoder, summarize2: Summarizer)
    requires file.mimeType != PlainText
    ensures Run(Some(file), pressed, decode1, summarize1) == Rejected(RejectMessage)
    ensures Run(Some(file), pressed, decode1, summarize1) == Run(Some(file), pressed, decode2, summarize2)
  {
  }

  /** The summarizer is asked only about the decoded text with the fixed parameters, and
      only the first candidate matters: two summarizers that agree there give the same run. */
  lemma {:induction false} OnlyFirstCandidateMatters(file: Option<Upload>, pressed: bool, decode: Decoder,
                                  summarize1: Summarizer, summarize2: Summarizer)
    requires file.Some? && decode(file.value.content).Success?
    requires var text := decode(file.value.content).value;
             match (summarize1(text, Params), summarize2(text, Params))
             case (Success(c1), Success(c2)) => |c1| > 0 && |c2| > 0 && c1[0] == c2[0]
             case (Failure(e1), Failure(e2)) => e1 == e2
             case _ => false
    ensures Run(file, pressed, decode, summarize1) == Run(file, pressed, decode, summarize2)
  {
  }

  /** A successful run shows the preview of the decoded text and the bullet text of the
      first candidate's summary. */
  lemma {:induction false} DoneShowsFirstCandidate(file: Option<Upload>, pressed: bool, decode: Decoder, summarize: Summarizer)
    requires Run(file, pressed, decode, summarize).Done?
    ensures var text := decode(file.value.content).value;
            var o := Run(file, pressed, decode, summarize);
            o.preview == Preview(text) &&
            o.bulletPoints == Blob(Bullets(summarize(text, Params).value[0].summaryText))
  {
  }

  /** A failed decode shows only the error; a failed summary or an empty candidate list shows the preview and
      the error. Neither shows any bullet. */
  lemma {:induction false} FailureShowsError(file: Upload, decode: Decoder, summarize: Summarizer)
    requires file.mimeType == PlainText
    ensures decode(file.content).Failure? ==>
              Run(Some(file), true, decode, summarize) == Failed(None, ErrorPrefix + decode(file.content).error)
    ensures decode(file.content).Success? && summarize(decode(file.content).value, Params).Failure? ==>
              Run(Some(file), true, decode, summarize) ==
              Failed(Some(Preview(decode(file.content).value)),
                     ErrorPrefix + summarize(decode(file.content).value, Params).error)
    ensures decode(file.content).Success? && summarize(decode(file.content).value, Params) == Success([]) ==>
              Run(Some(file), true, decode, summarize) ==
              Failed(Some(Preview(decode(file.content).value)), ErrorPrefix + EmptyListError)
  {
  }
}
