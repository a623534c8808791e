/** What both scripts do identically: turn the summarizer's text into bullet sentences,
    cut the preview of the uploaded text, and the shapes of a request (the uploaded file,
    the summarizer's parameters and candidates). */
module Summary {
  import opened Wrappers
  import opened Text

  newtype byte = x: int | 0 <= x < 256

  /** An uploaded file as the upload widget hands it over: its declared MIME type and its bytes. */
  datatype Upload = Upload(mimeType: string, content: seq<byte>)

  /** The keyword arguments of the summarizer call. */
  datatype Config = Config(maxLength: nat, minLength: nat, doSample: bool)

  /** One element of the list the summarizer returns: a dictionary with key `summary_text`. */
  datatype Candidate = Candidate(summaryText: string)

  /** `bytes.decode("utf-8")`: the text, or `str(e)` of the decoding error. */
  type Decoder = seq<byte> -> Result<string, string>

  /** The summarization pipeline: the list of candidates, or `str(e)` of what it raised. */
  type Summarizer = (string, Config) -> Result<seq<Candidate>, string>

  /** The only declared MIME type the scripts accept. */
  const PlainText: string := "text/plain"

  /** `str(e)` of the IndexError raised by `summary[0]` on an empty list. */
  const EmptyListError: string := "list index out of range"

  const PreviewLimit: nat := 500
  const Ellipsis: string := "..."

  /** `text[:500] + ("..." if len(text) > 500 else "")`: the text itself when it has at most
      500 characters, otherwise its first 500 followed by "...". */
  function Preview(text: string): (r: string)
    ensures |text| <= PreviewLimit ==> r == text
    ensures |text| > PreviewLimit ==> r == text[..PreviewLimit] + Ellipsis
    ensures |r| <= PreviewLimit + |Ellipsis|
  {
    var head := if |text| <= PreviewLimit then text else text[..PreviewLimit];
    head + (if |text| > PreviewLimit then Ellipsis else "")
  }

  /** The `if s.strip()` filter of the comprehension: the non-empty strings, in order. */
  function NonEmpty(xs: seq<string>): (r: seq<string>)
    ensures |r| <= |xs|
    ensures forall k :: 0 <= k < |r| ==> r[k] != []
  {
    if xs == [] then []
    else NonEmpty(xs[..|xs| - 1]) + (if xs[|xs| - 1] == [] then [] else [xs[|xs| - 1]])
  }

  /** `s.strip()` applied to every fragment. */
  function StripAll(parts: seq<string>): (r: seq<string>)
    ensures |r| == |parts|
    ensures forall j :: 0 <= j < |r| ==> |r[j]| <= |parts[j]|
  {
    seq(|parts|, j requires 0 <= j < |parts| => Strip(parts[j]))
  }

  /** The comprehension `[s.strip() for s in parts if s.strip()]`. */
  function NonBlankStripped(parts: seq<string>): (r: seq<string>)
    ensures |r| <= |parts|
    ensures forall k :: 0 <= k < |r| ==> r[k] != []
  {
    NonEmpty(StripAll(parts))
  }

  /** The sentences of a summary: the stripped, non-blank fragments of `summary_text.split(". ")`. */
  function Sentences(summaryText: string): (r: seq<string>)
    ensures |r| <= |Split(summaryText)|
    ensures forall k :: 0 <= k < |r| ==> r[k] != []
  {
    NonBlankStripped(Split(summaryText))
  }

  /** Python's `s.endswith('.')`. */
  predicate EndsWithPeriod(s: string)
    ensures EndsWithPeriod(s) ==> s != [] && '.' in s
  {
    |s| > 0 && s[|s| - 1] == '.'
  }

  /** `if not sentence.endswith('.'): sentence += '.'`: the result ends in a period, extends
      the sentence by at most that period, and equals it exactly when it already ended in one. */
  function Punctuate(sentence: string): (r: string)
    ensures EndsWithPeriod(r)
    ensures sentence <= r && |r| <= |sentence| + 1
    ensures r == sentence <==> EndsWithPeriod(sentence)
  {
    if EndsWithPeriod(sentence) then sentence else sentence + "."
  }

  /** Each sentence with its period fix-up, in order. */
  function PunctuateAll(sentences: seq<string>): (r: seq<string>)
    ensures |r| == |sentences|
    ensures forall k :: 0 <= k < |r| ==> EndsWithPeriod(r[k])
  {
    seq(|sentences|, k requires 0 <= k < |sentences| => Punctuate(sentences[k]))
  }

  /** The sentences each script puts after a bullet mark, in order. */
  function Bullets(summaryText: string): (r: seq<string>)
    ensures |r| <= |Split(summaryText)|
    ensures forall k :: 0 <= k < |r| ==> EndsWithPeriod(r[k])
  {
    PunctuateAll(Sentences(summaryText))
  }

  /** `kept` is `xs` with its empty strings dropped, witnessed by the strictly increasing
      positions `idx`: position `j` is listed exactly when `xs[j]` is non-empty, and the
      `k`-th kept string is the one at the `k`-th listed position. */
  ghost predicate KeptAt(xs: seq<string>, kept: seq<string>, idx: seq<nat>)
  {
    && |idx| == |kept|
    && (forall k :: 0 <= k < |idx| ==> idx[k] < |xs| && kept[k] == xs[idx[k]])
    && (forall k, l :: 0 <= k < l < |idx| ==> idx[k] < idx[l])
    && (forall j :: 0 <= j < |xs| ==> (xs[j] != [] <==> j in idx))
  }

  /** The positions of the strings the filter keeps. */
  function KeptIndices(xs: seq<string>): (idx: seq<nat>)
    ensures KeptAt(xs, NonEmpty(xs), idx)
  {
    if xs == [] then []
    else
      var n := |xs| - 1;
      var prev := KeptIndices(xs[..n]);
      assert xs == xs[..n] + [xs[n]];
      KeptAtExtend(xs[..n], NonEmpty(xs[..n]), prev, xs[n]);
      prev + (if xs[n] == [] then [] else [n])
  }

  /** Appending one string extends the kept positions by its position when it is non-empty. */
  lemma {:induction false} KeptAtExtend(xs: seq<string>, kept: seq<string>, idx: seq<nat>, last: string)
    requires KeptAt(xs, kept, idx)
    ensures KeptAt(xs + [last], kept + (if last == [] then [] else [last]),
                   idx + (if last == [] then [] else [|xs|]))
  {
    var xs' := xs + [last];
    var kept' := kept + (if last == [] then [] else [last]);
    var idx' := idx + (if last == [] then [] else [|xs|]);
    forall k | 0 <= k < |idx'|
      ensures idx'[k] < |xs'| && kept'[k] == xs'[idx'[k]]
    {
      if k < |idx| {
        assert idx'[k] == idx[k] && kept'[k] == kept[k];
      }
    }
    forall k, l | 0 <= k < l < |idx'|
      ensures idx'[k] < idx'[l]
    {
      assert idx'[k] == idx[k];
    }
    forall j | 0 <= j < |xs'|
      ensures xs'[j] != [] <==> j in idx'
    {
      if j < |xs| {
        assert j in idx' <==> j in idx;
      } else {
        assert |xs| !in idx;
      }
    }
  }

  /** The filter keeps only non-empty strings of its input. */
  lemma {:induction false} NonEmptyKeeps(xs: seq<string>)
    ensures forall s :: s in NonEmpty(xs) ==> s in xs && s != []
  {
    if xs != [] {
      NonEmptyKeeps(xs[..|xs| - 1]);
      assert forall s :: s in xs[..|xs| - 1] ==> s in xs;
    }
  }

  /** Every string the comprehension keeps is a stripped fragment that is not blank, so it
      is non-empty and has no whitespace at either end. */
  lemma {:induction false} NonBlankStrippedTrimmed(parts: seq<string>)
    ensures forall s :: s in NonBlankStripped(parts) ==> s != [] && !IsSpace(s[0]) && !IsSpace(s[|s| - 1])
  {
    var stripped := StripAll(parts);
    forall k | 0 <= k < |stripped|
      ensures stripped[k] == [] || (!IsSpace(stripped[k][0]) && !IsSpace(stripped[k][|stripped[k]| - 1]))
    {
      assert stripped[k] == Strip(parts[k]);
    }
    NonEmptyTrimmed(stripped);
  }

  /** The filter keeps only non-empty strings, so from strings that are empty or have no
      whitespace at either end it keeps non-empty ones with no whitespace at either end. */
  lemma {:induction false} NonEmptyTrimmed(xs: seq<string>)
    requires forall k :: 0 <= k < |xs| ==> xs[k] == [] || (!IsSpace(xs[k][0]) && !IsSpace(xs[k][|xs[k]| - 1]))
    ensures forall s :: s in NonEmpty(xs) ==> s != [] && !IsSpace(s[0]) && !IsSpace(s[|s| - 1])
  {
    NonEmptyKeeps(xs);
  }


  /** The sentences are, in order, the stripped fragments of `summary_text.split(". ")`
      that are not blank: one for each such fragment and none for the others. */
  lemma {:induction false} SentencesFollowFragments(summaryText: string)
    ensures exists idx :: KeptAt(StripAll(Split(summaryText)), Sentences(summaryText), idx)
  {
    var stripped := StripAll(Split(summaryText));
    var idx := KeptIndices(stripped);
    assert Sentences(summaryText) == NonEmpty(stripped);
    assert KeptAt(stripped, Sentences(summaryText), idx);
  }

  /** Punctuating never creates the separator: a string free of ". " stays free of it. */
  lemma {:induction false} PunctuateAvoidsSeparator(s: string)
    requires !HasSeparator(s)
    ensures !HasSeparator(Punctuate(s))
  {
    var r := Punctuate(s);
    forall i | 0 <= i < |r|
      ensures !CutAt(r, i)
    {
      if i + 1 < |s| {
        assert !CutAt(s, i);
      }
    }
  }

  /** Every sentence kept from fragments free of the separator is non-empty, has no
      whitespace at either end and is free of the separator too. */
  lemma {:induction false} KeptWellFormed(parts: seq<string>)
    requires forall k :: 0 <= k < |parts| ==> !HasSeparator(parts[k])
    ensures forall s :: s in NonBlankStripped(parts) ==>
              s != [] && !IsSpace(s[0]) && !IsSpace(s[|s| - 1]) && !HasSeparator(s)
  {
    var stripped := StripAll(parts);
    NonBlankStrippedTrimmed(parts);
    NonEmptyKeeps(stripped);
    forall s | s in NonBlankStripped(parts)
      ensures !HasSeparator(s)
    {
      var j :| 0 <= j < |parts| && stripped[j] == s;
      StripAvoidsSeparator(parts[j]);
    }
  }

  /** Punctuating sentences that are non-empty, trimmed and free of the separator gives
      sentences that also end in '.'. */
  lemma {:induction false} PunctuateAllWellFormed(sentences: seq<string>)
    requires forall s :: s in sentences ==>
               s != [] && !IsSpace(s[0]) && !IsSpace(s[|s| - 1]) && !HasSeparator(s)
    ensures forall b :: b in PunctuateAll(sentences) ==>
              EndsWithPeriod(b) && !IsSpace(b[0]) && !IsSpace(b[|b| - 1]) && !HasSeparator(b)
  {
    var bullets := PunctuateAll(sentences);
    forall b | b in bullets
      ensures EndsWithPeriod(b) && !IsSpace(b[0]) && !IsSpace(b[|b| - 1]) && !HasSeparator(b)
    {
      var k :| 0 <= k < |bullets| && bullets[k] == b;
      assert sentences[k] in sentences;
      PunctuateAvoidsSeparator(sentences[k]);
    }
  }

  /** Every bullet sentence ends in '.', has no whitespace at either end (so is not blank)
      and does not contain the separator ". ". */
  lemma {:induction false} BulletsWellFormed(summaryText: string)
    ensures forall b :: b in Bullets(summaryText) ==>
              EndsWithPeriod(b) && !IsSpace(b[0]) && !IsSpace(b[|b| - 1]) && !HasSeparator(b)
  {
    SplitPartsAvoidSep(summaryText);
    KeptWellFormed(Split(summaryText));
    PunctuateAllWellFormed(Sentences(summaryText));
  }

  /** A summary that is empty or only whitespace gives no bullets. */
  lemma {:induction false} BlankSummaryHasNoBullets(summaryText: string)
    requires AllSpace(summaryText)
    ensures Bullets(summaryText) == []
  {
    SplitBlank(summaryText);
    StripSpec(summaryText);
    assert StripAll([summaryText]) == [[]];
    assert NonEmpty([[]]) == NonEmpty([]);
  }

  /** A summary without ". " gives at most one bullet: none if it is blank, otherwise the
      whole stripped text, punctuated. */
  lemma {:induction false} UnseparatedSummaryIsOneBullet(summaryText: string)
    requires !HasSeparator(summaryText)
    ensures Bullets(summaryText) ==
            if AllSpace(summaryText) then [] else [Punctuate(Strip(summaryText))]
  {
    SplitSingle(summaryText);
    StripSpec(summaryText);
    assert StripAll([summaryText]) == [Strip(summaryText)];
    assert NonEmpty([Strip(summaryText)]) ==
           NonEmpty([]) + (if Strip(summaryText) == [] then [] else [Strip(summaryText)]);
  }

  /** The filter keeps a list with no empty string as it is. */
  lemma {:induction false} NonEmptyKeepsAll(xs: seq<string>)
    requires forall k :: 0 <= k < |xs| ==> xs[k] != []
    ensures NonEmpty(xs) == xs
  {
    if xs != [] {
      NonEmptyKeepsAll(xs[..|xs| - 1]);
      assert xs[..|xs| - 1] + [xs[|xs| - 1]] == xs;
    }
  }

  /** Sentences joined with ". " come back as bullets one for one: when no sentence is blank,
      has whitespace at an end, or contains ". ", the bullets of their join are the sentences
      themselves, each punctuated (so "A sentence. Another one." gives "A sentence." and
      "Another one."). */
  lemma {:induction false} FormatJoinedSentences(sentences: seq<string>)
    requires forall k :: 0 <= k < |sentences| ==>
               sentences[k] != [] && !IsSpace(sentences[k][0]) &&
               !IsSpace(sentences[k][|sentences[k]| - 1]) && !HasSeparator(sentences[k])
    ensures Bullets(Join(sentences)) == PunctuateAll(sentences)
  {
    if sentences == [] {
      BlankSummaryHasNoBullets("");
      return;
    }
    SplitJoinRoundTrip(sentences);
    StripAllTrimmed(sentences);
    NonEmptyKeepsAll(sentences);
    assert Sentences(Join(sentences)) == sentences;
  }

  /** Stripping strings with no whitespace at their ends changes none of them. */
  lemma {:induction false} StripAllTrimmed(xs: seq<string>)
    requires forall k :: 0 <= k < |xs| ==> xs[k] != [] && !IsSpace(xs[k][0]) && !IsSpace(xs[k][|xs[k]| - 1])
    ensures StripAll(xs) == xs
  {
    forall k | 0 <= k < |xs|
      ensures StripAll(xs)[k] == xs[k]
    {
      StripTrimmed(xs[k]);
    }
  }

  /** Formatting a single emitted bullet sentence again gives back exactly that sentence. */
  lemma {:induction false} ReformatBullet(summaryText: string, k: nat)
    requires k < |Bullets(summaryText)|
    ensures Bullets(Bullets(summaryText)[k]) == [Bullets(summaryText)[k]]
  {
    var b := Bullets(summaryText)[k];
    BulletsWellFormed(summaryText);
    assert b in Bullets(summaryText);
    StripTrimmed(b);
    UnseparatedSummaryIsOneBullet(b);
    assert !AllSpace(b) by {
      assert !IsSpace(b[0]);
    }
  }
}
