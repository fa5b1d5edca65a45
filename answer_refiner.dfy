/**
 * The refiner: fills in a video answer's refined answer and a PDF answer's
 * summary, in place, with what the language model returns for a prompt
 * built from a fixed template.
 */
module AnswerRefiners {
  import opened Wrappers
  import opened PyStrings
  import opened VideoAnswers
  import opened PdfAnswers

  /** The video template up to its `{QUESTION}` placeholder. */
  const VideoTemplateHead: string :=
    "You are a helpful editor.\n"
    + "Correct the grammar and wording of the answer/ instruction.\n"
    + "Fix the grammar and make the answer/ instruction sound natural.\n"
    + "Do not add or remove any information.\n"
    + "Do NOT explain your reasoning.\n"
    + "Do NOT include thoughts or analysis.\n"
    + "Return ONLY the corrected instruction.\n"
    + "Return ONLY the corrected instruction. Do NOT explain.\n"
    + "If the sentence already makes sense, then do not change it.\n"
    + "keep the answer concise and dont move on to unrelated subjects\n"
    + "\n"
    + "\n"
    + "Here is an input example:\n"
    + "\n"
    + "Question:\n"
    + "\"How do I add a new customer?\"\n"
    + "Sentence:\n"
    + "\"a new customer click on the customers tab Then press\"\n"
    + "\n"
    + "output example:\n"
    + "\"To add a new customer, click on the customer tab then press\"\n"
    + "\n"
    + "Question:\n"
  /** Between `{QUESTION}` and `{TEXT}`. */
  const VideoTemplateMiddle: string := "\nSentence:\n"
  /** After `{TEXT}`. */
  const VideoTemplateTail: string := "\n\noutput:\n"

  const PdfTemplateHead: string :=
    " You are a helpful editor. Summarize the following answer for this question:\n"
    + "question:\n"
  const PdfTemplateMiddle: string := "\nanswer:\n"
  const PdfTemplateTail: string := "\n\nsummary:\n\n"

  /** A template with two placeholders, `head {QUESTION} middle {TEXT} tail`, filled in. */
  function Fill(head: string, middle: string, tail: string, question: string, text: string): string {
    head + question + middle + text + tail
  }

  /** `VIDEO_PROMPT_TEMPLATE.format(QUESTION=question, TEXT=text)`. */
  function VideoPrompt(question: string, text: string): string {
    Fill(VideoTemplateHead, VideoTemplateMiddle, VideoTemplateTail, question, text)
  }

  /** `PDF_PROMPT_TEMPLATE.format(QUESTION=question, TEXT=text)`. */
  function PdfPrompt(question: string, text: string): string {
    Fill(PdfTemplateHead, PdfTemplateMiddle, PdfTemplateTail, question, text)
  }

  lemma FillCarriesInputs(head: string, middle: string, tail: string, question: string, text: string)
    ensures Contains(Fill(head, middle, tail, question, text), question)
    ensures Contains(Fill(head, middle, tail, question, text), text)
  {
    assert Fill(head, middle, tail, question, text) == head + question + (middle + text + tail);
    ContainsMiddle(head, question, middle + text + tail);
    ContainsMiddle(head + question + middle, text, tail);
  }

  lemma FillDeterminesText(head: string, middle: string, tail: string, question: string, text: string, other: string)
    requires Fill(head, middle, tail, question, text) == Fill(head, middle, tail, question, other)
    ensures text == other
  {
    var a := |head + question + middle|;
    assert |text| == |other|;
    assert Fill(head, middle, tail, question, text)[a..a + |text|] == text;
    assert Fill(head, middle, tail, question, other)[a..a + |other|] == other;
  }

  /** Both placeholders are filled verbatim: question and text each occur in the prompt. */
  lemma PromptsCarryInputs(question: string, text: string)
    ensures Contains(VideoPrompt(question, text), question) && Contains(VideoPrompt(question, text), text)
    ensures Contains(PdfPrompt(question, text), question) && Contains(PdfPrompt(question, text), text)
  {
    FillCarriesInputs(VideoTemplateHead, VideoTemplateMiddle, VideoTemplateTail, question, text);
    FillCarriesInputs(PdfTemplateHead, PdfTemplateMiddle, PdfTemplateTail, question, text);
  }

  /** For one question, different texts give different prompts: the text can be read back from the prompt. */
  lemma PromptDeterminesText(question: string, text: string, other: string)
    requires VideoPrompt(question, text) == VideoPrompt(question, other) || PdfPrompt(question, text) == PdfPrompt(question, other)
    ensures text == other
  {
    if VideoPrompt(question, text) == VideoPrompt(question, other) {
      FillDeterminesText(VideoTemplateHead, VideoTemplateMiddle, VideoTemplateTail, question, text, other);
    } else {
      FillDeterminesText(PdfTemplateHead, PdfTemplateMiddle, PdfTemplateTail, question, text, other);
    }
  }

  /**
   * The language model behind `generate`: `respond` is what it returns for
   * a prompt, `None` when the call raises. `prompts` records every prompt
   * sent, in order.
   */
  class LanguageModel {
    const respond: string -> Option<string>
    ghost var prompts: seq<string>

    constructor(respond: string -> Option<string>)
      ensures this.respond == respond && prompts == []
    {
      this.respond := respond;
      prompts := [];
    }

    method Generate(prompt: string) returns (r: Option<string>)
      modifies this
      ensures r == respond(prompt)
      ensures prompts == old(prompts) + [prompt]
    {
      r := respond(prompt);
      prompts := prompts + [prompt];
    }
  }

  /** Why refinement stops: `generate` raised. */
  datatype RefineError = GenerateFailed

  class AnswerRefiner {
    const llmClient: LanguageModel

    constructor(llmClient: LanguageModel)
      ensures this.llmClient == llmClient
    {
      this.llmClient := llmClient;
    }

    /**
     * `refine_answer`: a video answer, if given, gets the model's rewrite of
     * its snippet as refined answer; then a PDF answer, if given, gets the
     * model's summary of its text. Each field is set only once its call has
     * returned; a raising call ends the refinement there. The same objects
     * are handed back; no other field changes (the others are constant).
     */
    method RefineAnswer(question: string, videoAnswer: VideoAnswer?, pdfAnswer: PDFAnswer?)
      returns (r: Result<(VideoAnswer?, PDFAnswer?), RefineError>)
      modifies llmClient, videoAnswer, pdfAnswer
      ensures var videoPrompts := if videoAnswer == null then [] else [VideoPrompt(question, videoAnswer.transcriptSnippet)];
        var videoFailed := videoAnswer != null && llmClient.respond(videoPrompts[0]).None?;
        var pdfPrompts := if pdfAnswer == null || videoFailed then [] else [PdfPrompt(question, pdfAnswer.text)];
        var pdfFailed := pdfPrompts != [] && llmClient.respond(pdfPrompts[0]).None?;
        llmClient.prompts == old(llmClient.prompts) + videoPrompts + pdfPrompts &&
        (videoAnswer != null ==>
           videoAnswer.refinedAnswer == (if videoFailed then old(videoAnswer.refinedAnswer) else llmClient.respond(videoPrompts[0]))) &&
        (pdfAnswer != null ==>
           pdfAnswer.summary == (if pdfPrompts == [] || pdfFailed then old(pdfAnswer.summary) else llmClient.respond(pdfPrompts[0]))) &&
        (r.Success? <==> !videoFailed && !pdfFailed) &&
        (r.Success? ==> r.value == (videoAnswer, pdfAnswer))
    {
      if videoAnswer != null {
        var answerPrompt := VideoPrompt(question, videoAnswer.transcriptSnippet);
        var refinedAnswer := llmClient.Generate(answerPrompt);
        if refinedAnswer.None? {
          return Failure(GenerateFailed);
        }
        videoAnswer.refinedAnswer := refinedAnswer;
      }
      if pdfAnswer != null {
        var answerPrompt := PdfPrompt(question, pdfAnswer.text);
        var summary := llmClient.Generate(answerPrompt);
        if summary.None? {
          return Failure(GenerateFailed);
        }
        pdfAnswer.summary := summary;
      }
      return Success((videoAnswer, pdfAnswer));
    }
  }
}
