/**
 * The text handling of the local language-model client: whitespace
 * normalisation and the removal of an echoed prompt from the decoded output.
 * The model call itself is not part of this module.
 */
module LlmClients {
  import opened PyStrings

  /** `normalize`: the text's whitespace-separated words, joined by single spaces. */
  function Normalize(text: string): string {
    Join(" ", Words(text))
  }

  /** Normalised text has no whitespace at either end and never two whitespace characters in a row. */
  lemma NormalizeSingleSpaced(text: string)
    ensures var n := Normalize(text);
      SingleSpaced(n) &&
      (n == [] || (!IsSpace(n[0]) && !IsSpace(n[|n| - 1]))) &&
      (forall i :: 0 <= i < |n| - 1 ==> !(IsSpace(n[i]) && IsSpace(n[i + 1])))
  {
    WordsAreWords(text);
    JoinWordsSingleSpaced(Words(text));
  }

  /** Normalising keeps the sequence of words. */
  lemma NormalizeWords(text: string)
    ensures Words(Normalize(text)) == Words(text)
  {
    WordsAreWords(text);
    WordsOfJoin(Words(text));
  }

  lemma NormalizeIdempotent(text: string)
    ensures Normalize(Normalize(text)) == Normalize(text)
  {
    NormalizeWords(text);
  }

  /** Normalising gives "" exactly for empty or all-whitespace text. */
  lemma NormalizeBlank(text: string)
    ensures Normalize(text) == [] <==> forall i :: 0 <= i < |text| ==> IsSpace(text[i])
  {
    WordsAreWords(text);
    JoinWordsSingleSpaced(Words(text));
    WordsEmptyIff(text);
  }

  /**
   * The tail of `generate`: the decoded output is stripped, then both it
   * and the prompt are normalised, and an echoed prompt at the start of
   * the output is cut off.
   */
  function PostProcess(decoded: string, prompt: string): string {
    var refined, normalizedPrompt := Normalize(Strip(decoded)), Normalize(prompt);
    if StartsWith(refined, normalizedPrompt) then refined[|normalizedPrompt|..] else refined
  }

  /**
   * The result is the normalised output less the normalised prompt when it
   * starts with it, and the whole normalised output otherwise: prompt and
   * result put back together give the output.
   */
  lemma PostProcessRemovesEcho(decoded: string, prompt: string)
    ensures var refined, normalizedPrompt := Normalize(Strip(decoded)), Normalize(prompt);
      (StartsWith(refined, normalizedPrompt) ==> refined == normalizedPrompt + PostProcess(decoded, prompt)) &&
      (!StartsWith(refined, normalizedPrompt) ==> PostProcess(decoded, prompt) == refined)
  {
    var refined, normalizedPrompt := Normalize(Strip(decoded)), Normalize(prompt);
    if StartsWith(refined, normalizedPrompt) {
      assert refined == refined[..|normalizedPrompt|] + refined[|normalizedPrompt|..];
    }
  }

  /** The result is always a suffix of the normalised output. */
  lemma PostProcessSuffix(decoded: string, prompt: string)
    ensures var refined, r := Normalize(Strip(decoded)), PostProcess(decoded, prompt);
      |r| <= |refined| && r == refined[|refined| - |r|..]
  {
    var refined, normalizedPrompt := Normalize(Strip(decoded)), Normalize(prompt);
    if !StartsWith(refined, normalizedPrompt) {
      assert refined[0..] == refined;
    }
  }
}
