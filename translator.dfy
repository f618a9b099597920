/**
 * `Translator.translate`: the language table and the checks made before a
 * text is handed to the translation model. Language detection and the
 * model's generation are parameters of the model.
 */
module Translation {
  import opened Wrappers

  /** `lang_codes`: the language tags the translator accepts and the model's code for each. */
  const LangCodes: map<string, string> := map["es" := "spa_Latn", "en" := "eng_Latn"]

  /** Why `translate` raised `ValueError`, or why detection failed. */
  datatype TranslationError =
    | UnsupportedTarget(target: string)   // "Idioma destino no soportado"
    | UndetectedSource                    // `detect` raised: the text gives it nothing to go on
    | UnsupportedSource(source: string)   // "Idioma fuente no soportado para NLLB"

  /** A tag the table knows: exactly Spanish and English. */
  function Supported(tag: string): (b: bool)
    ensures b <==> tag == "es" || tag == "en"
  {
    tag in LangCodes
  }

  /** The model code of a supported tag. */
  function LangCode(tag: string): (code: string)
    requires Supported(tag)
    ensures tag == "es" ==> code == "spa_Latn"
    ensures tag == "en" ==> code == "eng_Latn"
  {
    LangCodes[tag]
  }

  /**
   * `translate(text, target_language)`; `detect` is `langdetect.detect`
   * (`None` when it raises) and `generate(text, code)` the tokenizer and
   * model run with generation forced to start in language `code`.
   * The target is checked first, so an unsupported target is reported
   * whatever detection would say; then the detected source; nothing else
   * is checked, and the source code plays no further part.
   */
  function Translate(text: string, target: string, detect: string -> Option<string>, generate: (string, string) -> string): (r: Result<string, TranslationError>)
    ensures !Supported(target) ==> r == Failure(UnsupportedTarget(target))
    ensures Supported(target) && detect(text).None? ==> r == Failure(UndetectedSource)
    ensures Supported(target) && detect(text).Some? && !Supported(detect(text).value) ==> r == Failure(UnsupportedSource(detect(text).value))
    ensures r.Success? <==> Supported(target) && detect(text).Some? && Supported(detect(text).value)
    ensures r.Success? ==> r.value == generate(text, LangCode(target))
  {
    if target !in LangCodes then Failure(UnsupportedTarget(target))
    else
      match detect(text)
      case None => Failure(UndetectedSource)
      case Some(sourceLang) =>
        var targetCode := LangCodes[target];
        if sourceLang !in LangCodes then Failure(UnsupportedSource(sourceLang))
        else Success(generate(text, targetCode))
  }

  /** An unsupported target is rejected before detection is consulted: the detector makes no difference. */
  lemma TargetCheckedFirst(text: string, target: string, d1: string -> Option<string>, d2: string -> Option<string>, generate: (string, string) -> string)
    requires !Supported(target)
    ensures Translate(text, target, d1, generate) == Translate(text, target, d2, generate)
  {
  }

  /** A text detected to be in the target language itself is translated like any other. */
  lemma SameLanguageAccepted(text: string, target: string, detect: string -> Option<string>, generate: (string, string) -> string)
    requires Supported(target) && detect(text) == Some(target)
    ensures Translate(text, target, detect, generate) == Success(generate(text, LangCode(target)))
  {
  }

  /** With the target fixed, which supported source is detected does not change the output. */
  lemma SourceOnlyChecked(text: string, target: string, d1: string -> Option<string>, d2: string -> Option<string>, generate: (string, string) -> string)
    requires Supported(target)
    requires d1(text).Some? && Supported(d1(text).value) && d2(text).Some? && Supported(d2(text).value)
    ensures Translate(text, target, d1, generate) == Translate(text, target, d2, generate)
  {
  }
}
