/** The translation endpoint of the mining API: validation of the request
    and the rule that the translator is only called for a valid one. */
module Translate {
  import opened Wrappers
  import opened Handlers

  /** The decoded body of a translation request. */
  datatype TranslateRequest = TranslateRequest(sourceLanguageCode: string, targetLanguageCode: string, input: string)
  {
    /** Names the first empty field in the order source language, target
        language, input; None when the request is valid. The language codes
        are not checked for being well-formed. */
    function Validate(): (err: Option<string>)
      ensures err.None? <==> sourceLanguageCode != "" && targetLanguageCode != "" && input != ""
      ensures sourceLanguageCode == "" ==> err == Some("source_language_code is required")
      ensures sourceLanguageCode != "" && targetLanguageCode == "" ==> err == Some("target_language_code is required")
      ensures sourceLanguageCode != "" && targetLanguageCode != "" && input == "" ==> err == Some("input is required")
    {
      if sourceLanguageCode == "" then Some("source_language_code is required")
      else if targetLanguageCode == "" then Some("target_language_code is required")
      else if input == "" then Some("input is required")
      else None
    }
  }

  /** A call of the translator: the text and the two language codes. */
  datatype TranslatorCall = TranslatorCall(input: string, source: string, target: string)

  /** How the request was answered: the outcome (whose query is the
      translator call, if one was made) and the translation returned. */
  datatype Answer = Answer(outcome: Outcome<TranslatorCall>, translation: Option<string>)

  /** Handling a translation request. `translator` is the translator's
      answer for the call the handler would make: a translation, or None
      when it fails. */
  function Translate(body: Option<TranslateRequest>, translator: Option<string>): (a: Answer)
    ensures a.outcome.status == StatusBadRequest <==> body.None? || body.value.Validate().Some?
    ensures a.outcome.status == StatusBadRequest ==> a.outcome.query.None? && a.translation.None?
    ensures body.Some? && body.value.Validate().Some? ==>
      a.outcome.rejection == Some(Invalid(body.value.Validate().value))
    ensures a.outcome.query.Some? ==> (body.Some? && a.outcome.query.value ==
      TranslatorCall(body.value.input, body.value.sourceLanguageCode, body.value.targetLanguageCode))
    ensures a.outcome.status == StatusOK <==> a.translation.Some?
    ensures a.translation.Some? ==> a.translation == translator
  {
    match body
    case None => Answer(Reject(UnreadableBody), None)
    case Some(req) =>
      match req.Validate()
      case Some(msg) => Answer(Reject(Invalid(msg)), None)
      case None =>
        var call := TranslatorCall(req.input, req.sourceLanguageCode, req.targetLanguageCode);
        Answer(Issue(call, translator.Some?, StatusOK), translator)
  }

  /** A valid request is answered by the translator: 200 with its
      translation when it succeeds, 500 when it fails. */
  lemma ValidRequestIsTranslated(req: TranslateRequest, translator: Option<string>)
    requires req.sourceLanguageCode != "" && req.targetLanguageCode != "" && req.input != ""
    ensures Translate(Some(req), translator).outcome.query.Some?
    ensures Translate(Some(req), translator).outcome.status ==
      (if translator.Some? then StatusOK else StatusInternalServerError)
  {
  }
}
