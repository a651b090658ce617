/**
 * The character encoding and content type of a Facelets response.
 *
 * The request, the session and the Faces-context attributes are passed in as
 * values. An attribute map entry is `Option<Option<String>>`: absent, present
 * holding null, or present holding a string. A session is `None` when the
 * request has no session, otherwise `Some` of the encoding it stores under
 * `CHARACTER_ENCODING_KEY` (which may be absent).
 */
module ResponseHeaders {
  import opened Wrappers
  import opened JavaStrings

  const DEFAULT_ENCODING: String := "UTF-8"
  const DEFAULT_CONTENT_TYPE: String := "text/html"

  /** The encoding to use, and what (if anything) is written back to the session. */
  datatype EncodingDecision = EncodingDecision(encoding: String, sessionWrite: Option<Option<String>>)

  /**
   * `getResponseEncoding`: the request's encoding, else the session's; a
   * `facelets.Encoding` attribute then overrides both (even with null) and is
   * copied into the session when there is one; a null result falls back to a
   * non-empty `orig`, else UTF-8.
   */
  function GetResponseEncoding(orig: Option<String>, requestEncoding: Option<String>,
                               session: Option<Option<String>>,
                               faceletsEncoding: Option<Option<String>>): (r: EncodingDecision)
    ensures || r.encoding == DEFAULT_ENCODING
            || (orig.Some? && r.encoding == orig.value)
            || (requestEncoding.Some? && r.encoding == requestEncoding.value)
            || (session.Some? && session.value.Some? && r.encoding == session.value.value)
            || (faceletsEncoding.Some? && faceletsEncoding.value.Some? && r.encoding == faceletsEncoding.value.value)
    ensures r.sessionWrite.Some? ==> session.Some?
  {
    var fromRequestOrSession :=
      if requestEncoding.Some? then requestEncoding
      else if session.Some? then session.value
      else None;
    var encoding := if faceletsEncoding.Some? then faceletsEncoding.value else fromRequestOrSession;
    var sessionWrite := if faceletsEncoding.Some? && session.Some? then Some(faceletsEncoding.value) else None;
    var chosen :=
      if encoding.Some? then encoding.value
      else if orig.Some? && 0 < |orig.value| then orig.value
      else DEFAULT_ENCODING;
    EncodingDecision(chosen, sessionWrite)
  }

  /** The full precedence order of the encoding, case by case. */
  lemma EncodingPrecedence(orig: Option<String>, requestEncoding: Option<String>,
                           session: Option<Option<String>>, faceletsEncoding: Option<Option<String>>)
    ensures var d := GetResponseEncoding(orig, requestEncoding, session, faceletsEncoding);
            var fallback := if orig.Some? && orig.value != [] then orig.value else DEFAULT_ENCODING;
            && (faceletsEncoding == Some(None) ==> d.encoding == fallback)
            && (faceletsEncoding.Some? && faceletsEncoding.value.Some? ==> d.encoding == faceletsEncoding.value.value)
            && (faceletsEncoding.None? && requestEncoding.Some? ==> d.encoding == requestEncoding.value)
            && (faceletsEncoding.None? && requestEncoding.None? && session.Some? && session.value.Some? ==>
                  d.encoding == session.value.value)
            && (faceletsEncoding.None? && requestEncoding.None? && (session.None? || session.value.None?) ==>
                  d.encoding == fallback)
  {
  }

  /** The session is written exactly when the attribute is present and a session exists, with the attribute's value. */
  lemma EncodingSessionWrite(orig: Option<String>, requestEncoding: Option<String>,
                             session: Option<Option<String>>, faceletsEncoding: Option<Option<String>>)
    ensures var d := GetResponseEncoding(orig, requestEncoding, session, faceletsEncoding);
            (d.sessionWrite.Some? <==> faceletsEncoding.Some? && session.Some?)
            && (d.sessionWrite.Some? ==> d.sessionWrite.value == faceletsEncoding.value)
  {
  }

  /** The encoding is never empty unless an empty string was explicitly supplied by the request, session or attribute. */
  lemma EncodingNonEmptyFromDefaults(orig: Option<String>, requestEncoding: Option<String>,
                                     session: Option<Option<String>>, faceletsEncoding: Option<Option<String>>)
    requires requestEncoding.Some? ==> requestEncoding.value != []
    requires session.Some? && session.value.Some? ==> session.value.value != []
    requires faceletsEncoding.Some? && faceletsEncoding.value.Some? ==> faceletsEncoding.value.value != []
    ensures GetResponseEncoding(orig, requestEncoding, session, faceletsEncoding).encoding != []
  {
  }

  /**
   * `getResponseContentType`: a `facelets.ContentType` attribute overrides
   * `orig` (even with null); null becomes `text/html`.
   */
  function GetResponseContentType(orig: Option<String>, faceletsContentType: Option<Option<String>>): (r: String)
    ensures faceletsContentType.Some? && faceletsContentType.value.Some? ==> r == faceletsContentType.value.value
    ensures faceletsContentType == Some(None) ==> r == DEFAULT_CONTENT_TYPE
    ensures faceletsContentType.None? ==> r == orig.GetOr(DEFAULT_CONTENT_TYPE)
  {
    var contentType := if faceletsContentType.Some? then faceletsContentType.value else orig;
    if contentType.None? then DEFAULT_CONTENT_TYPE else contentType.value
  }
}
