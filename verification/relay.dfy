/** The request-level decisions the HTTP handlers make before any call to the
    form service: which handlers refuse a form id outside the allow-list,
    whether a create or edit request carries a payload and what is then
    posted, and how a download URL is cleaned. */
module Relay {

  import opened Wrappers
  import Text
  import AllowList

  /** A JSON value as decoded from a request body. */
  datatype Json =
    | JNull
    | JBool(b: bool)
    | JNum(n: real)
    | JStr(s: string)
    | JArr(items: seq<Json>)
    | JObj(fields: map<string, Json>)

  /** Python's truth value of the decoded value: null, false, zero and empty
      strings, lists and objects are false. */
  predicate Truthy(j: Json) {
    match j
    case JNull => false
    case JBool(b) => b
    case JNum(n) => n != 0.0
    case JStr(s) => s != ""
    case JArr(items) => items != []
    case JObj(fields) => fields != map[]
  }

  /** Why a request ends without a call to the form service. */
  datatype Rejection =
    | Refused(reason: AllowList.Refusal)  // `check_allowed` raised
    | MissingPayload                      // answered "missing payload"
    | MissingUrl                          // answered "missing url"
    | Malformed                           // body or payload of the wrong JSON kind: a Python error

  /** The HTTP status the caller sees for a rejection: the two client errors
      are answered with 400, an exception surfaces as a server error. */
  function Status(r: Rejection): (code: int)
    ensures code == 400 <==> r.MissingPayload? || r.MissingUrl?
    ensures code == 500 <==> r.Refused? || r.Malformed?
  {
    match r
    case MissingPayload => 400
    case MissingUrl => 400
    case Refused(_) => 500
    case Malformed => 500
  }

  /** A form-encoded POST to the form service. */
  datatype Post = Post(url: string, data: map<string, Json>)

  const ApiBase: string := "https://api.jotform.com"

  /** The `payload` object of a create or edit request body: the body, or
      `{}` when it is falsy, must be an object; its `payload` entry, or `{}`
      when absent, must be truthy and then an object. A truthy body that is
      not an object has no `get`, and a truthy payload that is not an object
      cannot take the credential entry: both are `Malformed`. */
  function PayloadOf(body: Json): (r: Result<map<string, Json>, Rejection>)
    ensures r.Success? ==>
      body.JObj? && "payload" in body.fields && body.fields["payload"] == JObj(r.value) && r.value != map[]
    ensures r == Failure(MissingPayload) <==>
      !Truthy(body) || (body.JObj? && ("payload" !in body.fields || !Truthy(body.fields["payload"])))
    ensures r.Success? <==>
      body.JObj? && "payload" in body.fields && body.fields["payload"].JObj?
      && body.fields["payload"].fields != map[]
    ensures r == Failure(Malformed) <==>
      (Truthy(body) && !body.JObj?)
      || (body.JObj? && "payload" in body.fields && Truthy(body.fields["payload"])
          && !body.fields["payload"].JObj?)
    ensures r.Failure? ==> r.error in {MissingPayload, Malformed}
  {
    var b := if Truthy(body) then body else JObj(map[]);
    match b
    case JObj(fields) =>
      var payload := if "payload" in fields then fields["payload"] else JObj(map[]);
      if !Truthy(payload) then Failure(MissingPayload)
      else if payload.JObj? then Success(payload.fields)
      else Failure(Malformed)
    case _ => Failure(Malformed)
  }

  /** The payload forwarded to the service: the caller's entries with the
      credential stored under "apiKey", replacing any caller value there. */
  function WithCredential(payload: map<string, Json>, apiKey: string): (data: map<string, Json>)
    ensures data.Keys == payload.Keys + {"apiKey"}
    ensures data["apiKey"] == JStr(apiKey)
    ensures forall k :: k in payload && k != "apiKey" ==> data[k] == payload[k]
  {
    payload["apiKey" := JStr(apiKey)]
  }

  /** `create_submission`: refuse a form outside the allow-list whatever the
      body, then refuse a missing payload, and otherwise post the payload
      with the credential to the form's submissions. */
  function CreateSubmission(allowed: set<string>, formId: string, body: Json, apiKey: string)
    : (r: Result<Post, Rejection>)
    ensures allowed != {} && formId !in allowed ==>
      r == Failure(Refused(AllowList.NotAllowed(formId)))
    ensures (allowed == {} || formId in allowed) ==>
      match PayloadOf(body)
      case Failure(e) => r == Failure(e)
      case Success(p) =>
        r == Success(Post(ApiBase + "/form/" + formId + "/submissions", WithCredential(p, apiKey)))
  {
    match AllowList.CheckAllowed(allowed, formId)
    case Fail(reason) => Failure(Refused(reason))
    case Pass =>
      match PayloadOf(body)
      case Failure(e) => Failure(e)
      case Success(p) => Success(Post(ApiBase + "/form/" + formId + "/submissions", WithCredential(p, apiKey)))
  }

  /** `edit_submission`: no allow-list check; refuse a missing payload, and
      otherwise post the payload with the credential to the submission. */
  function EditSubmission(submissionId: string, body: Json, apiKey: string): (r: Result<Post, Rejection>)
    ensures r.Success? <==> PayloadOf(body).Success?
    ensures r.Failure? ==> r.error == PayloadOf(body).error
    ensures r.Success? ==>
      r.value.url == ApiBase + "/submission/" + submissionId
      && r.value.data == WithCredential(PayloadOf(body).value, apiKey)
  {
    match PayloadOf(body)
    case Failure(e) => Failure(e)
    case Success(p) => Success(Post(ApiBase + "/submission/" + submissionId, WithCredential(p, apiKey)))
  }

  /** A create or edit request is only ever forwarded with a non-empty
      payload object, which it forwards entry for entry. */
  lemma ForwardedPayloadNonEmpty(allowed: set<string>, formId: string, submissionId: string,
                                 body: Json, apiKey: string)
    ensures CreateSubmission(allowed, formId, body, apiKey).Success? ==>
      body.JObj? && "payload" in body.fields && Truthy(body.fields["payload"])
    ensures EditSubmission(submissionId, body, apiKey).Success? ==>
      body.JObj? && "payload" in body.fields && Truthy(body.fields["payload"])
    ensures !Truthy(body) ==>
      && CreateSubmission(allowed, formId, body, apiKey).Failure?
      && EditSubmission(submissionId, body, apiKey) == Failure(MissingPayload)
  {
  }

  /** Characters `download_file` removes from the ends, stage by stage. */
  const Angles: set<char> := {'<', '>'}
  const Quotes: set<char> := {'\'', '"'}

  /** `url.strip().strip("<>").strip("'\"")` of the already percent-decoded
      URL. */
  function CleanUrl(u: string): (r: string)
    ensures Text.Stripped(r, Quotes)
    ensures |r| <= |u|
  {
    Text.StripChars(Text.StripChars(Text.Strip(u), Angles), Quotes)
  }

  /** `download_file`: an empty or missing `url` argument is refused; any
      other is percent-decoded by `unquote`, which stands for the library
      decoder, and cleaned. */
  function DownloadTarget(rawUrl: string, unquote: string -> string): (r: Result<string, Rejection>)
    ensures r.Failure? <==> rawUrl == ""
    ensures r.Failure? ==> r.error == MissingUrl && Status(r.error) == 400
    ensures r.Success? ==> r.value == CleanUrl(unquote(rawUrl))
    ensures r.Success? ==> Text.Stripped(r.value, Quotes) && |r.value| <= |unquote(rawUrl)|
  {
    if rawUrl == "" then Failure(MissingUrl) else Success(CleanUrl(unquote(rawUrl)))
  }

  /** Cleaning only removes decoration at the two ends: the decoded URL is
      the cleaned URL with a prefix and a suffix made only of whitespace,
      angle brackets and quotes around it. */
  lemma {:induction false} CleanUrlRemovesOnlyDecoration(u: string)
    ensures Text.PaddedBy(u, CleanUrl(u), Text.Whitespace + Angles + Quotes)
  {
    var deco := Text.Whitespace + Angles + Quotes;
    var a := Text.Strip(u);
    var b := Text.StripChars(a, Angles);
    Text.StripCharsPaddedBy(u, Text.Whitespace, deco);
    Text.StripCharsPaddedBy(a, Angles, deco);
    Text.StripCharsPaddedBy(b, Quotes, deco);
    Text.PaddedByTrans(u, a, b, deco);
    Text.PaddedByTrans(u, b, CleanUrl(u), deco);
  }

  /** A URL written between optional whitespace, angle brackets and a pair of
      matching quotes comes out bare. */
  lemma {:induction false} CleanUrlUnwraps(u: string, q: char)
    requires q in Quotes
    requires Text.Stripped(u, Quotes)
    ensures CleanUrl(" <" + [q] + u + [q] + "> ") == u
  {
    WrappedUrlShape(u, q);
    UnquoteStage(u, q);
    UnangleStage([q] + u + [q]);
    UnspaceStage("<" + ([q] + u + [q]) + ">");
  }

  /** Stripping the outer spaces leaves the bracketed URL. */
  lemma UnspaceStage(angled: string)
    requires |angled| >= 2 && angled[0] == '<' && angled[|angled| - 1] == '>'
    ensures Text.Strip(" " + angled + " ") == angled
  {
    assert '<' !in Text.Whitespace && '>' !in Text.Whitespace;
    Text.StripSurroundingSpaces(angled);
  }

  /** Stripping angle brackets leaves the quoted URL. */
  lemma UnangleStage(inner: string)
    requires Text.Stripped(inner, Angles)
    ensures Text.StripChars("<" + inner + ">", Angles) == inner
  {
    assert Text.AllIn("<", Angles) && Text.AllIn(">", Angles);
    Text.StripCharsPadded("<", inner, ">", Angles);
  }

  /** Stripping quotes leaves the bare URL. */
  lemma UnquoteStage(u: string, q: char)
    requires q in Quotes
    requires Text.Stripped(u, Quotes)
    ensures Text.Stripped([q] + u + [q], Angles)
    ensures Text.StripChars([q] + u + [q], Quotes) == u
  {
    assert Text.AllIn([q], Quotes);
    Text.StripCharsPadded([q], u, [q], Quotes);
  }

  /** The decorated URL is the quoted URL in angle brackets, padded by a
      space on each side. */
  lemma WrappedUrlShape(u: string, q: char)
    ensures " <" + [q] + u + [q] + "> " == " " + ("<" + ([q] + u + [q]) + ">") + " "
  {
  }

  /** A URL with no decoration at its ends is left as it is. */
  lemma CleanUrlKeepsBareUrl(u: string)
    requires Text.Stripped(u, Text.Whitespace + Angles + Quotes)
    ensures CleanUrl(u) == u
  {
    Text.StripCharsKeepsStripped(u, Text.Whitespace);
    Text.StripCharsKeepsStripped(u, Angles);
    Text.StripCharsKeepsStripped(u, Quotes);
  }

  /** The handlers that receive a path identifier, and the identifier. */
  datatype Endpoint =
    | Health
    | ListForms
    | GetForm(formId: string)
    | ListQuestions(formId: string)
    | ListSubmissions(formId: string)
    | GetSubmission(submissionId: string)
    | DownloadFile
    | CreateSubmissionAt(formId: string)
    | EditSubmissionAt(submissionId: string)
    | CatalogOf(formId: string)

  /** The handlers whose path identifier is a form id. */
  predicate FormScoped(e: Endpoint) {
    e.GetForm? || e.ListQuestions? || e.ListSubmissions? || e.CreateSubmissionAt? || e.CatalogOf?
  }

  /** The form id a handler passes to `check_allowed` before doing anything
      else, if it calls it at all. */
  function CheckedFormId(e: Endpoint): Option<string> {
    match e
    case GetForm(id) => Some(id)
    case ListQuestions(id) => Some(id)
    case ListSubmissions(id) => Some(id)
    case CreateSubmissionAt(id) => Some(id)
    case CatalogOf(id) => Some(id)
    case _ => None
  }

  /** The allow-list gate in front of a handler. */
  function Admit(allowed: set<string>, e: Endpoint): (r: Outcome<AllowList.Refusal>)
    ensures r.Fail? <==> FormScoped(e) && allowed != {} && e.formId !in allowed
    ensures r.Fail? ==> r.error == AllowList.NotAllowed(e.formId)
  {
    match CheckedFormId(e)
    case None => Pass
    case Some(id) => AllowList.CheckAllowed(allowed, id)
  }

  /** Every handler scoped to a form id refuses one outside a non-empty
      allow-list before contacting the service, while the handlers scoped to
      a submission id are never gated. */
  lemma FormScopedHandlersGated(allowed: set<string>, id: string)
    ensures allowed != {} && id !in allowed ==>
      && Admit(allowed, GetForm(id)).Fail?
      && Admit(allowed, ListQuestions(id)).Fail?
      && Admit(allowed, ListSubmissions(id)).Fail?
      && Admit(allowed, CreateSubmissionAt(id)).Fail?
      && Admit(allowed, CatalogOf(id)).Fail?
    ensures Admit(allowed, GetSubmission(id)).Pass? && Admit(allowed, EditSubmissionAt(id)).Pass?
  {
  }
}
