# mcp-jotform relay core in Dafny

This project models the pure decision logic of the mcp-jotform HTTP relay
(`Server.py`). The relay is a small Flask service that sits between an agent
and the Jotform form service. The modelled parts are:

- parsing the `ALLOWED_FORM_IDS` allow-list from its comma-separated value;
- `check_allowed`, and which handlers call it before contacting the service;
- the `list_forms` filter over the service's form list;
- `normalize_type`, which maps raw control types to the seven canonical field types;
- the `catalog` descriptor construction: label fallback, canonical type, and
  the choice list taken from a `|`-delimited string or from a list;
- the payload presence guard of `create_submission` and `edit_submission`, and
  the POST they would send;
- the `download_file` URL clean-up `strip().strip("<>").strip("'\"")`.

Modules:

- `Wrappers`: `Option`, `Result` and `Outcome`.
- `Seqs`: the meaning of a Python list comprehension with a filter. It is
  defined recursively and also characterised independently by the ascending
  list of kept positions and by occurrence counts.
- `Text`: Python's `str.strip()`, using the exact set of characters
  `str.isspace` accepts; `str.strip(chars)`; single-character `split` and its
  inverse `join`.
- `FieldTypes`, `AllowList`, `Catalog`, `Relay`: the relay's own logic.

Two properties of the code are worth stating up front:

- Choice lists are trimmed and empty entries dropped; they are not
  deduplicated (`OptionsKeepDuplicates`).
- There are seven canonical types (`CanonicalTypesAllReached`).

## Model

| member | source | states |
|---|---|---|
| FieldTypes.NormalizeType | Server.py:115-123 | The result is always one of the seven canonical types. It is "number" exactly for control_number and control_spinner. It is "enum" exactly for radio, dropdown and checkbox. It is "string" exactly for null and for every raw type outside the translation table. |
| FieldTypes.NormalizeTypeIsTableLookup | Server.py:115-123 | The comparison chain agrees with an independent lookup table: a tabled raw type gets its entry, and anything else (null and "" included) gets "string". |
| FieldTypes.CanonicalTypesAllReached | Server.py:115-123 | There are exactly seven canonical types, and each one is produced by some raw type. |
| AllowList.Parse | Server.py:10 | An id is allowed if and only if it is non-empty and some comma-separated piece of the value strips to it. Every allowed id is non-empty and has no outer whitespace. |
| AllowList.ParseJoin | Server.py:10 | Parsing inverts writing the list out: stripped, non-empty, comma-free ids joined with commas parse back to exactly that set. |
| AllowList.BlankParsesEmpty | Server.py:10 | An empty or all-whitespace value gives an empty allow-list, and then every form id is admitted. |
| AllowList.CheckAllowed | Server.py:24-26 | A form id passes if and only if the allow-list is empty or contains it. A refusal names that id. |
| AllowList.FilterForms | Server.py:37-39 | With no allow-list the form list is returned unchanged. Otherwise every returned form has an allowed id and came from the input. |
| AllowList.FilterFormsSelects | Server.py:38-39 | Under an allow-list, the result is the order-preserving subsequence at ascending positions. A position is kept if and only if its form's id is allowed. |
| AllowList.FilterFormsAgreesWithCheck | Server.py:24-39 | A form is listed if and only if it is in the input and either there is no allow-list or its id passes `check_allowed`. |
| AllowList.FilterFormsCount | Server.py:39 | An admitted form appears as often as in the input, and a refused one never appears. |
| Seqs.Filter | Server.py:39 | A list comprehension with a filter: the result is no longer than the input, every element is accepted, and every element comes from the input. `Seqs.FilterSelects` and `Seqs.FilterCount` pin it down completely. |
| Seqs.FilterSelects | Server.py:39 | The recursive filter equals the independent kept-positions characterisation: same length, ascending positions, the element at each position, and a position is kept if and only if accepted. |
| Seqs.FilterCount | Server.py:139-141 | Filtering neither merges nor duplicates: an accepted value occurs as often as in the input, a rejected one not at all. |
| Seqs.FilterMember | Server.py:39 | A value is in the filtered sequence if and only if it is in the input and accepted. |
| Text.StripChars | Server.py:75 | `str.strip(chars)`: the result neither starts nor ends with one of the characters and is no longer than the input. `Text.StripCharsUnique` and `Text.StripCharsPaddedBy` show it is exactly the middle left after removing the margins. |
| Text.Strip | Server.py:10 | `str.strip()`: the result neither starts nor ends with one of the characters `str.isspace` accepts. |
| Text.Split | Server.py:139 | `str.split(sep)` for a one-character separator: at least one piece, and no piece contains the separator. `Text.JoinSplit` and `Text.SplitJoin` make join its inverse. |
| Text.TrimmedNonEmpty | Server.py:139 | The shape `[s.strip() for s in xs if s.strip()]`: every element is non-empty and already stripped. `Text.TrimmedNonEmptyMember` gives exact membership, and `Text.TrimmedNonEmptySelects` gives the order. |
| Text.StripCharsUnique | Server.py:75 | `strip(chars)` is pinned down by its margins. Any split into a prefix of those characters, a middle that neither starts nor ends with one, and a suffix of them has the strip result as its middle. |
| Text.StripCharsIdempotent | Server.py:75 | Stripping twice with the same characters is stripping once. |
| Text.StripCharsPaddedBy | Server.py:75 | Stripping only removes characters of the given set, and only at the two ends. |
| Text.JoinSplit | Server.py:139 | Joining the pieces of a split with the separator gives back the original string. |
| Text.SplitJoin | Server.py:10 | Splitting a join of at least one separator-free part gives back those parts. |
| Text.TrimmedNonEmptyMember | Server.py:10 | A string is among the stripped non-empty pieces if and only if it is non-empty and some piece strips to it. |
| Catalog.Label | Server.py:133 | The label is the key or the question text. It is the key exactly when the text is null, empty, or equal to the key, and an empty label means an empty key. |
| Catalog.ExtractOptions | Server.py:137-141 | Choices exist if and only if the options value is a string or a list. Every choice is non-empty and has no outer whitespace. |
| Catalog.Describe | Server.py:130-148 | The canonical type is one of the seven. Choices are present only on enum fields, and exactly when the raw type is radio, dropdown or checkbox and the options are a string or a list. |
| Catalog.BuildCatalog | Server.py:129-150 | One descriptor per question, in order. Id, key and raw type are copied, and the canonical type is the normalised raw type. The label is the text when it is non-empty and otherwise the key. Choices are extracted only for enum fields. |
| Catalog.PipeOptionsSelect | Server.py:138-139 | Choices from a pipe-delimited string are the stripped segments at the ascending positions whose segment does not strip to empty. |
| Catalog.ListOptionsSelect | Server.py:140-141 | Choices from a list are the stripped entries at the ascending positions whose entry does not strip to empty. |
| Catalog.OptionsKeepDuplicates | Server.py:139-141 | A choice occurs once for every segment or entry that strips to it: no deduplication. |
| Catalog.SpacedPipeOptions | Server.py:139 | The string a, space, pipe, space, b, space, pipe, c gives the choices a, b, c in that order. |
| Catalog.ListOptionsDropEmpty | Server.py:141 | The list a, "", " b " gives the choices a, b. |
| Catalog.RepeatedChoiceKept | Server.py:139 | The string a, pipe, a gives the choice a twice. |
| Catalog.TwoQuestionCatalog | Server.py:129-150 | A radio question with a pipe-delimited string and a textbox question give exactly two descriptors. The first is enum with choices, the second is string without. |
| Relay.Status | Server.py:85-89 | The missing payload and missing URL answers are 400. A refused form id and a body of the wrong kind surface as 500. |
| Relay.PayloadOf | Server.py:86-91 | The payload is accepted if and only if the body is an object whose `payload` is a non-empty object, and the success is that object. "missing payload" is answered if and only if the body is falsy, or is an object whose `payload` is absent or falsy. Every other case is malformed: a truthy body that is not an object, or a truthy `payload` that is not an object. |
| Relay.WithCredential | Server.py:91 | The forwarded data has the payload's keys plus "apiKey". "apiKey" holds the credential and replaces any caller value. All other entries are unchanged. |
| Relay.CreateSubmission | Server.py:83-92 | A form id outside a non-empty allow-list is refused whatever the body. Otherwise a payload rejection is passed on, and a payload is posted with the credential to `/form/<id>/submissions`. |
| Relay.EditSubmission | Server.py:99-107 | No allow-list check. The request succeeds if and only if the payload is accepted, and then it posts to `/submission/<id>`. |
| Relay.ForwardedPayloadNonEmpty | Server.py:86-104 | Create and edit only forward when the body has a truthy `payload`. A falsy body is always rejected by both. |
| Relay.CleanUrl | Server.py:75 | The cleaned URL does not start or end with a quote and is no longer than its input. |
| Relay.DownloadTarget | Server.py:72-75 | An empty `url` parameter is the only failure, answered 400. Otherwise the result is the cleaned decoded URL. |
| Relay.CleanUrlRemovesOnlyDecoration | Server.py:75 | The decoded URL is the cleaned URL with only whitespace, angle brackets and quotes added around it. |
| Relay.CleanUrlUnwraps | Server.py:75 | `" <'u'> "` (either quote) cleans to the bare URL `u`. |
| Relay.CleanUrlKeepsBareUrl | Server.py:75 | A URL with no decoration at either end is unchanged. |
| Relay.Admit | Server.py:42-127 | A handler refuses before calling the service if and only if it is form-scoped (get_form, list_questions, list_submissions, create_submission, catalog), the allow-list is non-empty, and the form id is not on it. |
| Relay.FormScopedHandlersGated | Server.py:42-127 | For an id outside a non-empty allow-list, every form-scoped handler refuses. get_submission and edit_submission are never refused. |

## Left out

- HTTP routing, Flask responses and JSON envelopes (`{"ok": ...}`): the model returns the decision each handler reaches, not the response object.
- Calls to the form service (`jf`, `requests.get`, `requests.post`), their timeouts, `raise_for_status` and the upstream error passthrough (`r.text[:400]`): network I/O. The model stops at the request it would send.
- Reading the environment (`JOTFORM_API_KEY`, `MCP_NAME`, `PORT`) and the `__main__` block: the allow-list value and the key are parameters.
- The missing-credential error raised by `jf`: it is raised before any service data exists, and the model starts from that data.
- The model assumes well-formed forms and questions from the service, and leaves out the crashes that malformed ones cause. A listed form that is not an object raises AttributeError at `f.get` under an allow-list. A form id that is an array or object raises TypeError (unhashable) in the allow-list membership test. A question that is not an object raises AttributeError at `q.get`. For choice questions, a truthy `properties` that is not an object raises AttributeError at `props.get`.
- `unquote`: percent-decoding is a library call, passed to `Relay.DownloadTarget` as a function parameter.
- The `since` filter of `list_submissions` (`json.dumps({"created_at:gt": since})`): JSON encoding of a query parameter with no decision logic.
- Catalog.ExtractOptions: list entries are modelled as strings. `str(o)` of non-string entries (numbers, booleans, null) is not modelled, because it needs Python's number formatting.
- A JSON null question `name`: the model takes `name` as a string, missing names read as "".
- Unicode beyond the fixed set of characters `str.isspace` accepts: there is no case folding or normalisation involved.
- `request.get_json(force=True)` failing to parse the body: the model starts from a decoded JSON value.
- The integer/float distinction of JSON numbers: numbers are reals, since only zero versus non-zero matters for truthiness.
