# Signature report of the PDF signature validator

A Dafny model of the library path of the validator's signature report
(`procesar_con_libreria` in `app.py`). The validation engine checks each signature
embedded in a PDF and returns a status. The code turns each status into one result record:

- `firma_valida` is the status's valid flag, unchanged.
- `razon_invalidez` is `"OK"` for a valid signature and the engine's summary otherwise.
- `nombre` and `cedula` come from two regular-expression searches in the signer
  certificate's subject: `commonName=([^,]+)` and `serialNumber=CPF-([\d-]+)`.
- `fecha_firma` is the rendered signing time.

Each of the last three fields is `"No disponible"` when it cannot be filled in. The
records are collected in document order. The report's `ok` flag is `len(firmas) > 0`:
it means "signatures were found", not "all signatures are valid". An exception anywhere
gives `{"firmas": [], "ok": False, "error": <message>}`.

Files:

- `wrappers.dfy` holds the `Option` type.
- `regex_search.dfy` models `re.search` for a pattern made of a literal prefix and one
  greedy group over a character class. `Search` is proved equal to a separate reference
  definition, `CapturedAt`: the leftmost matching start index, then the longest run of the
  class after the prefix.
- `signature_report.dfy` holds the engine status (`Status`), the record (`FirmaInfo`,
  `Datos`) and the report (`Report`). The specification functions are `FirmaOf` and
  `Process`. The methods `AnalyzeSignature` and `ProcesarConLibreria` are proved against
  them; they follow the source's step-by-step assignments and its appending loop.

The engine and the files it reads are inputs. `Document` is either the sequence of
embedded signatures or the message of an exception raised while reading the trust roots
or the PDF. Each signature's `Validation` is either a `Status` or the message of an
exception raised while validating it. `Status.subject` is `None` exactly when the guard
`status.path and isinstance(status.path, ValidationPath)` fails. Otherwise it holds the
rendered subject of the leaf certificate, as an arbitrary string.

## Model

| member | source | states |
|---|---|---|
| RegexSearch.FirstMatchFrom | app.py:58-59 | the result is a start index at which prefix plus one class character matches, and no earlier index from `from` on matches; `None` only if no index matches |
| RegexSearch.RunFrom | app.py:58-59 | the greedy group: a run of class characters at that index, ended by the end of the string or a character outside the class |
| RegexSearch.Search | app.py:58-59 | `re.search` finds something exactly when some start index matches; the group it returns is non-empty and is the reference capture (leftmost index, maximal run) |
| RegexSearch.MaximalRunUnique | app.py:58-59 | two maximal runs from the same index are equal |
| RegexSearch.CaptureUnique | app.py:58-59 | the reference definition admits at most one captured group |
| RegexSearch.SearchIsCapture | app.py:58-59 | `Search` returns `g` if and only if `g` is the reference capture, and returns nothing if and only if no index matches |
| RegexSearch.NoMatchWithoutPrefixChar | app.py:58-59 | if some character of the prefix never occurs in the string, the search fails |
| SignatureReport.ExtractNombre | app.py:59 | the name group is absent exactly when no `commonName=` is followed by a non-comma; otherwise it is non-empty, comma-free, follows the first such occurrence and runs to the next comma or the end |
| SignatureReport.ExtractCedula | app.py:58 | the identifier group is absent exactly when no `serialNumber=CPF-` is followed by a digit or hyphen; otherwise it is non-empty, only digits and hyphens, follows the first such occurrence and is maximal |
| SignatureReport.NombreOf | app.py:49-61 | `nombre` is the default without a subject or without a name match, and the captured name otherwise; it depends on the name search alone |
| SignatureReport.CedulaOf | app.py:50-62 | `cedula` is the default without a subject or without an identifier match, and the captured identifier otherwise; it depends on the identifier search alone |
| SignatureReport.FechaFirma | app.py:64 | `fecha_firma` is `"No disponible"` exactly when there is no signing time, and otherwise the rendered time |
| SignatureReport.FirmaOf | app.py:49-75 | the record copies the valid flag, has reason `"OK"` if valid and the summary verbatim otherwise, takes each identity field from its own search, has the time default exactly when the time is absent, and otherwise the rendered time |
| SignatureReport.AnalyzeSignature | app.py:49-75 | the step-by-step assignments produce exactly the record `FirmaOf` describes |
| SignatureReport.ErrorReport | app.py:82-86 | the error report has no records, `ok` false and the exception's message |
| SignatureReport.FirstRaised | app.py:43-46 | finds the first signature whose validation raised; every signature before it, or every signature if none raised, was validated |
| SignatureReport.FirstRaisedIsFirst | app.py:43-46 | the first raised validation is at `i` when all before `i` were validated and `i` raised, and there is none when all were validated |
| SignatureReport.Process | app.py:34-86 | `ok` holds exactly when there are records; an error report has no records; an unreadable document gives the error report; a document without signatures gives `firmas = []`, `ok = false` and no error |
| SignatureReport.ProcesarConLibreria | app.py:34-86 | the loop that appends one record per signature returns the report `Process` describes: with no error, one record per signature in order, each that signature's record, and `ok` exactly when there are records |
| SignatureReport.OneRecordPerSignature | app.py:43-80 | when every validation succeeds there is no error, as many records as signatures, record k is signature k's, and `ok` holds exactly when the document has a signature |
| SignatureReport.AppendOneSignature | app.py:67-76 | one more validated signature appends exactly its record and leaves the earlier records unchanged |
| SignatureReport.FirstRaisedDiscardsRecords | app.py:82-86 | a validation that raises after validated ones yields `firmas = []`, `ok = false` and its message, discarding the records built so far |
| SignatureReport.CedulaDefaultIffNotFound | app.py:50-62 | `cedula` is `"No disponible"` exactly when there is no subject or no identifier match, since no identifier equals the default |
| SignatureReport.NombreDefaultIsAmbiguous | app.py:49-61 | a subject `commonName=No disponible` yields the default text as a found name, so for `nombre` the default does not prove a failed search |
| SignatureReport.SubjectWithoutEqualsKeepsDefaults | app.py:55-62 | a subject with no `=` matches neither pattern, so both identity fields keep the default |
| SignatureReport.ExampleNombre | app.py:59-61 | on `commonName=Jane Doe, serialNumber=CPF-123-456` the name is `Jane Doe` |
| SignatureReport.ExampleCedula | app.py:58-62 | on the same subject the identifier is `123-456` |
| SignatureReport.EmptyNameIsSkipped | app.py:59 | a `commonName=` followed directly by a comma is skipped in favour of the next occurrence |
| SignatureReport.ValidSignatureWithBothAttributes | app.py:49-75 | a valid status with that subject and a signing time gives `firma_valida` true, reason `OK`, name `Jane Doe`, identifier `123-456` and the time |

## Left out

- Flask routes `home` and `validate_pdf` (app.py:88-111): HTTP plumbing, the upload check, the temporary file and `jsonify`.
- Reading the trust-root bundle and the PDF, building the `ValidationContext` with soft-fail revocation and fetching enabled, `PdfFileReader` and `validate_pdf_ltv_signature` (app.py:25-36, 46): these are calls into pyHanko and the file system. Their outcomes are the inputs `Document` and `Validation`. Which calls can raise, and with what message, is not modelled.
- `cert.subject.human_friendly` (app.py:57) is the certificate library's rendering. It is an arbitrary string here, and the model does not assume it contains `key=value` attributes.
- `strftime('%Y-%m-%d %H:%M:%S')` (app.py:64) is the date library's. The rendered time is opaque text whose only property here is that it starts with a year digit (`TimeText`).
- RegexSearch.IsDigit: `\d` matches every Unicode decimal digit in Python; the model accepts only ASCII `0`-`9`.
- The attribute names the source reads (`status.valid`, `status.summary`, `status.path`, `status.signing_time`) are taken as they are written. The model assumes `summary` is a string and `valid` a boolean.
- Logging (`print`, the flushes, `traceback.print_exc`) has no effect on the result.
- `app.py` has no parser for textual engine output, no warnings list, no revocation field and no third "indeterminate" validity value, so the model has none either. Validity is the engine's boolean, and the report has only `firmas`, `ok` and, on failure, `error`.
