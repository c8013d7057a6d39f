/** The per-signature result mapping of the signature validator's library path
    (`procesar_con_libreria` in app.py): each signature-validation status returned by the
    external validation engine becomes one result record (`firma_valida` plus `datos` with
    `razon_invalidez`, `nombre`, `cedula` and `fecha_firma`), the records are collected in
    order, and the report's `ok` flag says whether any signature was found. The engine, the
    PDF reader and the trust-root file are not modelled: their outcomes are the inputs. */
module SignatureReport {
  import opened Wrappers
  import opened RegexSearch

  /** The default of every identity and time field that could not be filled in. */
  const NoDisponible := "No disponible"
  /** The `razon_invalidez` of a valid signature. */
  const ValidReason := "OK"
  /** Literal prefix of `commonName=([^,]+)`. */
  const CommonNamePrefix := "commonName="
  /** Literal prefix of `serialNumber=CPF-([\d-]+)`. */
  const CedulaPrefix := "serialNumber=CPF-"

  /** A signing time rendered with `%Y-%m-%d %H:%M:%S`. The rendering is the date library's;
      the model keeps only that it begins with a digit of the year. */
  type TimeText = t: string | 0 < |t| && IsDigit(t[0]) witness "0"

  /** What the engine reports for one embedded signature. `subject` is the leaf certificate's
      rendered subject when the status carries a validation path, and `None` otherwise;
      `signingTime` is the rendered signing time, if the status has one. */
  datatype Status = Status(valid: bool, summary: string, subject: Option<string>, signingTime: Option<TimeText>)

  /** The `datos` object of one result record. */
  datatype Datos = Datos(razonInvalidez: string, nombre: string, cedula: string, fechaFirma: string)

  /** One result record: `{"firma_valida": ..., "datos": {...}}`. */
  datatype FirmaInfo = FirmaInfo(firmaValida: bool, datos: Datos)

  /** The outcome of validating one embedded signature: a status, or an exception with its
      message. */
  datatype Validation = Validated(status: Status) | Raised(message: string)

  /** The outcome of reading the trust roots and the PDF: the embedded signatures, each with
      its validation outcome, in the document's order; or an exception with its message. */
  datatype Document = Opened(signatures: seq<Validation>) | Unreadable(message: string)

  /** `{"firmas": [...], "ok": ...}`, with `"error": ...` present exactly when `error` is. */
  datatype Report = Report(firmas: seq<FirmaInfo>, ok: bool, error: Option<string>)

  /** The group of `commonName=([^,]+)` searched in a subject. */
  function ExtractNombre(subject: string): (r: Option<string>)
    ensures r.None? <==> forall i: nat :: !MatchesAt(subject, CommonNamePrefix, NotComma, i)
    ensures r.Some? ==> 0 < |r.value| && ',' !in r.value
    ensures r.Some? ==> IsCapture(subject, CommonNamePrefix, NotComma, r.value)
  {
    Search(subject, CommonNamePrefix, NotComma)
  }

  /** The group of `serialNumber=CPF-([\d-]+)` searched in a subject. */
  function ExtractCedula(subject: string): (r: Option<string>)
    ensures r.None? <==> forall i: nat :: !MatchesAt(subject, CedulaPrefix, DigitOrHyphen, i)
    ensures r.Some? ==> 0 < |r.value| && forall c :: c in r.value ==> IsDigit(c) || c == '-'
    ensures r.Some? ==> IsCapture(subject, CedulaPrefix, DigitOrHyphen, r.value)
  {
    Search(subject, CedulaPrefix, DigitOrHyphen)
  }

  /** A field taken from the subject by the pattern `prefix(C+)`: the default when there is no
      subject or the pattern does not match it, the captured group otherwise. */
  ghost predicate FieldFrom(subject: Option<string>, prefix: string, k: CharClass, field: string) {
    match subject
    case None => field == NoDisponible
    case Some(x) => if HasMatch(x, prefix, k) then IsCapture(x, prefix, k, field) else field == NoDisponible
  }

  /** `nombre`: found by its own search in the subject, whatever the other search finds. */
  function NombreOf(subject: Option<string>): (r: string)
    ensures FieldFrom(subject, CommonNamePrefix, NotComma, r)
  {
    match subject
    case None => NoDisponible
    case Some(x) => ExtractNombre(x).GetOr(NoDisponible)
  }

  /** `cedula`: found by its own search in the subject, whatever the other search finds. */
  function CedulaOf(subject: Option<string>): (r: string)
    ensures FieldFrom(subject, CedulaPrefix, DigitOrHyphen, r)
  {
    match subject
    case None => NoDisponible
    case Some(x) => ExtractCedula(x).GetOr(NoDisponible)
  }

  /** `fecha_firma`: the rendered signing time, or the default when there is none. */
  function FechaFirma(signingTime: Option<TimeText>): (r: string)
    ensures r == NoDisponible <==> signingTime.None?
    ensures signingTime.Some? ==> r == signingTime.value
  {
    match signingTime
    case None => NoDisponible
    case Some(t) => t
  }

  /** The result record of one status. */
  function FirmaOf(s: Status): (r: FirmaInfo)
    ensures r.firmaValida == s.valid
    ensures r.datos.razonInvalidez == if s.valid then ValidReason else s.summary
    ensures FieldFrom(s.subject, CommonNamePrefix, NotComma, r.datos.nombre)
    ensures FieldFrom(s.subject, CedulaPrefix, DigitOrHyphen, r.datos.cedula)
    ensures r.datos.fechaFirma == NoDisponible <==> s.signingTime.None?
    ensures s.signingTime.Some? ==> r.datos.fechaFirma == s.signingTime.value
  {
    var razon := if s.valid then ValidReason else s.summary;
    FirmaInfo(s.valid, Datos(razon, NombreOf(s.subject), CedulaOf(s.subject), FechaFirma(s.signingTime)))
  }

  /** Builds the result record of one status, field by field: the defaults first, then the
      two searches when there is a subject, then the signing time and the `OK` override. */
  method AnalyzeSignature(status: Status) returns (info: FirmaInfo)
    ensures info == FirmaOf(status)
  {
    var nombre := NoDisponible;
    var cedula := NoDisponible;
    var razonInvalidez := status.summary;
    if status.subject.Some? {
      var subject := status.subject.value;
      var cedulaMatch := ExtractCedula(subject);
      var nombreMatch := ExtractNombre(subject);
      if nombreMatch.Some? {
        nombre := nombreMatch.value;
      }
      if cedulaMatch.Some? {
        cedula := cedulaMatch.value;
      }
    }
    var fechaFirma := FechaFirma(status.signingTime);
    if status.valid {
      razonInvalidez := ValidReason;
    }
    info := FirmaInfo(status.valid, Datos(razonInvalidez, nombre, cedula, fechaFirma));
  }

  /** The report of a failure: no records, `ok` false, and the exception's message. */
  function ErrorReport(message: string): (r: Report)
    ensures r.firmas == [] && !r.ok && r.error == Some(message)
  {
    Report([], false, Some(message))
  }

  /** The position of the first signature whose validation raised, if any. */
  function FirstRaised(vs: seq<Validation>): (r: Option<nat>)
    ensures r.Some? ==> r.value < |vs| && vs[r.value].Raised?
    ensures forall j :: 0 <= j < |vs| && (r.None? || j < r.value) ==> vs[j].Validated?
  {
    if vs == [] then None
    else if vs[0].Raised? then Some(0)
    else
      match FirstRaised(vs[1..])
      case None => None
      case Some(i) => Some(i + 1)
  }

  /** The search for a raised validation stops at the first one: at position `i` when all
      before it were validated and it raised, nowhere when all were validated. */
  lemma FirstRaisedIsFirst(vs: seq<Validation>, i: nat)
    requires i <= |vs| && forall j :: 0 <= j < i ==> vs[j].Validated?
    requires i < |vs| ==> vs[i].Raised?
    ensures FirstRaised(vs) == if i < |vs| then Some(i) else None
  {
    var r := FirstRaised(vs);
    assert r.Some? ==> r.value >= i;
  }

  /** The report `procesar_con_libreria` returns for a document. */
  function Process(doc: Document): (r: Report)
    ensures r.ok <==> |r.firmas| > 0
    ensures r.error.Some? ==> r.firmas == []
    ensures doc.Unreadable? ==> r == ErrorReport(doc.message)
    ensures doc == Opened([]) ==> r == Report([], false, None)
  {
    match doc
    case Unreadable(message) => ErrorReport(message)
    case Opened(vs) =>
      if |vs| == 0 then Report([], false, None)
      else
        match FirstRaised(vs)
        case Some(i) => ErrorReport(vs[i].message)
        case None =>
          var firmas := seq(|vs|, k requires 0 <= k < |vs| => FirmaOf(vs[k].status));
          Report(firmas, |firmas| > 0, None)
  }

  /** `procesar_con_libreria`: analyses the signatures one at a time, appending each record,
      and gives up with an error report at the first validation that raised. */
  method ProcesarConLibreria(doc: Document) returns (report: Report)
    ensures report == Process(doc)
    ensures report.ok <==> |report.firmas| > 0
    ensures doc.Opened? && report.error.None? ==>
      && |report.firmas| == |doc.signatures|
      && forall k :: 0 <= k < |doc.signatures| ==>
           doc.signatures[k].Validated? && report.firmas[k] == FirmaOf(doc.signatures[k].status)
  {
    if doc.Unreadable? {
      return ErrorReport(doc.message);
    }
    var signatures := doc.signatures;
    if |signatures| == 0 {
      return Report([], false, None);
    }
    var firmasEncontradas: seq<FirmaInfo> := [];
    var i := 0;
    while i < |signatures|
      invariant 0 <= i <= |signatures|
      invariant forall j :: 0 <= j < i ==> signatures[j].Validated?
      invariant |firmasEncontradas| == i
      invariant forall j :: 0 <= j < i ==> firmasEncontradas[j] == FirmaOf(signatures[j].status)
    {
      match signatures[i]
      case Raised(message) =>
        FirstRaisedIsFirst(signatures, i);
        return ErrorReport(message);
      case Validated(status) =>
        var firmaInfo := AnalyzeSignature(status);
        firmasEncontradas := firmasEncontradas + [firmaInfo];
        i := i + 1;
    }
    FirstRaisedIsFirst(signatures, |signatures|);
    assert firmasEncontradas == seq(|signatures|, k requires 0 <= k < |signatures| => FirmaOf(signatures[k].status));
    report := Report(firmasEncontradas, |firmasEncontradas| > 0, None);
  }

  /** Every signature validated: one record per signature, in the document's order, each the
      record of that signature's status, and `ok` exactly when there is at least one. */
  lemma OneRecordPerSignature(vs: seq<Validation>)
    requires forall j :: 0 <= j < |vs| ==> vs[j].Validated?
    ensures Process(Opened(vs)).error.None?
    ensures |Process(Opened(vs)).firmas| == |vs|
    ensures forall k :: 0 <= k < |vs| ==> Process(Opened(vs)).firmas[k] == FirmaOf(vs[k].status)
    ensures Process(Opened(vs)).ok <==> |vs| > 0
  {
    FirstRaisedIsFirst(vs, |vs|);
  }

  /** Appending one more validated signature appends its record and changes no earlier one. */
  lemma AppendOneSignature(vs: seq<Validation>, status: Status)
    requires forall j :: 0 <= j < |vs| ==> vs[j].Validated?
    ensures Process(Opened(vs + [Validated(status)])).firmas == Process(Opened(vs)).firmas + [FirmaOf(status)]
  {
    var ws := vs + [Validated(status)];
    OneRecordPerSignature(vs);
    OneRecordPerSignature(ws);
    assert Process(Opened(ws)).firmas == Process(Opened(vs)).firmas + [FirmaOf(status)];
  }

  /** A validation that raises after validated ones turns the whole document into an error
      report: the records built so far are discarded and the message is the first raised. */
  lemma FirstRaisedDiscardsRecords(vs: seq<Validation>, i: nat)
    requires i < |vs| && vs[i].Raised?
    requires forall j :: 0 <= j < i ==> vs[j].Validated?
    ensures Process(Opened(vs)) == Report([], false, Some(vs[i].message))
  {
    FirstRaisedIsFirst(vs, i);
  }

  /** `cedula` keeps its default exactly when there is no subject or its search finds nothing:
      a captured identifier, being digits and hyphens, is never the default text. */
  lemma CedulaDefaultIffNotFound(s: Status)
    ensures FirmaOf(s).datos.cedula == NoDisponible <==> s.subject.None? || ExtractCedula(s.subject.value).None?
  {
    if s.subject.Some? && ExtractCedula(s.subject.value).Some? {
      var g := ExtractCedula(s.subject.value).value;
      assert NoDisponible[0] == 'N' && !InClass(DigitOrHyphen, 'N');
      assert g != NoDisponible by {
        assert g[0] in g;
      }
    }
  }

  /** Unlike `cedula`, `nombre` can be the default text although a name was found: the default
      does not by itself tell a reader that the search failed. */
  lemma NombreDefaultIsAmbiguous()
    ensures ExtractNombre("commonName=No disponible") == Some(NoDisponible)
  {
    var x := "commonName=No disponible";
    assert CapturedAt(x, CommonNamePrefix, NotComma, 0, NoDisponible) by {
      assert x[0..|CommonNamePrefix|] == CommonNamePrefix;
      assert x[|CommonNamePrefix|..|x|] == NoDisponible;
    }
    SearchIsCapture(x, CommonNamePrefix, NotComma, NoDisponible);
  }

  /** A subject with no `=` at all, such as one whose attributes are written `Name: value`,
      matches neither pattern, so both identity fields keep their defaults. */
  lemma SubjectWithoutEqualsKeepsDefaults(s: Status)
    requires s.subject.Some? && '=' !in s.subject.value
    ensures FirmaOf(s).datos.nombre == NoDisponible && FirmaOf(s).datos.cedula == NoDisponible
  {
    assert CommonNamePrefix[10] == '=' && CedulaPrefix[12] == '=';
    NoMatchWithoutPrefixChar(s.subject.value, CommonNamePrefix, NotComma, '=');
    NoMatchWithoutPrefixChar(s.subject.value, CedulaPrefix, DigitOrHyphen, '=');
  }

  /** The subject used by the worked example below:
      `commonName=Jane Doe, serialNumber=CPF-123-456`. */
  const ExampleSubject := (CommonNamePrefix + "Jane Doe") + (", " + CedulaPrefix + "123-456")

  /** The name is the run after the first `commonName=`, up to the comma. */
  lemma ExampleNombre()
    ensures ExtractNombre(ExampleSubject) == Some("Jane Doe")
  {
    var a, b := CommonNamePrefix + "Jane Doe", ", " + CedulaPrefix + "123-456";
    var x := a + b;
    assert |a| == 19 && |b| == 26;
    assert x[0..11] == a[0..11] == CommonNamePrefix;
    assert x[11..19] == a[11..19] == "Jane Doe";
    assert x[19] == b[0] == ',';
    assert CapturedAt(x, CommonNamePrefix, NotComma, 0, "Jane Doe");
    SearchIsCapture(x, CommonNamePrefix, NotComma, "Jane Doe");
  }

  /** The identifier is the run of digits and hyphens after `serialNumber=CPF-`, up to the
      end of the subject; no earlier start index matches, as no earlier character is an `s`. */
  lemma ExampleCedula()
    ensures ExtractCedula(ExampleSubject) == Some("123-456")
  {
    var a, b := CommonNamePrefix + "Jane Doe", ", " + CedulaPrefix + "123-456";
    var x := a + b;
    assert |a| == 19 && |b| == 26;
    assert x[21..38] == b[2..19] == CedulaPrefix;
    assert x[38..45] == b[19..26] == "123-456";
    forall j: nat | j < 21 ensures x[j] != 's' {
      if j < 11 {
        assert x[j] == CommonNamePrefix[j];
      } else if j < 19 {
        assert x[j] == "Jane Doe"[j - 11];
      } else {
        assert x[j] == ", "[j - 19];
      }
    }
    forall j: nat | j < 21 ensures !MatchesAt(x, CedulaPrefix, DigitOrHyphen, j) {
      assert x[j..j + 17][0] == x[j];
    }
    assert CapturedAt(x, CedulaPrefix, DigitOrHyphen, 21, "123-456");
    SearchIsCapture(x, CedulaPrefix, DigitOrHyphen, "123-456");
  }

  /** An occurrence of `commonName=` followed directly by a comma does not match; the search
      moves on to the next occurrence. */
  lemma EmptyNameIsSkipped()
    ensures ExtractNombre(CommonNamePrefix + ("," + CommonNamePrefix + "Ana")) == Some("Ana")
  {
    var b := "," + CommonNamePrefix + "Ana";
    var x := CommonNamePrefix + b;
    assert |b| == 15 && |x| == 26;
    assert x[11] == b[0] == ',';
    assert x[12..23] == b[1..12] == CommonNamePrefix;
    assert x[23..26] == b[12..15] == "Ana";
    forall j: nat | 1 <= j < 12 ensures x[j] != 'c' {
      if j < 11 {
        assert x[j] == CommonNamePrefix[j];
      }
    }
    forall j: nat | j < 12 ensures !MatchesAt(x, CommonNamePrefix, NotComma, j) {
      assert j + 11 <= |x| ==> x[j..j + 11][0] == x[j];
    }
    assert CapturedAt(x, CommonNamePrefix, NotComma, 12, "Ana");
    SearchIsCapture(x, CommonNamePrefix, NotComma, "Ana");
  }

  /** A valid signature whose subject carries both attributes, with a signing time. */
  lemma ValidSignatureWithBothAttributes()
    ensures FirmaOf(Status(true, "ignored", Some(ExampleSubject), Some("2024-01-02 10:00:00")))
      == FirmaInfo(true, Datos(ValidReason, "Jane Doe", "123-456", "2024-01-02 10:00:00"))
  {
    ExampleNombre();
    ExampleCedula();
  }
}
