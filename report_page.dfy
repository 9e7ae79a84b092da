/**
 * The report page's state and its two handlers: estimating a photo with
 * the oracle (`handleVerify`) and submitting the report (`handleSubmit`).
 * The file reader's data URL, the oracle's reply, `JSON.parse` and the
 * store's answer to `createReport` are parameters; the images sent to the
 * oracle and the `createReport` calls are recorded in order.
 */
module ReportPage {
  import opened Optional
  import opened DataUrl
  import opened ReportVerify

  datatype VerificationStatus = Idle | Verifying | Success | Failure

  datatype User = User(id: int, name: string, email: string)

  datatype Coords = Coords(lat: real, lng: real)

  /** The report form; `wasteType` is the form's `type` field. */
  datatype ReportForm = ReportForm(location: string, wasteType: string, amount: string, coordinates: Option<Coords>)

  /** The file picked for upload: only its MIME type matters to the page's logic. */
  datatype ImageFile = ImageFile(name: string, mimeType: string)

  /** One image as sent to the oracle: the base64 payload (possibly `undefined`) and its type. */
  datatype InlineImage = InlineImage(data: Option<string>, mimeType: string)

  /** The arguments of one `createReport` call. */
  datatype CreateReportCall = CreateReportCall(
    userId: int, location: string, wasteType: string, amount: string,
    imageUrl: Option<string>, verificationResult: Option<ReportReply>, coordinates: Option<Coords>)

  /** A report as the store returns it; `createdDay` is its creation date already cut to `YYYY-MM-DD`. */
  datatype StoredReport = StoredReport(
    id: int, userId: int, location: string, wasteType: string, amount: string,
    createdDay: string, coordinates: Option<Coords>)

  /** A row of the page's list of recent reports. */
  datatype ReportRow = ReportRow(
    id: int, location: string, wasteType: string, amount: string,
    createdAt: string, coordinates: Option<Coords>)

  /** What `createReport` gives back: the new report, `null`, or an exception. */
  datatype CreateAnswer = Created(report: StoredReport) | NoReport | CreateThrew

  /** The list row built from a newly stored report. */
  function Row(r: StoredReport): ReportRow
  {
    ReportRow(r.id, r.location, r.wasteType, r.amount, r.createdDay, r.coordinates)
  }

  const EmptyForm := ReportForm("", "", "", None)

  /** `preview || undefined`: an empty preview is sent as no image. */
  function ImageArgument(preview: Option<string>): Option<string>
  {
    if preview.Some? && preview.value != "" then preview else None
  }

  class ReportPage {
    var user: Option<User>
    var reports: seq<ReportRow>
    var form: ReportForm
    var file: Option<ImageFile>
    var preview: Option<string>
    var verificationStatus: VerificationStatus
    var verificationResult: Option<ReportReply>
    var isSubmitted: bool
    var sentImages: seq<InlineImage>
    var createCalls: seq<CreateReportCall>

    /** Between handlers no submission is in flight. */
    ghost predicate Valid()
      reads this
    {
      !isSubmitted
    }

    /** The page after mounting: the fetched user and recent reports, an empty form at (0, 0). */
    constructor (signedIn: Option<User>, recent: seq<ReportRow>)
      ensures Valid()
      ensures user == signedIn && reports == recent
      ensures form == ReportForm("", "", "", Some(Coords(0.0, 0.0)))
      ensures file == None && preview == None
      ensures verificationStatus == Idle && verificationResult == None
      ensures sentImages == [] && createCalls == []
    {
      user, reports := signedIn, recent;
      form := ReportForm("", "", "", Some(Coords(0.0, 0.0)));
      file, preview := None, None;
      verificationStatus, verificationResult := Idle, None;
      isSubmitted := false;
      sentImages, createCalls := [], [];
    }

    /**
     * `handleVerify`. Without a file nothing happens. Otherwise the photo's
     * payload is sent to the oracle; a reader error, an oracle error, a
     * reply that does not parse, or one whose keys are not all truthy gives
     * `Failure`. An accepted reply is stored, gives `Success`, and fills the
     * form's type and amount, leaving its location and coordinates alone.
     */
    method HandleVerify(dataUrl: Option<string>, oracleReply: Option<string>, parse: string -> Option<ReportReply>)
      modifies this`verificationStatus, this`verificationResult, this`form, this`sentImages
      ensures old(file).None? ==>
        && verificationStatus == old(verificationStatus) && verificationResult == old(verificationResult)
        && form == old(form) && sentImages == old(sentImages)
      ensures old(file).Some? && dataUrl.None? ==>
        && verificationStatus == Failure && verificationResult == old(verificationResult)
        && form == old(form) && sentImages == old(sentImages)
      ensures old(file).Some? && dataUrl.Some? ==>
        sentImages == old(sentImages) + [InlineImage(Payload(dataUrl.value), file.value.mimeType)]
      ensures old(file).Some? && dataUrl.Some? && (oracleReply.None? || parse(Clean(oracleReply.value)).None?) ==>
        verificationStatus == Failure && verificationResult == old(verificationResult) && form == old(form)
      ensures old(file).Some? && dataUrl.Some? && oracleReply.Some? && parse(Clean(oracleReply.value)).Some? ==>
        var p := parse(Clean(oracleReply.value)).value;
        if Accepted(p) then
          && verificationStatus == Success && verificationResult == Some(p)
          && form == old(form).(wasteType := p.wasteType.value, amount := p.quantity.value)
        else
          verificationStatus == Failure && verificationResult == old(verificationResult) && form == old(form)
    {
      if file.None? {
        return;
      }
      verificationStatus := Verifying;
      if dataUrl.None? {
        verificationStatus := Failure;
        return;
      }
      sentImages := sentImages + [InlineImage(Payload(dataUrl.value), file.value.mimeType)];
      if oracleReply.None? {
        verificationStatus := Failure;
        return;
      }
      var parsed := parse(Clean(oracleReply.value));
      if parsed.None? {
        verificationStatus := Failure;
        return;
      }
      var p := parsed.value;
      if Accepted(p) {
        verificationResult := Some(p);
        verificationStatus := Success;
        form := form.(wasteType := p.wasteType.value, amount := p.quantity.value);
      } else {
        verificationStatus := Failure;
      }
    }

    /**
     * `handleSubmit`. Only after a successful estimate and with a user
     * signed in is `createReport` called. A new report is put at the head of
     * the list and the form, file, preview and estimate are cleared; a
     * `null` answer or an exception changes nothing else. No submission is
     * left in flight.
     */
    method HandleSubmit(answer: CreateAnswer)
      requires Valid()
      modifies this
      ensures Valid()
      ensures user == old(user) && sentImages == old(sentImages)
      ensures old(verificationStatus) != Success || old(user).None? ==>
        && reports == old(reports) && form == old(form) && file == old(file) && preview == old(preview)
        && verificationStatus == old(verificationStatus) && verificationResult == old(verificationResult)
        && createCalls == old(createCalls)
      ensures old(verificationStatus) == Success && old(user).Some? ==>
        createCalls == old(createCalls) + [CreateReportCall(old(user).value.id, old(form).location,
          old(form).wasteType, old(form).amount, ImageArgument(old(preview)), old(verificationResult), old(form).coordinates)]
      ensures old(verificationStatus) == Success && old(user).Some? && answer.Created? ==>
        && reports == [Row(answer.report)] + old(reports)
        && form == EmptyForm && file == None && preview == None
        && verificationStatus == Idle && verificationResult == None
      ensures old(verificationStatus) == Success && old(user).Some? && !answer.Created? ==>
        && reports == old(reports) && form == old(form) && file == old(file) && preview == old(preview)
        && verificationStatus == old(verificationStatus) && verificationResult == old(verificationResult)
    {
      if verificationStatus != Success || user.None? {
        return;
      }
      isSubmitted := true;
      createCalls := createCalls + [CreateReportCall(user.value.id, form.location, form.wasteType, form.amount,
                                                     ImageArgument(preview), verificationResult, form.coordinates)];
      if answer.Created? {
        reports := [Row(answer.report)] + reports;
        form := EmptyForm;
        file, preview := None, None;
        verificationStatus, verificationResult := Idle, None;
      }
      isSubmitted := false;
    }
  }
}
