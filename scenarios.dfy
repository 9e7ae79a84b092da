/**
 * Walkthroughs of both pages, using only the handlers' contracts. Each
 * oracle reply is a JSON text given together with `JSON.parse`, which must
 * read that text as the stated record: a collection that passes, one that
 * fails on `cleaned`, a pass whose status update returns `null`, and a
 * report estimated from a fenced reply and then submitted.
 */
module Scenarios {
  import opened Optional
  import opened CollectModel
  import CP = CollectPage
  import RP = ReportPage
  import opened ReportVerify
  import opened JsText

  const Claimed := Task(7, "Main Street", "plastic", "2kg", InProgress, "2024-05-01", Some(3))
  const Other := Task(8, "Park Road", "glass", "1kg", Pending, "2024-05-02", None)
  const Collector := User(3, "c@example.org", "Cam")

  const PassingReply := CollectionReply(Some(true), Some(true), Some(true), Some(true), Some(0.92))
  const UncleanedReply := PassingReply.(cleaned := Some(false))
  const PlasticEstimate := ReportReply(Some("plastic"), Some("2kg"), Some(0.85))

  /** A reply that is one bare object is read as whatever `JSON.parse` makes of it. */
  lemma ReplyIsRead(json: string, parse: string -> Option<CollectionReply>)
    requires IsFlatObject(json)
    ensures CP.ReadReply(Some(json), parse) == parse(json)
  {
    ExtractIgnoresSurroundingText([], json, []);
  }

  /** A collector on `Claimed` with both photos uploaded. */
  method ReadyPage() returns (page: CP.CollectPage)
    ensures fresh(page) && page.Valid() && page.ReadyToVerify()
    ensures page.tasks == [Claimed, Other] && page.user == Some(Collector)
    ensures page.selectedTask == Some(Claimed) && page.storeCalls == [] && page.reward == None
  {
    page := new CP.CollectPage([Claimed, Other], Some(Collector), Some("collector"));
    page.selectedTask := Some(Claimed);
    page.beforeImageBase64 := Some("QkVGT1JF");
    page.afterImageBase64 := Some("QUZURVI=");
  }

  /** The reply passes: the task is verified, a reward in [10, 59] is credited and the collection recorded. */
  method CollectionPasses(draw: real, json: string, parse: string -> Option<CollectionReply>)
    returns (tasks: seq<Task>, calls: seq<CP.StoreCall>, reward: Option<int>, status: CP.VerificationStatus)
    requires 0.0 <= draw < 1.0
    requires IsFlatObject(json) && parse(json) == Some(PassingReply)
    ensures status == CP.Success
    ensures tasks == [Claimed.(status := Verified), Other]
    ensures reward.Some? && 10 <= reward.value <= 59
    ensures |calls| == 3 && calls[0] == CP.UpdateTaskStatus(7, Verified, 3)
    ensures calls[1].SaveReward? && calls[1].amount == reward.value
    ensures calls[2] == CP.SaveCollectedWaste(7, 3, PassingReply)
  {
    var page := ReadyPage();
    ReplyIsRead(json, parse);
    assert Passes(PassingReply);
    page.HandleVerify(Some(json), parse, CP.UpdatedTask, draw, CP.Returned, CP.Returned);
    assert page.storeCalls == [CP.UpdateTaskStatus(7, Verified, 3), CP.SaveReward(3, Reward(draw)), CP.SaveCollectedWaste(7, 3, PassingReply)];
    VerifiedList();
    tasks, calls, reward, status := page.tasks, page.storeCalls, page.reward, page.verificationStatus;
  }

  /** Marking task 7 verified by collector 3 changes only its status. */
  lemma VerifiedList()
    ensures Reassign([Claimed, Other], 7, Verified, 3) == [Claimed.(status := Verified), Other]
  {
    var r := Reassign([Claimed, Other], 7, Verified, 3);
    assert r[0] == Claimed.(status := Verified, collectorId := Some(3));
    assert r[1] == Other;
  }

  /** One flag is false: the status still reads `Success`, but nothing is verified or credited. */
  method CollectionFailsOnCleaned(draw: real, json: string, parse: string -> Option<CollectionReply>)
    returns (tasks: seq<Task>, calls: seq<CP.StoreCall>, reward: Option<int>, status: CP.VerificationStatus)
    requires 0.0 <= draw < 1.0
    requires IsFlatObject(json) && parse(json) == Some(UncleanedReply)
    ensures status == CP.Success
    ensures tasks == [Claimed, Other] && calls == [] && reward == None
  {
    var page := ReadyPage();
    ReplyIsRead(json, parse);
    page.HandleVerify(Some(json), parse, CP.UpdatedTask, draw, CP.Returned, CP.Returned);
    tasks, calls, reward, status := page.tasks, page.storeCalls, page.reward, page.verificationStatus;
  }

  /** The store answers `null` to the status update: the task list stays, yet the reward is still saved. */
  method RewardDespiteNullUpdate(draw: real, json: string, parse: string -> Option<CollectionReply>)
    returns (tasks: seq<Task>, calls: seq<CP.StoreCall>, reward: Option<int>)
    requires 0.0 <= draw < 1.0
    requires IsFlatObject(json) && parse(json) == Some(PassingReply)
    ensures tasks == [Claimed, Other]
    ensures |calls| == 3 && calls[1] == CP.SaveReward(3, Reward(draw))
    ensures reward == Some(Reward(draw))
  {
    var page := ReadyPage();
    ReplyIsRead(json, parse);
    page.HandleVerify(Some(json), parse, CP.NullTask, draw, CP.Returned, CP.Returned);
    tasks, calls, reward := page.tasks, page.storeCalls, page.reward;
  }

  /** A signed-in user who has chosen a photo. */
  method PhotoChosen(recent: seq<RP.ReportRow>) returns (page: RP.ReportPage)
    ensures fresh(page) && page.Valid() && page.file.Some?
    ensures page.user == Some(RP.User(5, "Ada", "ada@example.org"))
    ensures page.form == RP.ReportForm("", "", "", Some(RP.Coords(0.0, 0.0)))
    ensures page.reports == recent && page.createCalls == []
  {
    page := new RP.ReportPage(Some(RP.User(5, "Ada", "ada@example.org")), recent);
    page.file := Some(RP.ImageFile("pile.jpg", "image/jpeg"));
  }

  /** A signed-in user whose photo was estimated as 2kg of plastic. */
  method EstimatedPage(dataUrl: string, json: string, parse: string -> Option<ReportReply>, recent: seq<RP.ReportRow>)
    returns (page: RP.ReportPage)
    requires '`' !in json && IsTrimmed(json) && parse(json) == Some(PlasticEstimate)
    ensures fresh(page) && page.Valid()
    ensures page.user == Some(RP.User(5, "Ada", "ada@example.org")) && page.verificationStatus == RP.Success
    ensures page.form == RP.ReportForm("", "plastic", "2kg", Some(RP.Coords(0.0, 0.0)))
    ensures page.reports == recent && page.createCalls == []
  {
    page := PhotoChosen(recent);
    var reply := "```json\n" + json + "\n```";
    CleanFencedBlock(json);
    assert parse(Clean(reply)) == Some(PlasticEstimate) && Accepted(PlasticEstimate);
    page.HandleVerify(Some(dataUrl), Some(reply), parse);
    assert page.verificationStatus == RP.Success;
  }

  /** An accepted estimate fills the form; once the user has typed a location, submitting puts the new report first and clears the form. */
  method ReportEstimatedAndSubmitted(dataUrl: string, json: string, parse: string -> Option<ReportReply>,
                                     stored: RP.StoredReport, recent: seq<RP.ReportRow>)
    returns (formBefore: RP.ReportForm, rows: seq<RP.ReportRow>, formAfter: RP.ReportForm, calls: seq<RP.CreateReportCall>)
    requires '`' !in json && IsTrimmed(json) && parse(json) == Some(PlasticEstimate)
    ensures formBefore.wasteType == "plastic" && formBefore.amount == "2kg"
    ensures formBefore.location == "Main Street" && formBefore.coordinates == Some(RP.Coords(0.0, 0.0))
    ensures rows == [RP.Row(stored)] + recent && formAfter == RP.EmptyForm
    ensures |calls| == 1 && calls[0].wasteType == "plastic" && calls[0].amount == "2kg" && calls[0].userId == 5
    ensures calls[0].location == "Main Street"
  {
    var page := EstimatedPage(dataUrl, json, parse, recent);
    page.form := page.form.(location := "Main Street");
    formBefore := page.form;
    page.HandleSubmit(RP.Created(stored));
    rows, formAfter, calls := page.reports, page.form, page.createCalls;
  }
}
