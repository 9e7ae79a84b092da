/**
 * The collect page's state and its two handlers: claiming or completing a
 * task (`handleStatusChange`) and verifying a collection from before/after
 * photos (`handleVerify`). The oracle's reply, `JSON.parse`, the store's
 * answers and `Math.random()` are parameters; the store calls the page makes
 * are recorded, in order, in `storeCalls`.
 */
module CollectPage {
  import opened Optional
  import opened CollectModel
  import opened CollectList
  import opened DataUrl

  datatype VerificationStatus = Idle | Verifying | Success | Failure

  /** A call the page makes to the task store. */
  datatype StoreCall =
    | UpdateTaskStatus(taskId: int, status: TaskStatus, userId: int)
    | SaveReward(userId: int, amount: int)
    | SaveCollectedWaste(taskId: int, userId: int, reply: CollectionReply)

  /** What `updateTaskStatus` gives back: the updated task, `null`, or an exception. */
  datatype UpdateReply = UpdatedTask | NullTask | UpdateThrew

  /** Whether a store call returned or threw. */
  datatype CallOutcome = Returned | Threw

  /**
   * The oracle's reply as the page reads it: `None` when the oracle call
   * threw, when the text holds no `{...}`, or when `parse` rejects the match.
   */
  function ReadReply(reply: Option<string>, parse: string -> Option<CollectionReply>): (r: Option<CollectionReply>)
    ensures r.Some? ==> reply.Some? && ExtractObject(reply.value).Some?
    ensures r.Some? ==> parse(ExtractObject(reply.value).value) == r
  {
    if reply.None? then None
    else match ExtractObject(reply.value)
      case None => None
      case Some(m) => parse(m)
  }

  /** An image payload counts as present when it is neither `null` nor empty. */
  predicate Present(image: Option<string>) {
    image.Some? && image.value != ""
  }

  class CollectPage {
    var tasks: seq<Task>
    var user: Option<User>
    var isCollector: bool
    var searchTerm: string
    var currentPage: int
    var selectedTask: Option<Task>
    var beforeImageBase64: Option<string>
    var afterImageBase64: Option<string>
    var verificationStatus: VerificationStatus
    var verificationResult: Option<CollectionReply>
    var reward: Option<int>
    var storeCalls: seq<StoreCall>

    /** The page number never drops below 0 ("Previous" stops at 1, "Next" at the page count). */
    ghost predicate Valid()
      reads this
    {
      currentPage >= 0
    }

    /** The page after mounting: the fetched tasks and user, and the stored role. */
    constructor (fetched: seq<Task>, signedIn: Option<User>, role: Option<string>)
      ensures Valid()
      ensures tasks == fetched && user == signedIn && isCollector == (role == Some("collector"))
      ensures searchTerm == "" && currentPage == 1
      ensures selectedTask == None && beforeImageBase64 == None && afterImageBase64 == None
      ensures verificationStatus == Idle && verificationResult == None && reward == None
      ensures storeCalls == []
    {
      tasks, user, isCollector := fetched, signedIn, role == Some("collector");
      searchTerm, currentPage := "", 1;
      selectedTask, beforeImageBase64, afterImageBase64 := None, None, None;
      verificationStatus, verificationResult, reward := Idle, None, None;
      storeCalls := [];
    }

    /** A signed-in user with the collector role. */
    predicate Authorized()
      reads this
    {
      user.Some? && isCollector
    }

    /** Everything `handleVerify` checks before it calls the oracle. */
    predicate ReadyToVerify()
      reads this
    {
      selectedTask.Some? && Present(beforeImageBase64) && Present(afterImageBase64) && Authorized()
    }

    /** The tasks that match the search box. */
    function FilteredTasks(): (r: seq<Task>)
      reads this
      ensures forall k :: 0 <= k < |r| ==> MatchesSearch(r[k], searchTerm)
      ensures forall t :: t in tasks && MatchesSearch(t, searchTerm) ==> t in r
    {
      FilterByLocation(tasks, searchTerm)
    }

    /** The tasks shown on the current page. */
    function VisibleTasks(): (r: seq<Task>)
      reads this
      ensures |r| <= ItemsPerPage
      ensures forall k :: 0 <= k < |r| ==> MatchesSearch(r[k], searchTerm)
    {
      Paginate(FilteredTasks(), currentPage)
    }

    /** Typing in the search box; the page number is left where it was. */
    method SetSearchTerm(term: string)
      modifies this`searchTerm
      ensures searchTerm == term
    {
      searchTerm := term;
    }

    /** The "Previous" button, which is disabled on page 1. */
    method ClickPrevious()
      requires Valid()
      modifies this`currentPage
      ensures Valid()
      ensures currentPage == if old(currentPage) == 1 then 1 else PreviousPage(old(currentPage))
    {
      if currentPage != 1 {
        currentPage := PreviousPage(currentPage);
      }
    }

    /** The "Next" button, which is disabled when the page equals the page count. */
    method ClickNext()
      requires Valid()
      modifies this`currentPage
      ensures Valid()
      ensures var count := PageCount(|FilteredTasks()|);
        currentPage == if old(currentPage) == count then count else NextPage(old(currentPage), count)
    {
      var count := PageCount(|FilteredTasks()|);
      if currentPage != count {
        currentPage := NextPage(currentPage, count);
      }
    }

    /** A photo upload: only the payload after the comma of the data URL is kept. */
    method UploadImage(before: bool, dataUrl: string)
      modifies this`beforeImageBase64, this`afterImageBase64
      ensures before ==> beforeImageBase64 == Payload(dataUrl) && afterImageBase64 == old(afterImageBase64)
      ensures !before ==> afterImageBase64 == Payload(dataUrl) && beforeImageBase64 == old(beforeImageBase64)
    {
      if before {
        beforeImageBase64 := Payload(dataUrl);
      } else {
        afterImageBase64 := Payload(dataUrl);
      }
    }

    /**
     * `handleStatusChange`: only a signed-in collector reaches the store; on
     * an updated task every task with id `taskId` takes the new status and
     * the user as collector. A `null` answer or an exception is reported and
     * swallowed.
     */
    method HandleStatusChange(taskId: int, newStatus: TaskStatus, answer: UpdateReply)
      modifies this`tasks, this`storeCalls
      ensures !Authorized() ==> tasks == old(tasks) && storeCalls == old(storeCalls)
      ensures Authorized() ==>
        storeCalls == old(storeCalls) + [UpdateTaskStatus(taskId, newStatus, user.value.id)]
      ensures Authorized() && answer == UpdatedTask ==>
        tasks == Reassign(old(tasks), taskId, newStatus, user.value.id)
      ensures Authorized() && answer != UpdatedTask ==> tasks == old(tasks)
    {
      if user.None? {
        return;
      }
      if !isCollector {
        return;
      }
      storeCalls := storeCalls + [UpdateTaskStatus(taskId, newStatus, user.value.id)];
      if answer == UpdatedTask {
        tasks := Reassign(tasks, taskId, newStatus, user.value.id);
      }
    }

    /**
     * `handleVerify`. Missing inputs or a non-collector leave everything as
     * it was. Otherwise the reply is read; if it cannot be read the status is
     * `Failure`. A readable reply is stored and the status set to `Success`
     * before the judge runs. On a pass the page marks the task verified,
     * saves the reward and then the collection, in that order, and an
     * exception from either save turns the status to `Failure` and stops.
     */
    method HandleVerify(oracleReply: Option<string>, parse: string -> Option<CollectionReply>,
                        answer: UpdateReply, draw: real, rewardSaved: CallOutcome, wasteSaved: CallOutcome)
      requires Valid()
      requires 0.0 <= draw < 1.0
      modifies this`tasks, this`storeCalls, this`verificationStatus, this`verificationResult, this`reward
      ensures Valid()
      ensures !old(ReadyToVerify()) ==>
        && tasks == old(tasks) && storeCalls == old(storeCalls) && reward == old(reward)
        && verificationStatus == old(verificationStatus) && verificationResult == old(verificationResult)
      ensures old(ReadyToVerify()) ==> verificationStatus != Verifying
      ensures old(ReadyToVerify()) && ReadReply(oracleReply, parse).None? ==>
        && verificationStatus == Failure && verificationResult == old(verificationResult)
        && tasks == old(tasks) && storeCalls == old(storeCalls) && reward == old(reward)
      ensures old(ReadyToVerify()) && ReadReply(oracleReply, parse).Some? ==>
        verificationResult == ReadReply(oracleReply, parse)
      ensures old(ReadyToVerify()) && ReadReply(oracleReply, parse).Some? && !Passes(ReadReply(oracleReply, parse).value) ==>
        && verificationStatus == Success
        && tasks == old(tasks) && storeCalls == old(storeCalls) && reward == old(reward)
      ensures old(ReadyToVerify()) && ReadReply(oracleReply, parse).Some? && Passes(ReadReply(oracleReply, parse).value) ==>
        var p, t, u := ReadReply(oracleReply, parse).value, selectedTask.value.id, user.value.id;
        && storeCalls == old(storeCalls) + [UpdateTaskStatus(t, Verified, u), SaveReward(u, Reward(draw))]
                         + (if rewardSaved == Returned then [SaveCollectedWaste(t, u, p)] else [])
        && tasks == (if answer == UpdatedTask then Reassign(old(tasks), t, Verified, u) else old(tasks))
        && reward == (if rewardSaved == Returned && wasteSaved == Returned then Some(Reward(draw)) else old(reward))
        && verificationStatus == (if rewardSaved == Returned && wasteSaved == Returned then Success else Failure)
    {
      if selectedTask.None? || !Present(beforeImageBase64) || !Present(afterImageBase64) || user.None? {
        return;
      }
      if !isCollector {
        return;
      }
      verificationStatus := Verifying;
      if oracleReply.None? {
        verificationStatus := Failure;
        return;
      }
      var found := ExtractObject(oracleReply.value);
      if found.None? {
        assert ReadReply(oracleReply, parse).None?;
        verificationStatus := Failure;
        return;
      }
      // A parse error reaches the inner handler, whose logging names an
      // undeclared variable; that error is caught by the outer handler,
      // which records the failure.
      var parsed := parse(found.value);
      assert ReadReply(oracleReply, parse) == parsed;
      if parsed.None? {
        verificationStatus := Failure;
        return;
      }
      var p := parsed.value;
      verificationResult := Some(p);
      verificationStatus := Success;
      if Passes(p) {
        CreditCollection(p, answer, draw, rewardSaved, wasteSaved);
      }
    }

    /**
     * The effects of a passing judgement, in order: the task is marked
     * verified, the reward is saved, then the collection is saved; an
     * exception from either save turns the status to `Failure` and stops.
     */
    method CreditCollection(p: CollectionReply, answer: UpdateReply, draw: real, rewardSaved: CallOutcome, wasteSaved: CallOutcome)
      requires Authorized() && selectedTask.Some?
      requires 0.0 <= draw < 1.0
      modifies this`tasks, this`storeCalls, this`verificationStatus, this`reward
      ensures var t, u := selectedTask.value.id, user.value.id;
        && storeCalls == old(storeCalls) + [UpdateTaskStatus(t, Verified, u), SaveReward(u, Reward(draw))]
                         + (if rewardSaved == Returned then [SaveCollectedWaste(t, u, p)] else [])
        && tasks == (if answer == UpdatedTask then Reassign(old(tasks), t, Verified, u) else old(tasks))
        && reward == (if rewardSaved == Returned && wasteSaved == Returned then Some(Reward(draw)) else old(reward))
        && verificationStatus == (if rewardSaved == Returned && wasteSaved == Returned then old(verificationStatus) else Failure)
    {
      var task, collector := selectedTask.value, user.value;
      ghost var before := storeCalls;
      HandleStatusChange(task.id, Verified, answer);
      var earned := Reward(draw);
      storeCalls := storeCalls + [SaveReward(collector.id, earned)];
      assert storeCalls == before + [UpdateTaskStatus(task.id, Verified, collector.id), SaveReward(collector.id, earned)];
      if rewardSaved == Threw {
        verificationStatus := Failure;
        return;
      }
      storeCalls := storeCalls + [SaveCollectedWaste(task.id, collector.id, p)];
      if wasteSaved == Threw {
        verificationStatus := Failure;
        return;
      }
      reward := Some(earned);
    }
  }
}
