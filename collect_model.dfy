/**
 * The collection-verification rules of the collect page: the task record,
 * the oracle's reply, the JSON extraction from free text, the five-part
 * judge, the reward draw and the rewrite of the task list after a status change.
 */
module CollectModel {
  import opened Optional
  import opened JsText

  datatype TaskStatus = Pending | InProgress | Completed | Verified

  /** A collection task as the page holds it. */
  datatype Task = Task(
    id: int,
    location: string,
    wasteType: string,
    amount: string,
    status: TaskStatus,
    date: string,
    collectorId: Option<int>)

  datatype User = User(id: int, email: string, name: string)

  /**
   * The fields the page reads from the oracle's parsed JSON. A key that is
   * absent (or JSON `null`) is `None`.
   */
  datatype CollectionReply = CollectionReply(
    sameLocation: Option<bool>,
    cleaned: Option<bool>,
    wasteTypeMatch: Option<bool>,
    quantityMatch: Option<bool>,
    confidence: Option<real>)

  /** JavaScript truthiness of a boolean field that may be missing. */
  predicate Truthy(b: Option<bool>) {
    b == Some(true)
  }

  /** `x > t` in JavaScript, where a missing value compares as `undefined` (never greater). */
  predicate Above(x: Option<real>, t: real) {
    x.Some? && x.value > t
  }

  const ConfidenceThreshold: real := 0.7

  /** The rule that decides whether a collection is verified. */
  predicate Passes(r: CollectionReply) {
    && Truthy(r.sameLocation)
    && Truthy(r.cleaned)
    && Truthy(r.wasteTypeMatch)
    && Truthy(r.quantityMatch)
    && Above(r.confidence, ConfidenceThreshold)
  }

  /** All four flags true and a confidence strictly above 0.7: the only way to pass. */
  lemma PassesExactly(r: CollectionReply)
    ensures Passes(r) <==>
      r.sameLocation == Some(true) && r.cleaned == Some(true) && r.wasteTypeMatch == Some(true)
      && r.quantityMatch == Some(true) && r.confidence.Some? && r.confidence.value > 0.7
  {
  }

  /** The threshold is strict: exactly 0.7 fails, anything above it passes when the flags hold. */
  lemma ConfidenceBoundary(c: real)
    ensures !Passes(CollectionReply(Some(true), Some(true), Some(true), Some(true), Some(0.7)))
    ensures c > 0.7 <==> Passes(CollectionReply(Some(true), Some(true), Some(true), Some(true), Some(c)))
  {
  }

  /** Turning any one flag false (or dropping it) makes the judge fail, whatever the rest. */
  lemma AnyFlagFalseFails(r: CollectionReply)
    ensures !Passes(r.(sameLocation := Some(false)))
    ensures !Passes(r.(cleaned := Some(false)))
    ensures !Passes(r.(wasteTypeMatch := Some(false)))
    ensures !Passes(r.(quantityMatch := Some(false)))
    ensures !Passes(r.(confidence := None))
  {
  }

  /** `Math.floor(draw * 50) + 10` for a draw `0 <= draw < 1` from `Math.random()`. */
  function Reward(draw: real): (r: int)
    requires 0.0 <= draw < 1.0
    ensures 10 <= r <= 59
  {
    (draw * 50.0).Floor + 10
  }

  /** Every amount from 10 to 59 is drawn for some `draw`: the reward range is exactly [10, 59]. */
  lemma RewardOnto(k: int)
    requires 10 <= k <= 59
    ensures 0.0 <= (k - 10) as real / 50.0 < 1.0
    ensures Reward((k - 10) as real / 50.0) == k
  {
    var d := (k - 10) as real / 50.0;
    assert d * 50.0 == (k - 10) as real;
  }

  /** The draws that give the reward k are exactly those in [(k-10)/50, (k-9)/50): each amount has width 1/50. */
  lemma RewardBand(draw: real, k: int)
    requires 0.0 <= draw < 1.0
    ensures Reward(draw) == k <==> (k - 10) as real / 50.0 <= draw < (k - 9) as real / 50.0
  {
    var f := (draw * 50.0).Floor;
    assert f as real <= draw * 50.0 < f as real + 1.0;
    if (k - 10) as real / 50.0 <= draw < (k - 9) as real / 50.0 {
      assert (k - 10) as real <= draw * 50.0 < (k - 9) as real;
    }
  }

  /** The span `[start, end)` of the reply text that the non-greedy `{...}` pattern matches. */
  datatype Span = Span(start: nat, end: nat)

  /**
   * The leftmost match of the pattern `\{[\s\S]*?\}`: it begins at the first
   * `{` and ends at the first `}` after it. No match when there is no `}`
   * after the first `{`.
   */
  function MatchObject(s: string): (r: Option<Span>)
    ensures r.Some? ==> r.value.start < r.value.end <= |s|
    ensures r.Some? ==> s[r.value.start] == '{' && s[r.value.end - 1] == '}'
    ensures r.Some? ==> '{' !in s[..r.value.start]
    ensures r.Some? ==> '}' !in s[r.value.start + 1..r.value.end - 1]
  {
    var open := IndexOf(s, '{');
    if open.None? then None
    else
      var close := IndexOf(s[open.value + 1..], '}');
      if close.None? then None
      else
        var i, k := open.value, close.value;
        MatchWellPlaced(s, i, k);
        var sp := Span(i, i + k + 2);
        assert sp.start == i && sp.end == i + k + 2;
        Some(sp)
  }

  lemma MatchWellPlaced(s: string, i: nat, k: nat)
    requires IndexOf(s, '{') == Some(i) && i < |s| && IndexOf(s[i + 1..], '}') == Some(k)
    ensures i < i + k + 2 <= |s| && s[i] == '{' && s[i + k + 2 - 1] == '}'
    ensures '{' !in s[..i] && '}' !in s[i + 1..i + k + 2 - 1]
  {
    OpenFound(s, i);
    CloseFound(s, i, k);
  }

  lemma OpenFound(s: string, i: nat)
    requires IndexOf(s, '{') == Some(i)
    ensures i < |s| && s[i] == '{' && '{' !in s[..i]
  {
    var r := IndexOf(s, '{');
    assert r.value == i;
  }

  lemma CloseFound(s: string, i: nat, k: nat)
    requires i < |s| && IndexOf(s[i + 1..], '}') == Some(k)
    ensures i + k + 2 <= |s| && s[i + 1 + k] == '}' && '}' !in s[i + 1..i + 1 + k]
  {
    var r := IndexOf(s[i + 1..], '}');
    assert r.value == k;
    assert s[i + 1..][k] == s[i + 1 + k];
    assert s[i + 1..i + 1 + k] == s[i + 1..][..k];
  }

  /** The matched text, `jsonMatch[0]`; `None` when the reply holds no `{...}`. */
  function ExtractObject(s: string): (r: Option<string>)
    ensures r.Some? ==> |r.value| >= 2 && r.value[0] == '{' && r.value[|r.value| - 1] == '}'
    ensures r.Some? ==> '}' !in r.value[1..|r.value| - 1]
  {
    match MatchObject(s)
    case None => None
    case Some(sp) =>
      SliceEnds(s, sp.start, sp.end);
      Some(s[sp.start..sp.end])
  }

  lemma SliceEnds(s: string, a: nat, b: nat)
    requires a + 2 <= b <= |s|
    ensures |s[a..b]| == b - a && s[a..b][0] == s[a] && s[a..b][b - a - 1] == s[b - 1]
    ensures s[a..b][1..b - a - 1] == s[a + 1..b - 1]
  {
    var inner, t := s[a..b][1..b - a - 1], s[a + 1..b - 1];
    assert forall k :: 0 <= k < |t| ==> inner[k] == t[k];
  }

  /** There is no match exactly when no `}` follows any `{`. */
  lemma NoMatchIffNoPair(s: string)
    ensures ExtractObject(s).None? <==> forall i, j :: 0 <= i < j < |s| && s[i] == '{' ==> s[j] != '}'
  {
    match IndexOf(s, '{')
    case None =>
    case Some(i) =>
      match IndexOf(s[i + 1..], '}')
      case None =>
        assert forall k :: 0 <= k < i ==> s[..i][k] == s[k];
        forall i', j | 0 <= i' < j < |s| && s[i'] == '{'
          ensures s[j] != '}'
        {
          assert s[i + 1..][j - i - 1] == s[j];
        }
      case Some(k) =>
        assert s[i + 1..][k] == s[i + 1 + k];
  }

  /** A bare object: braces at both ends and no `}` before the closing one. */
  predicate IsFlatObject(m: string) {
    |m| >= 2 && m[0] == '{' && m[|m| - 1] == '}' && '}' !in m[1..|m| - 1]
  }

  /**
   * Surrounding prose does not change what is extracted: an object preceded
   * by text without `{` is found as it is, whatever follows it.
   */
  lemma {:induction false} ExtractIgnoresSurroundingText(before: string, m: string, after: string)
    requires '{' !in before
    requires IsFlatObject(m)
    ensures ExtractObject(before + m + after) == Some(m)
    ensures ExtractObject(m) == Some(m)
  {
    ExtractFlat(before, m, after);
    ExtractFlat([], m, []);
    assert [] + m + [] == m;
  }

  lemma ExtractFlat(before: string, m: string, after: string)
    requires '{' !in before
    requires IsFlatObject(m)
    ensures ExtractObject(before + m + after) == Some(m)
  {
    MatchFlat(before, m, after);
    assert (before + m + after)[|before|..|before| + |m|] == m;
  }

  lemma MatchFlat(before: string, m: string, after: string)
    requires '{' !in before
    requires IsFlatObject(m)
    ensures MatchObject(before + m + after) == Some(Span(|before|, |before| + |m|))
  {
    var s := before + m + after;
    var inner := m[1..|m| - 1];
    assert s == before + ['{'] + (inner + ['}'] + after);
    IndexAfterFree(before, inner + ['}'] + after, '{');
    assert s[|before| + 1..] == inner + ['}'] + after;
    IndexAfterFree(inner, after, '}');
    MatchFromIndices(s, |before|, |inner|);
    var sp := MatchObject(s).value;
    assert sp == Span(|before|, |before| + |m|);
  }

  lemma MatchFromIndices(s: string, i: nat, k: nat)
    requires i < |s| && IndexOf(s, '{') == Some(i) && IndexOf(s[i + 1..], '}') == Some(k)
    ensures MatchObject(s).Some? && MatchObject(s).value.start == i && MatchObject(s).value.end == i + k + 2
  {
  }

  /** Extracting from an already extracted object gives it back unchanged. */
  lemma ExtractIdempotent(s: string)
    requires ExtractObject(s).Some?
    ensures ExtractObject(ExtractObject(s).value) == ExtractObject(s)
  {
    ExtractIgnoresSurroundingText([], ExtractObject(s).value, []);
  }

  /**
   * The tasks after a status change by `userId`: every task whose id is
   * `taskId` takes the new status and the collector; the others stay as they were.
   */
  function Reassign(ts: seq<Task>, taskId: int, newStatus: TaskStatus, userId: int): (r: seq<Task>)
    ensures |r| == |ts|
    ensures forall k :: 0 <= k < |ts| && ts[k].id != taskId ==> r[k] == ts[k]
    ensures forall k :: 0 <= k < |ts| && ts[k].id == taskId ==>
      r[k] == ts[k].(status := newStatus, collectorId := Some(userId))
  {
    if ts == [] then []
    else
      var t := ts[0];
      var head := if t.id == taskId then t.(status := newStatus, collectorId := Some(userId)) else t;
      [head] + Reassign(ts[1..], taskId, newStatus, userId)
  }

  /** The ids, and so the order of the tasks, are kept; only the matching tasks differ. */
  lemma {:induction false} ReassignKeepsIds(ts: seq<Task>, taskId: int, newStatus: TaskStatus, userId: int)
    ensures forall k :: 0 <= k < |ts| ==> Reassign(ts, taskId, newStatus, userId)[k].id == ts[k].id
    ensures forall k :: 0 <= k < |ts| && Reassign(ts, taskId, newStatus, userId)[k] != ts[k] ==> ts[k].id == taskId
  {
    var r := Reassign(ts, taskId, newStatus, userId);
    forall k | 0 <= k < |ts|
      ensures r[k].id == ts[k].id
      ensures r[k] != ts[k] ==> ts[k].id == taskId
    {
    }
  }

  /** When ids are unique, at most one task changes: the one with id `taskId`. */
  lemma OnlyOneTaskChanges(ts: seq<Task>, taskId: int, newStatus: TaskStatus, userId: int, k: nat, l: nat)
    requires forall a, b :: 0 <= a < b < |ts| ==> ts[a].id != ts[b].id
    requires k < |ts| && l < |ts|
    requires Reassign(ts, taskId, newStatus, userId)[k] != ts[k]
    requires Reassign(ts, taskId, newStatus, userId)[l] != ts[l]
    ensures k == l
  {
  }

  /** Applying the same status change twice is applying it once. */
  lemma ReassignIdempotent(ts: seq<Task>, taskId: int, newStatus: TaskStatus, userId: int)
    ensures Reassign(Reassign(ts, taskId, newStatus, userId), taskId, newStatus, userId)
         == Reassign(ts, taskId, newStatus, userId)
  {
    ReassignKeepsIds(ts, taskId, newStatus, userId);
  }
}
