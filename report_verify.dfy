/**
 * How the report page reads the oracle's estimate of a photo: code fences
 * are cut out of the reply, the rest is trimmed, and a parsed reply is
 * accepted when its three keys are truthy.
 */
module ReportVerify {
  import opened Optional
  import opened JsText

  /** The oracle's parsed estimate; a key that is absent (or `null`) is `None`. */
  datatype ReportReply = ReportReply(wasteType: Option<string>, quantity: Option<string>, confidence: Option<real>)

  /** Three backticks in a row at position `i`. */
  predicate FenceAt(s: string, i: int) {
    0 <= i && i + 3 <= |s| && s[i] == '`' && s[i + 1] == '`' && s[i + 2] == '`'
  }

  /**
   * `text.replace(/```json|```/g, "")`: scanning from the left, every
   * "```json", and otherwise every "```", is cut out.
   */
  function StripFences(s: string): (r: string)
    ensures |r| <= |s|
    ensures IsSubsequence(r, s)
    decreases |s|
  {
    if IsPrefix("```json", s) then
      var r := StripFences(s[7..]);
      SubsequencePrefix(r, s[..7], s[7..]);
      assert s[..7] + s[7..] == s;
      r
    else if IsPrefix("```", s) then
      var r := StripFences(s[3..]);
      SubsequencePrefix(r, s[..3], s[3..]);
      assert s[..3] + s[3..] == s;
      r
    else if s == [] then []
    else
      var r := [s[0]] + StripFences(s[1..]);
      assert r[1..] == StripFences(s[1..]);
      r
  }

  /** The reply text that is handed to `JSON.parse`. */
  function Clean(reply: string): (r: string)
    ensures IsTrimmed(r)
  {
    Trim(StripFences(reply))
  }

  /** A character that does not start a fence is kept as the first character. */
  lemma StripKeepsHead(s: string)
    requires s != [] && !FenceAt(s, 0)
    ensures StripFences(s) == [s[0]] + StripFences(s[1..])
  {
    assert |s| >= 3 ==> s[..3][0] == s[0] && s[..3][1] == s[1] && s[..3][2] == s[2];
    assert |s| >= 7 ==> s[..7][..3] == s[..3];
  }

  /** No run of three backticks survives the cut. */
  lemma {:induction false} StripLeavesNoFence(s: string)
    ensures forall i :: !FenceAt(StripFences(s), i)
    decreases |s|
  {
    if IsPrefix("```json", s) {
      StripLeavesNoFence(s[7..]);
    } else if IsPrefix("```", s) {
      StripLeavesNoFence(s[3..]);
    } else if s != [] {
      assert !FenceAt(s, 0);
      StripLeavesNoFence(s[1..]);
      var rest := StripFences(s[1..]);
      var r := [s[0]] + rest;
      assert r == StripFences(s);
      forall i | FenceAt(r, i)
        ensures false
      {
        if i > 0 {
          assert FenceAt(rest, i - 1);
        } else {
          // The cut text starts with "``", so s began "```".
          NoDoubleTickAfterTick(s);
        }
      }
    }
  }

  /** After a lone backtick the cut text never starts with two backticks. */
  lemma NoDoubleTickAfterTick(s: string)
    requires s != [] && !FenceAt(s, 0) && s[0] == '`'
    ensures !(|StripFences(s[1..])| >= 2 && StripFences(s[1..])[0] == '`' && StripFences(s[1..])[1] == '`')
  {
    var t := s[1..];
    if t != [] {
      assert !FenceAt(t, 0);
      StripKeepsHead(t);
      if t[0] == '`' && |t| >= 2 {
        var u := t[1..];
        assert u[0] != '`';
        assert !FenceAt(u, 0);
        StripKeepsHead(u);
      }
    }
  }

  /** Text without backticks passes through the cut unchanged. */
  lemma {:induction false} StripPlain(s: string, tail: string)
    requires '`' !in s
    ensures StripFences(s + tail) == s + StripFences(tail)
  {
    if s != [] {
      assert (s + tail)[0] == s[0] && s[0] in s;
      StripKeepsHead(s + tail);
      assert (s + tail)[1..] == s[1..] + tail;
      StripPlain(s[1..], tail);
      assert s == [s[0]] + s[1..];
    } else {
      assert s + tail == tail;
    }
  }

  /** Without backticks in the reply, cleaning is only trimming. */
  lemma CleanPlainIsTrim(s: string)
    requires '`' !in s
    ensures Clean(s) == Trim(s)
  {
    StripPlain(s, []);
    assert s + [] == s;
  }

  /** A reply wrapped in a ```json fence cleans to the same text as the bare reply. */
  lemma CleanFencedEqualsBare(body: string)
    requires '`' !in body
    ensures Clean("```json" + body + "```") == Clean(body)
  {
    var s := "```json" + body + "```";
    assert IsPrefix("```json", s);
    assert s[7..] == body + "```";
    StripPlain(body, "```");
    assert IsPrefix("```", "```");
    assert StripFences("```") == [];
    assert body + [] == body;
    CleanPlainIsTrim(body);
  }

  /**
   * The usual shape of the oracle's answer, a JSON text in a ```json block
   * on lines of its own, cleans to exactly that JSON text.
   */
  lemma CleanFencedBlock(json: string)
    requires '`' !in json && IsTrimmed(json)
    ensures Clean("```json\n" + json + "\n```") == json
  {
    var body := "\n" + json + "\n";
    BlockShape(json);
    CleanFencedEqualsBare(body);
    CleanPlainIsTrim(body);
    assert AllWhitespace("\n");
    TrimSurrounded("\n", json, "\n");
  }

  lemma BlockShape(json: string)
    requires '`' !in json
    ensures "```json\n" + json + "\n```" == "```json" + ("\n" + json + "\n") + "```"
    ensures '`' !in "\n" + json + "\n"
  {
    var body := "\n" + json + "\n";
    assert forall k :: 0 <= k < |body| ==> body[k] == '\n' || body[k] in json;
  }

  /** JavaScript truthiness of a string that may be missing. */
  predicate TruthyText(s: Option<string>) {
    s.Some? && s.value != ""
  }

  /** JavaScript truthiness of a number that may be missing (NaN is not modelled). */
  predicate TruthyNumber(x: Option<real>) {
    x.Some? && x.value != 0.0
  }

  /** `parsedResult.wasteType && parsedResult.quantity && parsedResult.confidence`. */
  predicate Accepted(p: ReportReply) {
    TruthyText(p.wasteType) && TruthyText(p.quantity) && TruthyNumber(p.confidence)
  }

  /**
   * The check only asks for non-empty text and a non-zero confidence: a
   * confidence of 0 is refused, while a low or even negative one passes.
   */
  lemma AcceptedIsPermissive(w: string, q: string, c: real)
    requires w != "" && q != ""
    ensures !Accepted(ReportReply(Some(w), Some(q), Some(0.0)))
    ensures Accepted(ReportReply(Some(w), Some(q), Some(c))) <==> c != 0.0
    ensures !Accepted(ReportReply(None, Some(q), Some(c)))
    ensures !Accepted(ReportReply(Some(w), Some(""), Some(c)))
  {
  }
}
