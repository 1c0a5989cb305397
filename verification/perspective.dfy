/**
 * The verdict helpers of the anti-doxing script: whether a DLP inspection
 * found personal information, whether a Perspective analysis scored a
 * comment as toxic, and the shape of the analysis request.
 */
module Perspective {
  import opened Wrappers

  /**
   * One DLP finding: its `likelihood` label and its `infoType` `name`; None is a missing key (a
   * missing `infoType` and a missing `name` inside it read the same here).
   */
  datatype Finding = Finding(likelihood: Option<string>, infoTypeName: Option<string>)

  /** The `result` object of a DLP inspect response; `findings` is None when the key is absent. */
  datatype DlpResult = DlpResult(findings: Option<seq<Finding>>)

  /** A DLP inspect response; `result` is None when the key is absent. */
  datatype DlpResponse = DlpResponse(result: Option<DlpResult>)

  /** The pair `(has_pii, info_type_name)`; None stands for Python's None. */
  datatype PiiVerdict = PiiVerdict(hasPii: bool, infoType: Option<string>)

  /** The likelihood labels that count as personal information. */
  predicate IsLikely(f: Finding) {
    f.likelihood == Some("LIKELY") || f.likelihood == Some("VERY_LIKELY")
  }

  /** The loop reads this finding's likelihood and goes on to the next one. */
  predicate PassesOver(f: Finding) {
    f.likelihood.Some? && !IsLikely(f)
  }

  /**
   * What the first finding the loop does not pass over returns: the KeyError of a missing
   * likelihood, the KeyError of a missing info type name, or PII of that type.
   */
  function Stop(f: Finding): (r: Result<PiiVerdict, string>)
    requires !PassesOver(f)
    ensures r.Ok? <==> IsLikely(f) && f.infoTypeName.Some?
    ensures r.Ok? ==> r.value == PiiVerdict(true, f.infoTypeName)
  {
    if f.likelihood.None? then Err("KeyError: 'likelihood'")
    else if f.infoTypeName.None? then Err("KeyError: 'infoType'")
    else Ok(PiiVerdict(true, f.infoTypeName))
  }

  /** The index of the first finding the loop does not pass over; `|fs|` when it passes over all. */
  function FirstStop(fs: seq<Finding>): (k: nat)
    ensures k <= |fs|
    ensures forall j :: 0 <= j < k ==> PassesOver(fs[j])
    ensures k < |fs| ==> !PassesOver(fs[k])
  {
    if |fs| == 0 || !PassesOver(fs[0]) then 0
    else
      var k := FirstStop(fs[1..]);
      assert forall j :: 1 <= j < k + 1 ==> fs[j] == fs[1..][j - 1];
      k + 1
  }

  /** The loop over the findings: the first finding it does not pass over decides. */
  function FirstLikely(fs: seq<Finding>): (r: Result<PiiVerdict, string>)
    ensures var k := FirstStop(fs); r == if k == |fs| then Ok(PiiVerdict(false, None)) else Stop(fs[k])
    ensures (forall i :: 0 <= i < |fs| ==> PassesOver(fs[i])) <==> r == Ok(PiiVerdict(false, None))
  {
    if |fs| == 0 then Ok(PiiVerdict(false, None))
    else if !PassesOver(fs[0]) then Stop(fs[0])
    else
      var r := FirstLikely(fs[1..]);
      assert forall i :: 1 <= i < |fs| ==> fs[i] == fs[1..][i - 1];
      assert FirstStop(fs) == FirstStop(fs[1..]) + 1;
      r
  }

  /**
   * `contains_pii`: a response without `result` is a KeyError; no `findings` key means no personal
   * information; otherwise the loop over the findings decides.
   */
  function ContainsPii(response: DlpResponse): (r: Result<PiiVerdict, string>)
    ensures response.result.None? ==> r.Err?
    ensures response.result.Some? && response.result.value.findings.None? ==> r == Ok(PiiVerdict(false, None))
    ensures response.result.Some? && response.result.value.findings.Some? ==>
      r == FirstLikely(response.result.value.findings.value)
    ensures r.Ok? && !r.value.hasPii ==> r.value.infoType == None
    ensures r == Ok(PiiVerdict(false, None)) <==>
      && response.result.Some?
      && (|| response.result.value.findings.None?
          || forall i :: 0 <= i < |response.result.value.findings.value| ==>
               PassesOver(response.result.value.findings.value[i]))
  {
    match response.result
    case None => Err("KeyError: 'result'")
    case Some(result) =>
      match result.findings
      case None => Ok(PiiVerdict(false, None))
      case Some(fs) => FirstLikely(fs)
  }

  // ---------------------------------------------------------------------

  /** The attribute names the analysis asks for; each has an (empty) options object in the request. */
  datatype AnalyzeRequest = AnalyzeRequest(commentText: string, requestedAttributes: set<string>)

  /** `perspective_request`: the comment goes out unchanged with exactly three attributes requested. */
  function PerspectiveRequest(comment: string): (r: AnalyzeRequest)
    ensures r.commentText == comment
    ensures r.requestedAttributes == {"TOXICITY", "THREAT", "INSULT"}
  {
    AnalyzeRequest(comment, {"TOXICITY", "THREAT", "INSULT"})
  }

  /** The summary score of each attribute in an analysis response. */
  datatype PerspectiveResponse = PerspectiveResponse(summaryScores: map<string, real>)

  /** `contains_toxicity`; None is the KeyError raised when the TOXICITY score is missing. */
  function ContainsToxicity(response: PerspectiveResponse): (r: Option<bool>)
    ensures r.Some? <==> "TOXICITY" in response.summaryScores
    ensures r == Some(true) <==> "TOXICITY" in response.summaryScores && response.summaryScores["TOXICITY"] >= 0.5
  {
    if "TOXICITY" in response.summaryScores then Some(response.summaryScores["TOXICITY"] >= 0.5) else None
  }
}
