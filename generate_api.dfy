/** The image-generation endpoint (`POST /api/generate`): it validates the
    request, dispatches on the `provider` string to one of four branches and
    maps each outcome to an HTTP status and a JSON body. The providers'
    replies are inputs; the handler's outbound calls are recorded as a trace. */
module GenerateApi {
  import opened Js

  /** The request as the handler reads it: the HTTP method and the `prompt`,
      `model` and `provider` fields of the JSON body (`None` when absent). */
  datatype Request = Request(
    httpMethod: string,
    prompt: Option<string>,
    model: Option<string>,
    provider: Option<string>)

  /** The parts of the OpenAI images reply the handler reads: the message of
      the `error` object when one is present, and the `url` of each element
      of the `data` array (empty when `data` is missing or empty). */
  datatype OpenAIReply = OpenAIReply(error: Option<string>, urls: seq<string>)

  /** The parts of a Replicate prediction the handler reads: `status` (an
      absent status reads as any other non-terminal string), `output` (`None`
      when null or missing) and `urls.get` (`None` when missing). */
  datatype Prediction = Prediction(status: string, output: Option<seq<string>>, pollUrl: Option<string>)

  /** The blob returned by the Hugging Face inference call. */
  type Blob = seq<bv8>

  /** What each outbound call settles to: the OpenAI call, the Replicate
      submission, the successive Replicate polls in order, and the Hugging
      Face inference call. Each may throw (network failure, body not JSON). */
  datatype Upstream = Upstream(
    openai: Call<OpenAIReply>,
    submit: Call<Prediction>,
    polls: seq<Call<Prediction>>,
    inference: Call<Blob>)

  /** The endpoints the handler can contact. */
  datatype Endpoint = OpenAIImages | ReplicatePredictions | ReplicatePoll(url: string) | HuggingFaceInference

  /** JSON bodies: `{ error }`, `{ imageUrl }` (`None` when the value is
      `undefined`, so the key is dropped), and the `{ error }` carrying the
      message of a TypeError raised by the runtime, whose text is not modelled. */
  datatype Body = Error(message: string) | Image(imageUrl: Option<string>) | TypeFault

  datatype Response = Response(status: int, body: Body)

  /** Either the handler responded, or every modelled poll reply was used up
      while the prediction was still running (the handler would keep polling). */
  datatype Outcome = Sent(response: Response) | StillPolling

  const METHOD_NOT_ALLOWED := Response(405, Error("Method not allowed"))
  const PROMPT_REQUIRED := Response(400, Error("Prompt is required"))
  const GOOGLE_PENDING := Response(501, Error("Google Imagen 3 integration pending API credentials"))
  const HF_PENDING := Response(501, Error("HF proxy needs additional setup"))
  const REPLICATE_FAILED := Response(500, Error("Replicate generation failed"))

  /** The two statuses that end the poll loop. */
  predicate Terminal(status: string)
  {
    status == "succeeded" || status == "failed"
  }

  /** The provider strings some branch of the handler matches. */
  predicate Routed(provider: Option<string>)
  {
    provider == Some("openai") || provider == Some("replicate") ||
    provider == Some("google") || provider == Some("huggingface")
  }

  /** How the poll loop ends: with a terminal prediction, with a fault (a poll
      that threw, or a prediction without `urls.get`), or with the modelled
      replies used up. Each carries the poll calls made. */
  datatype PollEnd =
    | Settled(prediction: Prediction, calls: seq<Endpoint>)
    | Broke(response: Response, calls: seq<Endpoint>)
    | Exhausted(calls: seq<Endpoint>)

  /** The poll loop, starting from prediction `p` with `polls` the replies
      still to come: while the status is not terminal, fetch `urls.get` and
      take the next reply as the new prediction. There is no attempt bound. */
  function Poll(p: Prediction, polls: seq<Call<Prediction>>): (r: PollEnd)
    ensures |r.calls| <= |polls| + 1
    ensures r.Broke? ==> r.response.status == 500
    decreases |polls|
  {
    if Terminal(p.status) then Settled(p, [])
    else if p.pollUrl.None? then Broke(Response(500, TypeFault), [])
    else
      var call := ReplicatePoll(p.pollUrl.value);
      if polls == [] then Exhausted([call])
      else match polls[0]
        case Threw(msg) => Broke(Response(500, Error(msg)), [call])
        case Returned(next) => WithPrefix([call], Poll(next, polls[1..]))
  }

  /** `e` with the calls `cs` made before it. */
  function WithPrefix(cs: seq<Endpoint>, e: PollEnd): (r: PollEnd)
    ensures r.calls == cs + e.calls
  {
    match e
    case Settled(p, es) => Settled(p, cs + es)
    case Broke(resp, es) => Broke(resp, cs + es)
    case Exhausted(es) => Exhausted(cs + es)
  }

  /** The loop only exits on a terminal status; the calls it made are polls
      of `urls.get`, at most one per reply consumed plus the one left
      unanswered. */
  lemma {:induction false} PollSettlesOnlyWhenTerminal(p: Prediction, polls: seq<Call<Prediction>>)
    ensures Poll(p, polls).Settled? ==> Terminal(Poll(p, polls).prediction.status)
    ensures Poll(p, polls).Settled? ==> |Poll(p, polls).calls| <= |polls|
    ensures Poll(p, polls).Exhausted? ==> |Poll(p, polls).calls| == |polls| + 1
    ensures forall c :: c in Poll(p, polls).calls ==> c.ReplicatePoll?
    decreases |polls|
  {
    if !Terminal(p.status) && p.pollUrl.Some? && polls != [] && polls[0].Returned? {
      PollSettlesOnlyWhenTerminal(polls[0].value, polls[1..]);
    }
  }

  /** A prediction that is not terminal, has `urls.get`, and is answered by
      `n` polls of which only the last is terminal is settled by that last
      reply, after exactly `n` poll calls. */
  lemma {:induction false} PollCountsReplies(p: Prediction, polls: seq<Call<Prediction>>, n: nat)
    requires 0 < n <= |polls|
    requires !Terminal(p.status) && p.pollUrl.Some?
    requires forall i :: 0 <= i < n ==> polls[i].Returned?
    requires forall i :: 0 <= i < n - 1 ==> !Terminal(polls[i].value.status) && polls[i].value.pollUrl.Some?
    requires Terminal(polls[n - 1].value.status)
    ensures Poll(p, polls) == Settled(polls[n - 1].value, Poll(p, polls).calls)
    ensures |Poll(p, polls).calls| == n
    decreases n
  {
    if n > 1 {
      PollCountsReplies(polls[0].value, polls[1..], n - 1);
    }
  }

  /** No bound on attempts: as long as the replies stay non-terminal the loop
      polls once per reply and asks for one more. */
  lemma {:induction false} PollHasNoAttemptBound(p: Prediction, polls: seq<Call<Prediction>>)
    requires !Terminal(p.status) && p.pollUrl.Some?
    requires forall i :: 0 <= i < |polls| ==>
      polls[i].Returned? && !Terminal(polls[i].value.status) && polls[i].value.pollUrl.Some?
    ensures Poll(p, polls).Exhausted?
    ensures |Poll(p, polls).calls| == |polls| + 1
    decreases |polls|
  {
    if polls != [] {
      PollHasNoAttemptBound(polls[0].value, polls[1..]);
    }
  }

  /** The response of the Replicate branch once the loop has ended. */
  function AfterPoll(e: PollEnd): (r: Outcome)
    ensures r.StillPolling? <==> e.Exhausted?
    ensures e.Broke? ==> r == Sent(e.response)
    ensures e.Settled? ==> r.Sent? && r.response.status in {200, 500}
    ensures e.Settled? ==>
      (r.response.status == 200 <==> e.prediction.status != "failed" && e.prediction.output.Some?)
  {
    match e
    case Exhausted(_) => StillPolling
    case Broke(resp, _) => Sent(resp)
    case Settled(p, _) =>
      if p.status == "failed" then Sent(REPLICATE_FAILED)
      else if p.output.None? then Sent(Response(500, TypeFault))
      else if p.output.value == [] then Sent(Response(200, Image(None)))
      else Sent(Response(200, Image(Some(p.output.value[0]))))
  }

  /** On `'failed'` the branch answers 500 with the fixed message, on
      `'succeeded'` 200 with the first output element. */
  lemma ReplicateStatusMapping(e: PollEnd)
    requires e.Settled?
    ensures e.prediction.status == "failed" ==> AfterPoll(e) == Sent(REPLICATE_FAILED)
    ensures e.prediction.status == "succeeded" && e.prediction.output.Some? && e.prediction.output.value != [] ==>
      AfterPoll(e) == Sent(Response(200, Image(Some(e.prediction.output.value[0]))))
    ensures AfterPoll(e).Sent? && AfterPoll(e).response.status in {200, 500}
  {
  }

  /** The handler. It responds 405 to anything but POST and 400 to a falsy
      prompt before contacting anyone; `'google'` answers 501 without a call;
      `'huggingface'` calls the inference endpoint, discards the blob and
      answers 501; `'openai'` answers 500 with `error.message` or 200 with
      the first image URL; `'replicate'` submits, polls until the status is
      terminal and maps it; any other provider answers 200 with `imageUrl`
      `''`. Credentials come from the environment only and there is no
      enablement check, so neither is an input. */
  method Handle(req: Request, up: Upstream) returns (out: Outcome, calls: seq<Endpoint>)
    ensures req.httpMethod != "POST" ==> out == Sent(METHOD_NOT_ALLOWED) && calls == []
    ensures req.httpMethod == "POST" && !Truthy(req.prompt) ==> out == Sent(PROMPT_REQUIRED) && calls == []
    ensures req.httpMethod == "POST" && Truthy(req.prompt) ==>
      && (req.provider == Some("google") ==> out == Sent(GOOGLE_PENDING) && calls == [])
      && (req.provider == Some("huggingface") ==>
            calls == [HuggingFaceInference] &&
            out == (if up.inference.Threw? then Sent(Response(500, Error(up.inference.message))) else Sent(HF_PENDING)))
      && (req.provider == Some("openai") ==>
            calls == [OpenAIImages] &&
            out == match up.openai
                   case Threw(msg) => Sent(Response(500, Error(msg)))
                   case Returned(data) =>
                     if data.error.Some? then Sent(Response(500, Error(data.error.value)))
                     else if data.urls == [] then Sent(Response(500, TypeFault))
                     else Sent(Response(200, Image(Some(data.urls[0])))))
      && (req.provider == Some("replicate") ==>
            match up.submit
               case Threw(msg) => out == Sent(Response(500, Error(msg))) && calls == [ReplicatePredictions]
               case Returned(p) => out == AfterPoll(Poll(p, up.polls)) && calls == [ReplicatePredictions] + Poll(p, up.polls).calls)
      && (!Routed(req.provider) ==> out == Sent(Response(200, Image(Some("")))) && calls == [])
    ensures out.Sent? ==> out.response.status in {200, 400, 405, 500, 501}
  {
    calls := [];
    if req.httpMethod != "POST" {
      return Sent(METHOD_NOT_ALLOWED), calls;
    }
    if !Truthy(req.prompt) {
      return Sent(PROMPT_REQUIRED), calls;
    }

    var imageUrl: Option<string> := Some("");

    if req.provider == Some("openai") {
      calls := calls + [OpenAIImages];
      match up.openai {
        case Threw(msg) =>
          return Sent(Response(500, Error(msg))), calls;
        case Returned(data) =>
          if data.error.Some? {
            return Sent(Response(500, Error(data.error.value))), calls;
          }
          if data.urls == [] {
            return Sent(Response(500, TypeFault)), calls;
          }
          imageUrl := Some(data.urls[0]);
      }
    } else if req.provider == Some("replicate") {
      calls := calls + [ReplicatePredictions];
      if up.submit.Threw? {
        return Sent(Response(500, Error(up.submit.message))), calls;
      }
      var pollCalls;
      out, pollCalls := Replicate(up.submit.value, up.polls);
      return out, calls + pollCalls;
    } else if req.provider == Some("google") {
      return Sent(GOOGLE_PENDING), calls;
    } else if req.provider == Some("huggingface") {
      calls := calls + [HuggingFaceInference];
      if up.inference.Threw? {
        return Sent(Response(500, Error(up.inference.message))), calls;
      }
      return Sent(HF_PENDING), calls;
    }

    return Sent(Response(200, Image(imageUrl))), calls;
  }

  /** The Replicate branch after the submission answered with `p`: poll
      `urls.get` until the status is terminal, then answer 500 on `failed`
      and 200 with the first output element otherwise. */
  method Replicate(p: Prediction, polls: seq<Call<Prediction>>) returns (out: Outcome, calls: seq<Endpoint>)
    ensures out == AfterPoll(Poll(p, polls)) && calls == Poll(p, polls).calls
    ensures out.Sent? ==> out.response.status in {200, 500}
  {
    calls := [];
    var prediction := p;
    var i := 0;
    while !Terminal(prediction.status)
      invariant 0 <= i <= |polls|
      invariant Poll(p, polls) == WithPrefix(calls, Poll(prediction, polls[i..]))
      decreases |polls| - i
    {
      if prediction.pollUrl.None? {
        return Sent(Response(500, TypeFault)), calls;
      }
      calls := calls + [ReplicatePoll(prediction.pollUrl.value)];
      if i == |polls| {
        return StillPolling, calls;
      }
      match polls[i] {
        case Threw(msg) =>
          return Sent(Response(500, Error(msg))), calls;
        case Returned(next) =>
          assert polls[i..][1..] == polls[i + 1..];
          prediction := next;
      }
      i := i + 1;
    }
    if prediction.status == "failed" {
      return Sent(REPLICATE_FAILED), calls;
    }
    if prediction.output.None? {
      return Sent(Response(500, TypeFault)), calls;
    }
    var imageUrl := if prediction.output.value == [] then None else Some(prediction.output.value[0]);
    return Sent(Response(200, Image(imageUrl))), calls;
  }
}
