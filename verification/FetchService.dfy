/** One fetch on a connection, from the request's bytes to the response's. */
module FetchService {
  import opened Bytes
  import opened Outcomes
  import opened Messages
  import opened Wire
  import opened Requests
  import opened Decoder
  import opened FetchHandler
  import opened FetchResponse

  /**
   * `out` is the answer to the fetch `r` from the partitions `stores`: a client reads from
   * it the correlation id it sent and, for each partition it asked for, what that partition's
   * log has to answer, and stops where the frame ends.
   */
  ghost predicate Answered(env: Env, stores: Stores, r: Request, out: bytes)
    requires r.body.Fetch?
  {
    exists resp: seq<TopicResp> ::
      && Handled(env, FetchState(stores, r.body.maxBytes), r.body.fetches, resp)
      && RequestServed(env, stores, r.body.maxBytes, r.body.fetches, resp)
      && ReadBackAs(out, r.correlation, resp)
  }

  ghost predicate ReadBackAs(out: bytes, correlation: int32, resp: seq<TopicResp>) {
    forall tail :: ReadFetchResponse(out + tail) == Got(Response(ToInt32(|out| - 4), correlation, 0, resp), tail)
  }

  lemma FetchIsDeliverable(b: Body)
    requires b.Fetch? && BodyOk(b)
    ensures Deliverable(b.fetches)
  {
  }

  lemma FrameReadsBack(env: Env, s: FetchState, topics: seq<Topic<FetchPart>>, resp: seq<TopicResp>, correlation: int32)
    requires SizesFit(s.stores) && Deliverable(topics) && Handled(env, s, topics, resp)
    ensures ReadBackAs(FetchFrame(correlation, 0, resp), correlation, resp)
  {
    hide SizesFit, Deliverable, Handled, ReadFetchResponse, Payload, Predicted, PutU32;
    forall tail
      ensures var out := FetchFrame(correlation, 0, resp);
              ReadFetchResponse(out + tail) == Got(Response(ToInt32(|out| - 4), correlation, 0, resp), tail)
    {
      HandledFrame(env, s, topics, resp, correlation, tail);
    }
  }

  /** Takes one request off the connection and, when it is a fetch, serves it and writes the response. */
  method ServeFetch(dec: Decoder, h: Handler, env: Env) returns (out: Option<bytes>)
    modifies dec, h
    ensures forall r: Request, u: Unseen, rest: bytes ::
              RequestOk(r, u) && r.body.Fetch? && SizesFit(old(h.stores)) && old(dec.input) == EncRequest(r, u) + rest
              ==> dec.input == rest && out.Some? && Answered(env, old(h.stores), r, out.value)
  {
    hide RequestServed, RequestOk, SizesFit, Handled, EncRequest, ReadRequest, FetchFrame, ReadBackAs;
    ghost var input0, stores0 := dec.input, h.stores;
    var r := dec.ParseRequest();
    if !r.Value? || !r.value.body.Fetch? {
      return None;
    }
    var sent := r.value;
    var resp := h.HandleFetch(env, sent.body.maxBytes, sent.body.fetches);
    var frame := WriteFetchResponse(sent.correlation, 0, resp);
    forall u: Unseen, rest: bytes
      | RequestOk(sent, u) && SizesFit(stores0) && input0 == EncRequest(sent, u) + rest
      ensures Answered(env, stores0, sent, frame)
    {
      BodyOfRequest(sent, u);
      FetchIsDeliverable(sent.body);
      FrameReadsBack(env, FetchState(stores0, sent.body.maxBytes), sent.body.fetches, resp, sent.correlation);
    }
    return Some(frame);
  }

  lemma BodyOfRequest(r: Request, u: Unseen)
    requires RequestOk(r, u)
    ensures BodyOk(r.body)
  {
    hide BodyOk;
  }
}
