/** `fetchPage`: up to three GET requests for one URL, all carrying the same
    user agent, returning the body of the first one that succeeds. The HTTP
    transport, its timeout and the rate limiter are abstracted into the given
    list of attempt outcomes. */
module Fetch {
  import opened Wrappers

  /** `maxRetries`: the number of attempts per call. */
  const MaxRetries: nat := 3

  /** `userAgentList`, the pool the user agent is drawn from. */
  const UserAgentList: seq<string> := [
    "Mozilla/5.0 (Windows NT 10.0; Win64; x64) AppleWebKit/537.36 (KHTML, like Gecko) Chrome/58.0.3029.110 Safari/537.3",
    "Mozilla/5.0 (Windows NT 10.0; Win64; x64; rv:55.0) Gecko/20100101 Firefox/55.0"
  ]

  /** A value of `Math.random()`. */
  type Roll = r: real | 0.0 <= r < 1.0

  /** One GET request as issued: its URL and its `User-Agent` header. */
  datatype Request = Request(url: string, userAgent: string)

  /** What one `fetchPage` call did: the requests it issued, in order, and the
      body it returned (None when it threw). */
  datatype Fetched<B> = Fetched(requests: seq<Request>, body: Option<B>)

  /** `getRandomUserAgent`: the entry at `floor(roll * length)`. */
  function GetRandomUserAgent(roll: Roll): (agent: string)
    ensures agent in UserAgentList
    ensures agent == UserAgentList[0] <==> roll < 0.5
  {
    UserAgentList[(roll * (|UserAgentList| as real)).Floor]
  }

  /** The outcome of attempt `i` (counting from 0); attempts beyond the list fail. */
  function Attempt<B>(outcomes: seq<Option<B>>, i: nat): Option<B> {
    if i < |outcomes| then outcomes[i] else None
  }

  /** The retry loop from attempt number `attempt` (counting from 1) on. */
  function FetchFrom<B>(url: string, agent: string, outcomes: seq<Option<B>>, attempt: nat): (f: Fetched<B>)
    requires 1 <= attempt <= MaxRetries
    ensures 1 <= |f.requests| <= MaxRetries - attempt + 1
    ensures forall i :: 0 <= i < |f.requests| ==> f.requests[i] == Request(url, agent)
    ensures forall i: nat :: attempt - 1 <= i < attempt + |f.requests| - 2 ==> Attempt(outcomes, i).None?
    ensures f.body == Attempt(outcomes, attempt + |f.requests| - 2)
    ensures f.body.None? ==> |f.requests| == MaxRetries - attempt + 1
    decreases MaxRetries - attempt
  {
    var sent := [Request(url, agent)];
    match Attempt(outcomes, attempt - 1)
    case Some(body) => Fetched(sent, Some(body))
    case None =>
      if attempt < MaxRetries then
        var rest := FetchFrom(url, agent, outcomes, attempt + 1);
        Fetched(sent + rest.requests, rest.body)
      else
        Fetched(sent, None)
  }

  /** `fetchPage(url)` with the user agent drawn once, before the loop: at most
      three requests, all with that agent; the body of the last request made,
      every earlier one having failed; failure exactly when all three fail. */
  function FetchPage<B>(url: string, agent: string, outcomes: seq<Option<B>>): (f: Fetched<B>)
    ensures 1 <= |f.requests| <= MaxRetries
    ensures forall i :: 0 <= i < |f.requests| ==> f.requests[i] == Request(url, agent)
    ensures forall i: nat :: i < |f.requests| - 1 ==> Attempt(outcomes, i).None?
    ensures f.body == Attempt(outcomes, |f.requests| - 1)
    ensures f.body.None? <==> forall i: nat :: i < MaxRetries ==> Attempt(outcomes, i).None?
    ensures f.body.None? ==> |f.requests| == MaxRetries
  {
    FetchFrom(url, agent, outcomes, 1)
  }

  /** The first successful attempt within the first three decides the call:
      its body is returned after exactly `k + 1` requests. */
  lemma FetchPageFirstSuccess<B>(url: string, agent: string, outcomes: seq<Option<B>>, k: nat)
    requires k < MaxRetries
    requires Attempt(outcomes, k).Some?
    requires forall i: nat :: i < k ==> Attempt(outcomes, i).None?
    ensures FetchPage(url, agent, outcomes).body == Attempt(outcomes, k)
    ensures |FetchPage(url, agent, outcomes).requests| == k + 1
  {
  }

  /** Outcomes after the third attempt are never looked at. */
  lemma FetchPageIgnoresLaterAttempts<B>(url: string, agent: string, outcomes: seq<Option<B>>, later: seq<Option<B>>)
    requires |outcomes| == MaxRetries
    ensures FetchPage(url, agent, outcomes + later) == FetchPage(url, agent, outcomes)
  {
    assert forall i: nat :: i < MaxRetries ==> Attempt(outcomes + later, i) == Attempt(outcomes, i);
  }
}
