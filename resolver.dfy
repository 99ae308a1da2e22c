/** The query pipeline both listeners share: the blocklist first, then the
    response cache, then the upstream resolver.  The collaborators the
    handlers call (the response cache, the upstream client, the response
    writer, the DoH response slot) are small classes whose state records
    exactly what the handlers do to them. */
module Resolver {
  import opened Dns
  import Blocklists

  /** A cache entry: the stored message and the cost it was charged. */
  datatype Entry = Entry(msg: Msg, cost: int)

  /** The response cache, keyed by the query name only. */
  class Cache {
    var entries: map<string, Entry>

    constructor ()
      ensures entries == map[]
    {
      entries := map[];
    }

    /** `cache.Get(key)`: the stored message, if there is one. */
    method Get(key: string) returns (value: Msg, found: bool)
      ensures found <==> key in entries
      ensures found ==> value == entries[key].msg
    {
      found := key in entries;
      value := if found then entries[key].msg else EmptyMsg;
    }

    /** `cache.Set(key, value, cost)`: stores `value` under `key`. */
    method Set(key: string, value: Msg, cost: int)
      modifies this
      ensures entries == old(entries)[key := Entry(value, cost)]
    {
      entries := entries[key := Entry(value, cost)];
    }
  }

  /** What `Exchange` with the upstream resolver comes back with. */
  datatype Outcome = Failure | Answered(reply: Msg)

  /** The upstream resolver at `addr`.  What it answers to a query is fixed
      by `answer`; `sent` records every query forwarded to it. */
  class Upstream {
    const addr: string
    const answer: Msg -> Outcome
    var sent: seq<Msg>

    constructor (addr: string, answer: Msg -> Outcome)
      ensures this.addr == addr && this.answer == answer && sent == []
    {
      this.addr := addr;
      this.answer := answer;
      sent := [];
    }

    /** `new(dns.Client).Exchange(m, addr)`. */
    method Exchange(m: Msg) returns (res: Outcome)
      modifies this
      ensures res == answer(m)
      ensures sent == old(sent) + [m]
    {
      res := answer(m);
      sent := sent + [m];
    }
  }

  /** The `dns.ResponseWriter` of one connection; `written` is every
      message sent back on it. */
  class ResponseWriter {
    var written: seq<Msg>

    constructor ()
      ensures written == []
    {
      written := [];
    }

    method WriteMsg(m: Msg)
      modifies this
      ensures written == old(written) + [m]
    {
      written := written + [m];
    }
  }

  /** The `*dns.Msg` the DoH handler fills in for its caller. */
  class MsgRef {
    var msg: Msg

    constructor (m: Msg)
      ensures msg == m
    {
      msg := m;
    }
  }

  /** Which stage of the pipeline produced the response. */
  datatype Stage = Blocked | CacheHit | UpstreamFailed | Forwarded

  /** One query's effect: the stage that answered, the response and the
      cache contents afterwards. */
  datatype Resolution = Resolution(stage: Stage, response: Msg, cache: map<string, Entry>)

  /** The stages that forward the query upstream. */
  predicate Queried(s: Stage)
  {
    s == UpstreamFailed || s == Forwarded
  }

  /** What `handleDNSRequest` does with request `r`, given the blocked
      names, the cache contents and upstream's answers. */
  function ServeDns(blocked: set<string>, cache: map<string, Entry>, r: Msg, up: Msg -> Outcome): Resolution
    requires |r.question| > 0
  {
    var msg := PreparedReply(r);
    var domain := QueryName(r);
    if domain in blocked then
      Resolution(Blocked, SetRcode(msg, r, RcodeNameError), cache)
    else if domain in cache then
      Resolution(CacheHit, cache[domain].msg, cache)
    else match up(r)
      case Failure => Resolution(UpstreamFailed, SetRcode(msg, r, RcodeServerFailure), cache)
      case Answered(m) => Resolution(Forwarded, m, cache[domain := Entry(m, 1)])
  }

  /** What `handleDoHRequest` leaves in `resp` (which held `resp0`) for
      request `msg`. */
  function ServeDoh(resp0: Msg, blocked: set<string>, cache: map<string, Entry>, msg: Msg, up: Msg -> Outcome): Resolution
    requires |msg.question| > 0
  {
    var domain := QueryName(msg);
    if domain in blocked then
      Resolution(Blocked, SetRcode(resp0, msg, RcodeNameError), cache)
    else if domain in cache then
      Resolution(CacheHit, cache[domain].msg, cache)
    else match up(msg)
      case Failure => Resolution(UpstreamFailed, SetRcode(resp0, msg, RcodeServerFailure), cache)
      case Answered(m) => Resolution(Forwarded, m, cache[domain := Entry(m, 1)])
  }

  /** `handleDNSRequest`, serving the UDP and DNS-over-TLS listeners. */
  method HandleDnsRequest(w: ResponseWriter, r: Msg, upstream: Upstream, cache: Cache, blocklist: Blocklists.Blocklist)
    requires |r.question| > 0
    modifies w, upstream, cache
    ensures var res := ServeDns(blocklist.names, old(cache.entries), r, upstream.answer);
            && w.written == old(w.written) + [res.response]
            && cache.entries == res.cache
            && upstream.sent == old(upstream.sent) + (if Queried(res.stage) then [r] else [])
  {
    var msg := PreparedReply(r);

    var domain := QueryName(r);
    if domain in blocklist.names {
      msg := SetRcode(msg, r, RcodeNameError);
      w.WriteMsg(msg);
      return;
    }

    var cachedResp, found := cache.Get(domain);
    if found {
      w.WriteMsg(cachedResp);
      return;
    }

    var resp := upstream.Exchange(r);
    match resp {
      case Failure =>
        msg := SetRcode(msg, r, RcodeServerFailure);
      case Answered(m) =>
        msg := m;
        cache.Set(domain, msg, 1);
    }
    w.WriteMsg(msg);
  }

  /** `handleDoHRequest`: fills in `resp` for the DoH request `msg`. */
  method HandleDohRequest(resp: MsgRef, msg: Msg, upstream: Upstream, cache: Cache, blocklist: Blocklists.Blocklist)
    requires |msg.question| > 0
    modifies resp, upstream, cache
    ensures var res := ServeDoh(old(resp.msg), blocklist.names, old(cache.entries), msg, upstream.answer);
            && resp.msg == res.response
            && cache.entries == res.cache
            && upstream.sent == old(upstream.sent) + (if Queried(res.stage) then [msg] else [])
  {
    var domain := QueryName(msg);
    if domain in blocklist.names {
      resp.msg := SetRcode(resp.msg, msg, RcodeNameError);
      return;
    }

    var cachedResp, found := cache.Get(domain);
    if found {
      resp.msg := cachedResp;
      return;
    }

    var upstreamResp := upstream.Exchange(msg);
    match upstreamResp {
      case Failure =>
        resp.msg := SetRcode(resp.msg, msg, RcodeServerFailure);
      case Answered(m) =>
        resp.msg := m;
        cache.Set(domain, resp.msg, 1);
    }
  }

  /** The `/dns-query` endpoint once the request is decoded: a fresh reply
      prepared as the UDP handler prepares its own, then `handleDoHRequest`.
      The message it returns is the one the UDP handler would write. */
  method AnswerDoh(msg: Msg, upstream: Upstream, cache: Cache, blocklist: Blocklists.Blocklist) returns (reply: Msg)
    requires |msg.question| > 0
    modifies upstream, cache
    ensures var res := ServeDns(blocklist.names, old(cache.entries), msg, upstream.answer);
            && reply == res.response
            && cache.entries == res.cache
            && upstream.sent == old(upstream.sent) + (if Queried(res.stage) then [msg] else [])
  {
    var resp := new MsgRef(PreparedReply(msg));
    HandleDohRequest(resp, msg, upstream, cache, blocklist);
    HandlersAgree(PreparedReply(msg), blocklist.names, old(cache.entries), msg, upstream.answer);
    reply := resp.msg;
  }

  /** A blocked name is answered NXDOMAIN to the request's id, whatever the
      cache holds; the cache is left alone and nothing goes upstream. */
  lemma BlockedIsNameError(blocked: set<string>, cache: map<string, Entry>, r: Msg, up: Msg -> Outcome)
    requires |r.question| > 0 && QueryName(r) in blocked
    ensures var res := ServeDns(blocked, cache, r, up);
            && res.stage == Blocked && !Queried(res.stage)
            && res.response.rcode == RcodeNameError
            && res.response.id == r.id && res.response.response && res.response.authoritative
            && res.response.question == [r.question[0]] && res.response.answer == []
            && res.cache == cache
  {
  }

  /** The blocklist is consulted before the cache: a blocked name that is
      also cached is still refused, and the cached message is not used. */
  lemma BlockBeforeCache(blocked: set<string>, cache: map<string, Entry>, r: Msg, up: Msg -> Outcome)
    requires |r.question| > 0 && QueryName(r) in blocked && QueryName(r) in cache
    ensures ServeDns(blocked, cache, r, up).stage == Blocked
    ensures ServeDns(blocked, cache, r, up).response.rcode == RcodeNameError
    ensures ServeDns(blocked, cache, r, up).response.id == r.id
  {
  }

  /** A cached name that is not blocked is answered with the stored message
      itself (its own id included), without asking upstream. */
  lemma CacheHitVerbatim(blocked: set<string>, cache: map<string, Entry>, r: Msg, up: Msg -> Outcome)
    requires |r.question| > 0 && QueryName(r) !in blocked && QueryName(r) in cache
    ensures var res := ServeDns(blocked, cache, r, up);
            && res.stage == CacheHit && !Queried(res.stage)
            && res.response == cache[QueryName(r)].msg
            && res.cache == cache
  {
  }

  /** An upstream failure is answered SERVFAIL and nothing is cached. */
  lemma FailureIsServerFailure(blocked: set<string>, cache: map<string, Entry>, r: Msg, up: Msg -> Outcome)
    requires |r.question| > 0 && QueryName(r) !in blocked && QueryName(r) !in cache
    requires up(r) == Failure
    ensures var res := ServeDns(blocked, cache, r, up);
            && res.stage == UpstreamFailed
            && res.response.rcode == RcodeServerFailure
            && res.response.id == r.id && res.response.authoritative
            && res.response.question == [r.question[0]] && res.response.answer == []
            && res.cache == cache
  {
  }

  /** An upstream answer is returned as it came and cached under the query
      name with cost 1; no other name's entry changes. */
  lemma AnswerIsCached(blocked: set<string>, cache: map<string, Entry>, r: Msg, up: Msg -> Outcome, m: Msg)
    requires |r.question| > 0 && QueryName(r) !in blocked && QueryName(r) !in cache
    requires up(r) == Answered(m)
    ensures var res := ServeDns(blocked, cache, r, up);
            && res.stage == Forwarded
            && res.response == m
            && QueryName(r) in res.cache && res.cache[QueryName(r)] == Entry(m, 1)
            && res.cache.Keys == cache.Keys + {QueryName(r)}
            && forall k :: k in cache ==> res.cache[k] == cache[k]
  {
  }

  /** The stage that answers is decided by the blocklist, the cache and the
      upstream outcome, in that order. */
  lemma StageCases(blocked: set<string>, cache: map<string, Entry>, r: Msg, up: Msg -> Outcome)
    requires |r.question| > 0
    ensures var s := ServeDns(blocked, cache, r, up).stage;
            && (s == Blocked <==> QueryName(r) in blocked)
            && (s == CacheHit <==> QueryName(r) !in blocked && QueryName(r) in cache)
            && (s == UpstreamFailed <==> QueryName(r) !in blocked && QueryName(r) !in cache && up(r).Failure?)
            && (s == Forwarded <==> QueryName(r) !in blocked && QueryName(r) !in cache && up(r).Answered?)
  {
  }

  /** The cache never loses an entry and changes only at the query name,
      and only when the answer came from upstream. */
  lemma CacheOnlyGrows(blocked: set<string>, cache: map<string, Entry>, r: Msg, up: Msg -> Outcome)
    requires |r.question| > 0
    ensures var res := ServeDns(blocked, cache, r, up);
            && cache.Keys <= res.cache.Keys
            && (forall k :: k in res.cache && k != QueryName(r) ==> k in cache && res.cache[k] == cache[k])
            && (res.stage != Forwarded ==> res.cache == cache)
  {
  }

  /** The cache key is the query name alone: once an answer for a name is
      cached, a later query for that name with any other type, class or id
      is answered with that same message.  The client accepts only a reply
      whose id matches its query's, so the stored answer carries the first
      query's id, and a later query with another id gets a reply whose id
      does not match its own. */
  lemma CacheKeyIsNameOnly(blocked: set<string>, cache: map<string, Entry>, r: Msg, r2: Msg,
                           up: Msg -> Outcome, up2: Msg -> Outcome, m: Msg)
    requires |r.question| > 0 && |r2.question| > 0
    requires QueryName(r2) == QueryName(r) && QueryName(r) !in blocked && QueryName(r) !in cache
    requires up(r) == Answered(m) && m.id == r.id
    ensures var first := ServeDns(blocked, cache, r, up);
            var second := ServeDns(blocked, first.cache, r2, up2);
            && second.stage == CacheHit
            && second.response == m
            && second.response.id == r.id
            && (r2.id != r.id ==> second.response.id != r2.id)
  {
  }

  /** The two handlers agree: handed the reply the DoH endpoint prepares,
      the DoH handler yields exactly what the UDP handler writes. */
  lemma HandlersAgree(resp0: Msg, blocked: set<string>, cache: map<string, Entry>, msg: Msg, up: Msg -> Outcome)
    requires |msg.question| > 0 && resp0 == PreparedReply(msg)
    ensures ServeDoh(resp0, blocked, cache, msg, up) == ServeDns(blocked, cache, msg, up)
  {
  }

  /** Names are compared exactly: when no blocked name ends in a dot, a query
      for a fully qualified name (which ends in one) is never refused. */
  lemma UndottedNamesNeverBlockFqdn(blocked: set<string>, cache: map<string, Entry>, r: Msg, up: Msg -> Outcome)
    requires |r.question| > 0
    requires |QueryName(r)| > 0 && QueryName(r)[|QueryName(r)| - 1] == '.'
    requires forall d :: d in blocked ==> |d| == 0 || d[|d| - 1] != '.'
    ensures ServeDns(blocked, cache, r, up).stage != Blocked
  {
  }
}
