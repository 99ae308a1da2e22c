# PhantomDNS query pipeline, modelled in Dafny

PhantomDNS is a small filtering DNS server written in Go. Every query goes
through the same three stages, whether it arrives over UDP, DNS-over-TLS or
DNS-over-HTTPS (DoH):

1. If the first question's name is on the blocklist, the answer is NXDOMAIN
   (rcode 3).
2. Otherwise, if the response cache holds a message under that name, that
   message is sent back exactly as stored.
3. Otherwise the query is forwarded to the upstream resolver. A failed
   exchange is answered SERVFAIL (rcode 2). A successful one is answered with
   upstream's message, which is also cached under the name with cost 1.

The cache is keyed by the query name alone. It ignores the query type and
class, keeps no TTL, and keeps the original transaction id. The blocklist is
made by merging hosts-format lists. In each line, surrounding white space is
trimmed. Blank lines and `#` comments are skipped. Otherwise the second
whitespace-separated field becomes a blocked name. Merging adds names and
never removes any.

Blocked names are compared with query names exactly. A hosts-format list
writes its names without a trailing dot (`0.0.0.0 ads.example.com`
contributes `ads.example.com`). Query names taken from the wire are fully
qualified and end in a dot (`ads.example.com.`). So a list whose entries
carry no trailing dot never blocks any query: such a query goes on to the
cache and upstream like any other. `Hosts.BareEntryName` and
`Resolver.UndottedNamesNeverBlockFqdn` state the two halves of this.

The model has four modules:

- `Dns` (`dns.dfy`) holds the abstract message, with only the fields the
  pipeline reads or writes, and the `SetReply`/`SetRcode` header updates.
- `Hosts` (`hosts.dfy`) implements Go's `strings.TrimSpace` and
  `strings.Fields` over Unicode white space. It also has the per-line
  classification and the `FetchBlocklist` scanning loop.
- `Blocklists` (`blocklists.dfy`) holds the shared blocklist as a class and
  the merge loops of `updateBlocklists` and of start-up.
- `Resolver` (`resolver.dfy`) holds the collaborators as small classes: the
  response cache, the upstream client, the response writer and the DoH
  response slot. It also has the two handlers as imperative methods, the two
  functions that specify them, and the lemmas about the pipeline.

Each handler method is proved against its specification function: what is
written (or left in the DoH response), the new cache contents, and whether
upstream was asked. The lemmas then prove the properties of the pipeline
from those functions.

## Model

| member | source | states |
|---|---|---|
| `Dns.SetReply` | main.go:89-90 | the reply takes the request's id and first question, has the response flag and rcode 0; other fields are kept |
| `Dns.SetRcode` | main.go:97 | the reply to the request carries the given rcode, the request's id and first question, and keeps the answers and the authoritative flag |
| `Dns.PreparedReply` | main.go:89-91 | the prepared reply is an authoritative, empty, success response with the request's id and first question |
| `Hosts.FieldsAreWords` | main.go:75 | every field `strings.Fields` returns is non-empty and contains no white space |
| `Hosts.TrimSpaceSlice` | main.go:71 | the trimmed line is a slice of the raw line with only white space cut off at either end, and neither starts nor ends with white space |
| `Hosts.FieldsOfTrimSpace` | main.go:71-75 | splitting the trimmed line gives the same fields as splitting the raw line |
| `Hosts.BlankLineAddsNothing` | main.go:71-73 | a line of white space only contributes no name |
| `Hosts.CommentLineAddsNothing` | main.go:71-73 | a line whose first non-space character is `#` contributes no name, whatever follows |
| `Hosts.AddsSecondField` | main.go:75-77 | a line with two or more fields, not a comment, contributes exactly its second field |
| `Hosts.SingleFieldAddsNothing` | main.go:75-77 | a line with a single field contributes no name |
| `Hosts.NamesMember` | main.go:70-79 | a name is collected exactly when some line's result is that name |
| `Hosts.BlockedNamesMember` | main.go:60-86 | a name is in a fetched blocklist exactly when some line of the body contributes it |
| `Hosts.FetchBlocklist` | main.go:60-86 | the scanning loop returns the set of names the lines contribute |
| `Blocklists.UnionMember` | main.go:165-169 | a name is in the union exactly when it is in one of the parts |
| `Blocklists.MergedNamesMember` | main.go:165-169 | a name is merged exactly when some source's list contains it |
| `Blocklists.Blocklist.constructor` | main.go:352 | a new blocklist is empty |
| `Blocklists.Blocklist.InsertAll` | main.go:166-168 | the blocklist becomes its old names together with every fetched name |
| `Blocklists.UpdateBlocklists` | main.go:163-171 | the blocklist becomes its old names together with every source's names; nothing is removed |
| `Blocklists.LoadBlocklists` | main.go:352-357 | the start-up blocklist is exactly the union of the sources' names |
| `Blocklists.MergeResult` | main.go:163-171 | after a merge a name is blocked exactly when it was before or some line of some source contributes it |
| `Resolver.Cache.Get` | main.go:103 | a lookup finds an entry exactly when the name is a key, and then returns the stored message |
| `Resolver.Cache.Set` | main.go:117 | the entry for the name becomes the message with the given cost; other entries are untouched |
| `Resolver.Upstream.Exchange` | main.go:110-111 | the outcome is upstream's answer to that query, and the query is recorded as sent |
| `Resolver.ResponseWriter.WriteMsg` | main.go:120 | the message is appended to what the connection has sent |
| `Resolver.HandleDnsRequest` | main.go:88-121 | writes exactly one message, the specified response; the cache becomes the specified cache; upstream is asked once for the forwarded stages and never otherwise |
| `Resolver.HandleDohRequest` | main.go:123-149 | leaves the specified response in the response slot, updates the cache as specified, and asks upstream only for the forwarded stages |
| `Resolver.AnswerDoh` | main.go:308-313 | a DoH query prepared as the endpoint does gets the same response, cache update and upstream traffic as the UDP handler |
| `Resolver.BlockedIsNameError` | main.go:94-100 | a blocked name gets NXDOMAIN with the request's id, the authoritative flag and the first question; the cache is unchanged and upstream not asked |
| `Resolver.BlockBeforeCache` | main.go:95-107 | a name both blocked and cached is still refused with NXDOMAIN |
| `Resolver.CacheHitVerbatim` | main.go:103-107 | a cached, unblocked name is answered with the stored message itself; the cache is unchanged and upstream not asked |
| `Resolver.FailureIsServerFailure` | main.go:111-114 | a failed exchange gives SERVFAIL with the request's id and first question, and nothing is cached |
| `Resolver.AnswerIsCached` | main.go:115-118 | a successful exchange is answered with upstream's message, which is stored under the name with cost 1; no other entry changes |
| `Resolver.StageCases` | main.go:94-118 | each stage happens exactly under its condition: blocklist first, then cache, then the upstream outcome |
| `Resolver.CacheOnlyGrows` | main.go:103-118 | the handler removes no entry; only the query name's entry can change, and only when the answer came from upstream |
| `Resolver.CacheKeyIsNameOnly` | main.go:94-117 | after a forwarded answer whose id matches the first query's, a query for the same name with any type, class or id is a hit that returns that answer; its id is the first query's, so it differs from the later query's own id |
| `Resolver.HandlersAgree` | main.go:123-149 | given the reply the DoH endpoint prepares, the DoH handler's outcome equals the UDP handler's |
| `Hosts.HostsEntryName` | main.go:71-77 | a line made of an address and a name separated by a space contributes the name exactly as written |
| `Hosts.BareEntryName` | main.go:75-77 | the line `0.0.0.0 ads.example.com` contributes `ads.example.com`, with no trailing dot |
| `Resolver.UndottedNamesNeverBlockFqdn` | main.go:94-95 | names are compared exactly, so a query for a fully qualified name is never refused when no blocked name ends in a dot |

## Left out

- Reading `config.yaml` (`LoadConfig`) is not modelled. The upstream address, the listen port, the blocklist URLs and the cache size become parameters or are dropped.
- The HTTP fetch of each blocklist is not modelled. A source is given as the lines of its body, and a failed fetch is a source with no lines. Scanner errors and the scanner's 64 KiB line limit are not modelled.
- The Go runtime's treatment of invalid UTF-8 is not modelled. Lines are sequences of decoded characters.
- `dns.Client.Exchange` is modelled by the fixed function `Upstream.answer`, which returns a failure or an answer message. Timeouts, truncation and the round-trip time are not modelled.
- Resolver.CacheKeyIsNameOnly: the client accepts only an answer that carries the query's id, but this rule is not built into `Upstream.answer`. The lemma takes it as a hypothesis instead.
- Resolver.Cache.Set: the ristretto cache is modelled as a plain map that always stores the entry at once. The real library may delay an admission, drop it, or evict entries when `MaxCost` is reached. The model therefore claims nothing about entries being evicted or dropped. The properties about a later hit hold only when the library keeps the entry.
- Wire encoding is not modelled: `Pack`, `Unpack`, message compression and the opcode, RD and CD header bits that `SetReply` also copies.
- The DoH HTTP layer is not modelled: method checks, the base64url `dns` parameter of section 4.1 of RFC 8484, HTTP error statuses and the content type.
- Resolver.HandleDohRequest: the Go code stores the pointer to the response in the cache. The model stores the message by value. Nothing modifies that message after the handler returns, so the two agree, but aliasing itself is not modelled.
- TLS certificate generation, the UDP, DoT and DoH listeners, the web UI, `showStatus`, `restartServer`, the command-line flags and the goroutines are not modelled.
- Concurrency is left out. The per-query handler goroutines of the UDP, DoT and DoH listeners run concurrently with one another and with the web UI. They share the ristretto cache and only read the blocklist map. The model treats each handler call as atomic. `updateBlocklists` runs only under the `-u` flag, before any listener starts, and the process exits right after it. So a running server's blocklist is never updated, and no update races a handler.
- Logging is left out.
- A query with no question is not modelled. The Go handlers index the first question without checking, so the handlers require at least one question.
