# slack-moderator-words: the webhook handler's decisions

This project models the decision logic of the word moderator's webhook
handler (`handler.ServeHTTP` in `slack-moderator-words/events.go`). A
delivery from the chat platform, already decoded, takes one of three paths:

- an envelope of type `url_verification` is answered with its challenge
  token, echoed verbatim;
- otherwise a nested event of type `channel_created` makes the bot join the
  new channel with one `conversations.join` call;
- anything else is acknowledged with an empty 200 reply and moderated. Bot
  messages (non-empty `BotID`) and a nil filter configuration do nothing.
  Otherwise, for every filter in order and every trigger of that filter in
  order, a trigger that occurs in the text sets the `matched` flag and sends
  the filter's `Message` to the event's channel and user through the API
  method named by the filter's `Action`, with `thread_ts` added only when
  the event has one.

Modules:

- `Model` (`model.dfy`): the decoded payload (`SlackEvent`, `Event`), the
  channel record and the filter configuration. The Go `model` package is not
  part of this model; these records are inferred from how the handler uses
  them. `Event.Channel` is sent as-is as a call parameter on the message path
  and re-decoded into a channel record on the `channel_created` path, so it
  is an untyped JSON value here (`Json`: null, a string, or an object with an
  id and a name).
- `Strings` (`strings.dfy`): substring containment (`strings.Contains`).
- `SlackClient` (`client.dfy`): `CallMethod` records an outbound call. The
  API's answers are an input, `api`, where `api(k)` holds when the k-th call
  of a delivery is answered with an error; any pattern of answers is allowed.
- `Moderation` (`moderation.dfy`): the nested loop as a method (`Moderate`),
  the function it is proved against (`ModerationCalls`, built filter by
  filter and trigger by trigger), and an independent description of the
  result as the list of matching (filter, trigger) index pairs (`Matches`)
  with the lemmas that tie the two together.
- `Events` (`events.dfy`): the routing, in `Handle`: the whole
  decision from the signature verdict and the decoded payload to the reply,
  the calls sent and the flags.

A few consequences of the code are worth stating outright: the handler
moderates every nested event type other than `channel_created` (it never
checks for `message`); it recognises a bot message only by a non-empty
`BotID`; an empty trigger is accepted and occurs in every text; and a decode
or join failure on the `channel_created` path ends the process (`Fatal`)
rather than returning an error reply.

## Model

| member | source | states |
|---|---|---|
| `Strings.Contains` | slack-moderator-words/events.go:120 | The empty trigger occurs in every text; a trigger longer than the text never does. |
| `Strings.ContainsIsSubstring` | slack-moderator-words/events.go:120 | Containment holds exactly when the trigger occurs at some position of the text. |
| `SlackClient.CallMethod` | slack-moderator-words/events.go:90 | Every call attempt is recorded once, with its method name and parameters, whatever the API answers; the error it reports is the API's answer to that call. |
| `Moderation.Params` | slack-moderator-words/events.go:125-133 | The parameters are exactly `channel` and `user` copied from the event and `text` set to the filter's message, plus `thread_ts` if and only if the event's thread timestamp is non-empty, holding that timestamp. |
| `Moderation.TriggerMatchesExact` | slack-moderator-words/events.go:119-120 | Within one filter, the hits are exactly the triggers that occur in the text, in trigger order. |
| `Moderation.MatchesExact` | slack-moderator-words/events.go:118-120 | Over the filter list, the hits are exactly the (filter, trigger) pairs whose trigger occurs in the text. |
| `Moderation.MatchesOrdered` | slack-moderator-words/events.go:118-119 | Hits are listed in filter order, then trigger order, each pair once. |
| `Moderation.TriggerCallsFollowMatches` | slack-moderator-words/events.go:119-135 | One filter sends one call per hit of its triggers, each the filter's action call. |
| `Moderation.CallsFollowMatches` | slack-moderator-words/events.go:118-135 | The k-th call sent is the action call of the filter of the k-th hit; there are as many calls as hits. |
| `Moderation.CallsAreHits` | slack-moderator-words/events.go:118-135 | The calls are exactly one per matching (filter, trigger) pair, in filter order then trigger order, each with the filter's action and parameters; no deduplication. |
| `Moderation.AnyCallIffAnyHit` | slack-moderator-words/events.go:116-122 | Some call is sent if and only if some trigger of some filter occurs in the text. |
| `Moderation.EmptyTriggerAlwaysFires` | slack-moderator-words/events.go:119-120 | A filter with an empty trigger sends its action call for every text. |
| `Moderation.TwoHitsTwoCalls` | slack-moderator-words/events.go:118-135 | A filter two of whose triggers occur sends two calls, each the filter's action call, at the positions of those two hits, the earlier trigger's call first. |
| `Moderation.Moderate` | slack-moderator-words/events.go:108-147 | A bot message or a nil configuration sends nothing and leaves `matched` false; otherwise the calls sent are the specification's calls, whatever the API answers (so a failure does not stop the loop, and two runs send the same calls); `matched` is true exactly when a call was sent; an error is reported exactly when the API answered some sent call with an error. |
| `Events.DecodeChannel` | slack-moderator-words/events.go:76-84 | An object yields its id and name, `null` an empty channel record, and a string cannot be decoded. |
| `Events.Handle` | slack-moderator-words/events.go:46-147 | A failed signature check gives a 500 and no calls; `url_verification` echoes the challenge with no calls; `channel_created` sends exactly one `conversations.join` for the channel's id and no moderation, and ends the process exactly when the API answers that join with an error, or ends it without a call if the channel cannot be decoded; every other event is acknowledged with 200 and moderated as `Moderate` states, reporting an error exactly when the API answered some sent call with an error. |

## Left out

- Reading and closing the request body (events.go:39-44) is HTTP I/O; a read failure is not modelled.
- The signature check (events.go:46) is an external library call; only its verdict is an input of `Handle`.
- JSON decoding of the payload and its `panic` on malformed input (events.go:52-56): the decoded `SlackEvent` is the input.
- JSON encoding of the challenge reply (events.go:62-65): the reply carries the token itself; the wire form `{"challenge": ...}` and its escaping are not modelled.
- The `panic` after re-encoding the channel value (events.go:76-79) cannot happen for a value decoded from JSON, so it is not modelled.
- `Events.DecodeChannel`: only null, strings and objects with string `id`/`name` members are represented; numbers, booleans and arrays fail to decode like strings, and an object whose `id` or `name` is not a string is not represented.
- `Events.DecodeChannel`: a channel object keeps only its `id` and `name` members, so on the message path, where the `channel` value is forwarded whole as a call parameter (events.go:126), an object with further members is not represented.
- `Strings.Contains`: compares characters, while Go compares UTF-8 bytes; the two agree on valid UTF-8 text and triggers, and invalid UTF-8 is not represented.
- Log lines (events.go:86, 123, 145, 152) and response headers are side effects on the logger and response writer; `logError` is only "an error was reported" (`errorReported`), including its late `http.Error` after the 200 on the moderation path.
- The real network behaviour of `CallMethod` and concurrency between deliveries are not modelled; the API's answers are an arbitrary input (`api`), one success or error per call.
